/**
The small MIR the analyzer works on: places, operands, rvalues, statements, terminators and bodies.

Path-string recognisers are replaced by the flags of a `Callee`; rustc types by the enumeration `Ty`.
*/
module Mir {

  datatype Option<+T> = None | Some(value: T)

  /** `u32` indices: MIR locals, abstract objects, field numbers. */
  type Word32 = n: nat | n < 0x1_0000_0000
  type Local = Word32
  type ObjectId = Word32
  type U64 = n: nat | n < 0x1_0000_0000_0000_0000
  type Block = nat

  const U64_MAX: U64 := 0xFFFF_FFFF_FFFF_FFFF
  const ISIZE_MAX: U64 := 0x7FFF_FFFF_FFFF_FFFF

  datatype Width = W8 | W16 | W32 | W64

  function MaxOf(w: Width): U64 {
    match w
    case W8 => 0xFF
    case W16 => 0xFFFF
    case W32 => 0xFFFF_FFFF
    case W64 => U64_MAX
  }

  function BitsOf(w: Width): nat {
    match w
    case W8 => 8
    case W16 => 16
    case W32 => 32
    case W64 => 64
  }

  /** `Checked(w)` is the `(uN, bool)` tuple of the `*WithOverflow` operators; `Layout` is `core::alloc::Layout`. */
  datatype Ty =
    | Bool | Char | Uint(width: Width) | NonZero(width: Width) | Checked(width: Width) | Layout
    | Ref(mutable: bool) | RawPtr(mutable: bool) | Signed | Float | Struct

  /** Largest value of an unsigned scalar type (`uint_type_max`). */
  function UintTypeMax(ty: Ty): Option<U64> {
    match ty
    case Bool => Some(1)
    case Char => Some(0x10_FFFF)
    case Uint(w) => Some(MaxOf(w))
    case _ => None
  }

  datatype Proj = Deref | Field(idx: Word32) | Index

  datatype Place = Place(local: Local, proj: seq<Proj>)

  datatype Operand = Copy(place: Place) | Move(place: Place) | Const(bits: nat)

  datatype Rel = Lt | Le | Gt | Ge

  datatype BinOp =
    | Order(rel: Rel) | Eq | Ne | BitOr | BitAnd | Rem | Shr | Mul | Add
    | MulWithOverflow | AddWithOverflow | Sub | Offset | OtherOp

  datatype Rvalue =
    | Use(op: Operand)
    | BorrowOf(place: Place)             // `&place` and `&mut place`
    | AddrOf(place: Place)               // `&raw const place` and `&raw mut place`
    | Aggregate(ops: seq<Operand>)
    | PtrCast(op: Operand)               // PtrToPtr and Transmute
    | IntCast(op: Operand, ty: Ty)       // IntToInt
    | PtrMetadata(op: Operand)
    | Binary(bop: BinOp, op1: Operand, op2: Operand)
    | Opaque(ops: seq<Operand>)          // any other rvalue, with its operands

  datatype Statement = Assign(dst: Place, rv: Rvalue) | Nop

  /** What an unsummarised callee is known to do with its pointers. */
  datatype Touch =
    | Anything                           // may keep, free or store them
    | WritesFirst                        // ptr::write and friends: stores its other arguments through the first
    | CopiesToSecond                     // ptr::copy: memory to memory
    | OnlyReads                          // is_null, addr, ...

  /** Which arm of the call handler a resolved path selects. */
  datatype Role =
    | RawRealloc | IntoRaw | FromRaw | MemForget
    | Acquire                            // epoch pin and lock acquisition
    | PtrRead                            // ptr::read, MaybeUninit::new / zeroed / assume_init
    | MuAccess                           // MaybeUninit::write / as_mut_ptr
    | BufWrite
    | Plain(touch: Touch)                // summarised or unknown

  datatype View = NoView | LenView | CapacityView | DerefView

  datatype Callee = Callee(
    def: nat,
    role: Role,
    growsBuffer: bool,                   // is_reallocating_method
    view: View,
    accessor: bool,                      // is_owned_buffer_accessor
    layoutUnchecked: bool,               // Layout::from_size_align_unchecked
    alignUnchecked: bool,                // Alignment::new_unchecked
    allocates: bool,                     // alloc / alloc_zeroed / realloc / allocate / grow / shrink
    nonNull: bool,                       // as_ptr and friends, dangling
    comparison: Option<bool>,            // path ends in ::eq (true) or ::ne (false)
    honest: bool,                        // returns that comparison of its arguments; the analysis does not look at this
    retains: bool)                       // may keep or return a handle to a collection it is given; not looked at either

  datatype Terminator =
    | Goto(target: Block)
    | SwitchInt(discr: Operand, targets: seq<(nat, Block)>, otherwise: Block)
    | Return
    | Call(callee: Option<Callee>, args: seq<Operand>, dest: Place, next: Option<Block>, unwind: Option<Block>)
    | Drop(place: Place, target: Block, unwind: Option<Block>)
    | Assert(cond: Operand, expected: bool, target: Block, unwind: Option<Block>)
    | Stop                               // Unreachable, UnwindResume, UnwindTerminate, CoroutineDrop, TailCall
    | Split(succs: seq<Block>)           // FalseEdge, FalseUnwind
    | Leave(ins: seq<Operand>, outs: seq<Place>, succs: seq<Block>)  // InlineAsm, Yield: outside code takes `ins`, writes `outs`

  datatype BasicBlock = BasicBlock(stmts: seq<Statement>, term: Terminator)

  datatype Body = Body(argCount: nat, tys: seq<Ty>, blocks: seq<BasicBlock>)

  function TyOf(body: Body, l: Local): Ty {
    if l < |body.tys| then body.tys[l] else Struct
  }

  function OptList(o: Option<Block>): seq<Block> {
    if o.Some? then [o.value] else []
  }

  /** `block_successors`. */
  function Successors(t: Terminator): seq<Block> {
    match t
    case Goto(b) => [b]
    case SwitchInt(_, targets, otherwise) => seq(|targets|, i requires 0 <= i < |targets| => targets[i].1) + [otherwise]
    case Return => []
    case Call(_, _, _, next, unwind) => OptList(next) + OptList(unwind)
    case Drop(_, b, unwind) => [b] + OptList(unwind)
    case Assert(_, _, b, unwind) => [b] + OptList(unwind)
    case Stop => []
    case Split(succs) => succs
    case Leave(_, _, succs) => succs
  }

  /** Every body has an entry block and its edges stay inside it. */
  predicate WellFormed(body: Body) {
    && 0 < |body.blocks|
    && forall b, i ::
         0 <= b < |body.blocks| && 0 <= i < |Successors(body.blocks[b].term)| ==>
           Successors(body.blocks[b].term)[i] < |body.blocks|
  }

  /** `operand_local`: the local of a projection-free place operand. */
  function OperandLocal(op: Operand): Option<Local> {
    match op
    case Const(_) => None
    case Copy(p) => if p.proj == [] then Some(p.local) else None
    case Move(p) => if p.proj == [] then Some(p.local) else None
  }

  /** `const_u64`. */
  function ConstU64(op: Operand): Option<U64> {
    if op.Const? && op.bits <= U64_MAX then Some(op.bits) else None
  }

  /** `rvalue_local`. */
  function RvalueLocal(rv: Rvalue): Option<Local> {
    if rv.Use? then OperandLocal(rv.op) else None
  }

  function FirstArgLocal(args: seq<Operand>): Option<Local> {
    NthArgLocal(args, 0)
  }

  function NthArgLocal(args: seq<Operand>, n: nat): Option<Local> {
    if n < |args| then OperandLocal(args[n]) else None
  }

  /** `first_arg_base_local`: the base of the first argument, projected or not. */
  function FirstArgBase(args: seq<Operand>): Option<Local> {
    if 0 < |args| && !args[0].Const? then Some(args[0].place.local) else None
  }

  function LastField(proj: seq<Proj>): Option<Word32> {
    if proj == [] then None
    else if proj[|proj| - 1].Field? then Some(proj[|proj| - 1].idx)
    else LastField(proj[..|proj| - 1])
  }

  /** No dereference after the first projection element. */
  predicate AtMostLeadingDeref(proj: seq<Proj>) {
    forall i :: 0 < i < |proj| ==> proj[i] != Deref
  }

  /** `last_simple_field_idx`. */
  function SimpleField(proj: seq<Proj>): Option<Word32> {
    if AtMostLeadingDeref(proj) then LastField(proj) else None
  }

  predicate IsParam(body: Body, l: Local) {
    1 <= l <= body.argCount
  }

  predicate IsReferenceParam(body: Body, l: Local) {
    IsParam(body, l) && TyOf(body, l).Ref?
  }
}
