/** The ownership slice of the transfer: heap objects, pointers to them, interior aliases, protocol guards. */
module OwnTransfer {
  import opened Mir
  import opened Lattice
  import opened State

  const REALLOC_BASE: Word32 := 0x4000_0000
  const SUMMARY_BASE: Word32 := 0x8000_0000

  /** What a function does to one raw-pointer parameter (`ParamHeapEffect`, untouched parameters are not listed). */
  datatype Effect = Reconstitutes | Escapes

  datatype FnSummary = FnSummary(
    effects: seq<(nat, Effect)>,
    returnsRawOwned: bool,
    aliasOf: Option<nat>,
    ptrOf: Option<nat>,
    reallocs: Option<nat>)

  type SummaryMap = map<nat, FnSummary>

  /** The abstract object of an allocation at the end of block `bb`. */
  function Site(bb: Block): ObjectId { bb % 0x1_0000_0000 }

  /** The object a pointer `p` left dangling by a buffer reallocation is redirected to. */
  function StaleId(p: Local): ObjectId { (REALLOC_BASE + p) % 0x1_0000_0000 }

  // ----- elementary updates -----

  function SetPts(s: Ownership, d: Local, objs: set<ObjectId>): Ownership {
    s.(pointsTo := if objs != {} then s.pointsTo[d := objs] else s.pointsTo - {d})
  }

  function AddPts(s: Ownership, d: Local, objs: set<ObjectId>): Ownership {
    s.(pointsTo := if objs != {} then s.pointsTo[d := objs] else s.pointsTo)
  }

  function CopyPts(s: Ownership, d: Local, src: Local): Ownership {
    s.(pointsTo := if src in s.pointsTo then s.pointsTo[d := s.pointsTo[src]] else s.pointsTo - {d})
  }

  function Untrack(s: Ownership, d: Local): Ownership {
    s.(pointsTo := s.pointsTo - {d})
  }

  function DropProto(s: Ownership, d: Local): Ownership {
    s.(localProto := s.localProto - {d})
  }

  function Forget(s: Ownership, d: Local): Ownership {
    s.(pointsTo := s.pointsTo - {d}, localProto := s.localProto - {d})
  }

  function DropAlias(s: Ownership, d: Local): Ownership {
    s.(ownerAlias := s.ownerAlias - {d})
  }

  function SetAlias(s: Ownership, d: Local, owners: set<Local>): Ownership {
    s.(ownerAlias := if owners != {} then s.ownerAlias[d := owners] else s.ownerAlias - {d})
  }

  /** Take ownership back: raw-owned objects become reconstituted, others keep their state. */
  function Reconstitute(heap: map<ObjectId, HeapState>, objs: set<ObjectId>): map<ObjectId, HeapState> {
    map id | id in heap :: if id in objs && heap[id] == RawOwned then Reconstituted else heap[id]
  }

  function SetAll<V>(m: map<Word32, V>, keys: set<Word32>, v: V): map<Word32, V> {
    map k | k in m.Keys + keys :: if k in keys then v else m[k]
  }

  predicate IsFreed(heap: map<ObjectId, HeapState>, id: ObjectId) {
    id in heap && (heap[id] == Reconstituted || heap[id] == MaybeFreed)
  }

  /** `escape_local`: provenance is lost, but a freed object stays freed. */
  function EscapeLocal(s: Ownership, l: Local): Ownership {
    var objs := set id | id in Get(s.pointsTo, l) && !IsFreed(s.heap, id);
    s.(heap := SetAll(s.heap, objs, Escaped), pointsTo := s.pointsTo - {l},
       localProto := s.localProto - {l}, ownerAlias := s.ownerAlias - {l})
  }

  /** Aliases to any of `os` are broken; an alias set left empty disappears. */
  function InvalidateOwners(s: Ownership, os: set<Local>): Ownership {
    if os == {} then s
    else s.(ownerAlias := (map l | l in s.ownerAlias && s.ownerAlias[l] - os != {} :: s.ownerAlias[l] - os))
  }

  function ClearFields(s: Ownership, base: Local): Ownership {
    s.(fieldOwned := (map k | k in s.fieldOwned && k.0 != base :: s.fieldOwned[k]))
  }

  // ----- assignment -----

  predicate IsNumeric(ty: Ty) { ty.Signed? || ty.Uint? || ty.Float? || ty.Bool? || ty.Char? }

  function RvaluePlace(rv: Rvalue): Option<Place> {
    match rv
    case Use(op) => if op.Const? then None else Some(op.place)
    case BorrowOf(p) => Some(p)
    case AddrOf(p) => Some(p)
    case PtrCast(op) => if op.Const? then None else Some(op.place)
    case IntCast(op, _) => if op.Const? then None else Some(op.place)
    case _ => None
  }

  function GatherAliases(s: Ownership, ops: seq<Operand>): set<Local> {
    set i, o | 0 <= i < |ops| && OperandLocal(ops[i]).Some? && o in Get(s.ownerAlias, OperandLocal(ops[i]).value) :: o
  }

  function GatherObjects(s: Ownership, ops: seq<Operand>): set<ObjectId> {
    set i, o | 0 <= i < |ops| && OperandLocal(ops[i]).Some? && o in Get(s.pointsTo, OperandLocal(ops[i]).value) :: o
  }

  /** The owners whose interior the assigned value points into (`update_owner_alias`). */
  function RvalueOwners(body: Body, s: Ownership, d: Local, rv: Rvalue): set<Local> {
    if rv.Aggregate? then GatherAliases(s, rv.ops)
    else
      var place := RvaluePlace(rv);
      if place.None? || IsNumeric(TyOf(body, d)) then {}
      else
        var root := place.value.local;
        if root in s.ownerAlias then s.ownerAlias[root]
        else if Deref in place.value.proj && IsReferenceParam(body, root) then {root}
        else if (exists i :: 0 <= i < |place.value.proj| && place.value.proj[i].Field?) && IsParam(body, root) then {root}
        else {}
  }

  /** A field read restores the objects of the aggregate, or else those stored into that field. */
  function FieldSource(s: Ownership, place: Place): Option<set<ObjectId>> {
    if place.local in s.pointsTo then Some(s.pointsTo[place.local])
    else if SimpleField(place.proj).Some? && (place.local, SimpleField(place.proj).value) in s.fieldOwned
    then Some(s.fieldOwned[(place.local, SimpleField(place.proj).value)])
    else None
  }

  function FieldRead(s: Ownership, d: Local, place: Place): Ownership {
    var objs := FieldSource(s, place);
    s.(pointsTo := if objs.Some? then s.pointsTo[d := objs.value] else s.pointsTo - {d})
  }

  predicate Tracked(s: Ownership, op: Operand) {
    OperandLocal(op).Some? && OperandLocal(op).value in s.pointsTo
  }

  function BinaryPts(s: Ownership, d: Local, bop: BinOp, a: Operand, b: Operand): Ownership {
    if bop == Offset || bop == Add || bop == Sub then
      if Tracked(s, a) then CopyPts(s, d, OperandLocal(a).value)
      else if Tracked(s, b) then CopyPts(s, d, OperandLocal(b).value)
      else Untrack(s, d)
    else Untrack(s, d)
  }

  function MoveLocal(s: Ownership, d: Local, src: Local): Ownership {
    var protos := Get(s.localProto, src);
    var s1 := SetPts(s.(pointsTo := s.pointsTo - {src}), d, Get(s.pointsTo, src));
    s1.(localProto := if protos != {} then (s.localProto - {src})[d := protos] else s.localProto - {src, d})
  }

  function CopyLocal(s: Ownership, d: Local, src: Local): Ownership {
    var s1 := CopyPts(s, d, src);
    s1.(localProto := if src in s.localProto then s.localProto[d := s.localProto[src]] else s.localProto - {d})
  }

  /** The tracking part of `dst = rvalue` for a projection-free destination. */
  function Track(s: Ownership, d: Local, rv: Rvalue): Ownership {
    match rv
    case Use(Const(_)) => Forget(s, d)
    case Use(Move(p)) =>
      if p.proj == [] then MoveLocal(s, d, p.local)
      else if AtMostLeadingDeref(p.proj) then DropProto(FieldRead(s, d, p), d)
      else Forget(Forget(s, d), p.local)
    case Use(Copy(p)) =>
      if p.proj == [] then CopyLocal(s, d, p.local)
      else if AtMostLeadingDeref(p.proj) then DropProto(FieldRead(s, d, p), d)
      else Forget(s, d)
    case BorrowOf(p) => if p.proj == [] then DropProto(SetPts(s, d, Get(s.pointsTo, p.local)), d) else Forget(s, d)
    case AddrOf(p) =>
      if p.proj == [] || p.proj == [Deref] then DropProto(SetPts(s, d, Get(s.pointsTo, p.local)), d) else Forget(s, d)
    case Aggregate(ops) => DropProto(SetPts(s, d, GatherObjects(s, ops)), d)
    case PtrCast(op) => if OperandLocal(op).Some? then DropProto(CopyPts(s, d, OperandLocal(op).value), d) else Forget(s, d)
    case IntCast(op, _) => if OperandLocal(op).Some? then s else Forget(s, d)
    case Binary(bop, a, b) => DropProto(BinaryPts(s, d, bop, a, b), d)
    case _ => Forget(s, d)
  }

  /** The field takes over the objects of `l`, which stops being tracked even if it was only copied. */
  function StoreField(s: Ownership, key: (Local, Word32), l: Local): Ownership {
    var objs := Get(s.pointsTo, l);
    s.(fieldOwned := if objs != {} then s.fieldOwned[key := objs] else s.fieldOwned - {key},
       pointsTo := s.pointsTo - {l}, localProto := s.localProto - {l}, ownerAlias := s.ownerAlias - {l})
  }

  /** A store through a projection: into the return place, into a simple field, or out of sight. */
  function Store(s: Ownership, dst: Place, rv: Rvalue): Ownership {
    var src := RvalueLocal(rv);
    if src.None? then s
    else
      var l := src.value;
      var objs := Get(s.pointsTo, l);
      if dst.local == 0 && Deref !in dst.proj then
        AddPts(s, 0, if objs != {} then Get(s.pointsTo, 0) + objs else {})
      else
        var f := SimpleField(dst.proj);
        if f.Some? then StoreField(s, (dst.local, f.value), l) else EscapeLocal(s, l)
  }

  /** `apply_statement`. */
  function ApplyStatement(body: Body, s: Ownership, stmt: Statement): Ownership {
    if stmt.Nop? then s
    else
      var s1 := InvalidateOwners(s, {stmt.dst.local});
      if stmt.dst.proj != [] then Store(s1, stmt.dst, stmt.rv)
      else
        var d := stmt.dst.local;
        Track(ClearFields(SetAlias(s1, d, RvalueOwners(body, s1, d, stmt.rv)), d), d, stmt.rv)
  }

  // ----- calls -----

  function SummaryOf(sums: SummaryMap, callee: Option<Callee>): Option<FnSummary> {
    if callee.Some? && callee.value.def in sums then Some(sums[callee.value.def]) else None
  }

  /** The argument whose buffer the call reallocates, if any. */
  function ReallocReceiver(sums: SummaryMap, callee: Option<Callee>, args: seq<Operand>): Option<Local> {
    if callee.Some? && callee.value.growsBuffer then FirstArgLocal(args)
    else
      var sum := SummaryOf(sums, callee);
      if sum.Some? && sum.value.reallocs.Some? then NthArgLocal(args, sum.value.reallocs.value) else None
  }

  function OwnersOrSelf(s: Ownership, recv: Local): set<Local> {
    if Get(s.ownerAlias, recv) == {} then {recv} else s.ownerAlias[recv]
  }

  function StaleSet(body: Body, s: Ownership, owners: set<Local>): set<Local> {
    set p | p in s.ownerAlias && !(s.ownerAlias[p] !! owners) && !TyOf(body, p).Ref?
  }

  /** Point each of these handles, from now on, to an object of its own that may be freed. */
  function Redirect(s: Ownership, stale: set<Local>): Ownership {
    s.(heap := SetAll(s.heap, (set p | p in stale :: StaleId(p)), MaybeFreed),
       pointsTo := RedirectPts(s.pointsTo, stale),
       ownerAlias := s.ownerAlias - stale)
  }

  function RedirectPts(pts: map<Local, set<ObjectId>>, stale: set<Local>): map<Local, set<ObjectId>> {
    map l | l in pts.Keys + stale :: if l in stale then {StaleId(l)} else pts[l]
  }

  function NoteRealloc(body: Body, s: Ownership, owners: set<Local>): Ownership {
    s.(reallocedParams := s.reallocedParams + (set o | o in owners && IsParam(body, o)))
  }

  /** A buffer reallocation: record which parameters it hit and redirect every handle into the buffer. */
  function MarkStale(body: Body, s: Ownership, recv: Local): Ownership {
    var owners := OwnersOrSelf(s, recv);
    Redirect(NoteRealloc(body, s, owners), StaleSet(body, s, owners))
  }

  function LiveOwners(s: Ownership): set<Local> {
    set l, o | l in s.ownerAlias && o in s.ownerAlias[l] :: o
  }

  function ReachedOwners(body: Body, s: Ownership, op: Operand): set<Local> {
    if op.Const? || !(TyOf(body, op.place.local).Ref? && TyOf(body, op.place.local).mutable) then {}
    else Get(s.ownerAlias, op.place.local) + (if op.place.local in LiveOwners(s) then {op.place.local} else {})
  }

  function ArgOwners(body: Body, s: Ownership, args: seq<Operand>, skip: Option<nat>): set<Local> {
    set i, o | 0 <= i < |args| && Some(i) != skip && o in ReachedOwners(body, s, args[i]) :: o
  }

  /** `invalidate_owner_args`: what a callee can reach through `&mut` may be reassigned. */
  function InvalidateArgs(body: Body, s: Ownership, args: seq<Operand>, skip: Option<nat>): Ownership {
    InvalidateOwners(s, ArgOwners(body, s, args, skip))
  }

  /** `escape_raw_ptr_args`. */
  function EscapeArgs(body: Body, s: Ownership, args: seq<Operand>): Ownership
    decreases |args|
  {
    if args == [] then s
    else
      var l := OperandLocal(args[0]);
      EscapeArgs(body,
        if l.Some? && (TyOf(body, l.value).RawPtr? || l.value in s.pointsTo) then EscapeLocal(s, l.value) else s,
        args[1..])
  }

  function ApplyEffect(s: Ownership, arg: Option<Local>, e: Effect): Ownership {
    if arg.None? then s
    else if e == Reconstitutes then
      DropProto(s.(heap := Reconstitute(s.heap, Get(s.pointsTo, arg.value))), arg.value)
    else EscapeLocal(s, arg.value)
  }

  function ApplyEffects(s: Ownership, args: seq<Operand>, effects: seq<(nat, Effect)>): Ownership
    decreases |effects|
  {
    if effects == [] then s
    else ApplyEffects(ApplyEffect(s, NthArgLocal(args, effects[0].0), effects[0].1), args, effects[1..])
  }

  function AllocateAt(s: Ownership, d: Local, bb: Block): Ownership {
    s.(pointsTo := s.pointsTo[d := {Site(bb)}], heap := s.heap[Site(bb) := RawOwned])
  }

  function ReturnAlias(body: Body, s: Ownership, arg: Local, dest: Local): Ownership {
    var ty := TyOf(body, arg);
    var owners := if IsReferenceParam(body, arg) then {arg}
                  else if ty.Ref? || ty.RawPtr? then Get(s.ownerAlias, arg) else {};
    var s1 := if owners != {} then s.(ownerAlias := s.ownerAlias[dest := Get(s.ownerAlias, dest) + owners]) else s;
    if !TyOf(body, dest).RawPtr? then AddPts(s1, dest, Get(s1.pointsTo, arg)) else s1
  }

  /** What a summary says about the destination of the call. */
  function ApplyReturn(body: Body, s: Ownership, args: seq<Operand>, dest: Local, bb: Block, sum: FnSummary): Ownership {
    var s1 := DropAlias(if sum.returnsRawOwned then AllocateAt(s, dest, bb) else Forget(s, dest), dest);
    var al := if sum.aliasOf.Some? then NthArgLocal(args, sum.aliasOf.value) else None;
    var s2 := if al.Some? then ReturnAlias(body, s1, al.value, dest) else s1;
    var pt := if sum.ptrOf.Some? then NthArgLocal(args, sum.ptrOf.value) else None;
    if pt.Some? then AddPts(s2, dest, Get(s2.pointsTo, pt.value)) else s2
  }

  /** `apply_fn_summary`. */
  function ApplySummary(body: Body, s: Ownership, args: seq<Operand>, dest: Local, bb: Block, sum: FnSummary): Ownership {
    ApplyReturn(body, ApplyEffects(s, args, sum.effects), args, dest, bb, sum)
  }

  /** `from_raw` and raw deallocation: the pointer keeps its link to the object it gave up. */
  function FromRawCall(s: Ownership, args: seq<Operand>, dest: Local): Ownership {
    var src := if FirstArgLocal(args).Some? then FirstArgLocal(args) else FirstArgBase(args);
    var heap := if src.Some? then Reconstitute(s.heap, Get(s.pointsTo, src.value)) else s.heap;
    var s1 := Forget(s.(heap := heap, ownerAlias := s.ownerAlias - {dest}), dest);
    if src.Some? && src.value in s1.ownerAlias
    then s1.(ownerAlias := s1.ownerAlias[dest := s1.ownerAlias[src.value]]) else s1
  }

  /** Raw `realloc`: free the old pointer, allocate the new one. */
  function RawReallocCall(s: Ownership, args: seq<Operand>, dest: Local, bb: Block): Ownership {
    var src := FirstArgLocal(args);
    var heap := if src.Some? then Reconstitute(s.heap, Get(s.pointsTo, src.value)) else s.heap;
    AllocateAt(s.(heap := heap), dest, bb)
  }

  /** `mem::forget`. */
  function ForgetCall(s: Ownership, args: seq<Operand>, dest: Local): Ownership {
    var src := FirstArgBase(args);
    var s1 := if src.None? then s
              else Forget(s.(heap := SetAll(s.heap, Get(s.pointsTo, src.value), Escaped),
                             typestate := SetAll(s.typestate, Get(s.localProto, src.value), Forgotten)), src.value);
    Forget(s1, dest)
  }

  function AccessorFallback(s: Ownership, args: seq<Operand>, dest: Local): Ownership {
    var a := FirstArgLocal(args);
    if a.None? then s else AddPts(s, dest, Get(s.pointsTo, a.value))
  }

  /** A callee with neither a summary nor a known role. */
  function UnknownCall(body: Body, s: Ownership, c: Callee, args: seq<Operand>, dest: Local): Ownership {
    var a := FirstArgLocal(args);
    if c.accessor then
      if a.None? then s
      else
        var owners := Get(s.ownerAlias, a.value);
        var s1 := if owners != {} then s.(ownerAlias := s.ownerAlias[dest := owners]) else s;
        AddPts(s1, dest, Get(s1.pointsTo, a.value))
    else if c.role.Plain? && !c.role.touch.Anything? then s
    else EscapeArgs(body, s, args)
  }

  /** The handler chosen by the callee, once the aliases broken by the call are gone. */
  function ByRole(body: Body, sums: SummaryMap, s: Ownership, c: Callee, args: seq<Operand>, dest: Local, bb: Block): Ownership {
    match c.role
    case RawRealloc => RawReallocCall(s, args, dest, bb)
    case IntoRaw => AllocateAt(s, dest, bb)
    case FromRaw => FromRawCall(s, args, dest)
    case MemForget => ForgetCall(s, args, dest)
    case Acquire =>
      s.(localProto := s.localProto[dest := Get(s.localProto, dest) + {Site(bb)}],
         typestate := s.typestate[Site(bb) := Active])
    case PtrRead =>
      var a := FirstArgLocal(args);
      DropProto(SetPts(s, dest, if a.Some? then Get(s.pointsTo, a.value) else {}), dest)
    case MuAccess => DropProto(s, dest)
    case BufWrite => Forget(s, dest)
    case Plain(_) =>
      if c.def in sums then
        var s1 := ApplySummary(body, s, args, dest, bb, sums[c.def]);
        if c.accessor && dest !in s1.pointsTo then AccessorFallback(s1, args, dest) else s1
      else DropProto(UnknownCall(body, s, c, args, dest), dest)
  }

  /** The argument the callee hands back an alias of: an accessor does not reassign it. */
  function ReturnedArg(sums: SummaryMap, callee: Option<Callee>): Option<nat> {
    var sum := SummaryOf(sums, callee);
    if sum.Some? then sum.value.aliasOf else None
  }

  /** What every call does before its callee is looked at: stale handles, broken aliases, redefined destination. */
  function BeforeCall(body: Body, sums: SummaryMap, s: Ownership, callee: Option<Callee>, args: seq<Operand>, dest: Local): Ownership {
    var recv := ReallocReceiver(sums, callee, args);
    var s1 := if recv.Some? then MarkStale(body, s, recv.value) else s;
    DropAlias(InvalidateOwners(InvalidateArgs(body, s1, args, ReturnedArg(sums, callee)), {dest}), dest)
  }

  function DropLocal(s: Ownership, l: Local): Ownership {
    Forget(s.(typestate := SetAll(s.typestate, Get(s.localProto, l), Consumed)), l)
  }

  /** `apply_terminator`. */
  function ApplyTerminator(body: Body, sums: SummaryMap, s: Ownership, bb: Block, term: Terminator): Ownership {
    match term
    case Call(callee, args, dest, _, _) =>
      var s1 := BeforeCall(body, sums, s, callee, args, dest.local);
      if callee.None? || dest.proj != [] then EscapeArgs(body, s1, args)
      else ByRole(body, sums, s1, callee.value, args, dest.local, bb)
    case Drop(place, _, _) => if place.proj == [] then DropLocal(s, place.local) else s
    case _ => s
  }

  /** Replay of a statement list. */
  function Replay(body: Body, s: Ownership, stmts: seq<Statement>): Ownership
    decreases |stmts|
  {
    if stmts == [] then s else ApplyStatement(body, Replay(body, s, stmts[..|stmts| - 1]), stmts[|stmts| - 1])
  }

  /** What flows out of block `bb`; edges do not refine ownership. */
  function Along(body: Body, sums: SummaryMap, bb: Block, block: BasicBlock, s: Ownership): Ownership {
    ApplyTerminator(body, sums, Replay(body, s, block.stmts), bb, block.term)
  }

  // ----- what copies and offsets touch -----

  lemma CopyShape(s: Ownership, d: Local, src: Local, c: Local)
    ensures CopyPts(s, d, src).heap == s.heap && Untrack(s, d).heap == s.heap
    ensures Get(CopyPts(s, d, src).pointsTo, d) == Get(s.pointsTo, src)
    ensures c != d ==> Get(CopyPts(s, d, src).pointsTo, c) == Get(s.pointsTo, c) == Get(Untrack(s, d).pointsTo, c)
  {
  }

  /** The pointer operand whose objects the result of an offset takes over. */
  function PtrOperand(s: Ownership, bop: BinOp, a: Operand, b: Operand): Option<Local> {
    if !(bop == Offset || bop == Add || bop == Sub) then None
    else if Tracked(s, a) then OperandLocal(a)
    else if Tracked(s, b) then OperandLocal(b)
    else None
  }

  lemma BinaryShape(s: Ownership, d: Local, bop: BinOp, a: Operand, b: Operand)
    ensures var src := PtrOperand(s, bop, a, b);
            BinaryPts(s, d, bop, a, b) == if src.Some? then CopyPts(s, d, src.value) else Untrack(s, d)
  {
  }

  // ----- queries -----

  datatype FreedKind = NotFreed | Definite | Potential

  /** `freed_kind`: definite when every tracked object was reconstituted, potential when only some may be freed. */
  ghost function FreedKindOf(s: Ownership, l: Local): FreedKind {
    var objs := Get(s.pointsTo, l);
    if !(exists id <- objs :: IsFreed(s.heap, id)) then NotFreed
    else if forall id <- objs :: id in s.heap && s.heap[id] == Reconstituted then Definite
    else Potential
  }

  /** The loop of `freed_kind`, with its two flags. */
  method ClassifyFreed(s: Ownership, l: Local) returns (kind: FreedKind)
    ensures kind == FreedKindOf(s, l)
  {
    var objs := Get(s.pointsTo, l);
    if objs == {} {
      return NotFreed;
    }
    var anyFreed, allReconstituted := false, true;
    var todo := objs;
    while todo != {}
      invariant todo <= objs
      invariant anyFreed <==> exists id <- objs :: id !in todo && IsFreed(s.heap, id)
      invariant allReconstituted <==> forall id <- objs :: id in todo || (id in s.heap && s.heap[id] == Reconstituted)
    {
      var id :| id in todo;
      if id in s.heap && s.heap[id] == Reconstituted {
        anyFreed := true;
      } else if id in s.heap && s.heap[id] == MaybeFreed {
        anyFreed, allReconstituted := true, false;
      } else {
        allReconstituted := false;
      }
      todo := todo - {id};
    }
    kind := if anyFreed && allReconstituted then Definite else if anyFreed then Potential else NotFreed;
  }
}
