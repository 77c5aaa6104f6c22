/** Running the generated Reset methods on a heap. Every variable, also a struct field, is a
    location of its own, so pointers may alias fields and objects may be shared freely. */
module ResetMachine {
  import opened Model
  import opened ResetGenerator
  import opened Order

  type Loc = nat

  datatype Value = BoolV(b: bool) | TextV(s: string) | NumV(n: int)

  datatype Cell =
    | BasicCell(v: Value)
    | SliceCell(len: nat, base: nat, cap: nat)   // length, backing array, capacity
    | MapCell(ref: Option<Loc>)                  // a map variable
    | MapStore(entries: map<int, int>)           // what it refers to
    | PtrCell(to: Option<Loc>)
    | StructCell(fields: seq<Loc>)
    | HandCell(ty: Type, state: int)             // an object with a hand-written Reset
    | OtherCell(payload: int)

  type Heap = map<Loc, Cell>

  /** Hand-written Reset methods, as a function of the object's state. */
  type External = (Type, int) -> int

  ghost predicate Repeatable(ext: External) {
    forall t, x :: ext(t, ext(t, x)) == ext(t, x)
  }

  function KindOf(v: Value): BasicKind {
    match v
    case BoolV(_) => Bool
    case TextV(_) => Text
    case NumV(_) => Numeric
  }

  function Literal(z: Zero): Value {
    match z
    case FalseLit => BoolV(false)
    case EmptyLit => TextV("")
    case ZeroLit => NumV(0)
  }

  // ---- the interpreter ----

  datatype Outcome = Finished(h: Heap) | Stuck | OutOfFuel

  function Assigned(h: Heap, l: Loc, z: Zero): Outcome {
    if l in h && h[l].BasicCell? && KindOf(h[l].v) == KindOf(Literal(z))
    then Finished(h[l := BasicCell(Literal(z))]) else Stuck
  }

  /** One generated statement for a field of type `t` at location `f`. `fuel` bounds the depth
      of nested calls. */
  ghost function RunStmt(env: Env, ext: External, h: Heap, st: Option<Stmt>, t: Type, f: Loc, fuel: nat): Outcome
    decreases fuel, 1, 0
  {
    if st.None? then Finished(h)
    else if f !in h then Stuck
    else match st.value
      case Assign(z) => Assigned(h, f, z)
      case Truncate =>
        if h[f].SliceCell? then Finished(h[f := h[f].(len := 0)]) else Stuck
      case Clear =>
        if !h[f].MapCell? then Stuck
        else if h[f].ref.None? then Finished(h)
        else if h[f].ref.value in h && h[h[f].ref.value].MapStore? then Finished(h[h[f].ref.value := MapStore(map[])])
        else Stuck
      case IfNonNilAssign(z) =>
        if !h[f].PtrCell? then Stuck
        else if h[f].to.None? then Finished(h)
        else Assigned(h, h[f].to.value, z)
      case CallReset => RunReset(env, ext, h, t, f, fuel)
      case IfNonNilCallReset =>
        if !h[f].PtrCell? then Stuck
        else if h[f].to.None? then Finished(h)
        else RunReset(env, ext, h, Deref(t), h[f].to.value, fuel)
  }

  /** The first `n` fields of a generated method, in order. */
  ghost function RunFields(env: Env, ext: External, h: Heap, body: seq<Option<Stmt>>, fs: seq<Field>, locs: seq<Loc>, n: nat, fuel: nat): Outcome
    requires n <= |body| == |fs| == |locs|
    decreases fuel, 2, n
  {
    if n == 0 then Finished(h)
    else match RunFields(env, ext, h, body, fs, locs, n - 1, fuel)
      case Finished(g) => RunStmt(env, ext, g, body[n - 1], fs[n - 1].ty, locs[n - 1], fuel)
      case other => other
  }

  /** A call of Reset on the object of type `t` at `l`: the method of the generated file for a
      marked type, a hand-written one otherwise. */
  ghost function RunReset(env: Env, ext: External, h: Heap, t: Type, l: Loc, fuel: nat): Outcome
    decreases fuel, 0, 0
  {
    if fuel == 0 then OutOfFuel
    else if l !in h then Stuck
    else if IsMarked(env, t) then
      var body := Generated(env)[t.id.name];
      if h[l].StructCell? && |h[l].fields| == |FieldsOf(env, t)| == |body|
      then RunFields(env, ext, h, body, FieldsOf(env, t), h[l].fields, |body|, fuel - 1)
      else Stuck
    else if h[l].HandCell? then Finished(h[l := HandCell(h[l].ty, ext(h[l].ty, h[l].state))])
    else Stuck
  }

  // ---- well-typed heaps ----

  /** Each location has one declared type. `World` fixes the declarations, that typing and the
      heap a run starts from. */
  datatype World = World(env: Env, ty: map<Loc, Type>, h: Heap)

  predicate CellOk(w: World, t: Type, c: Cell)
  {
    match Underlying(w.env, t)
    case BasicT(k) => c.BasicCell? && KindOf(c.v) == k
    case SliceT(_) => c.SliceCell?
    case MapT(_, _) => c.MapCell? && (c.ref.Some? ==> c.ref.value in w.h && w.h[c.ref.value].MapStore?)
    case PointerT(e) => c.PtrCell? && (c.to.Some? ==> c.to.value in w.ty && w.ty[c.to.value] == e)
    case StructT(fs) =>
      && c.StructCell? && |c.fields| == |fs|
      && forall i :: 0 <= i < |fs| ==> c.fields[i] in w.ty && w.ty[c.fields[i]] == fs[i].ty
    case NamedT(_) => c.OtherCell?
    case OtherT => c.OtherCell? || c.MapStore?
  }

  ghost predicate Handwritten(env: Env, t: Type) {
    HasReset(env, t) && !IsMarked(env, t)
  }

  ghost predicate TypedAt(w: World, l: Loc)
    requires l in w.ty && l in w.h
  {
    if Handwritten(w.env, w.ty[l]) then w.h[l].HandCell? else CellOk(w, w.ty[l], w.h[l])
  }

  /** Marked names are declared structs; the heap is typed location by location. */
  ghost predicate WellTyped(w: World) {
    && w.ty.Keys == w.h.Keys
    && (forall l :: l in w.h ==> TypedAt(w, l))
    && (forall name :: name in w.env.marked ==> Underlying(w.env, MarkedType(w.env, name)).StructT?)
  }

  lemma MarkedIsStruct(w: World, l: Loc)
    requires WellTyped(w) && l in w.ty && IsMarked(w.env, w.ty[l])
    ensures var fs := FieldsOf(w.env, w.ty[l]);
            && w.h[l].StructCell? && |w.h[l].fields| == |fs|
            && forall i :: 0 <= i < |fs| ==> w.h[l].fields[i] in w.h && w.ty[w.h[l].fields[i]] == fs[i].ty
  {
    assert w.ty[l] == MarkedType(w.env, w.ty[l].id.name);
    assert TypedAt(w, l);
  }

  // ---- what the reset rules ask for ----

  /** The fields of an object whose Reset is generated. */
  function FieldCount(w: World, l: Loc): nat {
    if l in w.ty && l in w.h && IsMarked(w.env, w.ty[l]) && w.h[l].StructCell? then |w.h[l].fields| else 0
  }

  function FieldLoc(w: World, l: Loc, i: nat): Loc
    requires i < FieldCount(w, l)
  {
    w.h[l].fields[i]
  }

  /** The object a Reset-bearing field leads to: itself when it is held by value, what it
      points to when it is a non-nil pointer. */
  ghost function Callee(w: World, f: Loc): Option<Loc> {
    if f !in w.ty || f !in w.h || !HasOrWillHaveReset(w.env, w.ty[f]) then None
    else if !w.ty[f].PointerT? then Some(f)
    else if w.h[f].PtrCell? then w.h[f].to
    else None
  }

  /** The location a field without Reset has cleared: the field itself for basic values and
      slices, the map it refers to, the basic value it points to; none for other kinds. */
  ghost function Cleared(w: World, f: Loc): Option<Loc> {
    if f !in w.ty || f !in w.h || HasOrWillHaveReset(w.env, w.ty[f]) then None
    else if w.ty[f].PointerT? then
      if Underlying(w.env, w.ty[f].elem).BasicT? && w.h[f].PtrCell? then w.h[f].to else None
    else match Underlying(w.env, w.ty[f])
      case BasicT(_) => Some(f)
      case SliceT(_) => Some(f)
      case MapT(_, _) => if w.h[f].MapCell? then w.h[f].ref else None
      case _ => None
  }

  /** The cleared form of a cell; pointers, structs and unsupported kinds stay as they are. */
  function ZeroCell(ext: External, c: Cell): Cell {
    match c
    case BasicCell(BoolV(_)) => BasicCell(BoolV(false))
    case BasicCell(TextV(_)) => BasicCell(TextV(""))
    case BasicCell(NumV(_)) => BasicCell(NumV(0))
    case SliceCell(_, base, cap) => SliceCell(0, base, cap)
    case MapStore(_) => MapStore(map[])
    case HandCell(t, x) => HandCell(t, ext(t, x))
    case other => other
  }

  /** The heap with exactly the given locations cleared. */
  function Wipe(ext: External, h: Heap, at: set<Loc>): Heap {
    map l | l in h :: if l in at then ZeroCell(ext, h[l]) else h[l]
  }

  ghost predicate Calls(w: World, o: Loc, p: Loc) {
    exists i: nat :: i < FieldCount(w, o) && Callee(w, FieldLoc(w, o, i)) == Some(p)
  }

  /** A chain of nested Reset calls. */
  ghost predicate CallPath(w: World, ps: seq<Loc>) {
    ps != [] && forall k :: 0 <= k < |ps| - 1 ==> Calls(w, ps[k], ps[k + 1])
  }

  /** What the Reset of one object clears on its own. */
  ghost predicate Owns(w: World, o: Loc, x: Loc) {
    if o in w.ty && IsMarked(w.env, w.ty[o])
    then exists i: nat :: i < FieldCount(w, o) && Cleared(w, FieldLoc(w, o, i)) == Some(x)
    else o == x
  }

  /** The reset rules: everything owned by an object some chain of calls from the root reaches. */
  ghost predicate MustClear(w: World, root: Loc, x: Loc) {
    exists ps :: CallPath(w, ps) && ps[0] == root && Owns(w, ps[|ps| - 1], x)
  }

  ghost function MustClearSet(w: World, root: Loc): set<Loc> {
    set x | x in w.h && MustClear(w, root, x)
  }

  /** No chain of calls from the root meets an object twice. */
  ghost predicate Acyclic(w: World, root: Loc) {
    forall ps, i, j :: CallPath(w, ps) && ps[0] == root && 0 <= i < j < |ps| ==> ps[i] != ps[j]
  }

  /** An object whose Reset may be called: marked, or with a hand-written method. */
  ghost predicate Resettable(w: World, l: Loc) {
    l in w.ty && (IsMarked(w.env, w.ty[l]) || HasReset(w.env, w.ty[l]))
  }

  lemma CalleeResettable(w: World, f: Loc)
    requires WellTyped(w) && Callee(w, f).Some?
    ensures Resettable(w, Callee(w, f).value) && Callee(w, f).value in w.h
    ensures w.ty[Callee(w, f).value] == Deref(w.ty[f])
  {
    assert TypedAt(w, f);
    if w.ty[f].PointerT? {
      PointersHaveNoReset(w.env, w.ty[f]);
    }
  }

  lemma PointersHaveNoReset(env: Env, t: Type)
    requires t.PointerT?
    ensures !HasReset(env, t) && !IsMarked(env, t)
  {
    forall d: nat ensures Hits(env, t, d) == 0 {
      assert FieldsOf(env, t) == [];
    }
  }

  // ---- the depth a run needs, and what it clears ----

  /** Whether `fuel` levels of calls are enough. It depends on pointers and structs only. */
  ghost predicate Enough(w: World, o: Loc, fuel: nat)
    decreases fuel
  {
    fuel > 0 && forall p: Loc :: Calls(w, o, p) ==> Enough(w, p, fuel - 1)
  }

  ghost predicate Clears(w: World, o: Loc, x: Loc, fuel: nat)
    decreases fuel, 1
  {
    fuel > 0 &&
    if o in w.ty && IsMarked(w.env, w.ty[o])
    then exists i: nat :: i < FieldCount(w, o) && FieldClears(w, FieldLoc(w, o, i), x, fuel - 1)
    else o == x
  }

  ghost predicate FieldClears(w: World, f: Loc, x: Loc, fuel: nat)
    decreases fuel, 2
  {
    || Cleared(w, f) == Some(x)
    || (Callee(w, f).Some? && Clears(w, Callee(w, f).value, x, fuel))
  }

  ghost function ClearSet(w: World, o: Loc, fuel: nat): set<Loc> {
    set x | x in w.h && Clears(w, o, x, fuel)
  }

  ghost function FieldClearSet(w: World, f: Loc, fuel: nat): set<Loc> {
    set x | x in w.h && FieldClears(w, f, x, fuel)
  }

  ghost function PrefixClearSet(w: World, o: Loc, n: nat, fuel: nat): set<Loc>
    requires n <= FieldCount(w, o)
  {
    if n == 0 then {} else PrefixClearSet(w, o, n - 1, fuel) + FieldClearSet(w, FieldLoc(w, o, n - 1), fuel)
  }

  ghost predicate FieldEnough(w: World, f: Loc, fuel: nat) {
    Callee(w, f).Some? ==> Enough(w, Callee(w, f).value, fuel)
  }

  /** `fuel` levels are enough for each of an object's first `n` fields. */
  ghost predicate PrefixEnough(w: World, o: Loc, n: nat, fuel: nat)
    requires n <= FieldCount(w, o)
  {
    n == 0 || (PrefixEnough(w, o, n - 1, fuel) && FieldEnough(w, FieldLoc(w, o, n - 1), fuel))
  }

  lemma ZeroTwice(ext: External, c: Cell)
    requires Repeatable(ext)
    ensures ZeroCell(ext, ZeroCell(ext, c)) == ZeroCell(ext, c)
  {
  }

  /** Clearing one more location of an already partly cleared heap. */
  lemma WipeOne(ext: External, h: Heap, at: set<Loc>, x: Loc)
    requires Repeatable(ext) && x in h
    ensures Wipe(ext, h, at)[x := ZeroCell(ext, Wipe(ext, h, at)[x])] == Wipe(ext, h, at + {x})
  {
    ZeroTwice(ext, h[x]);
  }

  /** The same cell but for contents that no call depends on. */
  predicate AlikeCell(c: Cell, d: Cell) {
    match c
    case BasicCell(v) => d.BasicCell? && KindOf(d.v) == KindOf(v)
    case SliceCell(_, _, _) => d.SliceCell?
    case MapStore(_) => d.MapStore?
    case HandCell(_, _) => d.HandCell?
    case _ => d == c
  }

  predicate Alike(h: Heap, g: Heap) {
    h.Keys == g.Keys && forall l :: l in h ==> AlikeCell(h[l], g[l])
  }

  lemma WipeAlike(ext: External, h: Heap, at: set<Loc>)
    ensures Alike(h, Wipe(ext, h, at))
  {
  }

  /** The outcome of a statement that clears one location, if any. */
  function ClearOne(ext: External, g: Heap, x: Option<Loc>): Outcome
    requires x.Some? ==> x.value in g
  {
    match x
    case None => Finished(g)
    case Some(l) => Finished(g[l := ZeroCell(ext, g[l])])
  }

  lemma PlainPointerStmt(w: World, ext: External, g: Heap, f: Loc, fuel: nat)
    requires WellTyped(w) && Alike(w.h, g) && f in w.h && !HasOrWillHaveReset(w.env, w.ty[f]) && w.ty[f].PointerT?
    ensures Cleared(w, f).Some? ==> Cleared(w, f).value in w.h
    ensures RunStmt(w.env, ext, g, ResetField(w.env, w.ty[f]), w.ty[f], f, fuel) == ClearOne(ext, g, Cleared(w, f))
  {
    PlainFieldTyped(w, f);
    assert AlikeCell(w.h[f], g[f]);
    var u := Underlying(w.env, w.ty[f].elem);
    if !u.BasicT? {
      assert ResetField(w.env, w.ty[f]).None?;
    } else {
      assert ResetField(w.env, w.ty[f]) == Some(IfNonNilAssign(BasicZero(u.kind)));
      if w.h[f].to.Some? {
        assert AlikeCell(w.h[w.h[f].to.value], g[w.h[f].to.value]);
        ZeroAssigned(ext, g, w.h[f].to.value, u.kind);
      }
    }
  }

  lemma ZeroAssigned(ext: External, g: Heap, x: Loc, k: BasicKind)
    requires x in g && g[x].BasicCell? && KindOf(g[x].v) == k
    ensures Assigned(g, x, BasicZero(k)) == Finished(g[x := ZeroCell(ext, g[x])])
  {
  }

  lemma PlainValueStmt(w: World, ext: External, g: Heap, f: Loc, fuel: nat)
    requires WellTyped(w) && Alike(w.h, g) && f in w.h && !HasOrWillHaveReset(w.env, w.ty[f]) && !w.ty[f].PointerT?
    ensures Cleared(w, f).Some? ==> Cleared(w, f).value in w.h
    ensures RunStmt(w.env, ext, g, ResetField(w.env, w.ty[f]), w.ty[f], f, fuel) == ClearOne(ext, g, Cleared(w, f))
  {
    PlainFieldTyped(w, f);
    assert AlikeCell(w.h[f], g[f]);
  }

  /** The statement generated for a field without Reset, on any heap like the well-typed one. */
  lemma PlainStmt(w: World, ext: External, g: Heap, f: Loc, fuel: nat)
    requires WellTyped(w) && Alike(w.h, g) && f in w.h && !HasOrWillHaveReset(w.env, w.ty[f])
    ensures Cleared(w, f).Some? ==> Cleared(w, f).value in w.h
    ensures RunStmt(w.env, ext, g, ResetField(w.env, w.ty[f]), w.ty[f], f, fuel) == ClearOne(ext, g, Cleared(w, f))
  {
    if w.ty[f].PointerT? {
      PlainPointerStmt(w, ext, g, f, fuel);
    } else {
      PlainValueStmt(w, ext, g, f, fuel);
    }
  }

  /** It clears exactly what the rules say. */
  lemma PlainField(w: World, ext: External, at: set<Loc>, f: Loc, fuel: nat)
    requires WellTyped(w) && Repeatable(ext) && f in w.h && !HasOrWillHaveReset(w.env, w.ty[f])
    ensures RunStmt(w.env, ext, Wipe(ext, w.h, at), ResetField(w.env, w.ty[f]), w.ty[f], f, fuel) ==
            Finished(Wipe(ext, w.h, at + FieldClearSet(w, f, fuel)))
  {
    WipeAlike(ext, w.h, at);
    PlainStmt(w, ext, Wipe(ext, w.h, at), f, fuel);
    assert Callee(w, f).None?;
    match Cleared(w, f)
    case None =>
      assert at + FieldClearSet(w, f, fuel) == at;
    case Some(x) =>
      assert FieldClearSet(w, f, fuel) == {x};
      WipeOne(ext, w.h, at, x);
  }

  lemma PlainFieldTyped(w: World, f: Loc)
    requires WellTyped(w) && f in w.h && !HasOrWillHaveReset(w.env, w.ty[f])
    ensures CellOk(w, w.ty[f], w.h[f])
    ensures Cleared(w, f).Some? ==> Cleared(w, f).value in w.h
    ensures w.ty[f].PointerT? && Underlying(w.env, w.ty[f].elem).BasicT? && Cleared(w, f).Some? ==>
              w.h[Cleared(w, f).value].BasicCell? &&
              KindOf(w.h[Cleared(w, f).value].v) == Underlying(w.env, w.ty[f].elem).kind
  {
    assert TypedAt(w, f);
    if w.ty[f].PointerT? {
      PointersHaveNoReset(w.env, w.ty[f]);
      if w.h[f].to.Some? {
        assert TypedAt(w, w.h[f].to.value);
      }
    }
  }

  // ---- running a whole call tree ----

  /** The code of an object's Reset in the generated file. */
  ghost function Code(w: World, o: Loc): seq<Option<Stmt>>
    requires o in w.ty && IsMarked(w.env, w.ty[o])
  {
    Generated(w.env)[w.ty[o].id.name]
  }

  /** One entry a field, in field order: entry `i` is the statement for the type of field `i`. */
  lemma CodeByField(w: World, o: Loc)
    requires WellTyped(w) && o in w.ty && IsMarked(w.env, w.ty[o])
    ensures |Code(w, o)| == |FieldsOf(w.env, w.ty[o])|
    ensures forall i :: 0 <= i < |Code(w, o)| ==> Code(w, o)[i] == ResetField(w.env, FieldsOf(w.env, w.ty[o])[i].ty)
  {
    assert w.ty[o] == MarkedType(w.env, w.ty[o].id.name);
  }

  /** What runs is what the written file holds for the object's type. */
  lemma RunsTheFile(w: World, ext: External, g: Heap, o: Loc, order: seq<string>, fuel: nat)
    requires WellTyped(w) && o in w.ty && IsMarked(w.env, w.ty[o]) && fuel > 0 && o in g && g[o] == w.h[o]
    requires Ascending(Less, order) && forall name :: name in order <==> name in w.env.marked
    ensures var code := Compiled(File(w.env, order), w.ty[o].id.name);
            && code.Some? && |code.value| == |FieldsOf(w.env, w.ty[o])|
            && w.h[o].StructCell? && |w.h[o].fields| == |code.value|
            && RunReset(w.env, ext, g, w.ty[o], o, fuel) ==
               RunFields(w.env, ext, g, code.value, FieldsOf(w.env, w.ty[o]), w.h[o].fields, |code.value|, fuel - 1)
  {
    FileHoldsMethods(w.env, order, w.ty[o].id.name);
    RunMarkedCode(w, ext, g, o, fuel);
  }

  lemma FieldsOfMarked(w: World, o: Loc)
    requires WellTyped(w) && o in w.ty && IsMarked(w.env, w.ty[o])
    ensures o in w.h && FieldCount(w, o) == |FieldsOf(w.env, w.ty[o])|
    ensures forall i: nat :: i < FieldCount(w, o) ==>
              FieldLoc(w, o, i) in w.h && w.ty[FieldLoc(w, o, i)] == FieldsOf(w.env, w.ty[o])[i].ty
  {
    MarkedIsStruct(w, o);
  }

  lemma {:induction false} PrefixEnoughIff(w: World, o: Loc, n: nat, fuel: nat)
    requires n <= FieldCount(w, o)
    ensures PrefixEnough(w, o, n, fuel) <==> forall i: nat :: i < n ==> FieldEnough(w, FieldLoc(w, o, i), fuel)
  {
    if n > 0 {
      PrefixEnoughIff(w, o, n - 1, fuel);
    }
  }

  lemma EnoughByField(w: World, o: Loc, fuel: nat)
    ensures Enough(w, o, fuel) <==> fuel > 0 && PrefixEnough(w, o, FieldCount(w, o), fuel - 1)
  {
    if fuel > 0 {
      PrefixEnoughIff(w, o, FieldCount(w, o), fuel - 1);
    }
    if fuel > 0 && forall i: nat :: i < FieldCount(w, o) ==> FieldEnough(w, FieldLoc(w, o, i), fuel - 1) {
      forall p: Loc | Calls(w, o, p) ensures Enough(w, p, fuel - 1) {
        var i: nat :| i < FieldCount(w, o) && Callee(w, FieldLoc(w, o, i)) == Some(p);
        assert FieldEnough(w, FieldLoc(w, o, i), fuel - 1);
      }
    }
    if Enough(w, o, fuel) {
      forall i: nat | i < FieldCount(w, o) ensures FieldEnough(w, FieldLoc(w, o, i), fuel - 1) {
        var c := Callee(w, FieldLoc(w, o, i));
        if c.Some? {
          assert Calls(w, o, c.value);
        }
      }
    }
  }

  lemma {:induction false} PrefixMembers(w: World, o: Loc, n: nat, fuel: nat, x: Loc)
    requires n <= FieldCount(w, o)
    ensures x in PrefixClearSet(w, o, n, fuel) <==>
            x in w.h && exists i: nat :: i < n && FieldClears(w, FieldLoc(w, o, i), x, fuel)
  {
    if n > 0 {
      PrefixMembers(w, o, n - 1, fuel, x);
    }
  }

  lemma ClearSetByField(w: World, o: Loc, fuel: nat)
    requires fuel > 0 && o in w.ty && IsMarked(w.env, w.ty[o])
    ensures ClearSet(w, o, fuel) == PrefixClearSet(w, o, FieldCount(w, o), fuel - 1)
  {
    forall x ensures x in ClearSet(w, o, fuel) <==> x in PrefixClearSet(w, o, FieldCount(w, o), fuel - 1) {
      PrefixMembers(w, o, FieldCount(w, o), fuel - 1, x);
    }
  }

  /** A Reset call on a partly cleared heap with enough fuel clears its own set and stops. */
  lemma {:induction false} ObjectEffect(w: World, ext: External, at: set<Loc>, o: Loc, fuel: nat)
    requires WellTyped(w) && Repeatable(ext) && Resettable(w, o) && Enough(w, o, fuel)
    ensures RunReset(w.env, ext, Wipe(ext, w.h, at), w.ty[o], o, fuel) ==
            Finished(Wipe(ext, w.h, at + ClearSet(w, o, fuel)))
    decreases fuel, 0, 0
  {
    if IsMarked(w.env, w.ty[o]) {
      EnoughByField(w, o, fuel);
      MarkedIsStruct(w, o);
      FieldsEffect(w, ext, at, o, FieldCount(w, o), fuel - 1);
      RunMarked(w, ext, Wipe(ext, w.h, at), o, fuel);
      ClearSetByField(w, o, fuel);
    } else {
      HandEffect(w, ext, at, o, fuel);
    }
  }

  /** The first `n` fields of an object's Reset, read off the locations' types. */
  ghost function RunPrefix(w: World, ext: External, g: Heap, o: Loc, n: nat, fuel: nat): Outcome
    requires n <= FieldCount(w, o)
  {
    if n == 0 then Finished(g)
    else match RunPrefix(w, ext, g, o, n - 1, fuel)
      case Finished(h) =>
        var f := FieldLoc(w, o, n - 1);
        if f in w.ty then RunStmt(w.env, ext, h, ResetField(w.env, w.ty[f]), w.ty[f], f, fuel) else Stuck
      case other => other
  }

  /** That is what the generated code does. */
  lemma {:induction false} CodeIsPrefix(w: World, ext: External, g: Heap, o: Loc, n: nat, fuel: nat)
    requires WellTyped(w) && o in w.ty && IsMarked(w.env, w.ty[o])
    requires n <= FieldCount(w, o) == |FieldsOf(w.env, w.ty[o])| == |Code(w, o)|
    ensures RunFields(w.env, ext, g, Code(w, o), FieldsOf(w.env, w.ty[o]), w.h[o].fields, n, fuel) ==
            RunPrefix(w, ext, g, o, n, fuel)
  {
    if n > 0 {
      CodeIsPrefix(w, ext, g, o, n - 1, fuel);
      CodeAt(w, o, n - 1);
    }
  }

  lemma CodeAt(w: World, o: Loc, i: nat)
    requires WellTyped(w) && o in w.ty && IsMarked(w.env, w.ty[o])
    requires i < FieldCount(w, o) == |FieldsOf(w.env, w.ty[o])| == |Code(w, o)|
    ensures var f := FieldLoc(w, o, i);
            f in w.ty && w.ty[f] == FieldsOf(w.env, w.ty[o])[i].ty && Code(w, o)[i] == ResetField(w.env, w.ty[f])
  {
    FieldsOfMarked(w, o);
    CodeByField(w, o);
  }

  /** A generated method runs its object's fields. */
  lemma RunMarked(w: World, ext: External, g: Heap, o: Loc, fuel: nat)
    requires WellTyped(w) && o in w.ty && IsMarked(w.env, w.ty[o]) && fuel > 0 && o in g && g[o] == w.h[o]
    ensures RunReset(w.env, ext, g, w.ty[o], o, fuel) == RunPrefix(w, ext, g, o, FieldCount(w, o), fuel - 1)
  {
    RunMarkedCode(w, ext, g, o, fuel);
    CodeIsPrefix(w, ext, g, o, FieldCount(w, o), fuel - 1);
  }

  lemma RunMarkedCode(w: World, ext: External, g: Heap, o: Loc, fuel: nat)
    requires WellTyped(w) && o in w.ty && IsMarked(w.env, w.ty[o]) && fuel > 0 && o in g && g[o] == w.h[o]
    ensures FieldCount(w, o) == |FieldsOf(w.env, w.ty[o])| == |Code(w, o)| && w.h[o].StructCell?
    ensures RunReset(w.env, ext, g, w.ty[o], o, fuel) ==
            RunFields(w.env, ext, g, Code(w, o), FieldsOf(w.env, w.ty[o]), w.h[o].fields, FieldCount(w, o), fuel - 1)
  {
    MarkedIsStruct(w, o);
    CodeByField(w, o);
  }

  lemma HandEffect(w: World, ext: External, at: set<Loc>, o: Loc, fuel: nat)
    requires WellTyped(w) && Repeatable(ext) && Resettable(w, o) && !IsMarked(w.env, w.ty[o]) && fuel > 0
    ensures RunReset(w.env, ext, Wipe(ext, w.h, at), w.ty[o], o, fuel) ==
            Finished(Wipe(ext, w.h, at + ClearSet(w, o, fuel)))
  {
    assert TypedAt(w, o);
    assert ClearSet(w, o, fuel) == {o};
    WipeOne(ext, w.h, at, o);
  }

  lemma {:induction false} FieldsEffect(w: World, ext: External, at: set<Loc>, o: Loc, n: nat, fuel: nat)
    requires WellTyped(w) && Repeatable(ext) && o in w.ty && IsMarked(w.env, w.ty[o])
    requires n <= FieldCount(w, o)
    requires PrefixEnough(w, o, n, fuel)
    ensures RunPrefix(w, ext, Wipe(ext, w.h, at), o, n, fuel) ==
            Finished(Wipe(ext, w.h, at + PrefixClearSet(w, o, n, fuel)))
    decreases fuel, 2, n
  {
    if n == 0 {
      NoFieldsEffect(w, ext, Wipe(ext, w.h, at), at, o, fuel);
    } else {
      FieldsEffect(w, ext, at, o, n - 1, fuel);
      FieldsOfMarked(w, o);
      FieldEffect(w, ext, at + PrefixClearSet(w, o, n - 1, fuel), FieldLoc(w, o, n - 1), fuel);
      FieldsStep(w, ext, Wipe(ext, w.h, at), o, n, fuel, Wipe(ext, w.h, at + PrefixClearSet(w, o, n - 1, fuel)),
                 Wipe(ext, w.h, at + PrefixClearSet(w, o, n - 1, fuel) + FieldClearSet(w, FieldLoc(w, o, n - 1), fuel)));
      PrefixSnoc(w, at, o, n, fuel);
    }
  }

  lemma NoFieldsEffect(w: World, ext: External, g: Heap, at: set<Loc>, o: Loc, fuel: nat)
    requires g == Wipe(ext, w.h, at)
    ensures RunPrefix(w, ext, g, o, 0, fuel) ==
            Finished(Wipe(ext, w.h, at + PrefixClearSet(w, o, 0, fuel)))
  {
    assert at + {} == at;
  }

  lemma {:induction false} FieldsStep(w: World, ext: External, g: Heap, o: Loc, n: nat, fuel: nat, before: Heap, after: Heap)
    requires 0 < n <= FieldCount(w, o) && FieldLoc(w, o, n - 1) in w.ty
    requires RunPrefix(w, ext, g, o, n - 1, fuel) == Finished(before)
    requires var f := FieldLoc(w, o, n - 1);
             RunStmt(w.env, ext, before, ResetField(w.env, w.ty[f]), w.ty[f], f, fuel) == Finished(after)
    ensures RunPrefix(w, ext, g, o, n, fuel) == Finished(after)
  {
  }

  lemma PrefixSnoc(w: World, at: set<Loc>, o: Loc, n: nat, fuel: nat)
    requires 0 < n <= FieldCount(w, o)
    ensures at + PrefixClearSet(w, o, n - 1, fuel) + FieldClearSet(w, FieldLoc(w, o, n - 1), fuel) ==
            at + PrefixClearSet(w, o, n, fuel)
  {
  }

  lemma {:induction false} FieldEffect(w: World, ext: External, at: set<Loc>, f: Loc, fuel: nat)
    requires WellTyped(w) && Repeatable(ext) && f in w.h && FieldEnough(w, f, fuel)
    ensures RunStmt(w.env, ext, Wipe(ext, w.h, at), ResetField(w.env, w.ty[f]), w.ty[f], f, fuel) ==
            Finished(Wipe(ext, w.h, at + FieldClearSet(w, f, fuel)))
    decreases fuel, 1, 0
  {
    if !HasOrWillHaveReset(w.env, w.ty[f]) {
      PlainField(w, ext, at, f, fuel);
    } else {
      BearingTyped(w, f);
      if Callee(w, f).None? {
        assert FieldClearSet(w, f, fuel) == {};
        assert at + {} == at;
      } else {
        var p := Callee(w, f).value;
        CalleeResettable(w, f);
        ObjectEffect(w, ext, at, p, fuel);
        assert FieldClearSet(w, f, fuel) == ClearSet(w, p, fuel);
      }
    }
  }

  lemma BearingTyped(w: World, f: Loc)
    requires WellTyped(w) && f in w.h && HasOrWillHaveReset(w.env, w.ty[f])
    ensures w.ty[f].PointerT? ==> w.h[f].PtrCell?
  {
    assert TypedAt(w, f);
    if w.ty[f].PointerT? {
      PointersHaveNoReset(w.env, w.ty[f]);
    }
  }

  // ---- termination: only pointers and struct layouts matter ----

  /** A call on a heap like the well-typed one finishes on another such heap, or is cut off. */
  predicate EndsAlike(w: World, enough: bool, r: Outcome) {
    if enough then r.Finished? && Alike(w.h, r.h) else r == OutOfFuel
  }

  lemma {:induction false} ObjectEnds(w: World, ext: External, g: Heap, o: Loc, fuel: nat)
    requires WellTyped(w) && Alike(w.h, g) && Resettable(w, o)
    ensures EndsAlike(w, Enough(w, o, fuel), RunReset(w.env, ext, g, w.ty[o], o, fuel))
    decreases fuel, 0, 0
  {
    if fuel > 0 {
      EnoughByField(w, o, fuel);
      if IsMarked(w.env, w.ty[o]) {
        MarkedIsStruct(w, o);
        RunMarked(w, ext, g, o, fuel);
        FieldsEnd(w, ext, g, o, FieldCount(w, o), fuel - 1);
      } else {
        assert TypedAt(w, o);
      }
    }
  }

  lemma {:induction false} FieldsEnd(w: World, ext: External, g: Heap, o: Loc, n: nat, fuel: nat)
    requires WellTyped(w) && Alike(w.h, g) && o in w.ty && IsMarked(w.env, w.ty[o])
    requires n <= FieldCount(w, o)
    ensures EndsAlike(w, PrefixEnough(w, o, n, fuel),
                      RunPrefix(w, ext, g, o, n, fuel))
    decreases fuel, 2, n
  {
    if n > 0 {
      FieldsEnd(w, ext, g, o, n - 1, fuel);
      FieldsOfMarked(w, o);
      var before := RunPrefix(w, ext, g, o, n - 1, fuel);
      if PrefixEnough(w, o, n - 1, fuel) {
        FieldEnds(w, ext, before.h, FieldLoc(w, o, n - 1), fuel);
      }
      FieldsEndStep(w, ext, g, o, n, fuel, before, FieldLoc(w, o, n - 1));
    }
  }

  lemma {:induction false} FieldsEndStep(w: World, ext: External, g: Heap, o: Loc, n: nat, fuel: nat, before: Outcome, f: Loc)
    requires 0 < n <= FieldCount(w, o) && f == FieldLoc(w, o, n - 1) && f in w.ty
    requires before == RunPrefix(w, ext, g, o, n - 1, fuel)
    requires EndsAlike(w, PrefixEnough(w, o, n - 1, fuel), before)
    requires PrefixEnough(w, o, n - 1, fuel) ==>
               EndsAlike(w, FieldEnough(w, f, fuel), RunStmt(w.env, ext, before.h, ResetField(w.env, w.ty[f]), w.ty[f], f, fuel))
    ensures EndsAlike(w, PrefixEnough(w, o, n, fuel),
                      RunPrefix(w, ext, g, o, n, fuel))
  {
  }

  lemma {:induction false} FieldEnds(w: World, ext: External, g: Heap, f: Loc, fuel: nat)
    requires WellTyped(w) && Alike(w.h, g) && f in w.h
    ensures EndsAlike(w, FieldEnough(w, f, fuel), RunStmt(w.env, ext, g, ResetField(w.env, w.ty[f]), w.ty[f], f, fuel))
    decreases fuel, 1, 0
  {
    if !HasOrWillHaveReset(w.env, w.ty[f]) {
      PlainStmt(w, ext, g, f, fuel);
    } else {
      BearingStmt(w, ext, g, f, fuel);
      if Callee(w, f).Some? {
        CalleeResettable(w, f);
        ObjectEnds(w, ext, g, Callee(w, f).value, fuel);
      }
    }
  }

  /** The statement for a field with Reset is a call on its callee, if it has one. */
  lemma BearingStmt(w: World, ext: External, g: Heap, f: Loc, fuel: nat)
    requires WellTyped(w) && Alike(w.h, g) && f in w.h && HasOrWillHaveReset(w.env, w.ty[f])
    ensures RunStmt(w.env, ext, g, ResetField(w.env, w.ty[f]), w.ty[f], f, fuel) ==
            match Callee(w, f)
            case None => Finished(g)
            case Some(p) => RunReset(w.env, ext, g, Deref(w.ty[f]), p, fuel)
  {
    BearingTyped(w, f);
  }

  lemma AlikeSelf(w: World)
    ensures Alike(w.h, w.h)
  {
  }

  /** From the starting heap: finished with enough levels of calls, cut off otherwise. */
  lemma RunFinishesIffEnough(w: World, ext: External, o: Loc, fuel: nat)
    requires WellTyped(w) && Resettable(w, o)
    ensures var r := RunReset(w.env, ext, w.h, w.ty[o], o, fuel);
            (r.Finished? <==> Enough(w, o, fuel)) && !r.Stuck?
  {
    AlikeSelf(w);
    ObjectEnds(w, ext, w.h, o, fuel);
  }

  // ---- call chains ----

  lemma {:induction false} EnoughAlong(w: World, ps: seq<Loc>, fuel: nat, k: nat)
    requires CallPath(w, ps) && Enough(w, ps[0], fuel) && k < |ps|
    ensures k < fuel && Enough(w, ps[k], fuel - k)
  {
    if k > 0 {
      EnoughAlong(w, ps, fuel, k - 1);
      assert Calls(w, ps[k - 1], ps[k]);
    }
  }

  lemma {:induction false} EnoughGrows(w: World, o: Loc, fuel: nat)
    requires Enough(w, o, fuel)
    ensures Enough(w, o, fuel + 1)
    decreases fuel
  {
    forall p: Loc | Calls(w, o, p) ensures Enough(w, p, fuel) {
      EnoughGrows(w, p, fuel - 1);
    }
  }

  /** The least depth that suffices. */
  lemma {:induction false} LeastEnough(w: World, o: Loc, fuel: nat) returns (r: nat)
    requires Enough(w, o, fuel)
    ensures Enough(w, o, r) && forall k: nat :: k < r ==> !Enough(w, o, k)
  {
    if fuel > 0 && Enough(w, o, fuel - 1) {
      r := LeastEnough(w, o, fuel - 1);
    } else {
      r := fuel;
      forall k: nat | k < r ensures !Enough(w, o, k) {
        if Enough(w, o, k) {
          EnoughUpTo(w, o, k, fuel - 1);
        }
      }
    }
  }

  lemma {:induction false} EnoughUpTo(w: World, o: Loc, k: nat, fuel: nat)
    requires Enough(w, o, k) && k <= fuel
    ensures Enough(w, o, fuel)
    decreases fuel
  {
    if k < fuel {
      EnoughUpTo(w, o, k, fuel - 1);
      EnoughGrows(w, o, fuel - 1);
    }
  }

  lemma EnoughIsAcyclic(w: World, root: Loc, fuel: nat)
    requires Enough(w, root, fuel)
    ensures Acyclic(w, root)
  {
    forall ps, i, j | CallPath(w, ps) && ps[0] == root && 0 <= i < j < |ps| ensures ps[i] != ps[j] {
      if ps[i] == ps[j] {
        EnoughAlong(w, ps, fuel, i);
        var r := LeastEnough(w, ps[i], fuel - i);
        var tail := ps[i..];
        assert CallPath(w, tail);
        EnoughAlong(w, tail, r, j - i);
      }
    }
  }

  lemma CalledIsObject(w: World, o: Loc, p: Loc)
    requires WellTyped(w) && Calls(w, o, p)
    ensures p in w.h
  {
    var i: nat :| i < FieldCount(w, o) && Callee(w, FieldLoc(w, o, i)) == Some(p);
    CalleeResettable(w, FieldLoc(w, o, i));
  }

  lemma PathCons(w: World, o: Loc, rest: seq<Loc>)
    requires CallPath(w, rest) && Calls(w, o, rest[0])
    ensures CallPath(w, [o] + rest)
  {
    var ps := [o] + rest;
    forall k | 0 <= k < |ps| - 1 ensures Calls(w, ps[k], ps[k + 1]) {
      if k > 0 {
        assert Calls(w, rest[k - 1], rest[k]);
      }
    }
  }

  /** A run that is not deep enough has a call chain one longer than its fuel. */
  lemma {:induction false} LongChain(w: World, o: Loc, fuel: nat) returns (ps: seq<Loc>)
    requires WellTyped(w) && o in w.h && !Enough(w, o, fuel)
    ensures CallPath(w, ps) && ps[0] == o && |ps| == fuel + 1
    ensures forall k :: 0 <= k < |ps| ==> ps[k] in w.h
    decreases fuel
  {
    if fuel == 0 {
      ps := [o];
    } else {
      var p: Loc :| Calls(w, o, p) && !Enough(w, p, fuel - 1);
      CalledIsObject(w, o, p);
      var rest := LongChain(w, p, fuel - 1);
      PathCons(w, o, rest);
      ps := [o] + rest;
    }
  }

  lemma {:induction false} Pigeonhole(ps: seq<Loc>, s: set<Loc>) returns (i: int, j: int)
    requires |ps| > |s| && forall k :: 0 <= k < |ps| ==> ps[k] in s
    ensures 0 <= i < j < |ps| && ps[i] == ps[j]
  {
    var n := |ps| - 1;
    if k :| 0 <= k < n && ps[k] == ps[n] {
      i, j := k, n;
    } else {
      assert |s - {ps[n]}| == |s| - 1;
      i, j := Pigeonhole(ps[..n], s - {ps[n]});
    }
  }

  lemma AcyclicIsEnough(w: World, root: Loc)
    requires WellTyped(w) && root in w.h && Acyclic(w, root)
    ensures Enough(w, root, |w.h.Keys|)
  {
    if !Enough(w, root, |w.h.Keys|) {
      var ps := LongChain(w, root, |w.h.Keys|);
      var i, j := Pigeonhole(ps, w.h.Keys);
    }
  }

  lemma {:induction false} ChainClears(w: World, ps: seq<Loc>, x: Loc, fuel: nat)
    requires CallPath(w, ps) && Owns(w, ps[|ps| - 1], x) && |ps| <= fuel
    ensures Clears(w, ps[0], x, fuel)
  {
    if |ps| == 1 {
      if ps[0] in w.ty && IsMarked(w.env, w.ty[ps[0]]) {
        var i: nat :| i < FieldCount(w, ps[0]) && Cleared(w, FieldLoc(w, ps[0], i)) == Some(x);
        assert FieldClears(w, FieldLoc(w, ps[0], i), x, fuel - 1);
      }
    } else {
      var tail := ps[1..];
      forall k | 0 <= k < |tail| - 1 ensures Calls(w, tail[k], tail[k + 1]) {
        assert Calls(w, ps[k + 1], ps[k + 2]);
      }
      ChainClears(w, tail, x, fuel - 1);
      assert Calls(w, ps[0], ps[1]);
      var i: nat :| i < FieldCount(w, ps[0]) && Callee(w, FieldLoc(w, ps[0], i)) == Some(ps[1]);
      assert FieldClears(w, FieldLoc(w, ps[0], i), x, fuel - 1);
    }
  }

  lemma {:induction false} ClearsHasChain(w: World, o: Loc, x: Loc, fuel: nat) returns (ps: seq<Loc>)
    requires Clears(w, o, x, fuel)
    ensures CallPath(w, ps) && ps[0] == o && Owns(w, ps[|ps| - 1], x)
    decreases fuel
  {
    ps := [o];
    if o in w.ty && IsMarked(w.env, w.ty[o]) {
      var i: nat :| i < FieldCount(w, o) && FieldClears(w, FieldLoc(w, o, i), x, fuel - 1);
      var f := FieldLoc(w, o, i);
      if Cleared(w, f) != Some(x) {
        var p := Callee(w, f).value;
        var rest := ClearsHasChain(w, p, x, fuel - 1);
        assert Calls(w, o, p);
        PathCons(w, o, rest);
        ps := [o] + rest;
      }
    }
  }

  lemma ClearSetIsMustClear(w: World, o: Loc, fuel: nat)
    requires Enough(w, o, fuel)
    ensures ClearSet(w, o, fuel) == MustClearSet(w, o)
  {
    forall x | x in w.h ensures Clears(w, o, x, fuel) <==> MustClear(w, o, x) {
      if Clears(w, o, x, fuel) {
        var ps := ClearsHasChain(w, o, x, fuel);
      }
      if MustClear(w, o, x) {
        var ps :| CallPath(w, ps) && ps[0] == o && Owns(w, ps[|ps| - 1], x);
        EnoughAlong(w, ps, fuel, |ps| - 1);
        ChainClears(w, ps, x, fuel);
      }
    }
  }

  // ---- the theorems ----

  lemma WipeNothing(ext: External, h: Heap)
    ensures Wipe(ext, h, {}) == h
  {
  }

  /** Generated Reset code on a well-typed heap is never stuck, and it terminates exactly when
      no chain of Reset calls from the receiver meets an object twice; sharing is allowed. */
  lemma ResetTerminatesIff(w: World, ext: External, root: Loc)
    requires WellTyped(w) && Resettable(w, root)
    ensures (exists fuel :: RunReset(w.env, ext, w.h, w.ty[root], root, fuel).Finished?) <==> Acyclic(w, root)
    ensures forall fuel :: !RunReset(w.env, ext, w.h, w.ty[root], root, fuel).Stuck?
  {
    forall fuel: nat
      ensures RunReset(w.env, ext, w.h, w.ty[root], root, fuel).Finished? <==> Enough(w, root, fuel)
      ensures !RunReset(w.env, ext, w.h, w.ty[root], root, fuel).Stuck?
    {
      RunFinishesIffEnough(w, ext, root, fuel);
    }
    if Acyclic(w, root) {
      AcyclicIsEnough(w, root);
      assert RunReset(w.env, ext, w.h, w.ty[root], root, |w.h.Keys|).Finished?;
    }
    if fuel: nat :| RunReset(w.env, ext, w.h, w.ty[root], root, fuel).Finished? {
      EnoughIsAcyclic(w, root, fuel);
    }
  }

  /** When it terminates it clears exactly what the reset rules ask for and nothing else, and a
      second call changes nothing more. */
  lemma ResetClearsExactly(w: World, ext: External, root: Loc, fuel: nat)
    requires WellTyped(w) && Repeatable(ext) && Resettable(w, root)
    requires RunReset(w.env, ext, w.h, w.ty[root], root, fuel).Finished?
    ensures var g := RunReset(w.env, ext, w.h, w.ty[root], root, fuel).h;
            && g == Wipe(ext, w.h, MustClearSet(w, root))
            && RunReset(w.env, ext, g, w.ty[root], root, fuel) == Finished(g)
  {
    WipeNothing(ext, w.h);
    RunFinishesIffEnough(w, ext, root, fuel);
    var s := ClearSet(w, root, fuel);
    ClearSetIsMustClear(w, root, fuel);
    ObjectEffect(w, ext, {}, root, fuel);
    assert {} + s == s && s + s == s;
    ObjectEffect(w, ext, s, root, fuel);
  }

  predicate Holds(g: Heap, l: Loc, c: Cell) {
    l in g && g[l] == c
  }

  lemma OwnedIsCleared(w: World, root: Loc, ps: seq<Loc>, i: nat)
    requires WellTyped(w) && CallPath(w, ps) && ps[0] == root && i < FieldCount(w, ps[|ps| - 1])
    ensures var c := Cleared(w, FieldLoc(w, ps[|ps| - 1], i)); c.Some? ==> c.value in MustClearSet(w, root)
  {
    var o := ps[|ps| - 1];
    var f := FieldLoc(w, o, i);
    if Cleared(w, f).Some? {
      PlainFieldTyped(w, f);
      assert Owns(w, o, Cleared(w, f).value);
      assert MustClear(w, root, Cleared(w, f).value);
    }
  }

  /** Every object with a hand-written Reset that a field of a reached object holds or points
      to has had it called. */
  lemma ResetCallsHandwritten(w: World, ext: External, root: Loc, fuel: nat, ps: seq<Loc>, p: Loc)
    requires WellTyped(w) && Repeatable(ext) && Resettable(w, root)
    requires RunReset(w.env, ext, w.h, w.ty[root], root, fuel).Finished?
    requires CallPath(w, ps) && ps[0] == root && Calls(w, ps[|ps| - 1], p) && p in w.h && w.h[p].HandCell?
    ensures Holds(RunReset(w.env, ext, w.h, w.ty[root], root, fuel).h, p,
                  HandCell(w.h[p].ty, ext(w.h[p].ty, w.h[p].state)))
  {
    HandIsCleared(w, root, ps, p);
    HandWiped(w.h, ext, MustClearSet(w, root), p);
    ResetClearsExactly(w, ext, root, fuel);
  }

  /** Pointers, struct layouts, map variables and values of unsupported kinds are never
      changed, wherever they are. */
  lemma ResetKeepsTheRest(w: World, ext: External, root: Loc, fuel: nat, l: Loc)
    requires WellTyped(w) && Repeatable(ext) && Resettable(w, root)
    requires RunReset(w.env, ext, w.h, w.ty[root], root, fuel).Finished?
    requires l in w.h && (w.h[l].PtrCell? || w.h[l].MapCell? || w.h[l].StructCell? || w.h[l].OtherCell?)
    ensures Holds(RunReset(w.env, ext, w.h, w.ty[root], root, fuel).h, l, w.h[l])
  {
    ResetClearsExactly(w, ext, root, fuel);
    WipeKeeps(ext, w.h, MustClearSet(w, root), l);
  }

  lemma WipeKeeps(ext: External, h: Heap, at: set<Loc>, l: Loc)
    requires l in h && (h[l].PtrCell? || h[l].MapCell? || h[l].StructCell? || h[l].OtherCell?)
    ensures Holds(Wipe(ext, h, at), l, h[l])
  {
  }

  lemma HandWiped(h: Heap, ext: External, at: set<Loc>, p: Loc)
    requires p in h && p in at && h[p].HandCell?
    ensures Holds(Wipe(ext, h, at), p, HandCell(h[p].ty, ext(h[p].ty, h[p].state)))
  {
  }

  lemma HandIsCleared(w: World, root: Loc, ps: seq<Loc>, p: Loc)
    requires WellTyped(w) && CallPath(w, ps) && ps[0] == root && Calls(w, ps[|ps| - 1], p)
    requires p in w.h && w.h[p].HandCell?
    ensures p in MustClearSet(w, root)
  {
    var qs := ps + [p];
    forall k | 0 <= k < |qs| - 1 ensures Calls(w, qs[k], qs[k + 1]) {
      if k < |ps| - 1 {
        assert Calls(w, ps[k], ps[k + 1]);
      }
    }
    if IsMarked(w.env, w.ty[p]) {
      MarkedIsStruct(w, p);
    }
    assert Owns(w, qs[|qs| - 1], p);
  }
}
