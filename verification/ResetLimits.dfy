/** Where the generated code falls short of the reset rules: for every field type outside
    `MeetsRules` a heap is built on which a rule fails; and a cyclic heap on which Reset does
    not end. */
module ResetLimits {
  import opened Model
  import opened ResetGenerator
  import opened ResetMachine
  import opened ResetRules

  // ---- building heaps ----

  /** Structs held by value nest at most `d` deep below `t`. */
  ghost predicate Sized(env: Env, t: Type, d: nat)
    decreases d
  {
    || Handwritten(env, t)
    || var u := Underlying(env, t);
       u.StructT? ==> d > 0 && forall i :: 0 <= i < |u.fields| ==> Sized(env, u.fields[i].ty, d - 1)
  }

  /** Marked types are structs of finite size, as the Go compiler demands. */
  ghost predicate FiniteSize(env: Env) {
    forall name :: name in env.marked ==>
                     && Underlying(env, MarkedType(env, name)).StructT?
                     && exists d: nat :: Sized(env, MarkedType(env, name), d)
  }

  /** More variables, the old ones as they were. */
  predicate Extends(w: World, v: World) {
    && v.env == w.env
    && (forall l :: l in w.h ==> l in v.h && v.h[l] == w.h[l])
    && (forall l :: l in w.ty ==> l in v.ty && v.ty[l] == w.ty[l])
  }

  function Put(w: World, p: Loc, t: Type, c: Cell): World {
    World(w.env, w.ty[p := t], w.h[p := c])
  }

  lemma PutTyped(w: World, p: Loc, t: Type, c: Cell)
    requires WellTyped(w) && p !in w.h
    requires if Handwritten(w.env, t) then c.HandCell? else CellOk(w, t, c)
    ensures WellTyped(Put(w, p, t, c)) && Extends(w, Put(w, p, t, c))
  {
    var v := Put(w, p, t, c);
    forall l | l in v.h ensures TypedAt(v, l) {
      if l != p {
        assert TypedAt(w, l);
      }
    }
  }

  lemma {:induction false} Bound(s: set<Loc>) returns (n: Loc)
    ensures forall x :: x in s ==> x < n
  {
    if s == {} {
      n := 0;
    } else {
      var x :| x in s;
      var m := Bound(s - {x});
      n := if m <= x then x + 1 else m;
      forall y | y in s ensures y < n {
        if y != x {
          assert y in s - {x};
        }
      }
    }
  }

  lemma Unused(w: World) returns (p: Loc)
    ensures p !in w.h
  {
    p := Bound(w.h.Keys);
  }

  lemma CallsExtend(w: World, v: World, o: Loc, q: Loc)
    requires WellTyped(w) && Extends(w, v) && o in w.h
    ensures Calls(v, o, q) <==> Calls(w, o, q)
  {
    if IsMarked(w.env, w.ty[o]) {
      FieldsOfMarked(w, o);
      forall i: nat | i < FieldCount(w, o) ensures Callee(v, FieldLoc(v, o, i)) == Callee(w, FieldLoc(w, o, i)) {
      }
    }
  }

  lemma {:induction false} EnoughExtends(w: World, v: World, o: Loc, fuel: nat)
    requires WellTyped(w) && Extends(w, v) && o in w.h && Enough(w, o, fuel)
    ensures Enough(v, o, fuel)
    decreases fuel
  {
    forall q: Loc | Calls(v, o, q) ensures Enough(v, q, fuel - 1) {
      CallsExtend(w, v, o, q);
      CalledIsObject(w, o, q);
      EnoughExtends(w, v, q, fuel - 1);
    }
  }

  lemma FieldEnoughExtends(w: World, v: World, f: Loc, fuel: nat)
    requires WellTyped(w) && Extends(w, v) && f in w.h && FieldEnough(w, f, fuel)
    ensures FieldEnough(v, f, fuel)
  {
    if Callee(w, f).Some? {
      CalleeResettable(w, f);
      EnoughExtends(w, v, Callee(w, f).value, fuel);
    }
  }

  /** The zero value of a type without fields of its own. */
  function ZeroValue(env: Env, t: Type): Cell {
    match Underlying(env, t)
    case BasicT(k) => BasicCell(Literal(BasicZero(k)))
    case SliceT(_) => SliceCell(0, 0, 0)
    case MapT(_, _) => MapCell(None)
    case PointerT(_) => PtrCell(None)
    case _ => OtherCell(0)
  }

  /** A new variable of type `t` with its zero value, on which Reset ends. */
  lemma {:induction false} Alloc(w: World, t: Type, d: nat) returns (v: World, p: Loc)
    requires WellTyped(w) && Sized(w.env, t, d)
    ensures WellTyped(v) && Extends(w, v) && p in v.h && p !in w.h && v.ty[p] == t
    ensures Enough(v, p, d + 1) && FieldEnough(v, p, d + 1)
    decreases d, 0, 0
  {
    if Handwritten(w.env, t) {
      p := Unused(w);
      PutTyped(w, p, t, HandCell(t, 0));
      v := Put(w, p, t, HandCell(t, 0));
    } else if Underlying(w.env, t).StructT? {
      var fs := Underlying(w.env, t).fields;
      var u, ps := AllocFields(w, fs, |fs|, d - 1);
      p := Unused(u);
      PutTyped(u, p, t, StructCell(ps));
      v := Put(u, p, t, StructCell(ps));
      StructEnough(u, v, p, ps, d);
    } else {
      p := Unused(w);
      PutTyped(w, p, t, ZeroValue(w.env, t));
      v := Put(w, p, t, ZeroValue(w.env, t));
    }
  }

  lemma StructEnough(u: World, v: World, p: Loc, ps: seq<Loc>, d: nat)
    requires WellTyped(u) && Extends(u, v) && p in v.h && p in v.ty && v.h[p] == StructCell(ps)
    requires forall i :: 0 <= i < |ps| ==> ps[i] in u.h && FieldEnough(u, ps[i], d)
    requires !v.ty[p].PointerT?
    ensures Enough(v, p, d + 1) && FieldEnough(v, p, d + 1)
  {
    forall q: Loc | Calls(v, p, q) ensures Enough(v, q, d) {
      var i: nat :| i < FieldCount(v, p) && Callee(v, FieldLoc(v, p, i)) == Some(q);
      FieldEnoughExtends(u, v, ps[i], d);
    }
  }

  lemma {:induction false} AllocFields(w: World, fs: seq<Field>, n: nat, d: nat) returns (v: World, ps: seq<Loc>)
    requires WellTyped(w) && n <= |fs| && forall i :: 0 <= i < n ==> Sized(w.env, fs[i].ty, d)
    ensures WellTyped(v) && Extends(w, v) && |ps| == n
    ensures forall i :: 0 <= i < n ==> ps[i] in v.h && v.ty[ps[i]] == fs[i].ty && FieldEnough(v, ps[i], d + 1)
    decreases d, 1, n
  {
    if n == 0 {
      v, ps := w, [];
    } else {
      var u, qs := AllocFields(w, fs, n - 1, d);
      var p;
      v, p := Alloc(u, fs[n - 1].ty, d);
      ps := qs + [p];
      forall i | 0 <= i < n - 1 ensures FieldEnough(v, ps[i], d + 1) {
        FieldEnoughExtends(u, v, qs[i], d + 1);
      }
    }
  }

  // ---- a value some rule is about, that only a chain of pointers leads to ----

  /** `x` is new and, unless its Reset is called, not as the rules want it. */
  ghost predicate Spoiled(w: World, v: World, x: Loc) {
    && x in v.h && x in v.ty && x !in w.h
    && (Bears(v.env, v.ty[x]) ||
        match Underlying(v.env, v.ty[x])
        case BasicT(k) => v.h[x] != BasicCell(ZeroOf(k))
        case SliceT(_) => v.h[x].SliceCell? && v.h[x].len != 0
        case MapT(_, _) =>
          && v.h[x].MapCell? && v.h[x].ref.Some?
          && v.h[x].ref.value in v.h && v.h[x].ref.value !in w.h && v.h[v.h[x].ref.value] != MapStore(map[])
        case _ => false)
  }

  lemma SpoiledExtends(w: World, u: World, v: World, x: Loc)
    requires Spoiled(w, u, x) && Extends(u, v)
    ensures Spoiled(w, v, x)
  {
  }

  function NonZero(k: BasicKind): Value {
    match k
    case Bool => BoolV(true)
    case Text => TextV("x")
    case Numeric => NumV(1)
  }

  lemma Dirty(w: World, t: Type) returns (v: World, x: Loc)
    requires WellTyped(w) && FiniteSize(w.env) && Ruled(w.env, t)
    ensures WellTyped(v) && Extends(w, v) && x in v.h && v.ty[x] == t && Spoiled(w, v, x)
  {
    if Bears(w.env, t) {
      var d: nat;
      if Handwritten(w.env, t) {
        d := 0;
      } else {
        assert t == MarkedType(w.env, t.id.name);
        d :| Sized(w.env, t, d);
      }
      v, x := Alloc(w, t, d);
    } else if Underlying(w.env, t).MapT? {
      var store := Unused(w);
      OtherHasNoReset(w.env);
      PutTyped(w, store, OtherT, MapStore(map[0 := 1]));
      var u := Put(w, store, OtherT, MapStore(map[0 := 1]));
      x := Unused(u);
      BareHasNoReset(w.env, t);
      PutTyped(u, x, t, MapCell(Some(store)));
      v := Put(u, x, t, MapCell(Some(store)));
      assert 0 in v.h[store].entries;
    } else {
      x := Unused(w);
      BareHasNoReset(w.env, t);
      assert |"x"| == 1;
      var c := if Underlying(w.env, t).SliceT? then SliceCell(3, 0, 3) else BasicCell(NonZero(Underlying(w.env, t).kind));
      PutTyped(w, x, t, c);
      v := Put(w, x, t, c);
    }
  }

  lemma OtherHasNoReset(env: Env)
    ensures !HasReset(env, OtherT)
  {
    forall d: nat ensures Hits(env, OtherT, d) == 0 {
      assert FieldsOf(env, OtherT) == [];
    }
  }

  lemma BareHasNoReset(env: Env, t: Type)
    requires !Bears(env, t)
    ensures !Handwritten(env, t)
  {
    if t.PointerT? {
      PointersHaveNoReset(env, t);
    }
  }

  /** `k` dereferences lead from `p` to `x` through new variables only. */
  predicate Leads(w: World, v: World, p: Loc, k: nat, x: Loc)
    decreases k
  {
    && p in v.h && p !in w.h
    && if k == 0 then p == x else v.h[p].PtrCell? && v.h[p].to.Some? && Leads(w, v, v.h[p].to.value, k - 1, x)
  }

  lemma {:induction false} LeadsExtends(w: World, u: World, v: World, p: Loc, k: nat, x: Loc)
    requires Leads(w, u, p, k, x) && Extends(u, v)
    ensures Leads(w, v, p, k, x)
    decreases k
  {
    if k > 0 {
      LeadsExtends(w, u, v, u.h[p].to.value, k - 1, x);
    }
  }

  lemma {:induction false} LeadsFollow(w: World, v: World, g: World, p: Loc, k: nat, x: Loc)
    requires Leads(w, v, p, k, x)
    requires forall l :: l in v.h && l !in w.h ==> l in g.h && g.h[l] == v.h[l]
    ensures Follow(g, p, k) == Some(x)
    decreases k
  {
    if k > 0 {
      LeadsFollow(w, v, g, v.h[p].to.value, k - 1, x);
    }
  }

  lemma {:induction false} Chain(w: World, t: Type, k: nat) returns (v: World, p: Loc, x: Loc)
    requires WellTyped(w) && FiniteSize(w.env)
    requires Strip(w.env, t, k).Some? && Ruled(w.env, Strip(w.env, t, k).value)
    ensures WellTyped(v) && Extends(w, v) && p in v.h && v.ty[p] == t
    ensures Leads(w, v, p, k, x) && Spoiled(w, v, x)
    decreases k
  {
    if k == 0 {
      v, p := Dirty(w, t);
      x := p;
    } else {
      var u, q;
      u, q, x := Chain(w, Underlying(w.env, t).elem, k - 1);
      v, p := PointTo(w, u, t, q, k - 1, x);
      SpoiledExtends(w, u, v, x);
    }
  }

  /** One more pointer in front. */
  lemma PointTo(w: World, u: World, t: Type, q: Loc, k: nat, x: Loc) returns (v: World, p: Loc)
    requires WellTyped(u) && Extends(w, u) && !Bears(u.env, t) && Underlying(u.env, t).PointerT?
    requires q in u.h && u.ty[q] == Underlying(u.env, t).elem && Leads(w, u, q, k, x)
    ensures WellTyped(v) && Extends(w, v) && Extends(u, v) && p in v.h && v.ty[p] == t && Leads(w, v, p, k + 1, x)
  {
    p := Unused(u);
    BareHasNoReset(u.env, t);
    PutTyped(u, p, t, PtrCell(Some(q)));
    v := Put(u, p, t, PtrCell(Some(q)));
    LeadsExtends(w, u, v, q, k, x);
  }

  // ---- pointing a field at it ----

  function Redirect(w: World, f: Loc, p: Loc): World {
    w.(h := w.h[f := PtrCell(Some(p))])
  }

  /** A pointer the generator has no statement for. */
  ghost predicate Ignored(w: World, f: Loc) {
    && f in w.h && f in w.ty && w.h[f].PtrCell? && !HasOrWillHaveReset(w.env, w.ty[f])
    && Underlying(w.env, w.ty[f]).PointerT?
    && !(w.ty[f].PointerT? && Underlying(w.env, w.ty[f].elem).BasicT?)
  }

  lemma RedirectTyped(w: World, f: Loc, p: Loc)
    requires WellTyped(w) && Ignored(w, f) && p in w.h && w.ty[p] == Underlying(w.env, w.ty[f]).elem
    ensures WellTyped(Redirect(w, f, p))
  {
    var v := Redirect(w, f, p);
    forall l | l in v.h ensures TypedAt(v, l) {
      assert TypedAt(w, l);
    }
  }

  lemma RedirectCalls(w: World, f: Loc, p: Loc, o: Loc, q: Loc)
    requires Ignored(w, f)
    ensures Calls(Redirect(w, f, p), o, q) <==> Calls(w, o, q)
  {
    var v := Redirect(w, f, p);
    assert FieldCount(v, o) == FieldCount(w, o);
    forall i: nat | i < FieldCount(w, o) ensures Callee(v, FieldLoc(v, o, i)) == Callee(w, FieldLoc(w, o, i)) {
    }
  }

  lemma {:induction false} RedirectEnough(w: World, f: Loc, p: Loc, o: Loc, fuel: nat)
    requires Ignored(w, f) && Enough(w, o, fuel)
    ensures Enough(Redirect(w, f, p), o, fuel)
    decreases fuel
  {
    forall q: Loc | Calls(Redirect(w, f, p), o, q) ensures Enough(Redirect(w, f, p), q, fuel - 1) {
      RedirectCalls(w, f, p, o, q);
      RedirectEnough(w, f, p, q, fuel - 1);
    }
  }

  /** Calls that start among the old objects stay there. */
  lemma {:induction false} StaysInside(w: World, u: World, f: Loc, p: Loc, ps: seq<Loc>)
    requires WellTyped(w) && Extends(w, u) && Ignored(u, f)
    requires CallPath(Redirect(u, f, p), ps) && ps[0] in w.h
    ensures ps[|ps| - 1] in w.h
    decreases |ps|
  {
    if |ps| > 1 {
      var n := |ps| - 1;
      var front := ps[..n];
      forall k | 0 <= k < |front| - 1 ensures Calls(Redirect(u, f, p), front[k], front[k + 1]) {
        assert Calls(Redirect(u, f, p), ps[k], ps[k + 1]);
      }
      StaysInside(w, u, f, p, front);
      assert Calls(Redirect(u, f, p), ps[n - 1], ps[n]);
      RedirectCalls(u, f, p, ps[n - 1], ps[n]);
      CallsExtend(w, u, ps[n - 1], ps[n]);
      CalledIsObject(w, ps[n - 1], ps[n]);
    }
  }

  /** And they clear old variables only. */
  lemma OwnsInside(w: World, u: World, f: Loc, p: Loc, o: Loc, y: Loc)
    requires WellTyped(w) && Extends(w, u) && Ignored(u, f) && o in w.h && Owns(Redirect(u, f, p), o, y)
    ensures y in w.h
  {
    var v := Redirect(u, f, p);
    if IsMarked(w.env, w.ty[o]) {
      FieldsOfMarked(w, o);
      MarkedIsStruct(w, o);
      assert v.h[o] == w.h[o];
      var i: nat :| i < FieldCount(v, o) && Cleared(v, FieldLoc(v, o, i)) == Some(y);
      var l := FieldLoc(w, o, i);
      assert l != f;
      assert Cleared(w, l) == Some(y);
      PlainFieldTyped(w, l);
    }
  }

  lemma ClearsInside(w: World, u: World, f: Loc, p: Loc, root: Loc)
    requires WellTyped(w) && Extends(w, u) && Ignored(u, f) && root in w.h
    ensures MustClearSet(Redirect(u, f, p), root) <= w.h.Keys
    ensures forall x :: Called(Redirect(u, f, p), root, x) ==> x in w.h
  {
    var v := Redirect(u, f, p);
    forall y | MustClear(v, root, y) ensures y in w.h {
      var ps :| CallPath(v, ps) && ps[0] == root && Owns(v, ps[|ps| - 1], y);
      StaysInside(w, u, f, p, ps);
      OwnsInside(w, u, f, p, ps[|ps| - 1], y);
    }
    forall x | Called(v, root, x) ensures x in w.h {
      var ps :| CallPath(v, ps) && ps[0] == root && ps[|ps| - 1] == x;
      StaysInside(w, u, f, p, ps);
    }
  }

  /** A field that a completed call reset, with some rule unmet. */
  ghost predicate Broken(v: World, ext: External, root: Loc, fuel: nat, i: nat) {
    && Completed(v, ext, root, fuel, root) && i < FieldCount(v, root)
    && !FieldIsReset(v, ext, root, After(v, ext, root, fuel), FieldLoc(v, root, i))
  }

  lemma SelfCalled(w: World, root: Loc)
    ensures Called(w, root, root)
  {
    assert CallPath(w, [root]);
  }

  lemma RedirectCompletes(u: World, ext: External, root: Loc, f: Loc, p: Loc, fuel: nat)
    requires WellTyped(u) && Ignored(u, f) && p in u.h && u.ty[p] == Underlying(u.env, u.ty[f]).elem
    requires root in u.ty && IsMarked(u.env, u.ty[root]) && Enough(u, root, fuel)
    ensures Completed(Redirect(u, f, p), ext, root, fuel, root)
  {
    RedirectTyped(u, f, p);
    RedirectEnough(u, f, p, root, fuel);
    RunFinishesIffEnough(Redirect(u, f, p), ext, root, fuel);
    SelfCalled(Redirect(u, f, p), root);
  }

  lemma SpoiledStays(w: World, u: World, ext: External, root: Loc, f: Loc, p: Loc, fuel: nat, x: Loc)
    requires WellTyped(w) && Extends(w, u) && Ignored(u, f) && f in w.h && root in w.h && Repeatable(ext)
    requires Completed(Redirect(u, f, p), ext, root, fuel, root) && Spoiled(w, u, x)
    ensures var v := Redirect(u, f, p);
            x in v.ty && x in v.h && !ValueIsReset(v, ext, root, After(v, ext, root, fuel), x)
  {
    var v := Redirect(u, f, p);
    ClearsInside(w, u, f, p, root);
    ResetClearsExactly(v, ext, root, fuel);
    assert x != f;
    var g := After(v, ext, root, fuel);
    assert forall l :: l in v.h && l !in w.h ==> g[l] == v.h[l] == u.h[l];
  }

  /** The zero object, on whose field the generator has nothing to say. */
  lemma Blank(env: Env, name: string, i: nat) returns (w: World, root: Loc, fuel: nat)
    requires FiniteSize(env) && name in env.marked && i < |FieldsOf(env, MarkedType(env, name))|
    requires !MeetsRules(env, FieldsOf(env, MarkedType(env, name))[i].ty)
    ensures WellTyped(w) && w.env == env && root in w.h && w.ty[root] == MarkedType(env, name) && Enough(w, root, fuel)
    ensures i < FieldCount(w, root) && Ignored(w, FieldLoc(w, root, i))
    ensures w.ty[FieldLoc(w, root, i)] == FieldsOf(env, MarkedType(env, name))[i].ty
  {
    var d: nat :| Sized(env, MarkedType(env, name), d);
    w, root := Alloc(World(env, map[], map[]), MarkedType(env, name), d);
    fuel := d + 1;
    FieldsOfMarked(w, root);
    UnmetIsIgnored(w, FieldLoc(w, root, i));
  }

  lemma UnmetIsIgnored(w: World, f: Loc)
    requires WellTyped(w) && f in w.h && !MeetsRules(w.env, w.ty[f])
    ensures Ignored(w, f)
  {
    var k: nat :| PointsAtRuled(w.env, w.ty[f], k);
    BareHasNoReset(w.env, w.ty[f]);
    assert TypedAt(w, f);
  }

  lemma IgnoredExtends(w: World, u: World, f: Loc)
    requires Ignored(w, f) && Extends(w, u)
    ensures Ignored(u, f)
  {
  }

  /** For every field type outside the condition there is a heap on which a rule fails. */
  lemma Counterexample(env: Env, ext: External, name: string, i: nat) returns (v: World, root: Loc, fuel: nat)
    requires Repeatable(ext) && FiniteSize(env) && name in env.marked
    requires i < |FieldsOf(env, MarkedType(env, name))|
    requires !MeetsRules(env, FieldsOf(env, MarkedType(env, name))[i].ty)
    ensures v.env == env && root in v.ty && v.ty[root] == MarkedType(env, name)
    ensures Broken(v, ext, root, fuel, i)
  {
    var w;
    w, root, fuel := Blank(env, name, i);
    v := Spoil(w, ext, root, fuel, i);
  }

  /** The field led to a new value that the rules are about. */
  lemma Spoil(w: World, ext: External, root: Loc, fuel: nat, i: nat) returns (v: World)
    requires WellTyped(w) && Repeatable(ext) && FiniteSize(w.env) && root in w.h && IsMarked(w.env, w.ty[root])
    requires Enough(w, root, fuel) && i < FieldCount(w, root)
    requires Ignored(w, FieldLoc(w, root, i)) && !MeetsRules(w.env, w.ty[FieldLoc(w, root, i)])
    ensures v.env == w.env && root in v.ty && v.ty[root] == w.ty[root] && Broken(v, ext, root, fuel, i)
  {
    var f := FieldLoc(w, root, i);
    var k: nat :| PointsAtRuled(w.env, w.ty[f], k);
    var u, p, x := Chain(w, Underlying(w.env, w.ty[f]).elem, k - 1);
    IgnoredExtends(w, u, f);
    EnoughExtends(w, u, root, fuel);
    v := Redirect(u, f, p);
    RedirectCompletes(u, ext, root, f, p, fuel);
    SpoiledStays(w, u, ext, root, f, p, fuel, x);
    Unreset(w, u, v, ext, root, After(v, ext, root, fuel), f, p, k, x);
  }

  lemma Unreset(w: World, u: World, v: World, ext: External, root: Loc, g: Heap, f: Loc, p: Loc, k: nat, x: Loc)
    requires f in w.h && v == Redirect(u, f, p) && k > 0 && Leads(w, u, p, k - 1, x)
    requires x in v.ty && x in v.h && !ValueIsReset(v, ext, root, g, x)
    ensures !FieldIsReset(v, ext, root, g, f)
  {
    LeadsFollow(w, u, v, p, k - 1, x);
    assert Follow(v, f, k) == Some(x);
  }

  /** Field `i` of the named struct is reset by all the rules in every object a completed call
      reaches, on every well-typed heap. */
  ghost predicate AlwaysReset(env: Env, ext: External, name: string, i: nat) {
    forall w, root, fuel, o ::
      Completed(w, ext, root, fuel, o) && w.env == env && w.ty[o] == MarkedType(env, name) && i < FieldCount(w, o) ==>
        FieldIsReset(w, ext, root, After(w, ext, root, fuel), FieldLoc(w, o, i))
  }

  /** The reset rules hold of a field on all heaps iff its declared type meets the condition: a
      pointer's value is reset iff the generator has a statement for its type, unless the rules
      ask nothing of what it leads to. */
  lemma RulesMetIff(env: Env, ext: External, name: string, i: nat)
    requires Repeatable(ext) && FiniteSize(env) && name in env.marked
    requires i < |FieldsOf(env, MarkedType(env, name))|
    ensures AlwaysReset(env, ext, name, i) <==> MeetsRules(env, FieldsOf(env, MarkedType(env, name))[i].ty)
  {
    if MeetsRules(env, FieldsOf(env, MarkedType(env, name))[i].ty) {
      forall w, root, fuel, o |
        Completed(w, ext, root, fuel, o) && w.env == env && w.ty[o] == MarkedType(env, name) && i < FieldCount(w, o)
        ensures FieldIsReset(w, ext, root, After(w, ext, root, fuel), FieldLoc(w, o, i))
      {
        FieldsOfMarked(w, o);
        RulesMet(w, ext, root, fuel, o, i);
      }
    } else {
      var v, root, fuel := Counterexample(env, ext, name, i);
    }
  }

  // ---- two small heaps ----

  /** A marked struct with a pointer to a slice of length three. */
  function SliceBehindPointer(): World {
    var list := SliceT(BasicT(Numeric));
    World(Env(map[TypeId("p", "A") := Struct([Field("list", PointerT(list), false)], false)], "p", {"A"}),
          map[0 := Named("A"), 1 := PointerT(list), 2 := list],
          map[0 := StructCell([1]), 1 := PtrCell(Some(2)), 2 := SliceCell(3, 0, 3)])
  }

  lemma NoMethods(env: Env, t: Type)
    requires !t.NamedT? && !t.StructT?
    ensures !HasReset(env, t) && !IsMarked(env, t)
  {
    forall d: nat ensures Hits(env, t, d) == 0 {
      assert FieldsOf(env, t) == [];
    }
  }

  /** The last rule fails: Reset returns with the heap unchanged, the slice still of length three. */
  lemma PointerRuleFails(ext: External)
    ensures var w := SliceBehindPointer();
            && WellTyped(w)
            && RunReset(w.env, ext, w.h, Named("A"), 0, 1) == Finished(w.h)
            && !FieldIsReset(w, ext, 0, w.h, 1)
  {
    var w := SliceBehindPointer();
    var list := SliceT(BasicT(Numeric));
    NoMethods(w.env, list);
    NoMethods(w.env, PointerT(list));
    assert IsMarked(w.env, Named("A"));
    forall l | l in w.h ensures TypedAt(w, l) {
    }
    var fs := FieldsOf(w.env, Named("A"));
    assert ResetField(w.env, fs[0].ty).None?;
    CodeByField(w, 0);
    assert RunFields(w.env, ext, w.h, Code(w, 0), fs, [1], 0, 0) == Finished(w.h);
    assert Follow(w, 2, 0) == Some(2);
    assert Follow(w, 1, 1) == Some(2);
    assert !ValueIsReset(w, ext, 0, w.h, 2);
  }

  /** A list node that is its own successor. */
  function SelfLoop(): World {
    World(Env(map[TypeId("p", "Node") := Struct([Field("next", PointerT(Named("Node")), false)], false)], "p", {"Node"}),
          map[0 := Named("Node"), 1 := PointerT(Named("Node"))],
          map[0 := StructCell([1]), 1 := PtrCell(Some(0))])
  }

  /** However deep the stack, its Reset does not return. */
  lemma CyclicResetDiverges(ext: External, fuel: nat)
    ensures var w := SelfLoop();
            && WellTyped(w) && Resettable(w, 0)
            && RunReset(w.env, ext, w.h, Named("Node"), 0, fuel) == OutOfFuel
  {
    var w := SelfLoop();
    var node := Named("Node");
    NoMethods(w.env, PointerT(node));
    assert IsMarked(w.env, node);
    forall l | l in w.h ensures TypedAt(w, l) {
    }
    assert Callee(w, FieldLoc(w, 0, 0)) == Some(0);
    assert Calls(w, 0, 0);
    var ps := [0, 0];
    assert CallPath(w, ps) && ps[0] == ps[1];
    ResetTerminatesIff(w, ext, 0);
  }
}
