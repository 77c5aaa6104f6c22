/** The reset rules of the project README (lines 525-533) against the generated code: basic
    values to zero, slices to length zero, maps emptied, nested structs with Reset have it
    called, and every non-nil pointer has its value reset by the same rules. */
module ResetRules {
  import opened Model
  import opened ResetGenerator
  import opened ResetMachine

  // ---- the rules ----

  /** Where `k` dereferences lead from a variable, while pointers are not nil. */
  function Follow(w: World, l: Loc, k: nat): Option<Loc>
    decreases k
  {
    if k == 0 then Some(l)
    else if l in w.h && w.h[l].PtrCell? && w.h[l].to.Some? then Follow(w, w.h[l].to.value, k - 1)
    else None
  }

  /** Reset ran on `x`: a chain of calls from the root ends there. */
  ghost predicate Called(w: World, root: Loc, x: Loc) {
    exists ps :: CallPath(w, ps) && ps[0] == root && ps[|ps| - 1] == x
  }

  /** A value of this type has a Reset method, now or once the file is written. */
  ghost predicate Bears(env: Env, t: Type) {
    !t.PointerT? && HasOrWillHaveReset(env, t)
  }

  /** The zero value of a primitive. */
  function ZeroOf(k: BasicKind): Value {
    match k
    case Bool => BoolV(false)
    case Text => TextV("")
    case Numeric => NumV(0)
  }

  /** The rule for the value at `x`, read off the heap `g` after the call: by its type, with
      nothing asked of kinds the rules do not name. */
  ghost predicate ValueIsReset(w: World, ext: External, root: Loc, g: Heap, x: Loc)
    requires x in w.ty && x in w.h
  {
    if Bears(w.env, w.ty[x]) then
      Called(w, root, x) && forall y :: y in w.h && MustClear(w, x, y) ==> Holds(g, y, ZeroCell(ext, w.h[y]))
    else match Underlying(w.env, w.ty[x])
      case BasicT(k) => Holds(g, x, BasicCell(ZeroOf(k)))
      case SliceT(_) => w.h[x].SliceCell? && Holds(g, x, w.h[x].(len := 0))
      case MapT(_, _) => w.h[x].MapCell? && (w.h[x].ref.Some? ==> Holds(g, w.h[x].ref.value, MapStore(map[])))
      case _ => true
  }

  /** All the rules for one field: its own value, and every value its pointers lead to. */
  ghost predicate FieldIsReset(w: World, ext: External, root: Loc, g: Heap, f: Loc) {
    forall k: nat, x: Loc :: Follow(w, f, k) == Some(x) ==>
                               x in w.ty && x in w.h && ValueIsReset(w, ext, root, g, x)
  }

  // ---- which field types the generator meets them for ----

  /** The type of the value `k` dereferences away. */
  ghost function Strip(env: Env, t: Type, k: nat): Option<Type>
    decreases k
  {
    if k == 0 then Some(t)
    else if !Bears(env, t) && Underlying(env, t).PointerT? then Strip(env, Underlying(env, t).elem, k - 1)
    else None
  }

  /** Some rule asks something of values of this type. */
  ghost predicate Ruled(env: Env, t: Type) {
    Bears(env, t) || Underlying(env, t).BasicT? || Underlying(env, t).SliceT? || Underlying(env, t).MapT?
  }

  ghost predicate PointsAtRuled(env: Env, t: Type, k: nat) {
    k > 0 && Strip(env, t, k).Some? && Ruled(env, Strip(env, t, k).value)
  }

  /** No pointer, or a pointer type the generator has a statement for (to a type with Reset, or
      written out to a basic type), or pointers that lead to nothing the rules name. */
  ghost predicate MeetsRules(env: Env, t: Type) {
    || HasOrWillHaveReset(env, t)
    || (t.PointerT? && Underlying(env, t.elem).BasicT?)
    || forall k: nat :: !PointsAtRuled(env, t, k)
  }

  // ---- where they are met ----

  /** A completed call of Reset on `root` of a well-typed heap, during which the object `o`,
      whose Reset is generated, was reset. */
  ghost predicate Completed(w: World, ext: External, root: Loc, fuel: nat, o: Loc) {
    && WellTyped(w) && Resettable(w, root)
    && RunReset(w.env, ext, w.h, w.ty[root], root, fuel).Finished?
    && Called(w, root, o) && o in w.ty && IsMarked(w.env, w.ty[o])
  }

  ghost function After(w: World, ext: External, root: Loc, fuel: nat): Heap
    requires root in w.ty && RunReset(w.env, ext, w.h, w.ty[root], root, fuel).Finished?
  {
    RunReset(w.env, ext, w.h, w.ty[root], root, fuel).h
  }

  lemma PointerTyped(w: World, l: Loc)
    requires WellTyped(w) && l in w.h && w.h[l].PtrCell?
    ensures !Bears(w.env, w.ty[l]) && Underlying(w.env, w.ty[l]).PointerT?
    ensures w.h[l].to.Some? ==> w.h[l].to.value in w.h && w.ty[w.h[l].to.value] == Underlying(w.env, w.ty[l]).elem
  {
    assert TypedAt(w, l);
    if IsMarked(w.env, w.ty[l]) {
      MarkedIsStruct(w, l);
    }
  }

  lemma {:induction false} FollowTyped(w: World, l: Loc, k: nat)
    requires WellTyped(w) && l in w.h && Follow(w, l, k).Some?
    ensures Follow(w, l, k).value in w.h && Strip(w.env, w.ty[l], k) == Some(w.ty[Follow(w, l, k).value])
    decreases k
  {
    if k > 0 {
      PointerTyped(w, l);
      FollowTyped(w, w.h[l].to.value, k - 1);
    }
  }

  /** What a call on a called object must clear, the whole call must clear. */
  lemma CallsClear(w: World, root: Loc, x: Loc, y: Loc)
    requires Called(w, root, x) && MustClear(w, x, y)
    ensures MustClear(w, root, y)
  {
    var ps :| CallPath(w, ps) && ps[0] == root && ps[|ps| - 1] == x;
    var qs :| CallPath(w, qs) && qs[0] == x && Owns(w, qs[|qs| - 1], y);
    var all := ps + qs[1..];
    forall k | 0 <= k < |all| - 1 ensures Calls(w, all[k], all[k + 1]) {
      if k < |ps| - 1 {
        assert Calls(w, ps[k], ps[k + 1]);
      } else {
        assert all[k] == qs[k - |ps| + 1];
        assert Calls(w, qs[k - |ps| + 1], qs[k - |ps| + 2]);
      }
    }
    assert all[|all| - 1] == qs[|qs| - 1];
    assert CallPath(w, all) && all[0] == root;
  }

  lemma CalledIsReset(w: World, ext: External, root: Loc, g: Heap, x: Loc)
    requires Called(w, root, x) && g == Wipe(ext, w.h, MustClearSet(w, root))
    requires x in w.ty && x in w.h && Bears(w.env, w.ty[x])
    ensures ValueIsReset(w, ext, root, g, x)
  {
    forall y | y in w.h && MustClear(w, x, y) ensures Holds(g, y, ZeroCell(ext, w.h[y])) {
      CallsClear(w, root, x, y);
    }
  }

  lemma CalleeIsCalled(w: World, root: Loc, ps: seq<Loc>, i: nat)
    requires CallPath(w, ps) && ps[0] == root && i < FieldCount(w, ps[|ps| - 1])
    requires Callee(w, FieldLoc(w, ps[|ps| - 1], i)).Some?
    ensures Called(w, root, Callee(w, FieldLoc(w, ps[|ps| - 1], i)).value)
  {
    var o := ps[|ps| - 1];
    var qs := ps + [Callee(w, FieldLoc(w, o, i)).value];
    forall k | 0 <= k < |qs| - 1 ensures Calls(w, qs[k], qs[k + 1]) {
      if k < |ps| - 1 {
        assert Calls(w, ps[k], ps[k + 1]);
      }
    }
    assert CallPath(w, qs) && qs[0] == root && qs[|qs| - 1] == Callee(w, FieldLoc(w, o, i)).value;
  }

  /** A field with Reset: the object it holds or points to had it called. */
  lemma BearingFieldIsReset(w: World, ext: External, root: Loc, g: Heap, ps: seq<Loc>, i: nat)
    requires WellTyped(w) && g == Wipe(ext, w.h, MustClearSet(w, root))
    requires CallPath(w, ps) && ps[0] == root && i < FieldCount(w, ps[|ps| - 1])
    requires FieldLoc(w, ps[|ps| - 1], i) in w.h && HasOrWillHaveReset(w.env, w.ty[FieldLoc(w, ps[|ps| - 1], i)])
    ensures FieldIsReset(w, ext, root, g, FieldLoc(w, ps[|ps| - 1], i))
  {
    var f := FieldLoc(w, ps[|ps| - 1], i);
    forall k: nat, x: Loc | Follow(w, f, k) == Some(x)
      ensures x in w.ty && x in w.h && ValueIsReset(w, ext, root, g, x)
    {
      FollowTyped(w, f, k);
      BearingTyped(w, f);
      if w.ty[f].PointerT? && k == 0 {
        PointersHaveNoReset(w.env, w.ty[f]);
      } else {
        BearingChain(w, f, k);
        CalleeIsCalled(w, root, ps, i);
        CalledIsReset(w, ext, root, g, x);
      }
    }
  }

  /** Following a field with Reset leads to the object its Reset is called on and no further. */
  lemma BearingChain(w: World, f: Loc, k: nat)
    requires WellTyped(w) && f in w.h && HasOrWillHaveReset(w.env, w.ty[f]) && Follow(w, f, k).Some?
    requires w.ty[f].PointerT? ==> k > 0
    ensures Callee(w, f) == Follow(w, f, k)
    ensures Bears(w.env, w.ty[Follow(w, f, k).value])
  {
    FollowTyped(w, f, k);
    if !w.ty[f].PointerT? {
      if k > 0 {
        PointerTyped(w, f);
      }
    } else {
      var p := w.h[f].to.value;
      PointerTyped(w, f);
      assert Bears(w.env, w.ty[p]) by {
        if w.ty[p].PointerT? {
          PointersHaveNoReset(w.env, w.ty[p]);
        }
      }
      if k > 1 {
        PointerTyped(w, p);
      }
    }
  }

  /** A field without Reset whose own statement is all the rules ask for. */
  lemma PlainFieldIsReset(w: World, ext: External, root: Loc, g: Heap, f: Loc, k: nat)
    requires WellTyped(w) && g == Wipe(ext, w.h, MustClearSet(w, root)) && f in w.h
    requires !HasOrWillHaveReset(w.env, w.ty[f]) && MeetsRules(w.env, w.ty[f])
    requires Cleared(w, f).Some? ==> Cleared(w, f).value in MustClearSet(w, root)
    requires Follow(w, f, k).Some?
    ensures var x := Follow(w, f, k).value;
            x in w.ty && x in w.h && ValueIsReset(w, ext, root, g, x)
  {
    FollowTyped(w, f, k);
    PlainFieldTyped(w, f);
    if k > 0 && w.ty[f].PointerT? && Underlying(w.env, w.ty[f].elem).BasicT? {
      var p := w.h[f].to.value;
      assert Cleared(w, f) == Some(p);
      if k > 1 {
        PointerTyped(w, p);
      }
    } else if k > 0 {
      assert !PointsAtRuled(w.env, w.ty[f], k);
    }
  }

  lemma SimpleFieldIsReset(w: World, ext: External, root: Loc, g: Heap, f: Loc)
    requires WellTyped(w) && g == Wipe(ext, w.h, MustClearSet(w, root)) && f in w.h
    requires !HasOrWillHaveReset(w.env, w.ty[f]) && MeetsRules(w.env, w.ty[f])
    requires Cleared(w, f).Some? ==> Cleared(w, f).value in MustClearSet(w, root)
    ensures FieldIsReset(w, ext, root, g, f)
  {
    forall k: nat, x: Loc | Follow(w, f, k) == Some(x)
      ensures x in w.ty && x in w.h && ValueIsReset(w, ext, root, g, x)
    {
      PlainFieldIsReset(w, ext, root, g, f, k);
    }
  }

  /** In every object reached, every field whose type meets the condition is reset by all the
      rules, whatever else points to the same values. */
  lemma RulesMet(w: World, ext: External, root: Loc, fuel: nat, o: Loc, i: nat)
    requires Repeatable(ext) && Completed(w, ext, root, fuel, o) && i < FieldCount(w, o)
    ensures FieldLoc(w, o, i) in w.ty
    ensures MeetsRules(w.env, w.ty[FieldLoc(w, o, i)]) ==>
              FieldIsReset(w, ext, root, After(w, ext, root, fuel), FieldLoc(w, o, i))
  {
    var ps :| CallPath(w, ps) && ps[0] == root && ps[|ps| - 1] == o;
    FieldsOfMarked(w, o);
    ResetClearsExactly(w, ext, root, fuel);
    if MeetsRules(w.env, w.ty[FieldLoc(w, o, i)]) {
      FieldMet(w, ext, root, After(w, ext, root, fuel), ps, i);
    }
  }

  lemma FieldMet(w: World, ext: External, root: Loc, g: Heap, ps: seq<Loc>, i: nat)
    requires WellTyped(w) && g == Wipe(ext, w.h, MustClearSet(w, root))
    requires CallPath(w, ps) && ps[0] == root && i < FieldCount(w, ps[|ps| - 1])
    requires FieldLoc(w, ps[|ps| - 1], i) in w.h && MeetsRules(w.env, w.ty[FieldLoc(w, ps[|ps| - 1], i)])
    ensures FieldIsReset(w, ext, root, g, FieldLoc(w, ps[|ps| - 1], i))
  {
    if HasOrWillHaveReset(w.env, w.ty[FieldLoc(w, ps[|ps| - 1], i)]) {
      BearingFieldIsReset(w, ext, root, g, ps, i);
    } else {
      OwnedIsCleared(w, root, ps, i);
      SimpleFieldIsReset(w, ext, root, g, FieldLoc(w, ps[|ps| - 1], i));
    }
  }
}
