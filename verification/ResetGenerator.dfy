/** cmd/reset/generate/generate.go: the translation of Go field types into Reset statements.
    Types are what go/types reports; the statements of one field are one `Stmt`. */
module ResetGenerator {
  import opened Model
  import opened Order

  datatype BasicKind = Bool | Text | Numeric

  datatype TypeId = TypeId(pkg: string, name: string)

  datatype Type =
    | BasicT(kind: BasicKind)
    | SliceT(elem: Type)
    | MapT(key: Type, elem: Type)
    | PointerT(elem: Type)
    | NamedT(id: TypeId)
    | StructT(fields: seq<Field>)
    | OtherT                        // array, channel, function, interface

  datatype Field = Field(name: string, ty: Type, embedded: bool)

  /** A declared type: its underlying type, whether it declares `Reset()`, whether it is an interface. */
  datatype Decl = Decl(underlying: Type, resets: bool, isInterface: bool)

  /** One package under generation, with the names that carry the marker. */
  datatype Env = Env(decls: map<TypeId, Decl>, pkg: string, marked: set<string>)

  datatype Zero = FalseLit | EmptyLit | ZeroLit

  datatype Stmt =
    | CallReset                // f.Reset()
    | IfNonNilCallReset        // if f != nil { f.Reset() }
    | Assign(z: Zero)          // f = z
    | Truncate                 // f = f[:0]
    | Clear                    // clear(f)
    | IfNonNilAssign(z: Zero)  // if f != nil { *f = z }

  function Underlying(env: Env, t: Type): Type {
    if t.NamedT? && t.id in env.decls then env.decls[t.id].underlying else t
  }

  function Deref(t: Type): Type {
    if t.PointerT? then t.elem else t
  }

  predicate Declares(env: Env, t: Type) {
    t.NamedT? && t.id in env.decls && env.decls[t.id].resets
  }

  function FieldsOf(env: Env, t: Type): seq<Field> {
    var u := Underlying(env, t);
    if u.StructT? then u.fields else []
  }

  // ---- method sets with promotion through embedded fields ----

  /** How many `Reset` methods are found at embedding depth `d`. */
  function Hits(env: Env, t: Type, d: nat): nat
    decreases d, 1, 0
  {
    if d == 0 then (if Declares(env, t) then 1 else 0)
    else EmbeddedHits(env, FieldsOf(env, t), d - 1)
  }

  function EmbeddedHits(env: Env, fs: seq<Field>, d: nat): nat
    decreases d, 2, |fs|
  {
    if fs == [] then 0
    else
      var f := fs[|fs| - 1];
      EmbeddedHits(env, fs[..|fs| - 1], d) + (if f.embedded then Hits(env, Deref(f.ty), d) else 0)
  }

  predicate FoundAt(env: Env, t: Type, d: nat) {
    Hits(env, t, d) == 1 && forall e: nat :: e < d ==> Hits(env, t, e) == 0
  }

  /** The pointer to `t` has `Reset` in its method set: it is found once at the shallowest depth
      where it is found at all. Pointers to interfaces and to pointers have no methods. */
  ghost predicate HasReset(env: Env, t: Type) {
    && !IsInterface(env, t)
    && exists d: nat :: FoundAt(env, t, d)
  }

  /** The embedded fields whose type declares Reset itself. */
  function Promoters(env: Env, fs: seq<Field>): set<int> {
    set i | 0 <= i < |fs| && fs[i].embedded && Declares(env, Deref(fs[i].ty))
  }

  lemma {:induction false} PromotionCount(env: Env, fs: seq<Field>)
    ensures EmbeddedHits(env, fs, 0) == |Promoters(env, fs)|
  {
    if fs != [] {
      var n := |fs| - 1;
      PromotionCount(env, fs[..n]);
      var last: set<int> := if fs[n].embedded && Declares(env, Deref(fs[n].ty)) then {n} else {};
      assert Promoters(env, fs) == Promoters(env, fs[..n]) + last;
    }
  }

  predicate IsInterface(env: Env, t: Type) {
    t.NamedT? && t.id in env.decls && env.decls[t.id].isInterface
  }

  /** Go's method sets: a declared Reset hides embedded ones; otherwise one embedded type that
      declares it gives it and several make it ambiguous; a pointer to an interface has none. */
  lemma MethodSets(env: Env, t: Type)
    ensures IsInterface(env, t) ==> !HasReset(env, t)
    ensures !IsInterface(env, t) && Declares(env, t) ==> HasReset(env, t)
    ensures !IsInterface(env, t) && !Declares(env, t) && Promoters(env, FieldsOf(env, t)) != {} ==>
              (HasReset(env, t) <==> |Promoters(env, FieldsOf(env, t))| == 1)
  {
    PromotionCount(env, FieldsOf(env, t));
    assert Hits(env, t, 0) == if Declares(env, t) then 1 else 0;
    assert Hits(env, t, 1) == |Promoters(env, FieldsOf(env, t))|;
    if Declares(env, t) {
      assert FoundAt(env, t, 0);
    } else if |Promoters(env, FieldsOf(env, t))| == 1 {
      assert FoundAt(env, t, 1);
    } else if Promoters(env, FieldsOf(env, t)) != {} {
      assert forall d: nat :: FoundAt(env, t, d) ==> d == 0 || d == 1;
    }
  }

  lemma {:induction false} OneEmbedded(env: Env, fs: seq<Field>, i: nat, d: nat)
    requires i < |fs| && fs[i].embedded && forall j :: 0 <= j < |fs| && j != i ==> !fs[j].embedded
    ensures EmbeddedHits(env, fs, d) == Hits(env, Deref(fs[i].ty), d)
  {
    var n := |fs| - 1;
    if i < n {
      OneEmbedded(env, fs[..n], i, d);
    } else {
      NoneEmbedded(env, fs[..n], d);
    }
  }

  lemma {:induction false} NoneEmbedded(env: Env, fs: seq<Field>, d: nat)
    requires forall j :: 0 <= j < |fs| ==> !fs[j].embedded
    ensures EmbeddedHits(env, fs, d) == 0
  {
    if fs != [] {
      NoneEmbedded(env, fs[..|fs| - 1], d);
    }
  }

  /** Promotion goes through any number of levels: a type that declares no Reset and embeds just
      one type, by value or by pointer, has it iff that type does (interfaces apart). */
  lemma PromotionIsTransitive(env: Env, t: Type, i: nat)
    requires !IsInterface(env, t) && !Declares(env, t)
    requires var fs := FieldsOf(env, t);
             i < |fs| && fs[i].embedded && (forall j :: 0 <= j < |fs| && j != i ==> !fs[j].embedded)
             && !IsInterface(env, Deref(fs[i].ty))
    ensures HasReset(env, t) <==> HasReset(env, Deref(FieldsOf(env, t)[i].ty))
  {
    var base := Deref(FieldsOf(env, t)[i].ty);
    assert Hits(env, t, 0) == 0;
    forall d: nat ensures Hits(env, t, d + 1) == Hits(env, base, d) {
      OneEmbedded(env, FieldsOf(env, t), i, d);
    }
    if d: nat :| FoundAt(env, base, d) {
      forall e: nat | e < d + 1 ensures Hits(env, t, e) == 0 {
        if e > 0 {
          assert Hits(env, t, (e - 1) + 1) == Hits(env, base, e - 1);
        }
      }
      assert FoundAt(env, t, d + 1);
    }
    if d: nat :| FoundAt(env, t, d) {
      assert Hits(env, t, (d - 1) + 1) == Hits(env, base, d - 1);
      forall e: nat | e < d - 1 ensures Hits(env, base, e) == 0 {
        assert Hits(env, t, e + 1) == Hits(env, base, e);
      }
      assert FoundAt(env, base, d - 1);
    }
  }

  predicate IsMarked(env: Env, t: Type) {
    t.NamedT? && t.id.pkg == env.pkg && t.id.name in env.marked
  }

  ghost predicate HasOrWillHaveReset(env: Env, t: Type) {
    HasReset(env, Deref(t)) || IsMarked(env, Deref(t))
  }

  function BasicZero(k: BasicKind): Zero {
    match k
    case Bool => FalseLit
    case Text => EmptyLit
    case Numeric => ZeroLit
  }

  /** The code for one field, None when the generator emits nothing. */
  ghost function ResetField(env: Env, t: Type): Option<Stmt> {
    if HasOrWillHaveReset(env, t) then
      Some(if t.PointerT? then IfNonNilCallReset else CallReset)
    else match t
      case BasicT(k) => Some(Assign(BasicZero(k)))
      case SliceT(_) => Some(Truncate)
      case MapT(_, _) => Some(Clear)
      case PointerT(e) =>
        var u := Underlying(env, e);
        if u.BasicT? then Some(IfNonNilAssign(BasicZero(u.kind))) else None
      case NamedT(_) =>
        (match Underlying(env, t)
         case BasicT(k) => Some(Assign(BasicZero(k)))
         case SliceT(_) => Some(Truncate)
         case MapT(_, _) => Some(Clear)
         case _ => None)
      case _ => None
  }

  function MarkedType(env: Env, name: string): Type {
    NamedT(TypeId(env.pkg, name))
  }

  ghost function MethodBody(env: Env, name: string): seq<Option<Stmt>> {
    var fs := FieldsOf(env, MarkedType(env, name));
    seq(|fs|, i requires 0 <= i < |fs| => ResetField(env, fs[i].ty))
  }

  /** The generated methods, by receiver name. */
  ghost function Generated(env: Env): map<string, seq<Option<Stmt>>> {
    map name | name in env.marked :: MethodBody(env, name)
  }

  /** The names in file order: collected in map order, then sorted. */
  method FindMarked(names: set<string>) returns (result: seq<string>)
    ensures Ascending(Less, result) && forall name :: name in result <==> name in names
  {
    result := [];
    var todo := names;
    while todo != {}
      invariant todo <= names
      invariant forall name :: name in result <==> name in names && name !in todo
      invariant forall i, j :: 0 <= i < j < |result| ==> result[i] != result[j]
      decreases todo
    {
      var name :| name in todo;
      result := result + [name];
      todo := todo - {name};
    }
    LessIsStrictOrder();
    forall i, j | 0 <= i < j < |result| ensures Less(result[i], result[j]) || Less(result[j], result[i]) {
      LessTotal(result[i], result[j]);
    }
    var collected := result;
    result := SortSlice(result, Less);
    assert forall name :: name in result <==> name in multiset(result);
    assert forall name :: name in collected <==> name in multiset(collected);
  }

  /** One method of the generated file: its receiver type and the code for each field. */
  datatype Method = Method(receiver: string, body: seq<Option<Stmt>>)

  /** The generated file: the methods in the order of their receivers' names. */
  ghost function File(env: Env, order: seq<string>): seq<Method>
    requires forall name :: name in order ==> name in env.marked
  {
    seq(|order|, i requires 0 <= i < |order| => Method(order[i], Generated(env)[order[i]]))
  }

  /** The code of the Reset method the compiler finds for a receiver type in a file. */
  function Compiled(file: seq<Method>, name: string): Option<seq<Option<Stmt>>> {
    if file == [] then None
    else if file[0].receiver == name then Some(file[0].body)
    else Compiled(file[1..], name)
  }

  lemma {:induction false} CompiledAt(file: seq<Method>, i: nat)
    requires i < |file| && forall j :: 0 <= j < i ==> file[j].receiver != file[i].receiver
    ensures Compiled(file, file[i].receiver) == Some(file[i].body)
  {
    if i > 0 {
      CompiledAt(file[1..], i - 1);
    }
  }

  lemma {:induction false} CompiledNone(file: seq<Method>, name: string)
    requires forall i :: 0 <= i < |file| ==> file[i].receiver != name
    ensures Compiled(file, name) == None
  {
    if file != [] {
      CompiledNone(file[1..], name);
    }
  }

  /** The written file gives each marked struct its own method and no other type one; each
      receiver has a single method, so the file compiles. */
  lemma FileHoldsMethods(env: Env, order: seq<string>, name: string)
    requires Ascending(Less, order) && forall n :: n in order <==> n in env.marked
    ensures Compiled(File(env, order), name) == if name in env.marked then Some(Generated(env)[name]) else None
    ensures forall i, j :: 0 <= i < j < |order| ==> File(env, order)[i].receiver != File(env, order)[j].receiver
  {
    var file := File(env, order);
    LessIsStrictOrder();
    assert forall i, j :: 0 <= i < j < |order| ==> Less(order[i], order[j]);
    if name in env.marked {
      var i :| 0 <= i < |order| && order[i] == name;
      CompiledAt(file, i);
    } else {
      CompiledNone(file, name);
    }
  }

  /** Whatever order the map of marked names was walked in, the file is the same. */
  lemma FileIgnoresMapOrder(env: Env, a: seq<string>, b: seq<string>)
    requires Ascending(Less, a) && forall name :: name in a <==> name in env.marked
    requires Ascending(Less, b) && forall name :: name in b <==> name in env.marked
    ensures File(env, a) == File(env, b)
  {
    LessIsStrictOrder();
    AscendingUnique(Less, a, b);
  }

  // ---- regenerating with the earlier output already in the package ----

  /** The package after its `reset.gen.go` has been written. */
  function WithGenerated(env: Env): Env {
    env.(decls := map id | id in env.decls ::
        if id.pkg == env.pkg && id.name in env.marked then env.decls[id].(resets := true) else env.decls[id])
  }

  lemma SameShape(env: Env, t: Type)
    ensures Underlying(WithGenerated(env), t) == Underlying(env, t)
    ensures FieldsOf(WithGenerated(env), t) == FieldsOf(env, t)
    ensures IsMarked(WithGenerated(env), t) == IsMarked(env, t)
  {
  }

  /** How many of the methods about to be written will be found at embedding depth `d`: the
      embedding chains of that length that end in a marked type not declaring Reset yet. */
  function NewHits(env: Env, t: Type, d: nat): nat
    decreases d, 1, 0
  {
    if d == 0 then (if IsMarked(env, t) && t.id in env.decls && !env.decls[t.id].resets then 1 else 0)
    else NewEmbeddedHits(env, FieldsOf(env, t), d - 1)
  }

  function NewEmbeddedHits(env: Env, fs: seq<Field>, d: nat): nat
    decreases d, 2, |fs|
  {
    if fs == [] then 0
    else
      var f := fs[|fs| - 1];
      NewEmbeddedHits(env, fs[..|fs| - 1], d) + (if f.embedded then NewHits(env, Deref(f.ty), d) else 0)
  }

  /** Writing the file adds exactly those. */
  lemma {:induction false} HitsAfter(env: Env, t: Type, d: nat)
    ensures Hits(WithGenerated(env), t, d) == Hits(env, t, d) + NewHits(env, t, d)
    decreases d, 0, 0
  {
    if d > 0 {
      SameShape(env, t);
      EmbeddedHitsAfter(env, FieldsOf(env, t), d - 1);
    }
  }

  lemma {:induction false} EmbeddedHitsAfter(env: Env, fs: seq<Field>, d: nat)
    ensures EmbeddedHits(WithGenerated(env), fs, d) == EmbeddedHits(env, fs, d) + NewEmbeddedHits(env, fs, d)
    decreases d, 1, |fs|
  {
    if fs != [] {
      EmbeddedHitsAfter(env, fs[..|fs| - 1], d);
      if fs[|fs| - 1].embedded {
        HitsAfter(env, Deref(fs[|fs| - 1].ty), d);
      }
    }
  }

  /** The shallowest depth at which `t` has Reset or is about to get it. */
  ghost predicate Shallowest(env: Env, t: Type, d: nat) {
    Hits(env, t, d) + NewHits(env, t, d) > 0 && forall e: nat :: e < d ==> Hits(env, t, e) + NewHits(env, t, e) == 0
  }

  /** At that depth the new methods do not matter: there are none, or Reset was ambiguous there
      already, or only new ones are found there and whether they are promoted (there is one)
      agrees with what a deeper method gave before. Said of the package before generation. */
  ghost predicate Undisturbed(env: Env, t: Type) {
    || IsMarked(env, t)
    || IsInterface(env, t)
    || forall d: nat :: Shallowest(env, t, d) ==>
                          || NewHits(env, t, d) == 0
                          || Hits(env, t, d) > 1
                          || (Hits(env, t, d) == 0 && (NewHits(env, t, d) == 1 <==> HasReset(env, t)))
  }

  lemma {:induction false} ShallowestExists(env: Env, t: Type, d: nat) returns (r: nat)
    requires Hits(env, t, d) + NewHits(env, t, d) > 0
    ensures r <= d && Shallowest(env, t, r)
  {
    if e: nat :| e < d && Hits(env, t, e) + NewHits(env, t, e) > 0 {
      r := ShallowestExists(env, t, e);
    } else {
      r := d;
    }
  }

  lemma FoundOnlyAt(env: Env, t: Type, d: nat)
    requires Hits(env, t, d) > 0 && (forall e: nat :: e < d ==> Hits(env, t, e) == 0) && !IsInterface(env, t)
    ensures HasReset(env, t) <==> Hits(env, t, d) == 1
  {
    if Hits(env, t, d) == 1 {
      assert FoundAt(env, t, d);
    }
    if HasReset(env, t) {
      var e: nat :| FoundAt(env, t, e);
      assert e == d;
    }
  }

  /** Whether the pointer to `t` has Reset, before and after, decided at the shallowest depth. */
  lemma ResetAtShallowest(env: Env, t: Type, d: nat)
    requires Shallowest(env, t, d) && !IsInterface(env, t)
    ensures HasReset(WithGenerated(env), t) <==> Hits(env, t, d) + NewHits(env, t, d) == 1
    ensures Hits(env, t, d) > 0 ==> (HasReset(env, t) <==> Hits(env, t, d) == 1)
  {
    var after := WithGenerated(env);
    forall e: nat ensures Hits(after, t, e) == Hits(env, t, e) + NewHits(env, t, e) {
      HitsAfter(env, t, e);
    }
    FoundOnlyAt(after, t, d);
    if Hits(env, t, d) > 0 {
      FoundOnlyAt(env, t, d);
    }
  }

  /** The generated methods leave a type's Reset status alone exactly in those cases. */
  lemma StatusKeptIff(env: Env, t: Type)
    requires !IsMarked(env, t)
    ensures (HasReset(env, t) <==> HasReset(WithGenerated(env), t)) <==> Undisturbed(env, t)
  {
    if IsInterface(env, t) {
    } else if d: nat :| Shallowest(env, t, d) {
      ResetAtShallowest(env, t, d);
      forall e: nat | Shallowest(env, t, e) ensures e == d {
        assert !(e < d) && !(d < e);
      }
    } else {
      forall d: nat ensures Hits(env, t, d) == 0 && Hits(WithGenerated(env), t, d) == 0 {
        if Hits(env, t, d) + NewHits(env, t, d) > 0 {
          var r := ShallowestExists(env, t, d);
        }
        HitsAfter(env, t, d);
      }
    }
  }

  /** So a field's code is stable exactly when its type's status is undisturbed. */
  lemma FieldStableIff(env: Env, t: Type)
    ensures ResetField(env, t) == ResetField(WithGenerated(env), t) <==> Undisturbed(env, Deref(t))
  {
    var after := WithGenerated(env);
    SameShape(env, t);
    SameShape(env, Deref(t));
    if t.PointerT? {
      SameShape(env, t.elem);
    }
    if !IsMarked(env, Deref(t)) {
      StatusKeptIff(env, Deref(t));
    }
    assert ResetField(env, t) == ResetField(after, t) <==> (HasOrWillHaveReset(env, t) <==> HasOrWillHaveReset(after, t));
  }

  /** Every field of the named struct is undisturbed. */
  ghost predicate FieldsUndisturbed(env: Env, name: string) {
    forall i :: 0 <= i < |FieldsOf(env, MarkedType(env, name))| ==>
                  Undisturbed(env, Deref(FieldsOf(env, MarkedType(env, name))[i].ty))
  }

  lemma MethodStableIff(env: Env, name: string)
    requires name in env.marked
    ensures MethodBody(env, name) == MethodBody(WithGenerated(env), name) <==> FieldsUndisturbed(env, name)
  {
    var fs := FieldsOf(env, MarkedType(env, name));
    var a, b := MethodBody(env, name), MethodBody(WithGenerated(env), name);
    SameShape(env, MarkedType(env, name));
    forall i | 0 <= i < |fs| ensures a[i] == b[i] <==> Undisturbed(env, Deref(fs[i].ty)) {
      FieldStableIff(env, fs[i].ty);
    }
  }

  /** Regeneration reproduces the file exactly when every field of every marked struct is
      undisturbed: a condition on the declarations, before anything is generated. */
  lemma RegenerationStableIff(env: Env)
    ensures Generated(env) == Generated(WithGenerated(env)) <==>
            forall name :: name in env.marked ==> FieldsUndisturbed(env, name)
  {
    var a, b := Generated(env), Generated(WithGenerated(env));
    assert a.Keys == b.Keys == env.marked;
    forall name | name in env.marked ensures a[name] == b[name] <==> FieldsUndisturbed(env, name) {
      MethodStableIff(env, name);
    }
  }

  // ---- packages where no unmarked struct embeds a marked one ----

  /** Some chain of `d` embedded fields leads from `t` to a marked struct. */
  predicate EmbedsMarked(env: Env, t: Type, d: nat)
    decreases d
  {
    if d == 0 then IsMarked(env, t)
    else
      var fs := FieldsOf(env, t);
      exists i :: 0 <= i < |fs| && fs[i].embedded && EmbedsMarked(env, Deref(fs[i].ty), d - 1)
  }

  lemma {:induction false} NoNewHits(env: Env, t: Type, d: nat)
    requires !EmbedsMarked(env, t, d)
    ensures NewHits(env, t, d) == 0
    decreases d, 0, 0
  {
    if d > 0 {
      NoNewEmbeddedHits(env, FieldsOf(env, t), d - 1);
    }
  }

  lemma {:induction false} NoNewEmbeddedHits(env: Env, fs: seq<Field>, d: nat)
    requires forall i :: 0 <= i < |fs| && fs[i].embedded ==> !EmbedsMarked(env, Deref(fs[i].ty), d)
    ensures NewEmbeddedHits(env, fs, d) == 0
    decreases d, 1, |fs|
  {
    if fs != [] {
      NoNewEmbeddedHits(env, fs[..|fs| - 1], d);
      if fs[|fs| - 1].embedded {
        NoNewHits(env, Deref(fs[|fs| - 1].ty), d);
      }
    }
  }

  /** Marked, or embedding no marked struct at any depth. */
  ghost predicate EmbedsNone(env: Env, t: Type) {
    IsMarked(env, t) || forall d: nat :: !EmbedsMarked(env, t, d)
  }

  lemma NoEmbeddingIsUndisturbed(env: Env, t: Type)
    requires EmbedsNone(env, t)
    ensures Undisturbed(env, t)
  {
    if !IsMarked(env, t) {
      forall d: nat | Shallowest(env, t, d) ensures NewHits(env, t, d) == 0 {
        NoNewHits(env, t, d);
      }
    }
  }

  /** Where no unmarked struct in a field of a marked one embeds a marked struct, at any depth,
      generating again with the earlier output present gives the same methods. */
  lemma NoEmbeddingSameFile(env: Env)
    requires forall name :: name in env.marked ==>
               forall i :: 0 <= i < |FieldsOf(env, MarkedType(env, name))| ==>
                             EmbedsNone(env, Deref(FieldsOf(env, MarkedType(env, name))[i].ty))
    ensures Generated(env) == Generated(WithGenerated(env))
  {
    RegenerationStableIff(env);
    forall name | name in env.marked ensures FieldsUndisturbed(env, name) {
      var fs := FieldsOf(env, MarkedType(env, name));
      forall i | 0 <= i < |fs| ensures Undisturbed(env, Deref(fs[i].ty)) {
        NoEmbeddingIsUndisturbed(env, Deref(fs[i].ty));
      }
    }
  }

  /** And a third generation always gives what the second gave: once the output is there, the
      methods it adds are no longer new. */
  lemma GeneratedTwiceIsStable(env: Env)
    ensures Generated(WithGenerated(env)) == Generated(WithGenerated(WithGenerated(env)))
  {
    assert WithGenerated(WithGenerated(env)) == WithGenerated(env);
  }

  // ---- both ways it can fail ----

  function Struct(fs: seq<Field>, resets: bool): Decl {
    Decl(StructT(fs), resets, false)
  }

  function Named(name: string): Type {
    NamedT(TypeId("p", name))
  }

  /** Two marked structs `A` and `B`, `B` with a field of the unmarked struct `S`. `S` embeds
      `A`, and the hand-written `H` as well when `both`. */
  function Example(both: bool): Env {
    Env(map[TypeId("p", "A") := Struct([], false),
            TypeId("p", "B") := Struct([Field("s", Named("S"), false)], false),
            TypeId("p", "H") := Struct([], true),
            TypeId("p", "S") := Struct([Field("A", Named("A"), true)] + (if both then [Field("H", Named("H"), true)] else []), false)],
        "p", {"A", "B"})
  }

  lemma ExampleHits(both: bool)
    ensures var e := Example(both);
            && Hits(e, Named("S"), 0) == 0 && Hits(WithGenerated(e), Named("S"), 0) == 0
            && Hits(e, Named("S"), 1) == (if both then 1 else 0)
            && Hits(WithGenerated(e), Named("S"), 1) == (if both then 2 else 1)
            && forall d: nat :: !both ==> Hits(e, Named("S"), d) == 0
  {
    var e := Example(both);
    var after := WithGenerated(e);
    var fs := FieldsOf(e, Named("S"));
    SameShape(e, Named("S"));
    var fa := Field("A", Named("A"), true);
    assert fs[..1] == [fa] && fs[..1][..0] == [];
    assert EmbeddedHits(e, [fa], 0) == Hits(e, Named("A"), 0);
    assert EmbeddedHits(after, [fa], 0) == Hits(after, Named("A"), 0);
    if !both {
      assert fs == [fa];
      forall d: nat ensures Hits(e, Named("S"), d) == 0 {
        if d > 0 {
          assert FieldsOf(e, Named("A")) == [];
          assert Hits(e, Named("A"), d - 1) == 0;
          assert EmbeddedHits(e, [fa], d - 1) == EmbeddedHits(e, [], d - 1) + Hits(e, Named("A"), d - 1);
        }
      }
    } else {
      assert fs[1] == Field("H", Named("H"), true);
    }
  }

  /** Gained by embedding (first run: nothing for `S`, second run: a call) and lost by
      ambiguity (first run: a call, second run: nothing). */
  lemma RegenerationCanChange(both: bool)
    ensures Generated(Example(both)) != Generated(WithGenerated(Example(both)))
  {
    var e := Example(both);
    ExampleHits(both);
    var s := Named("S");
    if both {
      assert FoundAt(e, s, 1);
      assert forall d: nat :: !FoundAt(WithGenerated(e), s, d);
    } else {
      assert FoundAt(WithGenerated(e), s, 1);
    }
    StatusKeptIff(e, s);
    assert FieldsOf(e, MarkedType(e, "B"))[0].ty == s;
    assert !FieldsUndisturbed(e, "B");
    RegenerationStableIff(e);
  }
}
