/** The string order of Go's `<` and the contract of `sort.Slice`. Strings compare code point
    by code point, which for UTF-8 text is the byte order. */
module Order {

  predicate Less(a: string, b: string) {
    if a == [] then b != []
    else if b == [] then false
    else a[0] < b[0] || (a[0] == b[0] && Less(a[1..], b[1..]))
  }

  lemma {:induction false} LessTotal(a: string, b: string)
    ensures Less(a, b) || a == b || Less(b, a)
    ensures !(Less(a, b) && Less(b, a)) && !Less(a, a)
  {
    if a != [] && b != [] && a[0] == b[0] {
      LessTotal(a[1..], b[1..]);
      assert a == [a[0]] + a[1..] && b == [b[0]] + b[1..];
    }
    if a != [] {
      LessTotal(a[1..], a[1..]);
    }
  }

  /** Where two strings first differ, or one ends, decides. */
  predicate DecidedAt(a: string, b: string, k: nat) {
    && k <= |a| && k <= |b| && a[..k] == b[..k]
    && k < |b| && (k == |a| || a[k] < b[k])
  }

  lemma SameStart(a: string, b: string, k: nat)
    requires DecidedAt(a, b, k) && k > 0
    ensures a != "" && b != "" && a[0] == b[0]
  {
    assert a[..k][0] == b[..k][0];
  }

  /** The order is the lexicographic one. */
  lemma {:induction false} LessIsLexicographic(a: string, b: string)
    ensures Less(a, b) <==> exists k: nat :: DecidedAt(a, b, k)
  {
    if a == "" || b == "" || a[0] != b[0] {
      if Less(a, b) {
        assert DecidedAt(a, b, 0);
      }
      forall k: nat | DecidedAt(a, b, k) ensures k == 0 {
        if k > 0 {
          SameStart(a, b, k);
        }
      }
    } else {
      LessIsLexicographic(a[1..], b[1..]);
      forall k: nat | DecidedAt(a, b, k) ensures k > 0 && DecidedAt(a[1..], b[1..], k - 1) {
        assert a[1..][..k - 1] == a[..k][1..] && b[1..][..k - 1] == b[..k][1..];
      }
      if k: nat :| DecidedAt(a[1..], b[1..], k) {
        assert a[..k + 1] == [a[0]] + a[1..][..k] && b[..k + 1] == [b[0]] + b[1..][..k];
        assert DecidedAt(a, b, k + 1);
      }
    }
  }

  lemma {:induction false} LessTransitive(a: string, b: string, c: string)
    requires Less(a, b) && Less(b, c)
    ensures Less(a, c)
  {
    if a != [] && b != [] && c != [] && a[0] == b[0] == c[0] {
      LessTransitive(a[1..], b[1..], c[1..]);
    }
  }

  /** Irreflexive and transitive. */
  ghost predicate StrictOrder<T(!new)>(less: (T, T) -> bool) {
    && (forall x :: !less(x, x))
    && (forall x, y, z :: less(x, y) && less(y, z) ==> less(x, z))
  }

  /** Any two entries of the list are ordered one way or the other. */
  ghost predicate Comparable<T(!new)>(less: (T, T) -> bool, s: seq<T>) {
    forall i, j :: 0 <= i < j < |s| ==> less(s[i], s[j]) || less(s[j], s[i])
  }

  ghost predicate Ascending<T(!new)>(less: (T, T) -> bool, s: seq<T>) {
    forall i, j :: 0 <= i < j < |s| ==> less(s[i], s[j])
  }

  lemma LessIsStrictOrder()
    ensures StrictOrder(Less)
  {
    forall x ensures !Less(x, x) {
      LessTotal(x, x);
    }
    forall x, y, z | Less(x, y) && Less(y, z) ensures Less(x, z) {
      LessTransitive(x, y, z);
    }
  }

  lemma InsertAscending<T(!new)>(s: seq<T>, i: nat, x: T, less: (T, T) -> bool)
    requires i <= |s| && Ascending(less, s)
    requires forall k :: 0 <= k < i ==> less(s[k], x)
    requires forall k :: i <= k < |s| ==> less(x, s[k])
    ensures Ascending(less, s[..i] + [x] + s[i..])
    ensures multiset(s[..i] + [x] + s[i..]) == multiset(s) + multiset{x}
  {
    var r := s[..i] + [x] + s[i..];
    forall j, k | 0 <= j < k < |r| ensures less(r[j], r[k]) {
      assert r[j] == if j < i then s[j] else if j == i then x else s[j - 1];
      assert r[k] == if k < i then s[k] else if k == i then x else s[k - 1];
    }
    assert s == s[..i] + s[i..];
  }

  lemma BelowInsertion<T(!new)>(s: seq<T>, i: nat, x: T, less: (T, T) -> bool, k: nat)
    requires StrictOrder(less) && Ascending(less, s) && k < i <= |s| && less(s[i - 1], x)
    ensures less(s[k], x)
  {
    if k < i - 1 {
      assert less(s[k], s[i - 1]);
    }
  }

  /** One step of the sort: `x` goes before the first element above it. */
  method Insert<T(!new)>(s: seq<T>, x: T, less: (T, T) -> bool) returns (r: seq<T>)
    requires StrictOrder(less) && Ascending(less, s)
    requires forall k :: 0 <= k < |s| ==> less(s[k], x) || less(x, s[k])
    ensures Ascending(less, r) && multiset(r) == multiset(s) + multiset{x}
  {
    var i := |s|;
    while i > 0 && less(x, s[i - 1])
      invariant 0 <= i <= |s|
      invariant forall k :: i <= k < |s| ==> less(x, s[k])
    {
      i := i - 1;
    }
    forall k | 0 <= k < i ensures less(s[k], x) {
      BelowInsertion(s, i, x, less, k);
    }
    InsertAscending(s, i, x, less);
    r := s[..i] + [x] + s[i..];
  }

  /** `sort.Slice` on pairwise comparable elements. */
  method SortSlice<T(!new)>(data: seq<T>, less: (T, T) -> bool) returns (r: seq<T>)
    requires StrictOrder(less) && Comparable(less, data)
    ensures Ascending(less, r) && multiset(r) == multiset(data)
  {
    r := [];
    for i := 0 to |data|
      invariant Ascending(less, r) && multiset(r) == multiset(data[..i])
    {
      assert data[..i + 1] == data[..i] + [data[i]];
      forall k | 0 <= k < |r| ensures less(r[k], data[i]) || less(data[i], r[k]) {
        assert r[k] in multiset(data[..i]);
        assert exists m :: 0 <= m < i && data[m] == r[k];
      }
      r := Insert(r, data[i], less);
    }
    assert data[..|data|] == data;
  }

  ghost predicate SameElements<T(!new)>(a: seq<T>, b: seq<T>) {
    && (forall i :: 0 <= i < |a| ==> a[i] in b)
    && (forall i :: 0 <= i < |b| ==> b[i] in a)
  }

  lemma FirstIsLeast<T(!new)>(less: (T, T) -> bool, a: seq<T>, b: seq<T>)
    requires a != [] && b != [] && StrictOrder(less) && Ascending(less, a) && Ascending(less, b) && SameElements(a, b)
    ensures a[0] == b[0] && SameElements(a[1..], b[1..])
    ensures Ascending(less, a[1..]) && Ascending(less, b[1..])
  {
    var i :| 0 <= i < |b| && b[i] == a[0];
    var j :| 0 <= j < |a| && a[j] == b[0];
    forall k | 0 <= k < |a[1..]| ensures a[1..][k] in b[1..] {
      assert less(a[0], a[k + 1]) && a[k + 1] in b;
      var m :| 0 <= m < |b| && b[m] == a[k + 1];
      assert b[m] == b[1..][m - 1];
    }
    forall k | 0 <= k < |b[1..]| ensures b[1..][k] in a[1..] {
      assert less(b[0], b[k + 1]) && b[k + 1] in a;
      var m :| 0 <= m < |a| && a[m] == b[k + 1];
      assert a[m] == a[1..][m - 1];
    }
  }

  /** An ascending list is determined by its elements: any correct sort, from any input order,
      gives the same result. */
  lemma {:induction false} AscendingUnique<T(!new)>(less: (T, T) -> bool, a: seq<T>, b: seq<T>)
    requires StrictOrder(less) && Ascending(less, a) && Ascending(less, b) && SameElements(a, b)
    ensures a == b
    decreases |a|
  {
    assert a != [] ==> a[0] in b;
    assert b != [] ==> b[0] in a;
    if a != [] {
      FirstIsLeast(less, a, b);
      AscendingUnique(less, a[1..], b[1..]);
      assert a == [a[0]] + a[1..] && b == [b[0]] + b[1..];
    }
  }
}
