/**
 * Stable sorting by a comparison, the meaning of JavaScript's `Array.prototype.sort`:
 * the result is ordered, a permutation of the input, and ties come out in the order they came in.
 */
module Sorting {

  /** Ties are allowed, but being tied must be transitive. */
  ghost predicate StrictWeakOrder<T(!new)>(before: (T, T) -> bool) {
    && (forall a, b :: before(a, b) ==> !before(b, a))
    && (forall a, b, c :: !before(a, b) && !before(b, c) ==> !before(a, c))
  }

  ghost predicate Total<T(!new)>(before: (T, T) -> bool) {
    forall a, b :: a != b ==> before(a, b) || before(b, a)
  }

  ghost predicate SortedBy<T>(s: seq<T>, before: (T, T) -> bool) {
    forall i, j :: 0 <= i < j < |s| ==> !before(s[j], s[i])
  }

  ghost predicate NoRepeats<T>(s: seq<T>) {
    forall i, j :: 0 <= i < j < |s| ==> s[i] != s[j]
  }

  lemma NoRepeatsGrows<T>(s: seq<T>, x: T)
    requires NoRepeats(s) && x !in s
    ensures NoRepeats(s + [x])
  {
  }

  lemma NoRepeatsJoin<T>(a: seq<T>, b: seq<T>)
    requires NoRepeats(a) && NoRepeats(b) && forall x :: x in a ==> x !in b
    ensures NoRepeats(a + b)
  {
    var all := a + b;
    forall i, j | 0 <= i < j < |all| ensures all[i] != all[j] {
      if i < |a| { assert all[i] in a; }
      if j >= |a| { assert all[j] in b; }
    }
  }

  function InsertBy<T>(x: T, s: seq<T>, before: (T, T) -> bool): seq<T> {
    if s == [] then [x]
    else if before(s[0], x) then [s[0]] + InsertBy(x, s[1..], before)
    else [x] + s
  }

  function SortBy<T>(s: seq<T>, before: (T, T) -> bool): seq<T> {
    if s == [] then [] else InsertBy(s[0], SortBy(s[1..], before), before)
  }

  lemma {:induction false} InsertKeeps<T>(x: T, s: seq<T>, before: (T, T) -> bool)
    ensures multiset(InsertBy(x, s, before)) == multiset{x} + multiset(s)
    ensures |InsertBy(x, s, before)| == |s| + 1
  {
    if s != [] {
      assert s == [s[0]] + s[1..];
      InsertKeeps(x, s[1..], before);
    }
  }

  lemma {:induction false} SortKeeps<T>(s: seq<T>, before: (T, T) -> bool)
    ensures multiset(SortBy(s, before)) == multiset(s)
    ensures |SortBy(s, before)| == |s|
  {
    if s != [] {
      assert s == [s[0]] + s[1..];
      SortKeeps(s[1..], before);
      InsertKeeps(s[0], SortBy(s[1..], before), before);
    }
  }

  lemma {:induction false} InsertSorts<T(!new)>(x: T, s: seq<T>, before: (T, T) -> bool)
    requires StrictWeakOrder(before) && SortedBy(s, before)
    ensures SortedBy(InsertBy(x, s, before), before)
  {
    if s != [] && before(s[0], x) {
      var rest := InsertBy(x, s[1..], before);
      InsertSorts(x, s[1..], before);
      InsertKeeps(x, s[1..], before);
      forall j | 0 <= j < |rest| ensures !before(rest[j], s[0]) {
        assert rest[j] in multiset(rest);
        assert rest[j] == x || rest[j] in s[1..];
      }
    }
  }

  lemma {:induction false} SortSorts<T(!new)>(s: seq<T>, before: (T, T) -> bool)
    requires StrictWeakOrder(before)
    ensures SortedBy(SortBy(s, before), before)
  {
    if s != [] {
      SortSorts(s[1..], before);
      InsertSorts(s[0], SortBy(s[1..], before), before);
    }
  }

  /** The head of a sorted list is a least element of the original list. */
  lemma SortHeadIsLeast<T(!new)>(s: seq<T>, before: (T, T) -> bool)
    requires StrictWeakOrder(before) && s != []
    ensures |SortBy(s, before)| == |s| && SortBy(s, before)[0] in s
    ensures forall x :: x in s ==> !before(x, SortBy(s, before)[0])
  {
    var t := SortBy(s, before);
    SortKeeps(s, before);
    SortSorts(s, before);
    assert t[0] in multiset(t);
    forall x | x in s ensures !before(x, t[0]) {
      assert x in multiset(t);
    }
  }

  /** Two sorted arrangements of the same things begin with the same one. */
  lemma SameHead<T(!new)>(s: seq<T>, t: seq<T>, before: (T, T) -> bool)
    requires StrictWeakOrder(before) && Total(before)
    requires SortedBy(s, before) && SortedBy(t, before)
    requires multiset(s) == multiset(t) && s != []
    ensures t != [] && s[0] == t[0] && |s| == |t|
  {
    assert |multiset(t)| == |multiset(s)| == |s|;
    assert s[0] in multiset(s) && t[0] in multiset(t);
    assert s[0] in t && t[0] in s;
    var i :| 0 <= i < |t| && t[i] == s[0];
    var j :| 0 <= j < |s| && s[j] == t[0];
  }

  lemma SameRest<T>(s: seq<T>, t: seq<T>)
    requires s != [] && t != [] && s[0] == t[0] && multiset(s) == multiset(t)
    ensures multiset(s[1..]) == multiset(t[1..])
  {
    assert s == [s[0]] + s[1..] && t == [t[0]] + t[1..];
    assert multiset(s[1..]) == multiset(s) - multiset{s[0]};
    assert multiset(t[1..]) == multiset(t) - multiset{t[0]};
  }

  lemma {:induction false} SortedArrangementIsUnique<T(!new)>(s: seq<T>, t: seq<T>, before: (T, T) -> bool)
    requires StrictWeakOrder(before) && Total(before)
    requires SortedBy(s, before) && SortedBy(t, before)
    requires multiset(s) == multiset(t)
    ensures s == t
  {
    hide StrictWeakOrder, Total;
    if s == [] {
      assert |multiset(t)| == 0;
    } else {
      SameHead(s, t, before);
      SameRest(s, t);
      SortedArrangementIsUnique(s[1..], t[1..], before);
      assert s == [s[0]] + s[1..] && t == [t[0]] + t[1..];
    }
  }

  /** A total order leaves one sorted arrangement, so sorting decides permutations. */
  lemma SortDecidesPermutation<T(!new)>(s: seq<T>, t: seq<T>, before: (T, T) -> bool)
    requires StrictWeakOrder(before) && Total(before)
    ensures SortBy(s, before) == SortBy(t, before) <==> multiset(s) == multiset(t)
  {
    SortKeeps(s, before);
    SortKeeps(t, before);
    SortSorts(s, before);
    SortSorts(t, before);
    if multiset(s) == multiset(t) {
      SortedArrangementIsUnique(SortBy(s, before), SortBy(t, before), before);
    }
  }

  lemma SortMembers<T>(s: seq<T>, before: (T, T) -> bool)
    ensures forall x :: x in SortBy(s, before) <==> x in s
  {
    SortKeeps(s, before);
    assert forall x :: x in SortBy(s, before) <==> x in multiset(SortBy(s, before));
    assert forall x :: x in s <==> x in multiset(s);
  }

  lemma {:induction false} CountsNoRepeats<T>(s: seq<T>)
    requires NoRepeats(s)
    ensures forall x :: multiset(s)[x] <= 1
  {
    if s != [] {
      assert s == [s[0]] + s[1..];
      CountsNoRepeats(s[1..]);
      assert s[0] !in s[1..];
    }
  }

  lemma NoRepeatsFromCounts<T>(s: seq<T>, a: nat, b: nat)
    requires a < b < |s| && multiset(s)[s[a]] <= 1
    ensures s[a] != s[b]
  {
    assert s == s[..b] + [s[b]] + s[b + 1..];
    assert s[..b] == s[..a] + [s[a]] + s[a + 1..b];
  }

  /** A list without repeats sorts to a list without repeats. */
  lemma SortNoRepeats<T>(s: seq<T>, before: (T, T) -> bool)
    requires NoRepeats(s)
    ensures NoRepeats(SortBy(s, before))
  {
    var t := SortBy(s, before);
    SortKeeps(s, before);
    CountsNoRepeats(s);
    forall a, b | 0 <= a < b < |t| ensures t[a] != t[b] {
      NoRepeatsFromCounts(t, a, b);
    }
  }

  ghost predicate Tied<T>(x: T, y: T, before: (T, T) -> bool) {
    !before(x, y) && !before(y, x)
  }

  /** The members of `s` that are tied with `z`, in order. */
  ghost function TiedWith<T>(s: seq<T>, z: T, before: (T, T) -> bool): seq<T> {
    if s == [] then [] else (if Tied(s[0], z, before) then [s[0]] else []) + TiedWith(s[1..], z, before)
  }

  lemma FirstTied<T>(x: T, s: seq<T>, z: T, before: (T, T) -> bool)
    ensures TiedWith([x] + s, z, before) == (if Tied(x, z, before) then [x] else []) + TiedWith(s, z, before)
  {
    assert ([x] + s)[1..] == s;
  }

  lemma NotBothTied<T(!new)>(x: T, y: T, z: T, before: (T, T) -> bool)
    requires StrictWeakOrder(before) && before(x, y)
    ensures !(Tied(x, z, before) && Tied(y, z, before))
  {
  }

  lemma {:induction false} InsertKeepsTies<T(!new)>(x: T, s: seq<T>, z: T, before: (T, T) -> bool)
    requires StrictWeakOrder(before)
    ensures TiedWith(InsertBy(x, s, before), z, before) == TiedWith([x] + s, z, before)
  {
    hide StrictWeakOrder, TiedWith, Tied;
    if s == [] {
      assert [x] + s == [x];
    } else if before(s[0], x) {
      InsertKeepsTies(x, s[1..], z, before);
      FirstTied(s[0], InsertBy(x, s[1..], before), z, before);
      FirstTied(x, s[1..], z, before);
      FirstTied(x, s, z, before);
      FirstTied(s[0], s[1..], z, before);
      assert s == [s[0]] + s[1..];
      NotBothTied(s[0], x, z, before);
    }
  }

  /** Ties come out in the order they came in. */
  lemma {:induction false} SortIsStable<T(!new)>(s: seq<T>, z: T, before: (T, T) -> bool)
    requires StrictWeakOrder(before)
    ensures TiedWith(SortBy(s, before), z, before) == TiedWith(s, z, before)
  {
    if s != [] {
      SortIsStable(s[1..], z, before);
      InsertKeepsTies(s[0], SortBy(s[1..], before), z, before);
      assert ([s[0]] + SortBy(s[1..], before))[1..] == SortBy(s[1..], before);
    }
  }
}
