/**
 * Comparing versions by the precedence of section 11 of SemVer 2.0.0, with build
 * metadata left out of the comparison as section 10 asks.
 */
module Version {
  import opened Sorting
  import opened Text

  datatype Identifier = Numeric(value: nat) | Alphanumeric(text: string)

  datatype Version = Version(core: seq<int>, pre: seq<Identifier>)

  // --- parsing -------------------------------------------------------------------------------

  function Split(s: string, c: char): (parts: seq<string>)
    ensures parts != []
    decreases |s|
  {
    var i := IndexOf(s, c);
    if i == |s| then [s] else [s[..i]] + Split(s[i + 1..], c)
  }

  predicate IsDigit(c: char) {
    '0' <= c <= '9'
  }

  predicate AllDigits(s: string) {
    s != "" && forall c :: c in s ==> IsDigit(c)
  }

  function NumberOf(s: string): nat
    requires forall c :: c in s ==> IsDigit(c)
  {
    if s == "" then 0
    else
      assert s[|s| - 1] in s && IsDigit(s[|s| - 1]);
      NumberOf(s[..|s| - 1]) * 10 + (s[|s| - 1] - '0') as int
  }

  function IdentifierOf(s: string): Identifier {
    if AllDigits(s) then Numeric(NumberOf(s)) else Alphanumeric(s)
  }

  /** `loose` stands for the number a part of the core has when it is not a row of digits. */
  function Parse(v: string, loose: string -> int): Version {
    var withoutBuild := v[..IndexOf(v, '+')];
    var dash := IndexOf(withoutBuild, '-');
    var core := Split(withoutBuild[..dash], '.');
    var pre := if dash == |withoutBuild| then [] else Split(withoutBuild[dash + 1..], '.');
    Version(
      seq(|core|, i requires 0 <= i < |core| => if AllDigits(core[i]) then NumberOf(core[i]) else loose(core[i])),
      seq(|pre|, i requires 0 <= i < |pre| => IdentifierOf(pre[i])))
  }

  // --- precedence as the standard words it -----------------------------------------------------

  function CorePart(v: Version, i: nat): int {
    if i < |v.core| then v.core[i] else 0
  }

  predicate IdentifierBelow(x: Identifier, y: Identifier) {
    match (x, y)
    case (Numeric(a), Numeric(b)) => a < b
    case (Numeric(_), Alphanumeric(_)) => true
    case (Alphanumeric(_), Numeric(_)) => false
    case (Alphanumeric(a), Alphanumeric(b)) => Less(a, b)
  }

  /** The first difference decides; when there is none the longer list is higher. */
  ghost predicate DecidedAt(p: seq<Identifier>, q: seq<Identifier>, k: nat) {
    && k <= |p| && k < |q| && p[..k] == q[..k]
    && (k == |p| || IdentifierBelow(p[k], q[k]))
  }

  ghost predicate PrereleaseBelow(p: seq<Identifier>, q: seq<Identifier>) {
    exists k: nat :: DecidedAt(p, q, k)
  }

  ghost predicate CoreBelow(a: Version, b: Version) {
    exists i: nat :: CoreDecidedAt(a, b, i)
  }

  ghost predicate CoreDecidedAt(a: Version, b: Version, i: nat) {
    i < 3 && CorePart(a, i) < CorePart(b, i) && forall j: nat :: j < i ==> CorePart(a, j) == CorePart(b, j)
  }

  predicate SameCore(a: Version, b: Version) {
    forall j: nat :: j < 3 ==> CorePart(a, j) == CorePart(b, j)
  }

  /** `a` has lower precedence than `b`: by core, then as a prerelease of it, then by prerelease identifiers. */
  ghost predicate Below(a: Version, b: Version) {
    || CoreBelow(a, b)
    || (SameCore(a, b) && a.pre != [] && (b.pre == [] || PrereleaseBelow(a.pre, b.pre)))
  }

  // --- the loops of the source ---------------------------------------------------------------------

  method IsNewerVersion(latest: string, current: string, loose: string -> int) returns (newer: bool)
    ensures newer <==> Below(Parse(current, loose), Parse(latest, loose))
  {
    hide Parse, IdentifierBelow;
    var a, b := Parse(latest, loose), Parse(current, loose);
    for i := 0 to 3
      invariant forall j: nat :: j < i ==> CorePart(a, j) == CorePart(b, j)
    {
      var left, right := CorePart(a, i), CorePart(b, i);
      if left != right {
        assert left > right ==> CoreDecidedAt(b, a, i);
        CoreDecidesOnce(a, b, i);
        return left > right;
      }
    }
    assert SameCore(b, a);
    SameCoreDecidesNothing(b, a);
    if |a.pre| == 0 { return |b.pre| > 0; }
    if |b.pre| == 0 { return false; }
    newer := PrereleaseNewer(a.pre, b.pre);
  }

  lemma CoreDecidesOnce(a: Version, b: Version, i: nat)
    requires i < 3 && CorePart(a, i) != CorePart(b, i) && forall j: nat :: j < i ==> CorePart(a, j) == CorePart(b, j)
    ensures CoreBelow(b, a) <==> CorePart(a, i) > CorePart(b, i)
    ensures !SameCore(b, a)
  {
    if CorePart(a, i) > CorePart(b, i) { assert CoreDecidedAt(b, a, i); }
  }

  lemma SameCoreDecidesNothing(a: Version, b: Version)
    requires SameCore(a, b)
    ensures !CoreBelow(a, b)
  {
  }

  /** Identifier by identifier, as far as both lists go. */
  method PrereleaseNewer(p: seq<Identifier>, q: seq<Identifier>) returns (newer: bool)
    ensures newer <==> PrereleaseBelow(q, p)
  {
    var i := 0;
    while i < |p| || i < |q|
      invariant i <= |p| && i <= |q| && p[..i] == q[..i]
      decreases |p| + |q| - i
    {
      if i >= |p| {
        LongerDecides(p, q, i);
        return false;
      }
      if i >= |q| {
        assert DecidedAt(q, p, i);
        return true;
      }
      if p[i] != q[i] {
        DifferenceDecides(p, q, i);
        return match (p[i], q[i])
          case (Numeric(left), Numeric(right)) => left > right
          case (Numeric(_), Alphanumeric(_)) => false
          case (Alphanumeric(_), Numeric(_)) => true
          case (Alphanumeric(left), Alphanumeric(right)) => Less(right, left);
      }
      i := i + 1;
    }
    assert p == p[..i] && q == q[..i];
    NothingDecides(p);
    newer := false;
  }

  lemma LongerDecides(p: seq<Identifier>, q: seq<Identifier>, i: nat)
    requires i == |p| < |q| && p[..i] == q[..i]
    ensures !PrereleaseBelow(q, p)
  {
    hide IdentifierBelow;
    IdentifiersOrdered();
    forall k: nat | k < |p| ensures p[k] == q[k] { PrefixAgrees(p, q, i, k); }
  }

  lemma NothingDecides(p: seq<Identifier>)
    ensures !PrereleaseBelow(p, p)
  {
    hide IdentifierBelow;
    IdentifiersOrdered();
  }

  lemma PrefixAgrees(p: seq<Identifier>, q: seq<Identifier>, n: nat, k: nat)
    requires k < n <= |p| && n <= |q| && p[..n] == q[..n]
    ensures p[k] == q[k]
  {
    assert p[..n][k] == q[..n][k];
  }

  lemma IdentifierPair(x: Identifier, y: Identifier)
    ensures IdentifierBelow(x, y) ==> !IdentifierBelow(y, x)
    ensures x != y ==> IdentifierBelow(x, y) || IdentifierBelow(y, x)
  {
    hide Less;
    LessIsOrder();
  }

  lemma IdentifierTriple(x: Identifier, y: Identifier, z: Identifier)
    requires !IdentifierBelow(x, y) && !IdentifierBelow(y, z)
    ensures !IdentifierBelow(x, z)
  {
    hide Less;
    LessIsOrder();
  }

  lemma IdentifiersOrdered()
    ensures StrictWeakOrder(IdentifierBelow)
    ensures Total(IdentifierBelow)
  {
    hide IdentifierBelow;
    forall x, y { IdentifierPair(x, y); }
    forall x, y, z | !IdentifierBelow(x, y) && !IdentifierBelow(y, z) ensures !IdentifierBelow(x, z) {
      IdentifierTriple(x, y, z);
    }
  }

  lemma DifferenceDecides(p: seq<Identifier>, q: seq<Identifier>, i: nat)
    requires i < |p| && i < |q| && p[..i] == q[..i] && p[i] != q[i]
    ensures PrereleaseBelow(q, p) <==> IdentifierBelow(q[i], p[i])
  {
    hide IdentifierBelow;
    IdentifiersOrdered();
    if IdentifierBelow(q[i], p[i]) { assert DecidedAt(q, p, i); }
    forall k: nat | k < i ensures p[k] == q[k] { PrefixAgrees(p, q, i, k); }
    forall k: nat | DecidedAt(q, p, k) ensures k == i {
      if k > i { PrefixAgrees(q, p, k, i); }
    }
  }

  // --- laws ------------------------------------------------------------------------------------------

  /** Identifier lists compared from the front. */
  predicate ListBelow(p: seq<Identifier>, q: seq<Identifier>) {
    if q == [] then false
    else if p == [] then true
    else if p[0] != q[0] then IdentifierBelow(p[0], q[0])
    else ListBelow(p[1..], q[1..])
  }

  lemma {:induction false} ListBelowIsPrerelease(p: seq<Identifier>, q: seq<Identifier>)
    ensures ListBelow(p, q) <==> PrereleaseBelow(p, q)
  {
    hide IdentifierBelow;
    IdentifiersOrdered();
    if q != [] && p == [] {
      assert DecidedAt(p, q, 0);
    } else if q != [] && p != [] {
      if p[0] != q[0] {
        DifferenceDecides(q, p, 0);
      } else {
        ListBelowIsPrerelease(p[1..], q[1..]);
        SkipSame(p, q);
      }
    }
  }

  lemma SkipSame(p: seq<Identifier>, q: seq<Identifier>)
    requires p != [] && q != [] && p[0] == q[0]
    ensures PrereleaseBelow(p, q) <==> PrereleaseBelow(p[1..], q[1..])
  {
    hide DecidedAt;
    forall k: nat ensures DecidedAt(p, q, k + 1) <==> DecidedAt(p[1..], q[1..], k) { DecidedLater(p, q, k); }
    NotDecidedAtOnce(p, q);
    if PrereleaseBelow(p[1..], q[1..]) {
      var k: nat :| DecidedAt(p[1..], q[1..], k);
      assert DecidedAt(p, q, k + 1);
    }
    if PrereleaseBelow(p, q) {
      var k: nat :| DecidedAt(p, q, k);
      assert DecidedAt(p, q, (k - 1) + 1);
      assert DecidedAt(p[1..], q[1..], k - 1);
    }
  }

  lemma DecidedLater(p: seq<Identifier>, q: seq<Identifier>, k: nat)
    requires p != [] && q != [] && p[0] == q[0]
    ensures DecidedAt(p, q, k + 1) <==> DecidedAt(p[1..], q[1..], k)
  {
    hide IdentifierBelow;
    if k < |p| && k + 1 < |q| {
      assert p[..k + 1] == [p[0]] + p[1..][..k] && q[..k + 1] == [q[0]] + q[1..][..k];
      assert p[..k + 1][1..] == p[1..][..k] && q[..k + 1][1..] == q[1..][..k];
    }
  }

  lemma NotDecidedAtOnce(p: seq<Identifier>, q: seq<Identifier>)
    requires p != [] && q != [] && p[0] == q[0]
    ensures !DecidedAt(p, q, 0)
  {
    hide IdentifierBelow;
    IdentifiersOrdered();
  }

  lemma {:induction false} ListsPair(p: seq<Identifier>, q: seq<Identifier>)
    ensures ListBelow(p, q) ==> !ListBelow(q, p)
    ensures p != q ==> ListBelow(p, q) || ListBelow(q, p)
  {
    hide IdentifierBelow;
    IdentifiersOrdered();
    if p != [] && q != [] && p[0] == q[0] {
      ListsPair(p[1..], q[1..]);
      assert p == [p[0]] + p[1..] && q == [q[0]] + q[1..];
    }
  }

  lemma {:induction false} ListsTriple(p: seq<Identifier>, q: seq<Identifier>, r: seq<Identifier>)
    requires !ListBelow(p, q) && !ListBelow(q, r)
    ensures !ListBelow(p, r)
  {
    hide IdentifierBelow;
    IdentifiersOrdered();
    if p != [] && q != [] && r != [] && p[0] == q[0] == r[0] { ListsTriple(p[1..], q[1..], r[1..]); }
  }

  lemma CorePair(a: Version, b: Version)
    ensures CoreBelow(a, b) ==> !CoreBelow(b, a) && !SameCore(a, b)
    ensures CoreBelow(a, b) || CoreBelow(b, a) || SameCore(a, b)
  {
    if CorePart(a, 0) != CorePart(b, 0) {
      CoreDecidesOnce(a, b, 0);
      CoreDecidesOnce(b, a, 0);
    } else if CorePart(a, 1) != CorePart(b, 1) {
      CoreDecidesOnce(a, b, 1);
      CoreDecidesOnce(b, a, 1);
    } else if CorePart(a, 2) != CorePart(b, 2) {
      CoreDecidesOnce(a, b, 2);
      CoreDecidesOnce(b, a, 2);
    } else {
      assert SameCore(a, b);
      SameCoreDecidesNothing(a, b);
      SameCoreDecidesNothing(b, a);
    }
  }

  lemma CoreTriple(a: Version, b: Version, c: Version)
    ensures !CoreBelow(a, b) && !CoreBelow(b, c) ==> !CoreBelow(a, c)
    ensures SameCore(a, b) && SameCore(b, c) ==> SameCore(a, c)
    ensures !CoreBelow(a, b) && !CoreBelow(b, c) && SameCore(a, c) ==> SameCore(a, b) && SameCore(b, c)
  {
    CoreIsThree(a, b);
    CoreIsThree(b, c);
    CoreIsThree(a, c);
  }

  lemma CoreIsThree(a: Version, b: Version)
    ensures CoreBelow(a, b) <==>
            || CorePart(a, 0) < CorePart(b, 0)
            || (CorePart(a, 0) == CorePart(b, 0) && CorePart(a, 1) < CorePart(b, 1))
            || (CorePart(a, 0) == CorePart(b, 0) && CorePart(a, 1) == CorePart(b, 1) && CorePart(a, 2) < CorePart(b, 2))
    ensures SameCore(a, b) <==>
            CorePart(a, 0) == CorePart(b, 0) && CorePart(a, 1) == CorePart(b, 1) && CorePart(a, 2) == CorePart(b, 2)
  {
    if CorePart(a, 0) != CorePart(b, 0) { CoreDecidesOnce(b, a, 0); }
    else if CorePart(a, 1) != CorePart(b, 1) { CoreDecidesOnce(b, a, 1); }
    else if CorePart(a, 2) != CorePart(b, 2) { CoreDecidesOnce(b, a, 2); }
    else { assert SameCore(a, b); SameCoreDecidesNothing(a, b); }
  }

  /** Two versions neither of which is below the other agree in everything precedence looks at. */
  lemma BelowPair(a: Version, b: Version)
    ensures Below(a, b) ==> !Below(b, a)
    ensures !Below(a, b) && !Below(b, a) <==> SameCore(a, b) && a.pre == b.pre
  {
    hide CoreBelow, SameCore, PrereleaseBelow, ListBelow;
    CorePair(a, b);
    CorePair(b, a);
    SameCoreBothWays(a, b);
    ListBelowIsPrerelease(a.pre, b.pre);
    ListBelowIsPrerelease(b.pre, a.pre);
    ListsPair(a.pre, b.pre);
    ListsPair(b.pre, a.pre);
  }

  lemma SameCoreBothWays(a: Version, b: Version)
    ensures SameCore(a, b) <==> SameCore(b, a)
  {
  }

  lemma BelowTriple(a: Version, b: Version, c: Version)
    requires !Below(a, b) && !Below(b, c)
    ensures !Below(a, c)
  {
    hide CoreBelow, SameCore, PrereleaseBelow, ListBelow;
    CoreTriple(a, b, c);
    ListBelowIsPrerelease(a.pre, b.pre);
    ListBelowIsPrerelease(b.pre, c.pre);
    ListBelowIsPrerelease(a.pre, c.pre);
    if !ListBelow(a.pre, b.pre) && !ListBelow(b.pre, c.pre) { ListsTriple(a.pre, b.pre, c.pre); }
  }

  /** Precedence is a strict weak order: updates cannot chase each other in a circle. */
  lemma PrecedenceIsAnOrder()
    ensures StrictWeakOrder(Below)
  {
    hide Below;
    forall a, b { BelowPair(a, b); }
    forall a, b, c | !Below(a, b) && !Below(b, c) ensures !Below(a, c) { BelowTriple(a, b, c); }
  }

  /** Build metadata takes no part in precedence (section 10). */
  lemma BuildMetadataIsIgnored(v: string, meta: string, loose: string -> int)
    ensures Parse(v + "+" + meta, loose) == Parse(v, loose)
  {
    hide Split;
    var tagged := v + "+" + meta;
    var i := IndexOf(v, '+');
    assert tagged == v + ['+'] + meta;
    assert forall k :: 0 <= k < |v| ==> tagged[k] == v[k];
    assert tagged[|v|] == '+';
    SamePlace(tagged, v);
    assert tagged[..i] == v[..i];
  }

  lemma SamePlace(tagged: string, v: string)
    requires |v| < |tagged| && tagged[..|v|] == v && tagged[|v|] == '+'
    ensures IndexOf(tagged, '+') == IndexOf(v, '+')
  {
    var i, j := IndexOf(tagged, '+'), IndexOf(v, '+');
    assert forall k :: 0 <= k < |v| ==> tagged[k] == v[k];
  }

  /** Three numbers decide, the first the most; at equal numbers a prerelease is below the release. */
  lemma BelowExactly(a: int, b: int, c: int, p: seq<Identifier>, x: int, y: int, z: int, q: seq<Identifier>)
    ensures Below(Version([a, b, c], p), Version([x, y, z], q)) <==>
            || a < x
            || (a == x && (b < y || (b == y && c < z)))
            || (a == x && b == y && c == z && p != [] && (q == [] || PrereleaseBelow(p, q)))
  {
    hide CoreBelow, SameCore, PrereleaseBelow;
    CoreIsThree(Version([a, b, c], p), Version([x, y, z], q));
  }

  /** Parts a version leaves out count as zero, and parts after the third do not count. */
  lemma OtherPartsDoNotCount(core: seq<int>, more: seq<int>, pre: seq<Identifier>, other: Version)
    requires |core| >= 3 || forall n :: n in more ==> n == 0
    ensures Below(Version(core + more, pre), other) <==> Below(Version(core, pre), other)
    ensures Below(other, Version(core + more, pre)) <==> Below(other, Version(core, pre))
  {
    hide CoreBelow, SameCore, PrereleaseBelow, CorePart;
    var longer, shorter := Version(core + more, pre), Version(core, pre);
    forall i: nat | i < 3 ensures CorePart(longer, i) == CorePart(shorter, i) { PartStays(core, more, pre, i); }
    CoreIsThree(longer, other);
    CoreIsThree(shorter, other);
    CoreIsThree(other, longer);
    CoreIsThree(other, shorter);
  }

  lemma PartStays(core: seq<int>, more: seq<int>, pre: seq<Identifier>, i: nat)
    requires i < 3 && (|core| >= 3 || forall n :: n in more ==> n == 0)
    ensures CorePart(Version(core + more, pre), i) == CorePart(Version(core, pre), i)
  {
    if |core| <= i < |core + more| { assert (core + more)[i] in more; }
  }

  // --- parsing undoes writing --------------------------------------------------------------------------

  ghost function Decimal(n: nat): string {
    (if n < 10 then "" else Decimal(n / 10)) + [('0' as int + n % 10) as char]
  }

  lemma {:induction false} DecimalIsRead(n: nat)
    ensures AllDigits(Decimal(n)) && NumberOf(Decimal(n)) == n
  {
    var s := Decimal(n);
    assert s[..|s| - 1] == if n < 10 then "" else Decimal(n / 10);
    if n >= 10 { DecimalIsRead(n / 10); }
    assert n == n / 10 * 10 + n % 10;
  }

  ghost function Written(x: Identifier): string {
    match x
    case Numeric(n) => Decimal(n)
    case Alphanumeric(text) => text
  }

  /** Alphanumeric identifiers hold no separator, and something else than digits. */
  ghost predicate Proper(x: Identifier) {
    x.Alphanumeric? ==> '.' !in x.text && '+' !in x.text && exists c :: c in x.text && !('0' <= c <= '9')
  }

  lemma WrittenIsRead(x: Identifier)
    requires Proper(x)
    ensures IdentifierOf(Written(x)) == x && '.' !in Written(x) && '+' !in Written(x)
  {
    hide NumberOf;
    if x.Numeric? { DecimalIsRead(x.value); }
  }

  ghost function Numbers(core: seq<nat>): seq<string> {
    seq(|core|, i requires 0 <= i < |core| => Decimal(core[i]))
  }

  ghost function Identifiers(pre: seq<Identifier>): seq<string> {
    seq(|pre|, i requires 0 <= i < |pre| => Written(pre[i]))
  }

  /** `1.2.3-rc.1`. */
  ghost function VersionText(core: seq<nat>, pre: seq<Identifier>): string {
    Join(Numbers(core), ".") + if pre == [] then "" else "-" + Join(Identifiers(pre), ".")
  }

  lemma {:induction false} SplitUndoesJoin(parts: seq<string>, c: char)
    requires parts != [] && forall p :: p in parts ==> c !in p
    ensures Split(Join(parts, [c]), c) == parts
    decreases |parts|
  {
    var s := Join(parts, [c]);
    assert parts == [parts[0]] + parts[1..];
    if |parts| == 1 {
      assert IndexOf(s, c) == |s|;
    } else {
      var rest := Join(parts[1..], [c]);
      IndexOfJoint(parts[0], c, rest);
      assert s == parts[0] + [c] + rest && s[..|parts[0]|] == parts[0] && s[|parts[0]| + 1..] == rest;
      SplitUndoesJoin(parts[1..], c);
    }
  }

  lemma NumbersAreRead(core: seq<nat>)
    requires core != []
    ensures var parts := Split(Join(Numbers(core), "."), '.');
            |parts| == |core| &&
            forall i :: 0 <= i < |core| ==> AllDigits(parts[i]) && NumberOf(parts[i]) == core[i]
    ensures '-' !in Join(Numbers(core), ".") && '+' !in Join(Numbers(core), ".")
  {
    hide NumberOf, Decimal, Split, Join;
    var parts := Numbers(core);
    forall i | 0 <= i < |core| ensures AllDigits(parts[i]) && NumberOf(parts[i]) == core[i] { DecimalIsRead(core[i]); }
    assert forall p :: p in parts ==> AllDigits(p);
    SplitUndoesJoin(parts, '.');
    JoinHolds(parts, '.', '-');
    JoinHolds(parts, '.', '+');
  }

  lemma IdentifiersAreRead(pre: seq<Identifier>)
    requires pre != [] && forall x :: x in pre ==> Proper(x)
    ensures var parts := Split(Join(Identifiers(pre), "."), '.');
            |parts| == |pre| && forall i :: 0 <= i < |pre| ==> IdentifierOf(parts[i]) == pre[i]
    ensures '+' !in Join(Identifiers(pre), ".")
  {
    hide Split, Join, IdentifierOf, Written, Proper;
    var parts := Identifiers(pre);
    forall i | 0 <= i < |pre|
      ensures IdentifierOf(parts[i]) == pre[i] && '.' !in parts[i] && '+' !in parts[i]
    {
      assert pre[i] in pre;
      WrittenIsRead(pre[i]);
    }
    SplitUndoesJoin(parts, '.');
    JoinHolds(parts, '.', '+');
  }

  ghost predicate CoreRead(v: Version, parts: seq<string>, loose: string -> int) {
    && |v.core| == |parts|
    && forall i :: 0 <= i < |parts| ==> v.core[i] == if AllDigits(parts[i]) then NumberOf(parts[i]) else loose(parts[i])
  }

  ghost predicate PreRead(v: Version, parts: seq<string>) {
    |v.pre| == |parts| && forall i :: 0 <= i < |parts| ==> v.pre[i] == IdentifierOf(parts[i])
  }

  lemma ParseOfCore(front: string, loose: string -> int)
    requires '-' !in front && '+' !in front
    ensures var v := Parse(front, loose); CoreRead(v, Split(front, '.'), loose) && v.pre == []
  {
    hide Split, IdentifierOf, NumberOf, AllDigits;
    assert front[..|front|] == front;
  }

  lemma ParseOfBoth(front: string, back: string, loose: string -> int)
    requires '-' !in front && '+' !in front && '+' !in back
    ensures var v := Parse(front + "-" + back, loose);
            CoreRead(v, Split(front, '.'), loose) && PreRead(v, Split(back, '.'))
  {
    hide Split, IdentifierOf, NumberOf, AllDigits;
    var v := front + ['-'] + back;
    assert v[..|v|] == v;
    IndexOfJoint(front, '-', back);
    assert v[..|front|] == front && v[|front| + 1..] == back;
  }

  /** A version as the standard writes it is read back part by part: numbers by value, the rest as text. */
  lemma ParseUndoesWriting(core: seq<nat>, pre: seq<Identifier>, loose: string -> int)
    requires core != [] && forall x :: x in pre ==> Proper(x)
    ensures Parse(VersionText(core, pre), loose) == Version(core, pre)
  {
    hide Split, Join, IdentifierOf, NumberOf, Proper, Numbers, Identifiers, Parse, AllDigits;
    var front, v := Join(Numbers(core), "."), Parse(VersionText(core, pre), loose);
    NumbersAreRead(core);
    if pre == [] {
      assert VersionText(core, pre) == front;
      ParseOfCore(front, loose);
    } else {
      IdentifiersAreRead(pre);
      assert VersionText(core, pre) == front + "-" + Join(Identifiers(pre), ".");
      ParseOfBoth(front, Join(Identifiers(pre), "."), loose);
    }
    assert v.core == core && v.pre == pre;
  }
}
