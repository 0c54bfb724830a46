/**
 * Strings as the sources compare, join, split and trim them: comparison by code unit,
 * joining with a separator that no part holds, and the search for a character.
 */
module Text {
  import opened Sorting

  const NUL: char := '\0'
  const COMMA: char := ','
  const NEWLINE: char := '\n'

  /** JavaScript's `<` on strings: the first differing unit decides, a proper prefix is smaller. */
  predicate Less(a: string, b: string) {
    b != [] && (a == [] || a[0] < b[0] || (a[0] == b[0] && Less(a[1..], b[1..])))
  }

  lemma {:induction false} LessAsymmetric(a: string, b: string)
    requires Less(a, b)
    ensures !Less(b, a)
  {
    if a != [] && a[0] == b[0] { LessAsymmetric(a[1..], b[1..]); }
  }

  lemma {:induction false} LessTransitive(a: string, b: string, c: string)
    requires Less(a, b) && Less(b, c)
    ensures Less(a, c)
  {
    if a != [] && a[0] == b[0] && b[0] == c[0] { LessTransitive(a[1..], b[1..], c[1..]); }
  }

  lemma {:induction false} LessTotal(a: string, b: string)
    requires a != b
    ensures Less(a, b) || Less(b, a)
  {
    if a != [] && b != [] && a[0] == b[0] {
      assert a == [a[0]] + a[1..] && b == [b[0]] + b[1..];
      LessTotal(a[1..], b[1..]);
    }
  }

  lemma LessIsOrder()
    ensures StrictWeakOrder(Less) && Total(Less)
  {
    forall a: string, b: string ensures (Less(a, b) ==> !Less(b, a)) && (a != b ==> Less(a, b) || Less(b, a)) {
      if Less(a, b) { LessAsymmetric(a, b); }
      if a != b { LessTotal(a, b); }
    }
    forall a: string, b: string, c: string | !Less(a, b) && !Less(b, c) ensures !Less(a, c) {
      if Less(a, c) {
        if a == b || b == c {
        } else {
          LessTransitive(c, b, a);
          LessAsymmetric(a, c);
        }
      }
    }
  }

  lemma StringSortDecides(s: seq<string>, t: seq<string>)
    ensures SortBy(s, Less) == SortBy(t, Less) <==> multiset(s) == multiset(t)
  {
    LessIsOrder();
    SortDecidesPermutation(s, t, Less);
  }

  /** `parts.join(separator)`. */
  function Join(parts: seq<string>, separator: string): string {
    if parts == [] then []
    else if |parts| == 1 then parts[0]
    else parts[0] + separator + Join(parts[1..], separator)
  }

  /** `s.indexOf(c)`, with the length of `s` for "absent". */
  function IndexOf(s: string, c: char): (i: nat)
    ensures i <= |s|
    ensures c !in s[..i]
    ensures i < |s| ==> s[i] == c
    ensures i == |s| <==> c !in s
  {
    if s == [] || s[0] == c then 0
    else
      var i := 1 + IndexOf(s[1..], c);
      assert s[..i] == [s[0]] + s[1..][..i - 1];
      assert s == [s[0]] + s[1..];
      i
  }

  /** The first separator of `a + [c] + b` is the one written, when `a` holds none. */
  lemma IndexOfJoint(a: string, c: char, b: string)
    requires c !in a
    ensures IndexOf(a + [c] + b, c) == |a|
  {
    var s := a + [c] + b;
    var i := IndexOf(s, c);
    assert s[|a|] == c;
    assert forall k :: 0 <= k < |a| ==> s[k] == a[k];
    assert forall k :: 0 <= k < i ==> s[k] == s[..i][k];
  }

  /** Two fields glued by a separator the left fields do not hold come apart the same way. */
  lemma FieldsComeApart(a: string, b: string, a': string, b': string, c: char)
    requires c !in a && c !in a'
    requires a + [c] + b == a' + [c] + b'
    ensures a == a' && b == b'
  {
    IndexOfJoint(a, c, b);
    IndexOfJoint(a', c, b');
    assert a == (a + [c] + b)[..|a|] && a' == (a' + [c] + b')[..|a'|];
    assert b == (a + [c] + b)[|a| + 1..] && b' == (a' + [c] + b')[|a'| + 1..];
  }

  lemma JoinHolds(parts: seq<string>, c: char, d: char)
    requires c != d && forall p :: p in parts ==> d !in p
    ensures d !in Join(parts, [c])
  {
    if |parts| >= 2 { JoinHolds(parts[1..], c, d); }
  }

  /** Joining non-empty lists of separator-free parts loses nothing. */
  lemma {:induction false} JoinInjective(p: seq<string>, q: seq<string>, c: char)
    requires p != [] && q != []
    requires forall x :: x in p || x in q ==> c !in x
    requires Join(p, [c]) == Join(q, [c])
    ensures p == q
  {
    assert |p| > 1 ==> Join(p, [c])[|p[0]|] == c;
    assert |q| > 1 ==> Join(q, [c])[|q[0]|] == c;
    assert |p| == 1 ==> c !in Join(p, [c]);
    assert |q| == 1 ==> c !in Join(q, [c]);
    if |p| > 1 && |q| > 1 {
      FieldsComeApart(p[0], Join(p[1..], [c]), q[0], Join(q[1..], [c]), c);
      JoinInjective(p[1..], q[1..], c);
      assert p == [p[0]] + p[1..] && q == [q[0]] + q[1..];
    }
  }

  predicate IsBlank(c: char) {
    c == ' ' || '\t' <= c <= '\r'
  }

  function TrimLeft(s: string): string {
    if s != [] && IsBlank(s[0]) then TrimLeft(s[1..]) else s
  }

  function TrimRight(s: string): string {
    if s != [] && IsBlank(s[|s| - 1]) then TrimRight(s[..|s| - 1]) else s
  }

  function Trim(s: string): string {
    TrimRight(TrimLeft(s))
  }

  function LowerChar(c: char): char {
    if 'A' <= c <= 'Z' then 'a' + (c - 'A') else c
  }

  function Lower(s: string): string {
    seq(|s|, i requires 0 <= i < |s| => LowerChar(s[i]))
  }

  /** The text part of a dedup key: surrounding blanks and letter case do not count. */
  function Normalized(s: string): string {
    Lower(Trim(s))
  }

  // --- what comparing and normalising come to ---------------------------------------------

  /** `a` ends here and `b` goes on, or their first different units stand here. */
  ghost predicate DecidesAt(a: string, b: string, k: nat) {
    k <= |a| && k < |b| && a[..k] == b[..k] && (k == |a| || a[k] < b[k])
  }

  lemma DecidesLater(a: string, b: string, k: nat)
    requires a != [] && b != [] && a[0] == b[0]
    ensures DecidesAt(a, b, k + 1) <==> DecidesAt(a[1..], b[1..], k)
  {
    if k < |a| && k + 1 < |b| {
      assert a[..k + 1] == [a[0]] + a[1..][..k] && b[..k + 1] == [b[0]] + b[1..][..k];
      assert a[..k + 1][1..] == a[1..][..k] && b[..k + 1][1..] == b[1..][..k];
    }
  }

  lemma {:induction false} LessExactly(a: string, b: string)
    ensures Less(a, b) <==> exists k: nat :: DecidesAt(a, b, k)
  {
    if b == [] {
    } else if a == [] || a[0] < b[0] {
      assert DecidesAt(a, b, 0);
    } else if a[0] == b[0] {
      LessExactly(a[1..], b[1..]);
      if Less(a, b) {
        var k: nat :| DecidesAt(a[1..], b[1..], k);
        DecidesLater(a, b, k);
        assert DecidesAt(a, b, k + 1);
      }
      forall k: nat | DecidesAt(a, b, k) ensures Less(a, b) {
        if k > 0 { DecidesLater(a, b, k - 1); }
      }
    }
  }

  ghost predicate Blanks(s: string) {
    forall c :: c in s ==> Blank(c)
  }

  /** Space, tab, the line ends, vertical tab and form feed. */
  ghost predicate Blank(c: char) {
    c == ' ' || c == '\t' || c == '\n' || c == '\U{000B}' || c == '\U{000C}' || c == '\r'
  }

  /** What is left of `s` between the blanks at its two ends. */
  ghost predicate IsCore(core: string, s: string) {
    && (exists a, b :: s == a + core + b && Blanks(a) && Blanks(b))
    && (core != [] ==> !Blank(core[0]) && !Blank(core[|core| - 1]))
  }

  lemma {:induction false} TrimLeftDrops(a: string, rest: string)
    requires Blanks(a) && (rest != [] ==> !Blank(rest[0]))
    ensures TrimLeft(a + rest) == rest
  {
    if a == [] {
      assert a + rest == rest;
    } else {
      assert a[0] in a;
      assert (a + rest)[1..] == a[1..] + rest;
      TrimLeftDrops(a[1..], rest);
    }
  }

  lemma {:induction false} TrimRightDrops(rest: string, b: string)
    requires Blanks(b) && (rest != [] ==> !Blank(rest[|rest| - 1]))
    ensures TrimRight(rest + b) == rest
  {
    if b == [] {
      assert rest + b == rest;
    } else {
      var n := |b| - 1;
      assert b[n] in b;
      assert (rest + b)[..|rest + b| - 1] == rest + b[..n];
      TrimRightDrops(rest, b[..n]);
    }
  }

  lemma {:induction false} LeftBlanks(s: string) returns (a: string)
    ensures Blanks(a) && s == a + TrimLeft(s) && (TrimLeft(s) != [] ==> !Blank(TrimLeft(s)[0]))
  {
    if s != [] && IsBlank(s[0]) {
      a := LeftBlanks(s[1..]);
      assert s == [s[0]] + s[1..];
      a := [s[0]] + a;
    } else {
      a := [];
    }
  }

  lemma {:induction false} RightBlanks(s: string) returns (b: string)
    ensures Blanks(b) && s == TrimRight(s) + b
    ensures TrimRight(s) != [] ==> TrimRight(s)[0] == s[0] && !Blank(TrimRight(s)[|TrimRight(s)| - 1])
  {
    if s != [] && IsBlank(s[|s| - 1]) {
      var n := |s| - 1;
      b := RightBlanks(s[..n]);
      assert s == s[..n] + [s[n]];
      b := b + [s[n]];
    } else {
      b := [];
    }
  }

  lemma TrimIsCore(s: string)
    ensures IsCore(Trim(s), s)
  {
    var a := LeftBlanks(s);
    var b := RightBlanks(TrimLeft(s));
    assert s == a + Trim(s) + b;
  }

  lemma OneCore(core: string, s: string)
    requires IsCore(core, s)
    ensures Trim(s) == core
  {
    var a, b :| s == a + core + b && Blanks(a) && Blanks(b);
    if core == [] {
      assert a + core + b == (a + b) + [];
      TrimLeftDrops(a + b, []);
    } else {
      assert a + core + b == a + (core + b);
      TrimLeftDrops(a, core + b);
      TrimRightDrops(core, b);
    }
  }

  /** Equal but for the case of ASCII letters. */
  ghost predicate SameLetters(s: string, t: string) {
    |s| == |t| && forall i :: 0 <= i < |s| ==> SameLetter(s[i], t[i])
  }

  ghost predicate SameLetter(c: char, d: char) {
    || c == d
    || ('A' <= c <= 'Z' && c as int + 32 == d as int)
    || ('A' <= d <= 'Z' && d as int + 32 == c as int)
  }

  lemma LowerExactly(s: string, t: string)
    ensures Lower(s) == Lower(t) <==> SameLetters(s, t)
  {
    if Lower(s) == Lower(t) {
      assert |s| == |Lower(s)| == |Lower(t)| == |t|;
      forall i | 0 <= i < |s| ensures SameLetter(s[i], t[i]) {
        assert Lower(s)[i] == LowerChar(s[i]) && Lower(t)[i] == LowerChar(t[i]);
      }
    }
  }

  /** Texts count as equal exactly when, blanks at the ends and letter case aside, they are. */
  lemma NormalizedExactly(s: string, t: string)
    ensures Normalized(s) == Normalized(t) <==> exists c, d :: IsCore(c, s) && IsCore(d, t) && SameLetters(c, d)
  {
    hide Lower, Trim, IsCore, SameLetters;
    TrimIsCore(s);
    TrimIsCore(t);
    LowerExactly(Trim(s), Trim(t));
    forall c, d | IsCore(c, s) && IsCore(d, t) ensures Trim(s) == c && Trim(t) == d {
      OneCore(c, s);
      OneCore(d, t);
    }
  }
}
