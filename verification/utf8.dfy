/**
 * UTF-8: encoding, the lossy decoding of a byte buffer, and where a cut of the buffer
 * may fall without changing what the text before it decodes to.
 */
module Utf8 {

  type Byte = b: int | 0 <= b < 256

  /** Unicode scalar values: no surrogates. */
  predicate IsScalar(c: int) {
    0 <= c < 0xD800 || 0xE000 <= c <= 0x10FFFF
  }

  type Scalar = c: int | 0 <= c < 0xD800 || 0xE000 <= c <= 0x10FFFF

  type Text = seq<Scalar>

  const REPLACEMENT: Scalar := 0xFFFD

  function Enc(c: Scalar): (bytes: seq<Byte>)
    ensures 1 <= |bytes| <= 4
  {
    if c < 0x80 then [c]
    else if c < 0x800 then [0xC0 + c / 64, 0x80 + c % 64]
    else if c < 0x10000 then [0xE0 + c / 4096, 0x80 + c / 64 % 64, 0x80 + c % 64]
    else [0xF0 + c / 262144, 0x80 + c / 4096 % 64, 0x80 + c / 64 % 64, 0x80 + c % 64]
  }

  function Encode(text: Text): seq<Byte> {
    if text == [] then [] else Enc(text[0]) + Encode(text[1..])
  }

  // --- decoding as the WHATWG Encoding Standard prescribes it ------------------------------

  /** How many continuation bytes a lead byte asks for, and the range of the first of them. */
  datatype Lead = Lead(more: nat, lower: int, upper: int)

  function LeadOf(b: Byte): Lead {
    if 0xC2 <= b <= 0xDF then Lead(1, 0x80, 0xBF)
    else if b == 0xE0 then Lead(2, 0xA0, 0xBF)
    else if b == 0xED then Lead(2, 0x80, 0x9F)
    else if 0xE1 <= b <= 0xEF then Lead(2, 0x80, 0xBF)
    else if b == 0xF0 then Lead(3, 0x90, 0xBF)
    else if b == 0xF4 then Lead(3, 0x80, 0x8F)
    else if 0xF1 <= b <= 0xF3 then Lead(3, 0x80, 0xBF)
    else Lead(0, 0, 0)
  }

  /** Number of continuation bytes in place after a lead byte. */
  function Continuations(bytes: seq<Byte>, lead: Lead): (n: nat)
    requires bytes != []
    ensures n <= lead.more && n < |bytes|
  {
    if lead.more < 1 || |bytes| < 2 || !(lead.lower <= bytes[1] <= lead.upper) then 0
    else if lead.more < 2 || |bytes| < 3 || !(0x80 <= bytes[2] <= 0xBF) then 1
    else if lead.more < 3 || |bytes| < 4 || !(0x80 <= bytes[3] <= 0xBF) then 2
    else 3
  }

  function Assemble(bytes: seq<Byte>, lead: Lead): int
    requires |bytes| > lead.more && 1 <= lead.more <= 3
  {
    var b0: int, b1: int := bytes[0], bytes[1];
    if lead.more == 1 then (b0 - 0xC0) * 64 + (b1 - 0x80)
    else
      var b2: int := bytes[2];
      if lead.more == 2 then (b0 - 0xE0) * 4096 + (b1 - 0x80) * 64 + (b2 - 0x80)
      else
        var b3: int := bytes[3];
        (b0 - 0xF0) * 262144 + (b1 - 0x80) * 4096 + (b2 - 0x80) * 64 + (b3 - 0x80)
  }

  datatype Decoded = Decoded(scalar: Scalar, used: nat)

  /** One character off the front; a broken sequence yields one replacement character. */
  function DecodeOne(bytes: seq<Byte>): (d: Decoded)
    requires bytes != []
    ensures 1 <= d.used <= |bytes|
  {
    var lead := LeadOf(bytes[0]);
    if bytes[0] < 0x80 then Decoded(bytes[0], 1)
    else if lead.more == 0 then Decoded(REPLACEMENT, 1)
    else
      var n := Continuations(bytes, lead);
      if n == lead.more && IsScalar(Assemble(bytes, lead)) then Decoded(Assemble(bytes, lead), n + 1)
      else Decoded(REPLACEMENT, n + 1)
  }

  function Decode(bytes: seq<Byte>): Text {
    if bytes == [] then []
    else
      var d := DecodeOne(bytes);
      [d.scalar] + Decode(bytes[d.used..])
  }

  // --- laws -----------------------------------------------------------------------------------

  lemma {:induction false} EncodeJoins(a: Text, b: Text)
    ensures Encode(a + b) == Encode(a) + Encode(b)
  {
    if a == [] {
      assert a + b == b;
    } else {
      assert (a + b)[0] == a[0] && (a + b)[1..] == a[1..] + b;
      EncodeJoins(a[1..], b);
    }
  }

  lemma SixBits(c: int)
    requires c >= 0
    ensures c / 64 / 64 == c / 4096 && c / 4096 / 64 == c / 262144
    ensures c == c / 64 * 64 + c % 64
    ensures c / 64 == c / 4096 * 64 + c / 64 % 64
    ensures c / 4096 == c / 262144 * 64 + c / 4096 % 64
  {
  }

  lemma LeadOfTwo(c: Scalar)
    requires 0x80 <= c < 0x800
    ensures LeadOf(0xC0 + c / 64) == Lead(1, 0x80, 0xBF)
  {
  }

  lemma LeadOfThree(c: Scalar)
    requires 0x800 <= c < 0x10000
    ensures var lead := LeadOf(0xE0 + c / 4096);
            lead.more == 2 && lead.lower <= 0x80 + c / 64 % 64 <= lead.upper
  {
    SixBits(c);
  }

  lemma LeadOfFour(c: Scalar)
    requires 0x10000 <= c
    ensures var lead := LeadOf(0xF0 + c / 262144);
            lead.more == 3 && lead.lower <= 0x80 + c / 4096 % 64 <= lead.upper
  {
    SixBits(c);
  }

  lemma DecodeTwo(c: Scalar, bytes: seq<Byte>)
    requires 0x80 <= c < 0x800 && |bytes| >= 2
    requires bytes[0] == 0xC0 + c / 64 && bytes[1] == 0x80 + c % 64
    ensures DecodeOne(bytes) == Decoded(c, 2)
  {
    SixBits(c);
    LeadOfTwo(c);
  }

  lemma DecodeThree(c: Scalar, bytes: seq<Byte>)
    requires 0x800 <= c < 0x10000 && |bytes| >= 3
    requires bytes[0] == 0xE0 + c / 4096 && bytes[1] == 0x80 + c / 64 % 64 && bytes[2] == 0x80 + c % 64
    ensures DecodeOne(bytes) == Decoded(c, 3)
  {
    hide LeadOf;
    SixBits(c);
    LeadOfThree(c);
    assert Continuations(bytes, LeadOf(bytes[0])) == 2;
  }

  lemma DecodeFour(c: Scalar, bytes: seq<Byte>)
    requires 0x10000 <= c && |bytes| >= 4
    requires bytes[0] == 0xF0 + c / 262144 && bytes[1] == 0x80 + c / 4096 % 64
    requires bytes[2] == 0x80 + c / 64 % 64 && bytes[3] == 0x80 + c % 64
    ensures DecodeOne(bytes) == Decoded(c, 4)
  {
    hide LeadOf;
    SixBits(c);
    LeadOfFour(c);
    assert Continuations(bytes, LeadOf(bytes[0])) == 3;
  }

  lemma DecodeOneUndoesEnc(c: Scalar, rest: seq<Byte>)
    ensures DecodeOne(Enc(c) + rest) == Decoded(c, |Enc(c)|)
  {
    var bytes := Enc(c) + rest;
    assert forall i :: 0 <= i < |Enc(c)| ==> bytes[i] == Enc(c)[i];
    if 0x80 <= c {
      hide DecodeOne;
      if c < 0x800 {
        DecodeTwo(c, bytes);
      } else if c < 0x10000 {
        DecodeThree(c, bytes);
      } else {
        DecodeFour(c, bytes);
      }
    }
  }

  /** Decoding undoes encoding, whatever follows. */
  lemma DecodeStep(c: Scalar, tail: seq<Byte>)
    ensures Decode(Enc(c) + tail) == [c] + Decode(tail)
  {
    hide DecodeOne, Enc;
    var bytes := Enc(c) + tail;
    DecodeOneUndoesEnc(c, tail);
    assert bytes[|Enc(c)|..] == tail;
  }

  lemma {:induction false} DecodeUndoesEncode(text: Text, rest: seq<Byte>)
    ensures Decode(Encode(text) + rest) == text + Decode(rest)
    decreases |text|
  {
    hide Decode, Enc;
    if text == [] {
      assert Encode(text) + rest == rest;
    } else {
      var tail := Encode(text[1..]) + rest;
      assert Encode(text) + rest == Enc(text[0]) + tail;
      DecodeStep(text[0], tail);
      DecodeUndoesEncode(text[1..], rest);
      assert [text[0]] + (text[1..] + Decode(rest)) == text + Decode(rest);
    }
  }

  /** A character cut short decodes to one replacement character. */
  lemma CutCharacter(c: Scalar, n: nat)
    requires 0 < n < |Enc(c)|
    ensures Decode(Enc(c)[..n]) == [REPLACEMENT]
  {
    hide Decode, Assemble;
    var bytes := Enc(c)[..n];
    SixBits(c);
    if c < 0x800 { LeadOfTwo(c); } else if c < 0x10000 { LeadOfThree(c); } else { LeadOfFour(c); }
    assert forall i :: 0 <= i < n ==> bytes[i] == Enc(c)[i];
    assert LeadOf(bytes[0]).more == |Enc(c)| - 1;
    assert Continuations(bytes, LeadOf(bytes[0])) == n - 1;
    assert DecodeOne(bytes) == Decoded(REPLACEMENT, n);
    OneBrokenCharacter(bytes);
  }

  lemma OneBrokenCharacter(bytes: seq<Byte>)
    requires bytes != [] && DecodeOne(bytes) == Decoded(REPLACEMENT, |bytes|)
    ensures Decode(bytes) == [REPLACEMENT]
  {
    hide DecodeOne;
    assert bytes[|bytes|..] == [];
  }

  /** A byte prefix of a text is its first `k` characters and less than one more. */
  lemma {:induction false} CutText(text: Text, n: nat) returns (k: nat)
    requires n <= |Encode(text)|
    ensures k <= |text| && |Encode(text[..k])| <= n
    ensures k < |text| ==> n < |Encode(text[..k + 1])|
    ensures Decode(Encode(text)[..n]) == text[..k] + if n == |Encode(text[..k])| then [] else [REPLACEMENT]
    decreases |text|
  {
    hide DecodeOne, Enc;
    if text == [] {
      k := 0;
    } else {
      var first := Enc(text[0]);
      var bytes := Encode(text)[..n];
      if n < |first| {
        k := 0;
        assert text[..1][1..] == [] && Encode(text[..1]) == first + [];
        assert bytes == first[..n];
        if n > 0 { CutCharacter(text[0], n); }
      } else {
        var j := CutText(text[1..], n - |first|);
        k := j + 1;
        var tail := Encode(text[1..])[..n - |first|];
        assert bytes == first + tail;
        DecodeOneUndoesEnc(text[0], tail);
        assert bytes[|first|..] == tail;
        assert text[..k] == [text[0]] + text[1..][..j];
        assert text[..k][1..] == text[1..][..j];
        if k < |text| { assert text[..k + 1][1..] == text[1..][..j + 1]; }
      }
    }
  }

  // --- decoding is strict ------------------------------------------------------------------------

  lemma SixMore(a: int, b: int)
    requires 0 <= b < 64
    ensures (a * 64 + b) / 64 == a && (a * 64 + b) % 64 == b
  {
  }

  lemma TwoAreExact(b0: Byte, b1: Byte, c: Scalar)
    requires 0xC2 <= b0 <= 0xDF && 0x80 <= b1 <= 0xBF && c == (b0 - 0xC0) * 64 + (b1 - 0x80)
    ensures Enc(c) == [b0, b1]
  {
    SixMore(b0 - 0xC0, b1 - 0x80);
  }

  lemma ThreeAreExact(b0: Byte, b1: Byte, b2: Byte, c: Scalar)
    requires 0xE0 <= b0 <= 0xEF && 0x80 <= b1 <= 0xBF && 0x80 <= b2 <= 0xBF && (b0 == 0xE0 ==> b1 >= 0xA0)
    requires c == (b0 - 0xE0) * 4096 + (b1 - 0x80) * 64 + (b2 - 0x80)
    ensures Enc(c) == [b0, b1, b2]
  {
    var high := (b0 - 0xE0) * 64 + (b1 - 0x80);
    assert c == high * 64 + (b2 - 0x80);
    SixMore(high, b2 - 0x80);
    SixMore(b0 - 0xE0, b1 - 0x80);
    SixBits(c);
  }

  lemma FourAreExact(b0: Byte, b1: Byte, b2: Byte, b3: Byte, c: Scalar)
    requires 0xF0 <= b0 <= 0xF4 && 0x80 <= b1 <= 0xBF && 0x80 <= b2 <= 0xBF && 0x80 <= b3 <= 0xBF
    requires b0 == 0xF0 ==> b1 >= 0x90
    requires c == (b0 - 0xF0) * 262144 + (b1 - 0x80) * 4096 + (b2 - 0x80) * 64 + (b3 - 0x80)
    ensures Enc(c) == [b0, b1, b2, b3]
  {
    var high := (b0 - 0xF0) * 64 + (b1 - 0x80);
    var most := high * 64 + (b2 - 0x80);
    assert c == most * 64 + (b3 - 0x80);
    SixMore(most, b3 - 0x80);
    SixMore(high, b2 - 0x80);
    SixMore(b0 - 0xF0, b1 - 0x80);
    SixBits(c);
  }

  lemma OneIsExact(bytes: seq<Byte>)
    requires bytes != [] && DecodeOne(bytes).scalar != REPLACEMENT
    ensures Enc(DecodeOne(bytes).scalar) == bytes[..DecodeOne(bytes).used]
  {
    hide Enc;
    var d, lead := DecodeOne(bytes), LeadOf(bytes[0]);
    if bytes[0] < 0x80 {
      PlainIsExact(bytes[0]);
    } else if lead.more == 1 {
      TwoAreExact(bytes[0], bytes[1], d.scalar);
    } else if lead.more == 2 {
      ThreeAreExact(bytes[0], bytes[1], bytes[2], d.scalar);
    } else {
      FourAreExact(bytes[0], bytes[1], bytes[2], bytes[3], d.scalar);
    }
  }

  lemma PlainIsExact(b: Byte)
    requires b < 0x80
    ensures Enc(b) == [b]
  {
  }

  /**
   * Nothing but UTF-8 decodes without a replacement character: no overlong form, no surrogate, nothing
   * past the last code point.
   */
  lemma {:induction false} DecodingIsStrict(bytes: seq<Byte>)
    requires REPLACEMENT !in Decode(bytes)
    ensures Encode(Decode(bytes)) == bytes
    decreases |bytes|
  {
    hide Enc, DecodeOne;
    if bytes != [] {
      var d := DecodeOne(bytes);
      assert Decode(bytes)[0] == d.scalar && Decode(bytes)[1..] == Decode(bytes[d.used..]);
      assert d.scalar in Decode(bytes);
      assert forall c :: c in Decode(bytes)[1..] ==> c in Decode(bytes);
      OneIsExact(bytes);
      DecodingIsStrict(bytes[d.used..]);
      assert bytes == bytes[..d.used] + bytes[d.used..];
    }
  }

  // --- what a broken sequence costs --------------------------------------------------------------

  /** The first `n` bytes begin the encoding of some character. */
  ghost predicate Begins(bytes: seq<Byte>, n: nat) {
    n <= |bytes| && exists c: Scalar :: bytes[..n] <= Enc(c)
  }

  lemma EncShape(c: Scalar)
    requires c >= 0x80
    ensures var e := Enc(c); var lead := LeadOf(e[0]);
            && e[0] >= 0x80 && lead.more >= 1 && |e| == lead.more + 1 && lead.lower <= e[1] <= lead.upper
            && forall k :: 2 <= k < |e| ==> 0x80 <= e[k] <= 0xBF
  {
    SixBits(c);
    if c < 0x800 { LeadOfTwo(c); } else if c < 0x10000 { LeadOfThree(c); } else { LeadOfFour(c); }
  }

  /** What begins an encoding and is no whole one: a lead byte, and continuation bytes that are in place. */
  lemma BegunIsInPlace(bytes: seq<Byte>, n: nat)
    requires 1 <= n && Begins(bytes, n) && bytes[0] >= 0x80
    ensures var lead := LeadOf(bytes[0]); lead.more >= 1 && Continuations(bytes, lead) >= n - 1
  {
    hide Enc, LeadOf;
    var c: Scalar :| bytes[..n] <= Enc(c);
    assert bytes[0] == bytes[..n][0] == Enc(c)[0];
    if c < 0x80 { PlainIsExact(c); } else { EncShape(c); }
    assert forall k :: 0 <= k < n ==> bytes[k] == bytes[..n][k] == Enc(c)[k];
  }

  /** A lead byte and continuation bytes in place, but not all, begin an encoding. */
  lemma InPlaceIsBegun(bytes: seq<Byte>, n: nat)
    requires bytes != [] && bytes[0] >= 0x80
    requires var lead := LeadOf(bytes[0]); n == Continuations(bytes, lead) + 1 && 1 < n <= lead.more
    ensures Begins(bytes, n)
  {
    hide Enc;
    var lead, b0, b1 := LeadOf(bytes[0]), bytes[0], bytes[1];
    if lead.more == 2 {
      var c := (b0 - 0xE0) * 4096 + (b1 - 0x80) * 64;
      ThreeAreExact(b0, b1, 0x80, c);
      assert bytes[..n] == [b0, b1] && [b0, b1] <= Enc(c);
    } else {
      var b2: Byte := if n == 2 then 0x80 else bytes[2];
      var c := (b0 - 0xF0) * 262144 + (b1 - 0x80) * 4096 + (b2 - 0x80) * 64;
      FourAreExact(b0, b1, b2, 0x80, c);
      assert bytes[..n] == [b0, b1, b2][..n] && [b0, b1, b2][..n] <= Enc(c);
    }
  }

  /**
   * A character that stands at the front is decoded. Where none stands there, one replacement
   * character takes the place of the longest beginning of one, or of a single byte that begins none.
   */
  lemma DecodeOneExactly(bytes: seq<Byte>)
    requires bytes != []
    ensures forall c: Scalar :: Enc(c) <= bytes ==> DecodeOne(bytes) == Decoded(c, |Enc(c)|)
    ensures (forall c: Scalar :: !(Enc(c) <= bytes)) ==>
              var d := DecodeOne(bytes);
              && d.scalar == REPLACEMENT && !Begins(bytes, d.used + 1)
              && (d.used > 1 ==> Begins(bytes, d.used))
  {
    hide Enc, LeadOf, Assemble, Begins, Continuations;
    forall c: Scalar | Enc(c) <= bytes ensures DecodeOne(bytes) == Decoded(c, |Enc(c)|) {
      DecodeOneUndoesEnc(c, bytes[|Enc(c)|..]);
      assert bytes == Enc(c) + bytes[|Enc(c)|..];
    }
    if bytes[0] < 0x80 { PlainStands(bytes); }
    if forall c: Scalar :: !(Enc(c) <= bytes) {
      var d := DecodeOne(bytes);
      if d.scalar != REPLACEMENT { OneIsExact(bytes); }
      BrokenIsLongest(bytes);
    }
  }

  lemma PlainStands(bytes: seq<Byte>)
    requires bytes != [] && bytes[0] < 0x80
    ensures exists c: Scalar :: Enc(c) <= bytes
  {
    PlainIsExact(bytes[0]);
    assert Enc(bytes[0]) <= bytes;
  }

  lemma BrokenIsLongest(bytes: seq<Byte>)
    requires bytes != [] && bytes[0] >= 0x80 && forall c: Scalar :: !(Enc(c) <= bytes)
    ensures var d := DecodeOne(bytes); !Begins(bytes, d.used + 1) && (d.used > 1 ==> Begins(bytes, d.used))
  {
    hide Enc, LeadOf, Assemble, Begins, Continuations;
    var d, lead := DecodeOne(bytes), LeadOf(bytes[0]);
    if Begins(bytes, d.used + 1) { BegunIsInPlace(bytes, d.used + 1); }
    if lead.more >= 1 {
      if Continuations(bytes, lead) == lead.more { WholeIsEncoded(bytes); }
      if d.used > 1 { InPlaceIsBegun(bytes, d.used); }
    }
  }

  /** A lead byte with all its continuation bytes is a character: the ranges leave no other. */
  lemma WholeIsEncoded(bytes: seq<Byte>)
    requires bytes != [] && bytes[0] >= 0x80
    requires var lead := LeadOf(bytes[0]); lead.more >= 1 && Continuations(bytes, lead) == lead.more
    ensures exists c: Scalar :: Enc(c) <= bytes
  {
    hide Enc;
    var lead := LeadOf(bytes[0]);
    var c := Assemble(bytes, lead);
    if lead.more == 1 {
      TwoAreExact(bytes[0], bytes[1], c);
    } else if lead.more == 2 {
      ThreeAreExact(bytes[0], bytes[1], bytes[2], c);
    } else {
      FourAreExact(bytes[0], bytes[1], bytes[2], bytes[3], c);
    }
    assert Enc(c) <= bytes;
  }
}
