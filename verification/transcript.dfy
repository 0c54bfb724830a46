/** Reading a growing transcript forward from a byte offset, one capped slice per boundary. */
module Transcript {
  import opened Events
  import opened Utf8

  const MAX_RAW_BYTES_PER_READ: nat := 1024 * 1024
  const LF: Scalar := 10

  /** The decoded slice, where the next read starts, the bytes consumed, and whether a backlog remains. */
  datatype Slice = Slice(raw: Text, newOffset: nat, rawLen: nat, capped: bool)

  function LastIndexOf(text: Text, c: Scalar): (i: int)
    ensures -1 <= i < |text|
    ensures i >= 0 ==> text[i] == c
    ensures forall j :: i < j < |text| ==> text[j] != c
  {
    if text == [] then -1
    else if text[|text| - 1] == c then |text| - 1
    else
      var i := LastIndexOf(text[..|text| - 1], c);
      assert forall j :: 0 <= j < |text| - 1 ==> text[..|text| - 1][j] == text[j];
      i
  }

  /** Text kept, and bytes it accounts for. */
  datatype Cut = Cut(raw: Text, consumed: nat)

  /** A capped buffer is cut at its last newline, unless that is its first character or there is none. */
  function CutBuffer(buffer: seq<Byte>, capped: bool): Cut {
    var raw := Decode(buffer);
    var lastNl := LastIndexOf(raw, LF);
    if capped && lastNl > 0 then Cut(raw[..lastNl], |Encode(raw[..lastNl])| + 1) else Cut(raw, |buffer|)
  }

  function StartOf(file: seq<Byte>, offset: int): nat {
    if offset > |file| then 0 else if offset < 0 then 0 else offset
  }

  function SliceAt(file: seq<Byte>, offset: int): Option<Slice> {
    var start := StartOf(file, offset);
    var left := |file| - start;
    if left <= 0 then None
    else
      var capped := left > MAX_RAW_BYTES_PER_READ;
      var length := if capped then MAX_RAW_BYTES_PER_READ else left;
      var cut := CutBuffer(file[start..start + length], capped);
      Some(Slice(cut.raw, start + cut.consumed, cut.consumed, capped))
  }

  /** Decode, and cut a capped buffer at its last newline. */
  method DecodeAndCut(buffer: seq<Byte>, capped: bool) returns (raw: Text, consumed: nat)
    ensures Cut(raw, consumed) == CutBuffer(buffer, capped)
  {
    hide Decode, Encode, LastIndexOf;
    raw := Decode(buffer);
    consumed := |buffer|;
    if capped {
      var lastNl := LastIndexOf(raw, LF);
      if lastNl > 0 {
        raw := raw[..lastNl];
        consumed := |Encode(raw)| + 1;
      }
    }
  }

  method ReadConversationSince(file: seq<Byte>, offset: int) returns (r: Option<Slice>)
    ensures r == SliceAt(file, offset)
  {
    hide CutBuffer;
    var start: nat := if offset > |file| then 0 else if offset < 0 then 0 else offset;
    if |file| - start <= 0 { return None; }
    var capped := |file| - start > MAX_RAW_BYTES_PER_READ;
    var length: nat := if capped then MAX_RAW_BYTES_PER_READ else |file| - start;
    var raw, consumed := DecodeAndCut(file[start..start + length], capped);
    r := Some(Slice(raw, start + consumed, consumed, capped));
  }

  /** Whatever the bytes are, a read with new data moves strictly forward. */
  lemma NewDataAdvances(file: seq<Byte>, offset: int)
    requires 0 <= offset <= |file|
    ensures SliceAt(file, offset).None? <==> offset == |file|
    ensures offset < |file| ==> SliceAt(file, offset).value.newOffset > offset
  {
    hide Decode, LastIndexOf, Encode;
  }

  /**
   * A read starts at its offset, or at the beginning when the file is shorter than that. It takes what
   * is left, decoded, if that is at most a mebibyte; of more it takes one mebibyte up to the last
   * newline in it, if that is not its first character.
   */
  lemma SliceIsTold(file: seq<Byte>, offset: int)
    ensures var start: nat := if 0 <= offset <= |file| then offset else 0; var left := |file| - start;
            && (SliceAt(file, offset).None? <==> left == 0)
            && (left > 0 ==> SliceTold(SliceAt(file, offset).value, file, start))
  {
    hide Decode, Encode, CutBuffer;
    var start: nat := if 0 <= offset <= |file| then offset else 0;
    var left := |file| - start;
    if 0 < left <= 1048576 {
      assert file[start..start + left] == file[start..];
      UncappedIsWhole(file[start..]);
    } else if left > 1048576 {
      CappedIsTold(file[start..start + 1048576]);
    }
  }

  lemma UncappedIsWhole(buffer: seq<Byte>)
    ensures CutBuffer(buffer, false) == Cut(Decode(buffer), |buffer|)
  {
    hide Decode, Encode;
  }

  lemma CappedIsTold(buffer: seq<Byte>)
    ensures var cut := CutBuffer(buffer, true); var slice := Slice(cut.raw, 0, cut.consumed, true);
            WholeBuffer(slice, buffer) || CutAtLine(slice, buffer)
  {
    hide Decode, Encode;
    var raw := Decode(buffer);
    var lastNl := LastIndexOf(raw, LF);
    if lastNl > 0 { assert raw[..lastNl + 1] == raw[..lastNl] + [LF]; }
  }

  ghost predicate SliceTold(slice: Slice, file: seq<Byte>, start: nat)
    requires start <= |file|
  {
    var left := |file| - start;
    && slice.newOffset == start + slice.rawLen
    && (slice.capped <==> left > 1048576)
    && if left <= 1048576 then slice.raw == Decode(file[start..]) && slice.rawLen == left
       else WholeBuffer(slice, file[start..start + 1048576]) || CutAtLine(slice, file[start..start + 1048576])
  }

  /** The buffer holds no newline past its first character. */
  ghost predicate WholeBuffer(slice: Slice, buffer: seq<Byte>) {
    slice.raw == Decode(buffer) && slice.rawLen == |buffer| && LF !in slice.raw[if slice.raw == [] then 0 else 1..]
  }

  ghost predicate CutAtLine(slice: Slice, buffer: seq<Byte>) {
    && slice.raw != [] && slice.raw + [LF] <= Decode(buffer)
    && LF !in Decode(buffer)[|slice.raw| + 1..]
    && slice.rawLen == |Encode(slice.raw)| + 1
  }

  // --- transcripts of whole lines --------------------------------------------------------------

  predicate IsLine(text: Text) {
    LF !in text
  }

  predicate AreLines(lines: seq<Text>) {
    forall line :: line in lines ==> IsLine(line)
  }

  function Chars(lines: seq<Text>): Text {
    if lines == [] then [] else Chars(lines[..|lines| - 1]) + (lines[|lines| - 1] + [LF])
  }

  function Bytes(lines: seq<Text>): seq<Byte> {
    Encode(Chars(lines))
  }

  /** Bytes of a line, its newline included. */
  function LineBytes(line: Text): nat {
    |Encode(line)| + 1
  }

  /**
   * A read that starts at line `i` finds a newline past its first character: no line, and no
   * line after a blank one, is too long.
   */
  predicate FitsAt(lines: seq<Text>, i: nat) {
    i < |lines| ==>
      if lines[i] != [] then LineBytes(lines[i]) <= MAX_RAW_BYTES_PER_READ
      else i + 1 < |lines| ==> 1 + LineBytes(lines[i + 1]) <= MAX_RAW_BYTES_PER_READ
  }

  predicate AllFit(lines: seq<Text>) {
    forall i :: 0 <= i < |lines| ==> FitsAt(lines, i)
  }

  lemma {:induction false} CharsJoin(a: seq<Text>, b: seq<Text>)
    ensures Chars(a + b) == Chars(a) + Chars(b)
  {
    if b == [] {
      assert a + b == a;
    } else {
      var n := |b| - 1;
      assert (a + b)[..|a + b| - 1] == a + b[..n];
      CharsJoin(a, b[..n]);
    }
  }

  lemma BytesJoin(a: seq<Text>, b: seq<Text>)
    ensures Bytes(a + b) == Bytes(a) + Bytes(b)
  {
    CharsJoin(a, b);
    EncodeJoins(Chars(a), Chars(b));
  }

  lemma LfIsOneByte(text: Text)
    ensures |Encode(text + [LF])| == |Encode(text)| + 1
  {
    EncodeJoins(text, [LF]);
    assert [LF][1..] == [];
    assert Encode([LF]) == Enc(LF) + [];
  }

  lemma LongerEncodesLonger(text: Text, a: nat, b: nat)
    requires a < b <= |text|
    ensures |Encode(text[..a])| < |Encode(text[..b])|
  {
    assert text[..b] == text[..a] + text[a..b];
    EncodeJoins(text[..a], text[a..b]);
  }

  /** Every newline of a transcript ends a line of it. */
  lemma {:induction false} NewlineEndsALine(lines: seq<Text>, p: nat) returns (j: nat)
    requires AreLines(lines) && p < |Chars(lines)| && Chars(lines)[p] == LF
    ensures 0 < j <= |lines| && Chars(lines[..j]) == Chars(lines)[..p + 1]
  {
    var n := |lines| - 1;
    var before := Chars(lines[..n]);
    if p < |before| {
      j := NewlineEndsALine(lines[..n], p);
      assert lines[..n][..j] == lines[..j];
    } else {
      j := |lines|;
      assert lines[n] in lines;
      assert Chars(lines)[p] == (lines[n] + [LF])[p - |before|];
      assert lines[..j] == lines;
    }
  }

  lemma FirstLineFirst(lines: seq<Text>)
    requires lines != []
    ensures Chars(lines) == (lines[0] + [LF]) + Chars(lines[1..])
  {
    assert lines == lines[..1] + lines[1..];
    CharsJoin(lines[..1], lines[1..]);
    assert lines[..1][..0] == [];
  }

  /** Bytes of a text up to and including character `p`. */
  function BytesTo(text: Text, p: nat): nat
    requires p < |text|
  {
    |Encode(text[..p + 1])|
  }

  /** Some newline past the first character lies within reach of one read. */
  ghost predicate NewlineInside(lines: seq<Text>) {
    exists p :: InsideAt(lines, p)
  }

  ghost predicate InsideAt(lines: seq<Text>, p: int) {
    var text := Chars(lines);
    1 <= p < |text| && text[p] == LF && BytesTo(text, p) <= MAX_RAW_BYTES_PER_READ
  }

  lemma FitsExactly(lines: seq<Text>)
    requires AreLines(lines) && |Bytes(lines)| > MAX_RAW_BYTES_PER_READ
    ensures FitsAt(lines, 0) <==> NewlineInside(lines)
  {
    hide Encode;
    var text := Chars(lines);
    if lines == [] { EmptyBytes(); }
    assert lines[0] in lines;
    FirstLineFirst(lines);
    if lines[0] != [] {
      FirstNewline(lines, lines[0], Chars(lines[1..]));
    } else {
      OneBlankLine(lines);
    }
  }

  lemma EmptyBytes()
    ensures Bytes([]) == []
  {
  }

  /** A text that opens with a whole nonblank line has its first newline right after it. */
  lemma FirstNewline(lines: seq<Text>, line: Text, more: Text)
    requires IsLine(line) && line != [] && Chars(lines) == (line + [LF]) + more
    ensures NewlineInside(lines) <==> LineBytes(line) <= MAX_RAW_BYTES_PER_READ
  {
    hide Encode;
    var text := Chars(lines);
    assert text[..|line| + 1] == line + [LF];
    LfIsOneByte(line);
    if LineBytes(line) <= MAX_RAW_BYTES_PER_READ { assert InsideAt(lines, |line|); }
    assert forall q :: 0 <= q < |line| ==> text[q] == line[q];
    forall p | InsideAt(lines, p) ensures LineBytes(line) <= MAX_RAW_BYTES_PER_READ {
      if p > |line| { LongerEncodesLonger(text, |line| + 1, p + 1); }
    }
  }

  lemma OneBlankLine(lines: seq<Text>)
    requires AreLines(lines) && |Bytes(lines)| > MAX_RAW_BYTES_PER_READ && lines != [] && lines[0] == []
    ensures FitsAt(lines, 0) <==> NewlineInside(lines)
  {
    hide Encode;
    var text := Chars(lines);
    FirstLineFirst(lines);
    if |lines| == 1 {
      BlankLineIsOneByte(lines);
    } else {
      var next := lines[1];
      assert next in lines && lines[1..][0] == next;
      FirstLineFirst(lines[1..]);
      var more := Chars(lines[1..][1..]);
      assert text == [LF] + next + [LF] + more;
      var q := 1 + |next|;
      assert text[..q + 1] == [LF] + next + [LF];
      LfIsOneByte([LF] + next);
      EncodeJoins([LF], next);
      LfIsOneByte([]);
      EncodeNothing();
      assert [] + [LF] == [LF];
      assert |Encode(text[..q + 1])| == 1 + LineBytes(next);
      if 1 + LineBytes(next) <= MAX_RAW_BYTES_PER_READ { assert InsideAt(lines, q); }
      assert forall r :: 1 <= r < q ==> text[r] == next[r - 1];
      forall p | InsideAt(lines, p) ensures 1 + LineBytes(next) <= MAX_RAW_BYTES_PER_READ {
        if p > q { LongerEncodesLonger(text, q + 1, p + 1); }
      }
    }
  }

  lemma BlankLineIsOneByte(lines: seq<Text>)
    requires |lines| == 1 && lines[0] == []
    ensures |Bytes(lines)| == 1
  {
    hide Encode;
    LfIsOneByte([]);
    EncodeNothing();
    assert Chars(lines) == [] + [LF];
  }

  lemma EncodeNothing()
    ensures Encode([]) == []
  {
  }

  /** What is left of a capped buffer: everything up to the last newline in it, or all of it. */
  lemma CutOfCapped(text: Text) returns (k: nat)
    requires |Encode(text)| > MAX_RAW_BYTES_PER_READ
    ensures k < |text|
    ensures forall p :: 0 <= p < |text| ==> (p < k <==> BytesTo(text, p) <= MAX_RAW_BYTES_PER_READ)
    ensures var cut := CutBuffer(Encode(text)[..MAX_RAW_BYTES_PER_READ], true);
            var lastNl := LastIndexOf(text[..k], LF);
            cut.consumed == (if lastNl > 0 then |Encode(text[..lastNl + 1])| else MAX_RAW_BYTES_PER_READ) &&
            (lastNl > 0 ==> cut.raw == text[..lastNl])
  {
    hide Encode, Decode, LastIndexOf;
    k := CutText(text, MAX_RAW_BYTES_PER_READ);
    assert text[..|text|] == text;
    forall p | 0 <= p < |text| ensures p < k <==> BytesTo(text, p) <= MAX_RAW_BYTES_PER_READ {
      if p + 1 < k { LongerEncodesLonger(text, p + 1, k); }
      if k < p { LongerEncodesLonger(text, k + 1, p + 1); }
    }
    var buffer := Encode(text)[..MAX_RAW_BYTES_PER_READ];
    var tail := if MAX_RAW_BYTES_PER_READ == |Encode(text[..k])| then [] else [REPLACEMENT];
    var lastNl := LastIndexOf(text[..k], LF);
    LastIndexIgnores(text[..k], tail);
    if lastNl > 0 {
      assert Decode(buffer)[..lastNl] == text[..lastNl];
      assert text[..lastNl + 1] == text[..lastNl] + [LF];
      LfIsOneByte(text[..lastNl]);
    }
  }

  lemma LastIndexIgnores(text: Text, tail: Text)
    requires tail == [] || tail == [REPLACEMENT]
    ensures LastIndexOf(text + tail, LF) == LastIndexOf(text, LF)
  {
    var a, b := LastIndexOf(text + tail, LF), LastIndexOf(text, LF);
    if b >= 0 { assert (text + tail)[b] == LF; }
  }

  /** A capped read from the start of a line stops at the end of one exactly when the line there fits. */
  lemma CappedCutExactly(lines: seq<Text>)
    requires AreLines(lines) && |Bytes(lines)| > MAX_RAW_BYTES_PER_READ
    ensures var cut := CutBuffer(Bytes(lines)[..MAX_RAW_BYTES_PER_READ], true);
            && (FitsAt(lines, 0) ==> exists j :: 0 < j <= |lines| && EndsAfter(lines, cut, j))
            && (!FitsAt(lines, 0) ==> forall j :: 0 <= j <= |lines| ==> cut.consumed != |Bytes(lines[..j])|)
  {
    hide Encode, Decode, LastIndexOf, FitsAt, Chars, CutBuffer;
    var text := Chars(lines);
    var cut := CutBuffer(Encode(text)[..MAX_RAW_BYTES_PER_READ], true);
    FitsExactly(lines);
    var k := CutOfCapped(text);
    var lastNl := LastIndexOf(text[..k], LF);
    if NewlineInside(lines) {
      var p :| InsideAt(lines, p);
      assert text[..k][p] == LF;
      assert text[lastNl] == text[..k][lastNl];
      var j := NewlineEndsALine(lines, lastNl);
      assert text[..lastNl + 1] == text[..lastNl] + [LF];
      assert EndsAfter(lines, cut, j);
    } else {
      if lastNl > 0 { InReach(lines, k, lastNl); }
      forall j | 0 <= j <= |lines| ensures |Bytes(lines[..j])| != MAX_RAW_BYTES_PER_READ { NoLineEndsThere(lines, j); }
    }
  }

  lemma InReach(lines: seq<Text>, k: nat, p: nat)
    requires 0 < p < k <= |Chars(lines)| && Chars(lines)[..k][p] == LF &&
             BytesTo(Chars(lines), p) <= MAX_RAW_BYTES_PER_READ
    ensures NewlineInside(lines)
  {
    hide Encode;
    assert InsideAt(lines, p);
  }

  ghost predicate EndsAfter(lines: seq<Text>, cut: Cut, j: nat)
    requires j <= |lines|
  {
    cut.consumed == |Bytes(lines[..j])| && cut.raw + [LF] == Chars(lines[..j])
  }

  lemma NoLineEndsThere(lines: seq<Text>, j: nat)
    requires !NewlineInside(lines) && j <= |lines|
    ensures |Bytes(lines[..j])| != MAX_RAW_BYTES_PER_READ
  {
    hide Encode, NewlineInside;
    var text, part := Chars(lines), Chars(lines[..j]);
    assert lines == lines[..j] + lines[j..];
    CharsJoin(lines[..j], lines[j..]);
    if j == 0 {
      EmptyBytes();
    } else {
      var p := |part| - 1;
      assert text[..p + 1] == part && text[p] == part[p] == LF;
      if p == 0 {
        assert part == [] + [LF];
        LfIsOneByte([]);
        EncodeNothing();
      } else {
        assert !InsideAt(lines, p) by { NotInside(lines, p); }
      }
    }
  }

  lemma NotInside(lines: seq<Text>, p: int)
    requires !NewlineInside(lines)
    ensures !InsideAt(lines, p)
  {
  }

  // --- one read at a line boundary --------------------------------------------------------------

  /** The read at line `i` of a transcript. */
  lemma ReadAtLine(lines: seq<Text>, i: nat)
    requires i <= |lines|
    ensures var rest := Bytes(lines[i..]); var start := |Bytes(lines[..i])|;
            && start + |rest| == |Bytes(lines)|
            && SliceAt(Bytes(lines), start) ==
               if rest == [] then None
               else
                 var capped := |rest| > MAX_RAW_BYTES_PER_READ;
                 var cut := CutBuffer(if capped then rest[..MAX_RAW_BYTES_PER_READ] else rest, capped);
                 Some(Slice(cut.raw, start + cut.consumed, cut.consumed, capped))
  {
    hide CutBuffer, Bytes;
    var rest, start := Bytes(lines[i..]), |Bytes(lines[..i])|;
    assert lines == lines[..i] + lines[i..];
    BytesJoin(lines[..i], lines[i..]);
    var file := Bytes(lines);
    assert file[start..start + |rest|] == rest;
    if |rest| > MAX_RAW_BYTES_PER_READ {
      assert file[start..start + MAX_RAW_BYTES_PER_READ] == rest[..MAX_RAW_BYTES_PER_READ];
    }
  }

  /** An uncapped read takes everything that is left, character for character. */
  lemma UncappedReadsAll(lines: seq<Text>)
    ensures CutBuffer(Bytes(lines), false) == Cut(Chars(lines), |Bytes(lines)|)
  {
    hide Encode;
    DecodeUndoesEncode(Chars(lines), []);
    assert Encode(Chars(lines)) + [] == Encode(Chars(lines));
    assert Decode([]) == [];
  }

  /** `raw` is the text of `part`, its last newline perhaps cut off. */
  predicate Shows(raw: Text, part: seq<Text>) {
    raw == Chars(part) || raw + [LF] == Chars(part)
  }

  ghost predicate ReadsTo(lines: seq<Text>, i: nat, slice: Slice, j: nat)
    requires i <= |lines|
  {
    i < j <= |lines| && slice.newOffset == |Bytes(lines[..j])| && Shows(slice.raw, lines[i..j])
  }

  /** Where lines fit, a read that starts at a line ends at a later line and shows exactly the lines between. */
  lemma ReadEndsAtLine(lines: seq<Text>, i: nat) returns (j: nat)
    requires AreLines(lines) && i < |lines| && FitsAt(lines, i)
    ensures SliceAt(Bytes(lines), |Bytes(lines[..i])|).Some?
    ensures ReadsTo(lines, i, SliceAt(Bytes(lines), |Bytes(lines[..i])|).value, j)
  {
    hide CutBuffer, Encode, FitsAt, Chars;
    var rest := lines[i..];
    ReadAtLine(lines, i);
    NonEmptyBytes(rest);
    if |Bytes(rest)| > MAX_RAW_BYTES_PER_READ {
      FitsInRest(lines, i);
      CappedCutExactly(rest);
      var cut := CutBuffer(Bytes(rest)[..MAX_RAW_BYTES_PER_READ], true);
      var d :| 0 < d <= |rest| && EndsAfter(rest, cut, d);
      j := i + d;
      assert rest[..d] == lines[i..j];
      assert lines[..j] == lines[..i] + lines[i..j];
      BytesJoin(lines[..i], lines[i..j]);
    } else {
      UncappedReadsAll(rest);
      j := |lines|;
      assert lines[i..j] == rest && lines[..j] == lines;
    }
  }

  lemma NonEmptyBytes(lines: seq<Text>)
    requires lines != []
    ensures Bytes(lines) != []
  {
    hide Encode;
    FirstLineFirst(lines);
    assert Chars(lines) != [];
    EncodeSomething(Chars(lines));
  }

  lemma EncodeSomething(text: Text)
    requires text != []
    ensures Encode(text) != []
  {
  }

  lemma FitsInRest(lines: seq<Text>, i: nat)
    requires AreLines(lines) && i <= |lines|
    ensures AreLines(lines[i..]) && (FitsAt(lines[i..], 0) <==> FitsAt(lines, i))
  {
    hide Encode;
  }

  /** Elsewhere a capped read stops inside a line, and the next one starts there. */
  lemma MisfitEndsInsideALine(lines: seq<Text>, i: nat)
    requires AreLines(lines) && i <= |lines| && !FitsAt(lines, i) && |Bytes(lines[i..])| > MAX_RAW_BYTES_PER_READ
    ensures SliceAt(Bytes(lines), |Bytes(lines[..i])|).Some?
    ensures forall j :: 0 <= j <= |lines| ==>
              SliceAt(Bytes(lines), |Bytes(lines[..i])|).value.newOffset != |Bytes(lines[..j])|
  {
    hide CutBuffer, Encode, FitsAt, Chars, SliceAt;
    var rest, start := lines[i..], |Bytes(lines[..i])|;
    ReadAtLine(lines, i);
    FitsInRest(lines, i);
    CappedCutExactly(rest);
    NewDataAdvances(Bytes(lines), start);
    var slice := SliceAt(Bytes(lines), start).value;
    forall j | 0 <= j <= |lines| ensures slice.newOffset != |Bytes(lines[..j])| {
      if j > i {
        assert rest[..j - i] == lines[i..j];
        assert lines[..j] == lines[..i] + lines[i..j];
        BytesJoin(lines[..i], lines[i..j]);
      } else {
        assert lines[..i] == lines[..j] + lines[j..i];
        BytesJoin(lines[..j], lines[j..i]);
      }
    }
  }

  // --- runs ------------------------------------------------------------------------------------------

  /** The transcript, the stored offset, and the slices of the boundaries that succeeded. */
  datatype World = World(lines: seq<Text>, offset: nat, slices: seq<Text>)

  datatype Step = Grow(more: seq<Text>) | Succeed | Fail

  function Next(w: World, step: Step): World {
    match step
    case Grow(more) => if AreLines(more) then w.(lines := w.lines + more) else w
    case Succeed =>
      var slice := SliceAt(Bytes(w.lines), w.offset);
      if slice.None? then w
      else w.(offset := slice.value.newOffset, slices := w.slices + [slice.value.raw])
    case Fail => w
  }

  function Run(w: World, steps: seq<Step>): World
    decreases |steps|
  {
    if steps == [] then w else Run(Next(w, steps[0]), steps[1..])
  }

  /** Slice after slice, without gap or overlap, each at least one whole line. */
  ghost predicate Tiles(w: World, cuts: seq<nat>) {
    && |cuts| == |w.slices| + 1 && cuts[0] == 0 && cuts[|w.slices|] <= |w.lines|
    && (forall k, l :: 0 <= k < l < |cuts| ==> cuts[k] < cuts[l])
    && (forall k :: 0 <= k < |w.slices| ==> Shows(w.slices[k], w.lines[cuts[k]..cuts[k + 1]]))
    && w.offset == |Bytes(w.lines[..cuts[|w.slices|]])|
  }

  ghost predicate Tiled(w: World) {
    AreLines(w.lines) && exists cuts :: Tiles(w, cuts)
  }

  lemma GrowKeepsTiles(w: World, more: seq<Text>, cuts: seq<nat>)
    requires Tiles(w, cuts)
    ensures Tiles(w.(lines := w.lines + more), cuts)
  {
    hide Bytes, Chars;
    var lines := w.lines + more;
    assert lines[..cuts[|w.slices|]] == w.lines[..cuts[|w.slices|]];
    forall k | 0 <= k < |w.slices| ensures Shows(w.slices[k], lines[cuts[k]..cuts[k + 1]]) {
      assert cuts[k + 1] <= cuts[|w.slices|];
      assert lines[cuts[k]..cuts[k + 1]] == w.lines[cuts[k]..cuts[k + 1]];
    }
  }

  lemma SucceedKeepsTiles(w: World, cuts: seq<nat>) returns (longer: seq<nat>)
    requires AreLines(w.lines) && AllFit(w.lines) && Tiles(w, cuts)
    ensures Tiles(Next(w, Succeed), longer)
  {
    hide Bytes, Chars, SliceAt, FitsAt, Shows;
    var i := cuts[|w.slices|];
    if i == |w.lines| {
      assert w.lines[..i] == w.lines;
      NewDataAdvances(Bytes(w.lines), w.offset);
      longer := cuts;
    } else {
      var j := ReadEndsAtLine(w.lines, i);
      longer := cuts + [j];
    }
  }

  lemma PrefixFits(lines: seq<Text>, more: seq<Text>)
    requires AllFit(lines + more)
    ensures AllFit(lines)
  {
    hide Encode;
    forall i | 0 <= i < |lines| ensures FitsAt(lines, i) {
      assert FitsAt(lines + more, i);
    }
  }

  lemma {:induction false} LinesOnlyGrow(w: World, steps: seq<Step>)
    ensures w.lines <= Run(w, steps).lines
    decreases |steps|
  {
    hide SliceAt;
    if steps != [] { LinesOnlyGrow(Next(w, steps[0]), steps[1..]); }
  }

  lemma {:induction false} RunKeepsTiled(w: World, steps: seq<Step>)
    requires Tiled(w) && AllFit(Run(w, steps).lines)
    ensures Tiled(Run(w, steps))
    decreases |steps|
  {
    hide SliceAt, Tiles, AllFit;
    if steps != [] {
      var v := Next(w, steps[0]);
      LinesOnlyGrow(w, steps);
      var last := Run(w, steps).lines;
      assert last == w.lines + last[|w.lines|..];
      PrefixFits(w.lines, last[|w.lines|..]);
      var cuts :| Tiles(w, cuts);
      match steps[0] {
        case Grow(more) => GrowKeepsTiles(w, more, cuts);
        case Succeed => var longer := SucceedKeepsTiles(w, cuts);
        case Fail =>
      }
      RunKeepsTiled(v, steps[1..]);
    }
  }

  /**
   * Over any run of growth and of succeeding and failing boundaries, the recorded slices tile a
   * prefix of the transcript line by line, and the stored offset is where that prefix ends.
   */
  lemma SlicesTileTheTranscript(steps: seq<Step>)
    requires AllFit(Run(World([], 0, []), steps).lines)
    ensures exists cuts :: Tiles(Run(World([], 0, []), steps), cuts)
  {
    hide Run, AllFit;
    EmptyBytes();
    var nothing: seq<Text> := [];
    assert nothing[..0] == [];
    assert Tiles(World(nothing, 0, []), [0]);
    RunKeepsTiled(World([], 0, []), steps);
  }

  /** Every line of the tiled prefix falls in exactly one slice. */
  lemma EveryLineIsInOneSlice(w: World, cuts: seq<nat>, line: nat) returns (k: nat)
    requires Tiles(w, cuts) && line < cuts[|w.slices|]
    ensures k < |w.slices| && cuts[k] <= line < cuts[k + 1]
    ensures forall m :: 0 <= m < |w.slices| && cuts[m] <= line < cuts[m + 1] ==> m == k
  {
    hide Bytes, Shows;
    k := 0;
    while cuts[k + 1] <= line
      invariant k < |w.slices| && cuts[k] <= line
      decreases |w.slices| - k
    {
      k := k + 1;
    }
  }

  /** Lines under the cap, newline included, always fit. */
  lemma ShortLinesTile(steps: seq<Step>)
    requires forall line :: line in Run(World([], 0, []), steps).lines ==> LineBytes(line) < MAX_RAW_BYTES_PER_READ
    ensures exists cuts :: Tiles(Run(World([], 0, []), steps), cuts)
  {
    hide Run, Encode, Tiles;
    var lines := Run(World([], 0, []), steps).lines;
    forall i | 0 <= i < |lines| ensures FitsAt(lines, i) {
      assert lines[i] in lines;
      if i + 1 < |lines| { assert lines[i + 1] in lines; }
    }
    SlicesTileTheTranscript(steps);
  }

  // --- the line that does not fit --------------------------------------------------------------------------

  /** `n` times the letter `x`. */
  function Xs(n: nat): Text {
    seq(n, _ => 120)
  }

  lemma {:induction false} XsAreBytes(n: nat)
    ensures |Encode(Xs(n))| == n && IsLine(Xs(n))
  {
    if n > 0 {
      assert Xs(n)[0] == 120 && Xs(n)[1..] == Xs(n - 1);
      XsAreBytes(n - 1);
    } else {
      assert Xs(0) == [];
    }
  }

  /**
   * A blank line before a line of exactly the cap: every line is within the cap, and the
   * first read still stops inside one.
   */
  lemma BlankLineThenLongLine()
    ensures exists lines: seq<Text> ::
              && AreLines(lines)
              && (forall line :: line in lines ==> LineBytes(line) <= MAX_RAW_BYTES_PER_READ)
              && SliceAt(Bytes(lines), 0).Some?
              && forall j :: 0 <= j <= |lines| ==> SliceAt(Bytes(lines), 0).value.newOffset != |Bytes(lines[..j])|
  {
    hide Encode, SliceAt, CutBuffer;
    var long := Xs(MAX_RAW_BYTES_PER_READ - 1);
    var lines: seq<Text> := [[], long];
    XsAreBytes(MAX_RAW_BYTES_PER_READ - 1);
    EncodeNothing();
    assert lines[0..] == lines && lines[..0] == [];
    EmptyBytes();
    TwoLinesBytes([], long);
    MisfitEndsInsideALine(lines, 0);
  }

  lemma TwoLinesBytes(a: Text, b: Text)
    ensures |Bytes([a, b])| == LineBytes(a) + LineBytes(b)
  {
    hide Encode;
    assert [a, b][..1] == [a] && [a][..0] == [];
    assert Chars([a]) == a + [LF];
    assert Chars([a, b]) == (a + [LF]) + (b + [LF]);
    EncodeJoins(a + [LF], b + [LF]);
    LfIsOneByte(a);
    LfIsOneByte(b);
  }
}
