/**
 * Packing conversational turns into retrievable segments: what the turns of a text are, and
 * that the greedy division of them into segments is the shortest.
 */
module Packing {
  import opened Text

  const BLANK_LINE: string := "\n\n"
  const SEGMENT_MAX_CHARS: nat := 1500

  // --- splitting into turns --------------------------------------------------------------

  function FirstBlankLine(text: string): (i: nat)
    ensures i <= |text|
    ensures i < |text| ==> i + 2 <= |text| && text[i..i + 2] == BLANK_LINE
  {
    if |text| < 2 then |text|
    else if text[..2] == BLANK_LINE then 0
    else
      var i := 1 + FirstBlankLine(text[1..]);
      assert i < |text| ==> text[i..i + 2] == text[1..][i - 1..i + 1];
      i
  }

  function SplitBlank(text: string): (parts: seq<string>)
    ensures parts != []
    decreases |text|
  {
    var i := FirstBlankLine(text);
    if i == |text| then [text] else [text[..i]] + SplitBlank(text[i + 2..])
  }

  function NonBlank(parts: seq<string>): (turns: seq<string>)
    ensures forall t :: t in turns ==> t != ""
  {
    if parts == [] then []
    else
      var rest := NonBlank(parts[..|parts| - 1]);
      var turn := Trim(parts[|parts| - 1]);
      if turn == "" then rest else rest + [turn]
  }

  function Turns(text: string): seq<string> {
    NonBlank(SplitBlank(text))
  }

  function Rejoin(turns: seq<string>): string {
    Join(turns, BLANK_LINE)
  }

  lemma {:induction false} RejoinJoins(a: seq<string>, b: seq<string>)
    requires a != [] && b != []
    ensures Rejoin(a + b) == Rejoin(a) + BLANK_LINE + Rejoin(b)
  {
    assert (a + b)[1..] == a[1..] + b;
    if |a| > 1 { RejoinJoins(a[1..], b); } else { assert a[1..] + b == b; }
  }

  lemma SplitOnce(text: string)
    ensures var i := FirstBlankLine(text);
            SplitBlank(text) == if i == |text| then [text] else [text[..i]] + SplitBlank(text[i + 2..])
  {
    hide FirstBlankLine;
  }

  /** Splitting loses nothing. */
  lemma {:induction false} SplitRejoins(text: string)
    ensures Rejoin(SplitBlank(text)) == text
    decreases |text|
  {
    hide Join, Rejoin, FirstBlankLine, SplitBlank;
    var i := FirstBlankLine(text);
    SplitOnce(text);
    if i < |text| {
      var rest := SplitBlank(text[i + 2..]);
      SplitRejoins(text[i + 2..]);
      RejoinJoins([text[..i]], rest);
      RejoinOne(text[..i]);
      assert text == text[..i] + text[i..i + 2] + text[i + 2..];
    } else {
      RejoinOne(text);
    }
  }

  // --- what the turns of a text are ----------------------------------------------------------

  ghost predicate NoBlankLine(text: string) {
    forall i :: 0 <= i && i + 1 < |text| ==> !(text[i] == '\n' && text[i + 1] == '\n')
  }

  /** The one turn of a stretch without blank lines, if it holds more than blanks. */
  ghost function OneTurn(text: string): seq<string> {
    if Trim(text) == "" then [] else [Trim(text)]
  }

  lemma {:induction false} NonBlankJoins(a: seq<string>, b: seq<string>)
    ensures NonBlank(a + b) == NonBlank(a) + NonBlank(b)
  {
    hide Trim;
    if b == [] {
      assert a + b == a;
    } else {
      var n := |b| - 1;
      assert (a + b)[..|a + b| - 1] == a + b[..n];
      NonBlankJoins(a, b[..n]);
    }
  }

  lemma NonBlankOne(text: string)
    ensures NonBlank([text]) == OneTurn(text)
  {
    hide Trim;
    assert [text][..0] == [];
  }

  lemma TurnsStep(text: string)
    ensures var i := FirstBlankLine(text);
            Turns(text) == if i == |text| then OneTurn(text) else OneTurn(text[..i]) + Turns(text[i + 2..])
  {
    hide OneTurn, FirstBlankLine, SplitBlank, NonBlank;
    var i := FirstBlankLine(text);
    SplitOnce(text);
    if i == |text| {
      NonBlankOne(text);
    } else {
      NonBlankOne(text[..i]);
      NonBlankJoins([text[..i]], SplitBlank(text[i + 2..]));
    }
  }

  /** Where the first blank line of two stretches with one between them is. */
  lemma {:induction false} BlankLineBetween(a: string, b: string)
    requires NoBlankLine(a)
    ensures FirstBlankLine(a + BLANK_LINE + b) == if a != "" && a[|a| - 1] == '\n' then |a| - 1 else |a|
  {
    var text := a + BLANK_LINE + b;
    if a == "" {
      assert text[..2] == BLANK_LINE;
    } else if |a| == 1 && a[0] == '\n' {
      assert text[..2] == BLANK_LINE;
    } else {
      assert text[1..] == a[1..] + BLANK_LINE + b;
      assert text[..2][0] == a[0] && text[..2][1] == if |a| > 1 then a[1] else '\n';
      BlankLineBetween(a[1..], b);
    }
  }

  lemma {:induction false} NoBlankLineFound(text: string)
    requires NoBlankLine(text)
    ensures FirstBlankLine(text) == |text|
  {
    if |text| >= 2 {
      assert text[..2][0] == text[0] && text[..2][1] == text[1];
      NoBlankLineFound(text[1..]);
    }
  }

  lemma {:induction false} NothingBeforeFirst(text: string)
    ensures NoBlankLine(text[..FirstBlankLine(text)])
    ensures FirstBlankLine(text) == |text| ==> NoBlankLine(text)
  {
    if |text| >= 2 && text[..2] != BLANK_LINE {
      var i := FirstBlankLine(text);
      NothingBeforeFirst(text[1..]);
      assert text[..i] == [text[0]] + text[1..][..i - 1];
      assert text == [text[0]] + text[1..];
      assert text[..2] == [text[0], text[1]];
    }
  }

  lemma OneMoreBlank(a: string)
    requires Blanks(a)
    ensures Blanks(['\n'] + a) && Blanks(a + ['\n'])
  {
  }

  lemma CoreWithin(core: string, text: string, a: string, b: string)
    requires text == a + core + b && Blanks(a) && Blanks(b)
    requires core != [] ==> !Blank(core[0]) && !Blank(core[|core| - 1])
    ensures IsCore(core, text)
  {
  }

  lemma CoreOfLonger(core: string, text: string)
    requires IsCore(core, text)
    ensures IsCore(core, ['\n'] + text) && IsCore(core, text + ['\n'])
  {
    hide Blanks, Blank;
    var a, b :| text == a + core + b && Blanks(a) && Blanks(b);
    assert (core != [] ==> !Blank(core[0]) && !Blank(core[|core| - 1]));
    hide IsCore;
    OneMoreBlank(a);
    OneMoreBlank(b);
    assert ['\n'] + text == (['\n'] + a) + core + b;
    CoreWithin(core, ['\n'] + text, ['\n'] + a, b);
    assert text + ['\n'] == a + core + (b + ['\n']);
    CoreWithin(core, text + ['\n'], a, b + ['\n']);
  }

  lemma TrimDropsNewline(text: string)
    ensures Trim(['\n'] + text) == Trim(text) && Trim(text + ['\n']) == Trim(text)
  {
    hide Trim, IsCore;
    TrimIsCore(text);
    CoreOfLonger(Trim(text), text);
    OneCore(Trim(text), ['\n'] + text);
    OneCore(Trim(text), text + ['\n']);
  }

  lemma BlankCore(text: string)
    ensures Blanks(text) <==> IsCore("", text)
  {
    var none: string := "";
    assert Blanks(none) && text == text + none + none;
  }

  lemma {:induction false} LeadingNewline(text: string)
    ensures Turns(['\n'] + text) == Turns(text)
    decreases |text|
  {
    hide Trim, Turns;
    var longer := ['\n'] + text;
    TurnsStep(longer);
    TurnsStep(text);
    if text != "" && text[0] == '\n' {
      assert longer[..2] == BLANK_LINE && longer[2..] == text[1..] && longer[..0] == "";
      assert Trim("") == "" by { TrimIsCore(""); }
      LeadingNewline(text[1..]);
      assert text == ['\n'] + text[1..];
    } else {
      assert longer[1..] == text;
      assert |longer| >= 2 ==> longer[..2] == ['\n', text[0]];
      var i := FirstBlankLine(text);
      assert FirstBlankLine(longer) == i + 1;
      TrimDropsNewline(text);
      if i < |text| {
        assert longer[..i + 1] == ['\n'] + text[..i] && longer[i + 3..] == text[i + 2..];
        TrimDropsNewline(text[..i]);
      }
    }
  }

  lemma CutInside(a: string, b: string, i: nat)
    requires i + 2 <= |a|
    ensures var text := a + BLANK_LINE + b; text[..i] == a[..i] && text[i + 2..] == a[i + 2..] + BLANK_LINE + b
  {
  }

  /** No blank line before the one between: the first of its newlines may stand at the end of `a`. */
  lemma TurnsOfTwo(a: string, b: string)
    requires NoBlankLine(a)
    ensures Turns(a + BLANK_LINE + b) == OneTurn(a) + Turns(b)
  {
    hide Trim, Turns, FirstBlankLine, NoBlankLine;
    var text := a + BLANK_LINE + b;
    TurnsStep(text);
    BlankLineBetween(a, b);
    if a != "" && a[|a| - 1] == '\n' {
      var front := a[..|a| - 1];
      assert a == front + ['\n'] && text[..|front|] == front && text[|front| + 2..] == ['\n'] + b;
      TrimDropsNewline(front);
      LeadingNewline(b);
    } else {
      assert text[..|a|] == a && text[|a| + 2..] == b;
    }
  }

  /** A blank line separates: the turns before it, then the turns after it. */
  lemma {:induction false} TurnsJoin(a: string, b: string)
    ensures Turns(a + BLANK_LINE + b) == Turns(a) + Turns(b)
    decreases |a|
  {
    hide OneTurn, Turns, FirstBlankLine, NoBlankLine;
    var i := FirstBlankLine(a);
    TurnsStep(a);
    NothingBeforeFirst(a);
    if i < |a| {
      FirstStays(a, b);
      TurnsStep(a + BLANK_LINE + b);
      CutInside(a, b, i);
      TurnsJoin(a[i + 2..], b);
    } else {
      TurnsOfTwo(a, b);
    }
  }

  lemma {:induction false} FirstStays(a: string, b: string)
    requires FirstBlankLine(a) < |a|
    ensures FirstBlankLine(a + BLANK_LINE + b) == FirstBlankLine(a)
  {
    var text := a + BLANK_LINE + b;
    assert text[..2] == a[..2];
    if a[..2] != BLANK_LINE {
      assert text[1..] == a[1..] + BLANK_LINE + b;
      FirstStays(a[1..], b);
    }
  }

  /** A stretch without blank lines is one turn, without the blanks around it, or none if it is all blanks. */
  lemma TurnsOfOne(text: string)
    requires NoBlankLine(text)
    ensures Blanks(text) ==> Turns(text) == []
    ensures !Blanks(text) ==> exists core :: core != "" && IsCore(core, text) && Turns(text) == [core]
  {
    hide Trim, Turns, IsCore, Blanks;
    TurnsStep(text);
    NoBlankLineFound(text);
    TrimIsCore(text);
    BlankCore(text);
    if Blanks(text) { OneCore("", text); }
  }

  // --- cutting the turns into segments -------------------------------------------------------

  /** Small enough, or a single turn. */
  predicate Fits(segment: seq<string>, maxChars: int) {
    |Rejoin(segment)| <= maxChars || |segment| == 1
  }

  /** `cuts` splits `turns` into consecutive nonempty segments. */
  predicate Cuts(cuts: seq<nat>, turns: seq<string>) {
    && |cuts| > 0 && cuts[0] == 0 && cuts[|cuts| - 1] == |turns|
    && (forall i, j :: 0 <= i < j < |cuts| ==> cuts[i] < cuts[j])
  }

  function Segment(turns: seq<string>, from: nat, to: nat): seq<string> {
    if from <= to <= |turns| then turns[from..to] else []
  }

  predicate FitsAt(cuts: seq<nat>, turns: seq<string>, maxChars: int, k: nat)
    requires k + 1 < |cuts|
  {
    Fits(Segment(turns, cuts[k], cuts[k + 1]), maxChars)
  }

  predicate AllFit(cuts: seq<nat>, turns: seq<string>, maxChars: int) {
    forall k: nat :: k + 1 < |cuts| ==> FitsAt(cuts, turns, maxChars, k)
  }

  /** Segment `k` was closed because the next turn did not fit in. */
  predicate ClosedAt(cuts: seq<nat>, turns: seq<string>, maxChars: int, k: nat)
    requires k + 1 < |cuts|
  {
    cuts[k + 1] < |turns| ==> |Rejoin(Segment(turns, cuts[k], cuts[k + 1] + 1))| > maxChars
  }

  predicate Greedy(cuts: seq<nat>, turns: seq<string>, maxChars: int) {
    forall k: nat :: k + 1 < |cuts| ==> ClosedAt(cuts, turns, maxChars, k)
  }

  predicate AreSegments(out: seq<string>, cuts: seq<nat>, turns: seq<string>) {
    && |out| == |cuts| - 1
    && forall k :: 0 <= k < |out| ==> out[k] == Rejoin(Segment(turns, cuts[k], cuts[k + 1]))
  }

  /** Consecutive whole turns, each segment fitting, and closed only because the next turn did not fit. */
  ghost predicate IsPacking(out: seq<string>, turns: seq<string>, maxChars: int) {
    exists cuts :: Cuts(cuts, turns) && AreSegments(out, cuts, turns) && AllFit(cuts, turns, maxChars) &&
      Greedy(cuts, turns, maxChars)
  }

  /** The closed segments, where they were cut, and the open one, after `i` turns. */
  ghost predicate Building(out: seq<string>, cuts: seq<nat>, buf: string, turns: seq<string>, maxChars: int, i: nat) {
    && i <= |turns| && |cuts| == |out| + 1 && cuts[0] == 0
    && (forall k, l :: 0 <= k < l < |cuts| ==> cuts[k] < cuts[l])
    && cuts[|cuts| - 1] <= i && (cuts[|cuts| - 1] == i <==> buf == "") && (i > 0 ==> buf != "")
    && (buf != "" ==>
          buf == Rejoin(Segment(turns, cuts[|cuts| - 1], i)) && Fits(Segment(turns, cuts[|cuts| - 1], i), maxChars))
    && AreSegments(out, cuts, turns) && AllFit(cuts, turns, maxChars) && Greedy(cuts, turns, maxChars)
  }

  lemma NothingBuilt(turns: seq<string>, maxChars: int)
    ensures Building([], [0], "", turns, maxChars, 0)
  {
  }

  /** The next turn joins the open segment. */
  lemma TurnJoins(out: seq<string>, cuts: seq<nat>, buf: string, turns: seq<string>, maxChars: int, i: nat)
    requires Building(out, cuts, buf, turns, maxChars, i) && i < |turns| && turns[i] != ""
    requires buf == "" || |buf| + 2 + |turns[i]| <= maxChars
    ensures Building(out, cuts, if buf != "" then buf + BLANK_LINE + turns[i] else turns[i], turns, maxChars, i + 1)
  {
    hide Join, Rejoin, Segment, AreSegments, AllFit, Greedy;
    OneMoreTurn(turns, cuts[|cuts| - 1], i);
  }

  /** The open segment is closed first, because the next turn does not fit in. */
  lemma SegmentCloses(out: seq<string>, cuts: seq<nat>, buf: string, turns: seq<string>, maxChars: int, i: nat)
    requires Building(out, cuts, buf, turns, maxChars, i) && i < |turns| && turns[i] != ""
    requires buf != "" && |buf| + 2 + |turns[i]| > maxChars
    ensures Building(out + [buf], cuts + [i], turns[i], turns, maxChars, i + 1)
  {
    hide Join, Rejoin, Segment, AreSegments, AllFit, Greedy;
    OneMoreTurn(turns, cuts[|cuts| - 1], i);
    OneMoreCut(cuts, turns, maxChars, i);
    OneMoreSegment(out, cuts, turns, buf, i);
  }

  lemma LastCloses(out: seq<string>, cuts: seq<nat>, buf: string, turns: seq<string>, maxChars: int)
    requires Building(out, cuts, buf, turns, maxChars, |turns|)
    ensures var cuts' := if buf != "" then cuts + [|turns|] else cuts;
            && Cuts(cuts', turns) && AreSegments(if buf != "" then out + [buf] else out, cuts', turns)
            && AllFit(cuts', turns, maxChars) && Greedy(cuts', turns, maxChars)
  {
    hide Join, Rejoin, Segment, AreSegments, AllFit, Greedy;
    if buf != "" {
      OneMoreCut(cuts, turns, maxChars, |turns|);
      OneMoreSegment(out, cuts, turns, buf, |turns|);
    }
  }

  lemma OneMoreSegment(out: seq<string>, cuts: seq<nat>, turns: seq<string>, buf: string, i: nat)
    requires AreSegments(out, cuts, turns) && |cuts| == |out| + 1 && buf == Rejoin(Segment(turns, cuts[|cuts| - 1], i))
    ensures AreSegments(out + [buf], cuts + [i], turns)
  {
    hide Join, Rejoin, Segment;
  }

  method ChunkConversation(text: string, maxChars: int := SEGMENT_MAX_CHARS) returns (out: seq<string>)
    ensures IsPacking(out, Turns(text), maxChars)
    ensures Rejoin(out) == Rejoin(Turns(text))
    ensures forall others: seq<nat> :: Cuts(others, Turns(text)) && AllFit(others, Turns(text), maxChars) ==>
            |out| < |others|
  {
    hide Join, Rejoin, Building, AllFit, Greedy;
    var turns := Turns(text);
    out := [];
    ghost var cuts: seq<nat> := [0];
    var buf := "";
    NothingBuilt(turns, maxChars);
    for i := 0 to |turns|
      invariant Building(out, cuts, buf, turns, maxChars, i)
    {
      var turn := turns[i];
      assert turn in turns;
      if buf != "" && |buf| + 2 + |turn| > maxChars {
        SegmentCloses(out, cuts, buf, turns, maxChars, i);
        out := out + [buf];
        cuts := cuts + [i];
        buf := "";
      } else {
        TurnJoins(out, cuts, buf, turns, maxChars, i);
      }
      buf := if buf != "" then buf + BLANK_LINE + turn else turn;
    }
    LastCloses(out, cuts, buf, turns, maxChars);
    if buf != "" {
      out := out + [buf];
      cuts := cuts + [|turns|];
    }
    SegmentsRejoin(out, cuts, turns);
    forall others: seq<nat> | Cuts(others, turns) && AllFit(others, turns, maxChars) ensures |out| < |others| {
      GreedyIsShortest(cuts, others, turns, maxChars);
    }
  }

  lemma OneMoreCut(cuts: seq<nat>, turns: seq<string>, maxChars: int, i: nat)
    requires cuts != [] && AllFit(cuts, turns, maxChars) && Greedy(cuts, turns, maxChars)
    ensures Fits(Segment(turns, cuts[|cuts| - 1], i), maxChars) ==> AllFit(cuts + [i], turns, maxChars)
    ensures (i < |turns| ==> |Rejoin(Segment(turns, cuts[|cuts| - 1], i + 1))| > maxChars) ==>
            Greedy(cuts + [i], turns, maxChars)
  {
    hide Join, Rejoin, FitsAt, ClosedAt;
    forall k: nat | k + 1 < |cuts|
      ensures FitsAt(cuts + [i], turns, maxChars, k) && ClosedAt(cuts + [i], turns, maxChars, k)
    {
      assert FitsAt(cuts, turns, maxChars, k) && ClosedAt(cuts, turns, maxChars, k);
      EarlierCutsStay(cuts, turns, maxChars, i, k);
    }
    LastCut(cuts, turns, maxChars, i);
  }

  lemma EarlierCutsStay(cuts: seq<nat>, turns: seq<string>, maxChars: int, i: nat, k: nat)
    requires k + 1 < |cuts|
    ensures FitsAt(cuts + [i], turns, maxChars, k) == FitsAt(cuts, turns, maxChars, k)
    ensures ClosedAt(cuts + [i], turns, maxChars, k) == ClosedAt(cuts, turns, maxChars, k)
  {
    hide Join, Rejoin;
  }

  lemma LastCut(cuts: seq<nat>, turns: seq<string>, maxChars: int, i: nat)
    requires cuts != []
    ensures var last := |cuts| - 1;
            && (FitsAt(cuts + [i], turns, maxChars, last) <==> Fits(Segment(turns, cuts[last], i), maxChars))
            && (ClosedAt(cuts + [i], turns, maxChars, last) <==>
                  (i < |turns| ==> |Rejoin(Segment(turns, cuts[last], i + 1))| > maxChars))
  {
    hide Join, Rejoin, Segment;
  }

  lemma OneMoreTurn(turns: seq<string>, from: nat, i: nat)
    requires from <= i < |turns|
    ensures Segment(turns, i, i + 1) == [turns[i]] && Rejoin([turns[i]]) == turns[i]
    ensures from < i ==> Rejoin(Segment(turns, from, i + 1)) == Rejoin(Segment(turns, from, i)) + BLANK_LINE + turns[i]
  {
    if from < i {
      assert turns[from..i + 1] == turns[from..i] + [turns[i]];
      RejoinJoins(turns[from..i], [turns[i]]);
    }
  }

  // --- laws ------------------------------------------------------------------------------------

  /** Segments put back together with blank lines are the turns put together with blank lines. */
  lemma {:induction false} SegmentsRejoin(out: seq<string>, cuts: seq<nat>, turns: seq<string>)
    requires Cuts(cuts, turns) && AreSegments(out, cuts, turns)
    ensures Rejoin(out) == Rejoin(turns)
  {
    hide Join, Rejoin;
    if |out| == 0 {
      assert out == turns;
    } else {
      RejoinUpTo(out, cuts, turns, |out|);
      assert out[..|out|] == out && turns[..|turns|] == turns;
    }
  }

  lemma {:induction false} RejoinUpTo(out: seq<string>, cuts: seq<nat>, turns: seq<string>, n: nat)
    requires Cuts(cuts, turns) && AreSegments(out, cuts, turns) && 0 < n <= |out|
    ensures cuts[n] <= |turns| && Rejoin(out[..n]) == Rejoin(turns[..cuts[n]])
  {
    hide Join, Rejoin;
    var m := n - 1;
    assert cuts[m] < cuts[n] && (n < |cuts| - 1 ==> cuts[n] < cuts[|cuts| - 1]);
    assert out[..n] == out[..m] + [out[m]];
    assert turns[..cuts[n]] == turns[..cuts[m]] + turns[cuts[m]..cuts[n]];
    RejoinOne(out[m]);
    if m == 0 {
      assert turns[..0] == [] && out[..0] == [];
      assert out[..1] == [out[0]] && turns[..cuts[1]] == turns[cuts[0]..cuts[1]];
    } else {
      RejoinUpTo(out, cuts, turns, m);
      assert cuts[0] < cuts[m];
      RejoinJoins(out[..m], [out[m]]);
      RejoinJoins(turns[..cuts[m]], turns[cuts[m]..cuts[n]]);
    }
  }

  lemma RejoinOne(turn: string)
    ensures Rejoin([turn]) == turn
  {
  }

  /** A longer stretch of turns is a longer text. */
  lemma WiderIsLonger(turns: seq<string>, from: nat, to: nat, a: nat, b: nat)
    requires from <= a < b <= to <= |turns|
    ensures |Rejoin(turns[a..b])| <= |Rejoin(turns[from..to])|
  {
    if from < a {
      assert turns[from..to] == turns[from..a] + turns[a..to];
      RejoinJoins(turns[from..a], turns[a..to]);
    }
    if b < to {
      assert turns[a..to] == turns[a..b] + turns[b..to];
      RejoinJoins(turns[a..b], turns[b..to]);
    }
  }

  /** After as many segments the greedy cut is never behind any other cut. */
  lemma {:induction false} GreedyStaysAhead(cuts: seq<nat>, others: seq<nat>, turns: seq<string>, maxChars: int, k: nat)
    requires Cuts(cuts, turns) && Greedy(cuts, turns, maxChars)
    requires Cuts(others, turns) && AllFit(others, turns, maxChars)
    requires k < |cuts| && k < |others|
    ensures cuts[k] >= others[k]
  {
    hide Join, Rejoin;
    if k > 0 {
      var m := k - 1;
      GreedyStaysAhead(cuts, others, turns, maxChars, m);
      assert FitsAt(others, turns, maxChars, m) && ClosedAt(cuts, turns, maxChars, m);
      assert cuts[m] < cuts[k] && others[m] < others[k];
      assert others[k] <= |turns| by { if k < |others| - 1 { assert others[k] < others[|others| - 1]; } }
      if others[k] > cuts[k] {
        WiderIsLonger(turns, others[m], others[k], cuts[m], cuts[k] + 1);
      }
    }
  }

  /** No cut into fitting segments uses fewer of them. */
  lemma GreedyIsShortest(cuts: seq<nat>, others: seq<nat>, turns: seq<string>, maxChars: int)
    requires Cuts(cuts, turns) && Greedy(cuts, turns, maxChars)
    requires Cuts(others, turns) && AllFit(others, turns, maxChars)
    ensures |cuts| <= |others|
  {
    if |others| < |cuts| {
      GreedyStaysAhead(cuts, others, turns, maxChars, |others| - 1);
    }
  }
}
