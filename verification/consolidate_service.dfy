/** One consolidation boundary as the service performs it, and the run it amounts to. */
module ConsolidateService {
  import opened Events
  import opened EventLog
  import opened Dedup
  import opened Projector
  import opened Window
  import opened BoundaryRuns
  import opened BoundaryRows
  import Transcript
  import Utf8
  import Paths = TranscriptPaths

  /** What a transcript read delivers: stripped text, raw length, and where the next read starts. */
  datatype Conversation = Conversation(text: string, rawLen: nat, newOffset: nat)

  /** Everything a boundary gets from outside its store. */
  datatype Surroundings = Surroundings(
    extract: (Log, Option<string>, set<Id>) -> Option<seq<Item>>,
    read: (string, nat) -> Option<Conversation>,
    readTail: string -> string,
    mint: nat -> Mint,
    contradict: Memories -> Log)

  datatype Request = Request(stamp: Stamp, transcriptPath: Option<string>, routePersonal: bool, rawSegments: bool)

  datatype Outcome = Noop | ExtractionFailed | RebuildFailed | Done(consolidated: nat, superseded: nat, processed: nat)

  const MIN_RAW_FOR_TAIL: nat := 4096

  // --- what a boundary reads of transcripts -----------------------------------------------

  /** The path on the latest observation that carries one. */
  function LatestPath(window: Log): Option<string> {
    if window == [] then None
    else
      var last := window[|window| - 1];
      if IsCapture(last) && last.payload.observation.transcriptPath.Some? then last.payload.observation.transcriptPath
      else LatestPath(window[..|window| - 1])
  }

  function ChosenPath(window: Log, fallback: Option<string>): Option<string> {
    if LatestPath(window).Some? then LatestPath(window) else fallback
  }

  function ReadOf(path: Option<string>, offsets: map<string, nat>, s: Surroundings): Option<Conversation> {
    if path.None? then None else s.read(path.value, Paths.OffsetOf(offsets, path.value))
  }

  function NonEmpty(text: string): Option<string> {
    if text == "" then None else Some(text)
  }

  /** Stripped text, or the raw tail when stripping a substantial slice left nothing. */
  function TailOf(path: Option<string>, conversation: Option<Conversation>, s: Surroundings): Option<string> {
    if conversation.None? || path.None? then None
    else if conversation.value.text == "" && conversation.value.rawLen > MIN_RAW_FOR_TAIL then
      NonEmpty(s.readTail(path.value))
    else NonEmpty(conversation.value.text)
  }

  function Mints(mint: nat -> Mint, n: nat): (mints: seq<Mint>)
    ensures |mints| == n
  {
    seq(n, i requires 0 <= i < n => mint(i))
  }

  lemma MintsAreTold(mint: nat -> Mint, n: nat)
    ensures MintsTold(Mints(mint, n), mint)
  {
  }

  /** Whatever the extractor answers, the rows built from it are new. */
  ghost predicate FreshMints(log: Log, window: Log, valid: set<Id>, stamp: Stamp, mint: nat -> Mint)
    requires forall e :: e in window ==> IsCapture(e)
  {
    forall items :: FreshRows(log, Inputs(items, Mints(mint, |items|), stamp, SourceIds(window), valid).inputs)
  }

  /** So are the supersedes a contradiction pass adds to them. */
  ghost predicate FreshContradictions(log: Log, window: Log, valid: set<Id>, request: Request, s: Surroundings)
    requires forall e :: e in window ==> IsCapture(e)
  {
    forall items, table ::
      FreshRows(log + Inputs(items, Mints(s.mint, |items|), request.stamp, SourceIds(window), valid).inputs,
        s.contradict(table))
  }

  function Appends(rows: Log): seq<Step> {
    seq(|rows|, i requires 0 <= i < |rows| => Append(rows[i]))
  }

  /** The contradiction pass: its rows, and a rebuild if there are any. One that fails is put off. */
  function PassSteps(rows: Log): seq<Step> {
    if rows == [] then [] else Appends(rows) + [Rebuild]
  }

  /** The run a boundary amounts to, given how it ended and what the contradiction pass added. */
  function StepsOf(outcome: Outcome, items: seq<Item>, request: Request, mint: nat -> Mint, segments: bool,
      rows: Log): seq<Step> {
    var n := |ProjectItems(items, request.routePersonal)|;
    var appended := [Begin, ExtractOk(items, request.routePersonal), Commit(request.stamp, Mints(mint, n))];
    match outcome
    case Noop => [Begin, Step.Noop]
    case ExtractionFailed => [Begin, ExtractFail]
    case RebuildFailed => if n > 0 then appended + [Reindex] else appended + [Crash]
    case Done(_, _, _) =>
      if n > 0 then appended + [Reindex] + PassSteps(rows) + [Mark]
      else if segments then appended + [Rebuild, Mark]
      else appended + [Mark]
  }

  /** Raw conversation is kept beside the memories, which takes a reindex of its own. */
  predicate WritesSegments(request: Request, conversation: Option<Conversation>) {
    request.rawSegments && conversation.Some? && conversation.value.text != ""
  }

  class ProjectStore {
    var log: Log
    var table: Memories
    var watermark: Option<Id>
    var offsets: map<string, nat>
    const self: Option<Id>

    constructor (log: Log, table: Memories, watermark: Option<Id>, offsets: map<string, nat>, self: Option<Id>)
      ensures this.log == log && this.table == table && this.watermark == watermark
      ensures this.offsets == offsets && this.self == self
    {
      this.log, this.table, this.watermark, this.offsets, this.self := log, table, watermark, offsets, self;
    }

    /** The store is where world `w` says, between boundaries. */
    ghost predicate Is(w: World)
      reads this
    {
      log == w.log && table == w.table && watermark == w.watermark && w.flight.None?
    }

    /** Ids a previous consolidation already distilled, valid memories and superseded ones alike. */
    method ConsumedObservationIds() returns (ids: set<Id>)
      ensures forall o :: o in ids <==> Consumed(table, o)
    {
      ids := {};
      var rest := table.Keys;
      while rest != {}
        invariant rest <= table.Keys
        invariant forall o :: o in ids <==> exists m :: m in table && m !in rest && o in table[m].memory.sources
      {
        var m :| m in rest;
        ids := ids + set o | o in table[m].memory.sources;
        rest := rest - {m};
      }
    }

    method PendingWindow() returns (raw: Log, window: Log)
      ensures raw == CapturesIn(ReadSince(log, watermark)) && window == HandedOver(log, watermark, table)
    {
      hide Consumed;
      var since := ReadSince(log, watermark);
      raw := [];
      for i := 0 to |since|
        invariant raw == CapturesIn(since[..i])
      {
        assert since[..i + 1][..i] == since[..i];
        if IsCapture(since[i]) { raw := raw + [since[i]]; }
      }
      assert since[..|since|] == since;
      var consumed := ConsumedObservationIds();
      window := [];
      for i := 0 to |raw|
        invariant window == Unconsumed(raw[..i], table)
      {
        assert raw[..i + 1][..i] == raw[..i] && raw[i] in raw;
        assert IsCapture(raw[i]);
        if raw[i].payload.observation.id !in consumed { window := window + [raw[i]]; }
      }
      assert raw[..|raw|] == raw;
    }

    /**
     * One boundary. `w` names the world the store is in; the boundary takes it where the run of
     * its steps does. Transcript offsets move only when the boundary is done.
     */
    method Consolidate(request: Request, s: Surroundings, ghost w: World)
        returns (outcome: Outcome, ghost items: seq<Item>, ghost born: Log, ghost rows: Log)
      requires Is(w)
      requires FreshContradictions(log, HandedOver(log, watermark, table), OwnValid(table), request, s)
      requires FreshMints(log, HandedOver(log, watermark, table), OwnValid(table), request.stamp, s.mint)
      modifies this
      ensures var window := HandedOver(old(log), old(watermark), old(table));
              var path := ChosenPath(window, request.transcriptPath);
              var conversation := ReadOf(path, old(offsets), s);
              var tail := TailOf(path, conversation, s);
              var segments := WritesSegments(request, conversation);
              && Is(Run(w, StepsOf(outcome, items, request, s.mint, segments, rows), self))
              && (outcome.Done? ==> rows == PassRows(w, items, request, s, self))
              && (outcome.Noop? <==> window == [] && tail.None?)
              && (outcome.ExtractionFailed? <==> !outcome.Noop? && s.extract(window, tail, OwnValid(old(table))).None?)
              && (outcome.RebuildFailed? || outcome.Done? ==>
                   s.extract(window, tail, OwnValid(old(table))) == Some(items))
              && (outcome.Done? ==>
                    outcome.processed == |window| &&
                      outcome.consolidated == |ProjectItems(items, request.routePersonal)|)
              && offsets == if outcome.Done? && path.Some? && conversation.Some?
                            then old(offsets)[Paths.Basename(path.value) := conversation.value.newOffset]
                              else old(offsets)
      ensures outcome.RebuildFailed? || outcome.Done? ==>
                log == old(log) + born + rows &&
                BoundaryTold(born, old(log), old(watermark), old(table), items, request.routePersonal, request.stamp,
                             s.mint)
      ensures outcome.Done? ==> |born| == outcome.consolidated + outcome.superseded
    {
      hide HandedOver, Next, Run, Inputs, CapturesIn, FreshRows, FreshMints, Reduce, ReadSince, Consumed, LatestPath,
           ChosenPath;
      hide ReadOf, TailOf, ProjectItems, SourceIds, ObservationIds, StepsOf, Mints, OwnValid, WritesSegments,
           FreshContradictions, PassRows, BoundaryTold;
      items, born, rows := [], [], [];
      var raw, window := PendingWindow();
      var path := FindPath(window, request.transcriptPath);
      var conversation := ReadOf(path, offsets, s);
      var tail := TailOf(path, conversation, s);
      var segments := WritesSegments(request, conversation);
      if window == [] && tail.None? {
        watermark := LastOf(raw, watermark);
        NoopEnds(w, items, request, s.mint, segments, self);
        return Outcome.Noop, items, born, rows;
      }
      var valid := OwnValid(table);
      var extracted := s.extract(window, tail, valid);
      if extracted.None? {
        FailureEnds(w, items, request, s.mint, segments, self);
        return ExtractionFailed, items, born, rows;
      }
      items := extracted.value;
      outcome, born, rows := Distill(request, s, raw, window, path, conversation, extracted.value, w);
    }

    /** What a contradiction pass found goes to the log; a rebuild that fails is put off. */
    method AppendPass(found: Log)
      modifies this`log, this`table
      ensures log == old(log) + found
      ensures table == if found != [] && Reduce(log, self).Reduced? then Reduce(log, self).state.memories
              else old(table)
    {
      hide Reduce;
      log := log + found;
      if found != [] {
        var reduced := ReduceProjectState(log, self);
        if reduced.Reduced? { table := reduced.state.memories; }
      }
    }

    /** The part of a boundary after a successful extraction. */
    method Distill(request: Request, s: Surroundings, raw: Log, window: Log, path: Option<string>,
                   conversation: Option<Conversation>, extracted: seq<Item>, ghost w: World)
                   returns (outcome: Outcome, ghost born: Log, ghost rows: Log)
      requires Is(w)
      requires raw == CapturesIn(ReadSince(log, watermark)) && window == HandedOver(log, watermark, table)
      requires FreshMints(log, window, OwnValid(table), request.stamp, s.mint)
      requires FreshContradictions(log, window, OwnValid(table), request, s)
      modifies this
      ensures outcome.RebuildFailed? || outcome.Done?
      ensures Is(Run(w, StepsOf(outcome, extracted, request, s.mint, WritesSegments(request, conversation), rows),
              self))
      ensures outcome.Done? ==> rows == PassRows(w, extracted, request, s, self)
      ensures outcome.Done? ==>
                outcome.processed == |window| &&
                  outcome.consolidated == |ProjectItems(extracted, request.routePersonal)|
      ensures offsets == if outcome.Done? && path.Some? && conversation.Some?
                         then old(offsets)[Paths.Basename(path.value) := conversation.value.newOffset] else old(offsets)
      ensures log == old(log) + born + rows
      ensures BoundaryTold(born, old(log), old(watermark), old(table), extracted, request.routePersonal, request.stamp,
                           s.mint)
      ensures outcome.Done? ==> |born| == outcome.consolidated + outcome.superseded
    {
      hide HandedOver, Next, Run, Inputs, CapturesIn, FreshRows, FreshMints, FreshContradictions, Reduce, ReadSince,
           Consumed;
      hide ProjectItems, SourceIds, StepsOf, Mints, OwnValid, WritesSegments, PassRows, Opened3, BoundaryTold,
           MintsTold;
      rows := [];
      var items := SplitItems(extracted, request.routePersonal);
      var n := |items|;
      var inputs, superseded := BuildInputs(items, Mints(s.mint, n), request.stamp, SourceIds(window), OwnValid(table));
      born := inputs;
      MintsAreTold(s.mint, n);
      BoundaryIsTold(log, watermark, table, extracted, request.routePersonal, request.stamp, s.mint, Mints(s.mint, n));
      ghost var appended := AfterCommit(w, extracted, request, s.mint, self);
      var segments := WritesSegments(request, conversation);
      log := log + inputs;
      if n > 0 || segments {
        var reduced := ReduceProjectState(log, self);
        if reduced.Divergent? {
          RebuildFailureEnds(w, appended, extracted, request, s.mint, segments, self);
          return RebuildFailed, born, rows;
        }
        table := reduced.state.memories;
      }
      PassReads(w, appended, extracted, request, s, self);
      if n > 0 {
        var found := s.contradict(table);
        rows := found;
        AppendPass(found);
      }
      watermark := LastOf(raw, watermark);
      outcome := Outcome.Done(n, superseded, |window|);
      RowsAreFresh(w, extracted, request, s, table);
      MarkEnds(w, appended, extracted, request, s.mint, segments, rows, outcome, self);
      if path.Some? && conversation.Some? {
        offsets := offsets[Paths.Basename(path.value) := conversation.value.newOffset];
      }
    }
  }

  /** What the contradiction pass of a boundary adds: nothing, unless there are new memories to compare. */
  ghost function PassRows(w: World, items: seq<Item>, request: Request, s: Surroundings, self: Option<Id>): Log {
    if |ProjectItems(items, request.routePersonal)| == 0 then []
    else s.contradict(Run(w, Opened3(items, request, s.mint) + [Reindex], self).table)
  }

  lemma RunTwo(w: World, a: Step, b: Step, self: Option<Id>)
    ensures Run(w, [a, b], self) == Next(Next(w, a, self), b, self)
  {
    hide Next;
    assert [a, b] == [a] + ([b] + []);
    RunOne(w, a, [b] + [], self);
    RunOne(Next(w, a, self), b, [], self);
    RunOne(Next(Next(w, a, self), b, self), b, [], self);
  }

  lemma {:induction false} RunMore(w: World, steps: seq<Step>, last: Step, self: Option<Id>)
    ensures Run(w, steps + [last], self) == Next(Run(w, steps, self), last, self)
    decreases steps
  {
    hide Next;
    if steps == [] {
      assert [] + [last] == [last] + [];
      RunOne(w, last, [], self);
      RunOne(Next(w, last, self), last, [], self);
    } else {
      assert (steps + [last])[1..] == steps[1..] + [last];
      RunMore(Next(w, steps[0], self), steps[1..], last, self);
    }
  }

  lemma NoopEnds(w: World, items: seq<Item>, request: Request, mint: nat -> Mint, segments: bool, self: Option<Id>)
    requires w.flight.None? && HandedOver(w.log, w.watermark, w.table) == []
    ensures Run(w, StepsOf(Outcome.Noop, items, request, mint, segments, []), self) ==
            w.(watermark := LastOf(CapturesIn(ReadSince(w.log, w.watermark)), w.watermark))
  {
    hide HandedOver, CapturesIn, ReadSince, Run, Reduce, Inputs;
    RunTwo(w, Begin, Step.Noop, self);
  }

  lemma FailureEnds(w: World, items: seq<Item>, request: Request, mint: nat -> Mint, segments: bool, self: Option<Id>)
    requires w.flight.None?
    ensures Run(w, StepsOf(ExtractionFailed, items, request, mint, segments, []), self) == w
  {
    hide HandedOver, CapturesIn, ReadSince, Run, Reduce, Inputs;
    RunTwo(w, Begin, ExtractFail, self);
  }

  function Opened3(items: seq<Item>, request: Request, mint: nat -> Mint): seq<Step> {
    [Begin, ExtractOk(items, request.routePersonal),
      Commit(request.stamp, Mints(mint, |ProjectItems(items, request.routePersonal)|))]
  }

  /** Where a boundary stands once its rows are in the log. */
  lemma AfterCommit(w: World, items: seq<Item>, request: Request, mint: nat -> Mint, self: Option<Id>)
      returns (v: World)
    requires w.flight.None?
    requires WindowOk(w) && FreshMints(w.log, HandedOver(w.log, w.watermark, w.table), OwnValid(w.table), request.stamp,
             mint)
    ensures v == Run(w, Opened3(items, request, mint), self)
    ensures var window := HandedOver(w.log, w.watermark, w.table);
            var project := ProjectItems(items, request.routePersonal);
            && v.flight == Some(Flight(CapturesIn(ReadSince(w.log, w.watermark)), window, OwnValid(w.table),
                 Appended(|project|)))
            && v.log == w.log + Inputs(project, Mints(mint, |project|), request.stamp, SourceIds(window),
                 OwnValid(w.table)).inputs
            && v.table == w.table && v.watermark == w.watermark
  {
    hide HandedOver, Inputs, CapturesIn, FreshRows, Reduce, ReadSince, ObservationIds;
    var steps := Opened3(items, request, mint);
    var project := ProjectItems(items, request.routePersonal);
    RunTwo(w, steps[0], steps[1], self);
    assert [steps[0], steps[1]] + [steps[2]] == steps;
    RunMore(w, [steps[0], steps[1]], steps[2], self);
    v := Run(w, steps, self);
    assert FreshRows(w.log, Inputs(project, Mints(mint, |project|), request.stamp,
           SourceIds(HandedOver(w.log, w.watermark, w.table)), OwnValid(w.table)).inputs);
  }

  ghost predicate WindowOk(w: World) {
    forall e :: e in HandedOver(w.log, w.watermark, w.table) ==> IsCapture(e)
  }

  lemma RebuildFailureEnds(w: World, appended: World, items: seq<Item>, request: Request, mint: nat -> Mint,
      segments: bool, self: Option<Id>)
    requires appended == Run(w, Opened3(items, request, mint), self)
    requires appended.flight.Some? &&
             appended.flight.value.phase == Appended(|ProjectItems(items, request.routePersonal)|)
    requires Reduce(appended.log, self).Divergent?
    ensures Run(w, StepsOf(RebuildFailed, items, request, mint, segments, []), self) == appended.(flight := None)
  {
    hide Reduce, Inputs;
    var steps := Opened3(items, request, mint);
    RunMore(w, steps, Reindex, self);
    RunMore(w, steps, Crash, self);
  }

  /** The table the contradiction pass looks at. */
  lemma PassReads(w: World, appended: World, items: seq<Item>, request: Request, s: Surroundings, self: Option<Id>)
    requires appended == Run(w, Opened3(items, request, s.mint), self)
    requires appended.flight.Some? &&
             appended.flight.value.phase == Appended(|ProjectItems(items, request.routePersonal)|)
    requires |ProjectItems(items, request.routePersonal)| > 0 ==> Reduce(appended.log, self).Reduced?
    ensures PassRows(w, items, request, s, self) ==
            if |ProjectItems(items, request.routePersonal)| == 0 then []
              else s.contradict(Reduce(appended.log, self).state.memories)
  {
    hide Reduce, Inputs, Opened3;
    RunMore(w, Opened3(items, request, s.mint), Reindex, self);
  }

  lemma RowsAreFresh(w: World, items: seq<Item>, request: Request, s: Surroundings, table: Memories)
    requires WindowOk(w) && FreshContradictions(w.log, HandedOver(w.log, w.watermark, w.table), OwnValid(w.table),
             request, s)
    ensures var project := ProjectItems(items, request.routePersonal);
            var window := HandedOver(w.log, w.watermark, w.table);
            forall any :: FreshRows(w.log + Inputs(project, Mints(s.mint, |project|), request.stamp, SourceIds(window),
              OwnValid(w.table)).inputs,
                                    s.contradict(any))
  {
    hide HandedOver, Inputs, FreshRows;
  }

  lemma {:induction false} AppendsRun(w: World, rows: Log, self: Option<Id>)
    requires FreshRows(w.log, rows)
    ensures Run(w, Appends(rows), self) == w.(log := w.log + rows)
  {
    hide Reduce, Inputs;
    if rows == [] {
      assert w.log + [] == w.log;
    } else {
      var n := |rows| - 1;
      assert w.log + rows == (w.log + rows[..n]) + [rows[n]];
      FewerAreFresh(w.log, rows);
      AppendsRun(w, rows[..n], self);
      assert Appends(rows) == Appends(rows[..n]) + [Append(rows[n])];
      RunMore(w, Appends(rows[..n]), Append(rows[n]), self);
    }
  }

  lemma FewerAreFresh(log: Log, rows: Log)
    requires rows != [] && FreshRows(log, rows)
    ensures FreshRows(log, rows[..|rows| - 1]) && FreshRows(log + rows[..|rows| - 1], [rows[|rows| - 1]])
  {
    var n := |rows| - 1;
    assert log + rows == (log + rows[..n]) + [rows[n]];
    PrefixStaysFresh(log + rows[..n], rows[n]);
  }

  lemma PrefixStaysFresh(log: Log, e: Event)
    requires UniqueIds(log + [e]) && ConsolidatedOnce(log + [e]) && CapturedOnce(log + [e])
    ensures UniqueIds(log) && ConsolidatedOnce(log) && CapturedOnce(log)
  {
    assert forall i :: 0 <= i < |log| ==> (log + [e])[i] == log[i];
  }

  lemma PassRuns(w: World, rows: Log, self: Option<Id>)
    requires FreshRows(w.log, rows)
    ensures Run(w, PassSteps(rows), self) ==
            if rows == [] then w
            else w.(log := w.log + rows,
                    table := if Reduce(w.log + rows, self).Reduced? then Reduce(w.log + rows, self).state.memories
                      else w.table)
  {
    hide Reduce, FreshRows, Inputs, Appends;
    if rows != [] {
      AppendsRun(w, rows, self);
      RunMore(w, Appends(rows), Rebuild, self);
    }
  }

  lemma {:induction false} RunJoin(w: World, a: seq<Step>, b: seq<Step>, self: Option<Id>)
    ensures Run(w, a + b, self) == Run(Run(w, a, self), b, self)
    decreases a
  {
    hide Next;
    if a == [] {
      assert a + b == b;
    } else {
      assert (a + b)[1..] == a[1..] + b;
      RunJoin(Next(w, a[0], self), a[1..], b, self);
    }
  }

  lemma DoneSteps(outcome: Outcome, items: seq<Item>, request: Request, mint: nat -> Mint, segments: bool, rows: Log)
    requires outcome.Done?
    ensures StepsOf(outcome, items, request, mint, segments, rows) ==
            if |ProjectItems(items, request.routePersonal)| > 0 then
              Opened3(items, request, mint) + [Reindex] + PassSteps(rows) + [Mark]
            else if segments then Opened3(items, request, mint) + [Rebuild, Mark]
            else Opened3(items, request, mint) + [Mark]
  {
    hide ProjectItems, PassSteps;
  }

  lemma MarkEnds(w: World, appended: World, items: seq<Item>, request: Request, mint: nat -> Mint, segments: bool,
      rows: Log,
                 outcome: Outcome, self: Option<Id>)
    requires outcome.Done? && appended == Run(w, Opened3(items, request, mint), self)
    requires appended.flight.Some? &&
             appended.flight.value.phase == Appended(|ProjectItems(items, request.routePersonal)|)
    requires |ProjectItems(items, request.routePersonal)| > 0 || segments ==> Reduce(appended.log, self).Reduced?
    requires |ProjectItems(items, request.routePersonal)| > 0 ==> FreshRows(appended.log, rows)
    ensures var n := |ProjectItems(items, request.routePersonal)|;
            var v := Run(w, StepsOf(outcome, items, request, mint, segments, rows), self);
            var added := if n > 0 then rows else [];
            var first := if n > 0 || segments then Reduce(appended.log, self).state.memories else appended.table;
            && v.log == appended.log + added
            && v.flight.None? && v.watermark == LastOf(appended.flight.value.raw, appended.watermark)
            && v.table == if added != [] && Reduce(v.log, self).Reduced? then Reduce(v.log, self).state.memories
                 else first
  {
    hide Reduce, Inputs, ObservationIds, FreshRows, PassSteps, ProjectItems, Opened3;
    var steps := Opened3(items, request, mint);
    assert appended.log + [] == appended.log;
    DoneSteps(outcome, items, request, mint, segments, rows);
    if |ProjectItems(items, request.routePersonal)| > 0 {
      RunMore(w, steps, Reindex, self);
      var v := Run(w, steps + [Reindex], self);
      RunJoin(w, steps + [Reindex], PassSteps(rows), self);
      PassRuns(v, rows, self);
      RunMore(w, steps + [Reindex] + PassSteps(rows), Mark, self);
    } else {
      RunMore(w, steps, Rebuild, self);
      RunMore(w, steps + [Rebuild], Mark, self);
      RunMore(w, steps, Mark, self);
      assert steps + [Rebuild] + [Mark] == steps + [Rebuild, Mark];
    }
  }

  // --- boundaries and transcript runs agree ---------------------------------------------------

  /** Reading the files as they are, and stripping each slice to its turns. */
  function ReaderOf(t: Paths.Transcripts, strip: Utf8.Text -> string): (string, nat) -> Option<Conversation> {
    (path: string, offset: nat) =>
      var slice := Transcript.SliceAt(Transcript.Bytes(Paths.At(t.files, path)), offset);
      if slice.None? then None else Some(Conversation(strip(slice.value.raw), slice.value.rawLen,
        slice.value.newOffset))
  }

  /** A boundary that is done moves the stored offsets as the read of its path does; any other is a failed one. */
  lemma BoundaryIsPathStep(t: Paths.Transcripts, strip: Utf8.Text -> string, path: string, outcome: Outcome,
      s: Surroundings)
    requires s.read == ReaderOf(t, strip)
    ensures var conversation := ReadOf(Some(path), t.offsets, s);
            var step := if outcome.Done? then Paths.Read(path) else Paths.Failed(path);
            Paths.PathNext(t, step).offsets ==
            if outcome.Done? && conversation.Some? then t.offsets[Paths.Basename(path) := conversation.value.newOffset]
              else t.offsets
  {
    hide Transcript.SliceAt, Transcript.Bytes, Paths.Basename;
  }

  method FindPath(window: Log, fallback: Option<string>) returns (path: Option<string>)
    ensures path == ChosenPath(window, fallback)
  {
    var i := |window|;
    assert window[..i] == window;
    while i > 0
      invariant 0 <= i <= |window|
      invariant LatestPath(window) == LatestPath(window[..i])
    {
      i := i - 1;
      assert window[..i + 1][..i] == window[..i];
      if IsCapture(window[i]) && window[i].payload.observation.transcriptPath.Some? {
        return window[i].payload.observation.transcriptPath;
      }
    }
    path := fallback;
  }

  method SplitItems(extracted: seq<Item>, routePersonal: bool) returns (items: seq<Item>)
    ensures items == ProjectItems(extracted, routePersonal)
  {
    items := [];
    for i := 0 to |extracted|
      invariant items == ProjectItems(extracted[..i], routePersonal)
    {
      assert extracted[..i + 1][..i] == extracted[..i];
      if !(routePersonal && extracted[i].personal) { items := items + [extracted[i]]; }
    }
    assert extracted[..|extracted|] == extracted;
  }

  method BuildInputs(items: seq<Item>, mints: seq<Mint>, stamp: Stamp, sources: seq<Id>, valid: set<Id>)
    returns (inputs: Log, superseded: nat)
    requires |items| == |mints|
    ensures inputs == Inputs(items, mints, stamp, sources, valid).inputs
    ensures |inputs| == |items| + superseded
  {
    var validIds := valid;
    inputs, superseded := [], 0;
    for i := 0 to |items|
      invariant Inputs(items[..i], mints[..i], stamp, sources, valid) == Batch(inputs, validIds)
      invariant |inputs| == i + superseded
    {
      assert items[..i + 1][..i] == items[..i] && mints[..i + 1][..i] == mints[..i];
      inputs := inputs + [Born(items[i], mints[i], stamp, sources)];
      if items[i].supersedes.Some? && items[i].supersedes.value in validIds {
        inputs := inputs + [Superseding(items[i].supersedes.value, mints[i], stamp)];
        validIds := validIds - {items[i].supersedes.value};
        superseded := superseded + 1;
      }
    }
    assert items[..|items|] == items && mints[..|mints|] == mints;
  }

  // --- what a boundary reads, without the functions above --------------------------------------

  ghost predicate CarriesPath(e: Event, path: string) {
    e.payload.ObservationCaptured? && e.payload.observation.transcriptPath == Some(path)
  }

  ghost predicate LastToCarry(window: Log, path: string, i: nat) {
    && i < |window| && CarriesPath(window[i], path)
    && forall j, other :: i < j < |window| ==> !CarriesPath(window[j], other)
  }

  /** The transcript is the one the last observation with a path names; the caller's, when none names any. */
  lemma {:induction false} PathIsTold(window: Log, fallback: Option<string>, path: string)
    ensures ChosenPath(window, fallback) == Some(path) <==>
            || (exists i: nat :: LastToCarry(window, path, i))
            || (fallback == Some(path) && forall i, other :: 0 <= i < |window| ==> !CarriesPath(window[i], other))
  {
    LatestIsTold(window);
    if LatestPath(window).Some? {
      var k: nat :| LastToCarry(window, LatestPath(window).value, k);
      forall i: nat | LastToCarry(window, path, i) ensures i == k { OneLast(window, path, i, k); }
    }
  }

  lemma OneLast(window: Log, path: string, i: nat, k: nat)
    requires LastToCarry(window, path, i) && LatestPath(window).Some?
    requires LastToCarry(window, LatestPath(window).value, k)
    ensures i == k
  {
  }

  lemma {:induction false} LatestIsTold(window: Log)
    ensures LatestPath(window).Some? ==> exists i: nat :: LastToCarry(window, LatestPath(window).value, i)
    ensures LatestPath(window).None? ==> forall i, other :: 0 <= i < |window| ==> !CarriesPath(window[i], other)
  {
    if window != [] {
      var n := |window| - 1;
      if CarriesSome(window[n]) {
        assert LastToCarry(window, window[n].payload.observation.transcriptPath.value, n);
      } else {
        LatestIsTold(window[..n]);
        if LatestPath(window).Some? {
          var path := LatestPath(window).value;
          var i: nat :| LastToCarry(window[..n], path, i);
          StillLast(window, path, i);
        }
      }
    }
  }

  ghost predicate CarriesSome(e: Event) {
    e.payload.ObservationCaptured? && e.payload.observation.transcriptPath.Some?
  }

  lemma StillLast(window: Log, path: string, i: nat)
    requires window != [] && !CarriesSome(window[|window| - 1])
    requires LastToCarry(window[..|window| - 1], path, i)
    ensures LastToCarry(window, path, i)
  {
    var n := |window| - 1;
    assert forall j :: 0 <= j < n ==> window[..n][j] == window[j];
  }

  /** The extractor gets the stripped text; the raw tail only when more than 4096 bytes strip to nothing. */
  lemma TailIsTold(path: Option<string>, conversation: Option<Conversation>, s: Surroundings, text: string)
    ensures TailOf(path, conversation, s) == Some(text) <==>
            && text != "" && path.Some? && conversation.Some?
            && (|| text == conversation.value.text
                || (conversation == Some(Conversation("", conversation.value.rawLen, conversation.value.newOffset)) &&
                    conversation.value.rawLen > 4096 && text == s.readTail(path.value)))
  {
  }

  /** A boundary that yields no project memory rebuilds the table exactly when raw conversation is to be kept. */
  lemma RebuildsForSegments(request: Request, conversation: Option<Conversation>, items: seq<Item>,
      mint: nat -> Mint, outcome: Outcome)
    requires outcome.Done? && ProjectItems(items, request.routePersonal) == []
    ensures Rebuild in StepsOf(outcome, items, request, mint, WritesSegments(request, conversation), []) <==>
            request.rawSegments && exists c :: conversation == Some(c) && c.text != ""
  {
    hide ProjectItems;
    if conversation.Some? { assert conversation == Some(conversation.value); }
  }
}
