/** Consolidation boundaries over whole runs. */
module BoundaryRuns {
  import opened Events
  import opened EventLog
  import opened Dedup
  import opened Projector
  import opened Convergence
  import opened Window
  import opened Lanes

  datatype Item = Item(kind: MemoryKind, text: string, salience: int, supersedes: Option<Id>, personal: bool)

  /** Fresh ids and the time for one distilled item. */
  datatype Mint = Mint(memoryId: Id, bornId: Id, closeId: Id, at: Time)

  /** What every event of one boundary carries. */
  datatype Stamp = Stamp(projectId: Id, sessionId: Option<Id>, actor: string)

  datatype Phase = Opened | Extracted(items: seq<Item>) | Appended(n: nat) | Rebuilt(n: nat)

  datatype Flight = Flight(raw: Log, window: Log, valid: set<Id>, phase: Phase)

  /**
   * `table` is the projected memory table: it lags behind the log until the next rebuild.
   * `seen`, `marked` and `done` are history: what some extraction succeeded on, what a
   * boundary was completed for, and what a boundary that yielded at least one project
   * memory was completed for.
   */
  datatype World = World(
    log: Log, table: Memories, watermark: Option<Id>, flight: Option<Flight>,
    seen: set<Id>, marked: set<Id>, done: set<Id>)

  /**
   * A boundary is cut into its steps, so that a capture, a pull, a rebuild or a crash can
   * come between any two of them. The extractor is arbitrary and may fail.
   */
  datatype Step =
    | Append(event: Event)
    | Rebuild
    | Begin
    | Noop
    | ExtractOk(extracted: seq<Item>, routePersonal: bool)
    | ExtractFail
    | Commit(stamp: Stamp, mints: seq<Mint>)
    | Reindex
    | Mark
    | Crash
    | LoseWatermark

  // --- what a boundary appends ------------------------------------------------------------

  function ObservationIds(window: Log): (ids: set<Id>)
    ensures forall o :: o in ids <==> exists e :: e in window && Captures(e, o)
  {
    set e | e in window && IsCapture(e) :: e.payload.observation.id
  }

  function SourceIds(window: Log): (ids: seq<Id>)
    requires forall e :: e in window ==> IsCapture(e)
    ensures forall o :: o in ids <==> exists e :: e in window && Captures(e, o)
  {
    var ids := seq(|window|, i requires 0 <= i < |window| => assert window[i] in window; assert IsCapture(window[i]);
        window[i].payload.observation.id);
    assert forall i :: 0 <= i < |window| ==>
           window[i] in window && IsCapture(window[i]) && ids[i] == window[i].payload.observation.id;
    ids
  }

  function ProjectItems(extracted: seq<Item>, routePersonal: bool): (items: seq<Item>)
    ensures forall x :: x in items <==> x in extracted && !(routePersonal && x.personal)
  {
    if extracted == [] then []
    else
      var n := |extracted| - 1;
      var rest := ProjectItems(extracted[..n], routePersonal);
      assert extracted == extracted[..n] + [extracted[n]];
      if routePersonal && extracted[n].personal then rest else rest + [extracted[n]]
  }

  function Born(item: Item, mint: Mint, stamp: Stamp, sources: seq<Id>): Event {
    Event(mint.bornId, mint.at, stamp.projectId, stamp.sessionId.GetOr(stamp.projectId), Some(stamp.actor),
      Some(stamp.projectId),
          MemoryConsolidated(Memory(mint.memoryId, item.kind, item.text, item.salience, stamp.sessionId, sources,
            mint.at)))
  }

  function Superseding(target: Id, mint: Mint, stamp: Stamp): Event {
    Event(mint.closeId, mint.at, stamp.projectId, stamp.sessionId.GetOr(stamp.projectId), Some(stamp.actor),
      Some(stamp.projectId),
          MemorySuperseded(target, mint.memoryId))
  }

  datatype Batch = Batch(inputs: Log, valid: set<Id>)

  /** One consolidation per item, followed by a supersede when the item names a memory that is still valid. */
  function Inputs(items: seq<Item>, mints: seq<Mint>, stamp: Stamp, sources: seq<Id>, valid: set<Id>): Batch
    requires |items| == |mints|
    decreases |items|
  {
    if items == [] then Batch([], valid)
    else
      var n := |items| - 1;
      var rest := Inputs(items[..n], mints[..n], stamp, sources, valid);
      var born := rest.inputs + [Born(items[n], mints[n], stamp, sources)];
      if items[n].supersedes.Some? && items[n].supersedes.value in rest.valid then
        Batch(born + [Superseding(items[n].supersedes.value, mints[n], stamp)],
          rest.valid - {items[n].supersedes.value})
      else Batch(born, rest.valid)
  }

  /** New rows carry new ids, and mint new memories. */
  ghost predicate FreshRows(log: Log, rows: Log) {
    UniqueIds(log + rows) && ConsolidatedOnce(log + rows) && CapturedOnce(log + rows)
  }

  // --- steps ----------------------------------------------------------------------------------

  function LastOf(raw: Log, otherwise: Option<Id>): Option<Id> {
    if raw == [] then otherwise else Some(raw[|raw| - 1].id)
  }

  ghost function Next(w: World, step: Step, self: Option<Id>): World {
    match step
    case Append(e) => if FreshRows(w.log, [e]) then w.(log := w.log + [e]) else w
    case Rebuild =>
      var reduced := Reduce(w.log, self);
      if reduced.Reduced? then w.(table := reduced.state.memories) else w
    case Begin =>
      if w.flight.Some? then w
      else
        w.(flight := Some(Flight(
          CapturesIn(ReadSince(w.log, w.watermark)), HandedOver(w.log, w.watermark, w.table), OwnValid(w.table),
            Opened)))
    case Noop =>
      if w.flight.Some? && w.flight.value.phase.Opened? && w.flight.value.window == []
      then w.(watermark := LastOf(w.flight.value.raw, w.watermark), flight := None) else w
    case ExtractOk(extracted, routePersonal) =>
      if w.flight.Some? && w.flight.value.phase.Opened? then
        w.(flight := Some(w.flight.value.(phase := Extracted(ProjectItems(extracted, routePersonal)))),
           seen := w.seen + ObservationIds(w.flight.value.window))
      else w
    case ExtractFail => if w.flight.Some? && w.flight.value.phase.Opened? then w.(flight := None) else w
    case Commit(stamp, mints) =>
      if w.flight.Some? && w.flight.value.phase.Extracted? && |mints| == |w.flight.value.phase.items| &&
         (forall e :: e in w.flight.value.window ==> IsCapture(e))
      then
        var f := w.flight.value;
        var batch := Inputs(f.phase.items, mints, stamp, SourceIds(f.window), f.valid);
        if FreshRows(w.log, batch.inputs)
        then w.(log := w.log + batch.inputs, flight := Some(f.(phase := Appended(|f.phase.items|)))) else w
      else w
    case Reindex =>
      if w.flight.Some? && w.flight.value.phase.Appended? then
        var reduced := Reduce(w.log, self);
        if reduced.Reduced?
        then w.(table := reduced.state.memories,
          flight := Some(w.flight.value.(phase := Rebuilt(w.flight.value.phase.n))))
        else w.(flight := None)
      else w
    case Mark =>
      if w.flight.Some? && (w.flight.value.phase.Rebuilt? || w.flight.value.phase == Appended(0)) then
        var f := w.flight.value;
        var ids := ObservationIds(f.window);
        w.(watermark := LastOf(f.raw, w.watermark), flight := None, marked := w.marked + ids,
           done := if f.phase.n > 0 then w.done + ids else w.done)
      else w
    case Crash => w.(flight := None)
    case LoseWatermark => w.(watermark := None)
  }

  ghost function Run(w: World, steps: seq<Step>, self: Option<Id>): World
    decreases steps
  {
    if steps == [] then w else Run(Next(w, steps[0], self), steps[1..], self)
  }

  const START: World := World([], map[], None, None, {}, {}, {})

  // --- what must hold -------------------------------------------------------------------------

  /** Some memory in the log was distilled from `o`. */
  ghost predicate Consumes(log: Log, o: Id) {
    exists e :: e in log && e.payload.MemoryConsolidated? && o in e.payload.memory.sources
  }

  /** An extraction has succeeded on it, or a memory already holds it. */
  ghost predicate Covered(w: World, o: Id) {
    o in w.seen || Consumes(w.log, o)
  }

  ghost predicate CoveredUpTo(w: World, n: nat, besides: set<Id>)
    requires n <= |w.log|
  {
    forall p :: 0 <= p < n && IsCapture(w.log[p]) ==>
      var o := w.log[p].payload.observation.id; Covered(w, o) || o in besides
  }

  ghost predicate FlightOk(w: World, f: Flight) {
    var ids := ObservationIds(f.window);
    && (forall e :: e in f.window ==> IsCapture(e))
    && (f.raw != [] ==>
          && HasId(w.log, f.raw[|f.raw| - 1].id)
          && StartAfter(w.log, w.watermark) <= Position(w.log, f.raw[|f.raw| - 1].id) + 1
          && CoveredUpTo(w, Position(w.log, f.raw[|f.raw| - 1].id) + 1, ids))
    && (!f.phase.Opened? ==> ids <= w.seen)
    && ((f.phase.Appended? || f.phase.Rebuilt?) && f.phase.n > 0 ==> forall o :: o in ids ==> Consumes(w.log, o))
    && (f.phase.Rebuilt? && f.phase.n > 0 ==> forall o :: o in ids ==> Consumed(w.table, o))
  }

  ghost predicate Inv(w: World) {
    && UniqueIds(w.log) && ConsolidatedOnce(w.log) && CapturedOnce(w.log)
    && (w.watermark.Some? ==> HasId(w.log, w.watermark.value))
    && CoveredUpTo(w, StartAfter(w.log, w.watermark), {})
    && (forall o :: Consumed(w.table, o) ==> Consumes(w.log, o))
    && (forall o :: o in w.done ==> Consumed(w.table, o))
    && (w.flight.Some? ==> FlightOk(w, w.flight.value))
  }

  // --- the table and the log ---------------------------------------------------------------------

  /** A record holds the memory of some event that consolidated it. */
  lemma {:induction false} RecordHoldsABirth(events: Log, selfId: Option<Id>, isUnion: bool, m: Id)
    requires m in Records(events, selfId, isUnion)
    ensures exists e :: e in events && Consolidates(e, m) &&
                        e.payload.memory == Records(events, selfId, isUnion)[m].memory
  {
    var n := |events| - 1;
    var before := Records(events[..n], selfId, isUnion);
    assert events == events[..n] + [events[n]];
    if Consolidates(events[n], m) {
      assert events[n] in events;
    } else {
      RecordHoldsABirth(events[..n], selfId, isUnion, m);
      StepOnRecord(before, events[n], LaneOf(events[n], selfId, isUnion), m);
    }
  }

  /** A rebuilt table holds exactly the sources that the log does. */
  lemma TableTellsLog(log: Log, self: Option<Id>)
    requires ConsolidatedOnce(log) && Reduce(log, self).Reduced?
    ensures forall o :: Consumed(Reduce(log, self).state.memories, o) <==> Consumes(log, o)
  {
    hide Replay, Records, ConsolidatedOnce, Settled;
    var c := Prescan(log, self);
    var records, table := Records(log, c.selfId, c.isUnion), Reduce(log, self).state.memories;
    ReplayKeepsRecords(log, c);
    forall m | m in records ensures m in table && table[m].memory == records[m].memory {
      SettledKeepsMemory(records, m);
    }
    forall o | Consumed(table, o) ensures Consumes(log, o) {
      var m :| m in table && o in table[m].memory.sources;
      RecordHoldsABirth(log, c.selfId, c.isUnion, m);
    }
    forall o | Consumes(log, o) ensures Consumed(table, o) {
      var e :| e in log && e.payload.MemoryConsolidated? && o in e.payload.memory.sources;
      var m := e.payload.memory.id;
      RecordsAreBorn(log, c.selfId, c.isUnion, m);
      assert Consolidates(e, m);
      RecordHoldsABirth(log, c.selfId, c.isUnion, m);
      var f :| f in log && Consolidates(f, m) && f.payload.memory == records[m].memory;
      OneBirth(log, e, f, m);
    }
  }

  lemma SettledKeepsMemory(memories: Memories, m: Id)
    requires m in memories
    ensures Settled(memories, m).memory == memories[m].memory
  {
  }

  lemma OneBirth(log: Log, e: Event, f: Event, m: Id)
    requires ConsolidatedOnce(log) && e in log && f in log && Consolidates(e, m) && Consolidates(f, m)
    ensures e == f
  {
    var i :| 0 <= i < |log| && log[i] == e;
    var j :| 0 <= j < |log| && log[j] == f;
  }

  // --- every step keeps the invariant ------------------------------------------------------------------

  lemma WatermarkKept(log: Log, rows: Log, watermark: Option<Id>)
    requires watermark.Some? ==> HasId(log, watermark.value)
    ensures StartAfter(log + rows, watermark) == StartAfter(log, watermark)
    ensures watermark.Some? ==> HasId(log + rows, watermark.value)
  {
    if watermark.Some? { PositionKeptByAppend(log, rows, watermark.value); }
  }

  lemma GrowthKeepsCover(w: World, rows: Log, n: nat, besides: set<Id>)
    requires n <= |w.log| && CoveredUpTo(w, n, besides)
    ensures CoveredUpTo(w.(log := w.log + rows), n, besides)
    ensures forall o :: Consumes(w.log, o) ==> Consumes(w.log + rows, o)
  {
    var longer := w.log + rows;
    assert forall p :: 0 <= p < n ==> longer[p] == w.log[p];
    assert forall e :: e in w.log ==> e in longer;
    forall o | Covered(w, o) ensures Covered(w.(log := longer), o) {
    }
  }

  lemma FlightGrows(w: World, rows: Log, f: Flight)
    requires FlightOk(w, f) && (w.watermark.Some? ==> HasId(w.log, w.watermark.value))
    ensures FlightOk(w.(log := w.log + rows), f)
  {
    hide CoveredUpTo, Consumes, Consumed, ReadSince, Position, HasId, ObservationIds;
    WatermarkKept(w.log, rows, w.watermark);
    GrowthKeepsCover(w, rows, 0, {}) by { NoneCovered(w); }
    if f.raw != [] {
      var id := f.raw[|f.raw| - 1].id;
      PositionKeptByAppend(w.log, rows, id);
      GrowthKeepsCover(w, rows, Position(w.log, id) + 1, ObservationIds(f.window));
    }
  }

  lemma NoneCovered(w: World)
    ensures CoveredUpTo(w, 0, {})
  {
  }

  lemma LogGrows(w: World, rows: Log)
    requires Inv(w) && FreshRows(w.log, rows)
    ensures Inv(w.(log := w.log + rows))
  {
    hide UniqueIds, ConsolidatedOnce, CapturedOnce, CoveredUpTo, Consumes, Consumed, ReadSince, FlightOk, HasId;
    WatermarkKept(w.log, rows, w.watermark);
    GrowthKeepsCover(w, rows, StartAfter(w.log, w.watermark), {});
    if w.flight.Some? { FlightGrows(w, rows, w.flight.value); }
  }

  lemma RebuildKeeps(w: World, self: Option<Id>)
    requires Inv(w) && Reduce(w.log, self).Reduced?
    ensures Inv(w.(table := Reduce(w.log, self).state.memories))
    ensures forall o :: Consumes(w.log, o) ==> Consumed(Reduce(w.log, self).state.memories, o)
  {
    hide UniqueIds, ConsolidatedOnce, CapturedOnce, Consumes, Consumed, Reduce, ReadSince;
    TableTellsLog(w.log, self);
    var table := Reduce(w.log, self).state.memories;
    var v := w.(table := table);
    assert forall o :: Covered(w, o) <==> Covered(v, o);
    assert CoveredUpTo(v, StartAfter(v.log, v.watermark), {});
  }

  /** A raw capture is either handed over or held by a memory already. */
  lemma WindowOrDistilled(log: Log, watermark: Option<Id>, table: Memories, p: nat)
    requires StartAfter(log, watermark) <= p < |log| && IsCapture(log[p])
    ensures log[p] in CapturesIn(ReadSince(log, watermark))
    ensures log[p] in HandedOver(log, watermark, table) || Consumed(table, log[p].payload.observation.id)
  {
    hide Consumed;
    var start := StartAfter(log, watermark);
    assert log[start..][p - start] == log[p];
  }

  lemma LastRawPlace(log: Log, watermark: Option<Id>)
    requires UniqueIds(log) && CapturesIn(ReadSince(log, watermark)) != []
    ensures var raw := CapturesIn(ReadSince(log, watermark)); var id := raw[|raw| - 1].id;
            HasId(log, id) && Position(log, id) >= StartAfter(log, watermark)
  {
    hide CapturesIn;
    var raw, start := CapturesIn(ReadSince(log, watermark)), StartAfter(log, watermark);
    var last, tail := raw[|raw| - 1], log[start..];
    assert last in raw;
    var i :| 0 <= i < |tail| && tail[i] == last;
    assert log[start + i] == last && last in log;
    PositionOf(log, start + i);
  }

  lemma BeginKeeps(w: World)
    requires Inv(w) && w.flight.None?
    ensures FlightOk(w, Flight(CapturesIn(ReadSince(w.log, w.watermark)), HandedOver(w.log, w.watermark, w.table),
            OwnValid(w.table), Opened))
  {
    hide UniqueIds, ConsolidatedOnce, CapturedOnce, Consumes, Consumed, CapturesIn, HandedOver, ReadSince;
    var start := StartAfter(w.log, w.watermark);
    var raw, window := CapturesIn(ReadSince(w.log, w.watermark)), HandedOver(w.log, w.watermark, w.table);
    if raw != [] {
      LastRawPlace(w.log, w.watermark);
      forall p | 0 <= p < Position(w.log, raw[|raw| - 1].id) + 1 && IsCapture(w.log[p])
        ensures var o := w.log[p].payload.observation.id; Covered(w, o) || o in ObservationIds(window)
      {
        if p >= start {
          WindowOrDistilled(w.log, w.watermark, w.table, p);
          assert Captures(w.log[p], w.log[p].payload.observation.id);
        }
      }
    }
  }

  lemma CommitKeeps(w: World, stamp: Stamp, mints: seq<Mint>)
    requires Inv(w) && w.flight.Some? && w.flight.value.phase.Extracted? && |mints| == |w.flight.value.phase.items|
    requires forall e :: e in w.flight.value.window ==> IsCapture(e)
    requires FreshRows(w.log, Inputs(w.flight.value.phase.items, mints, stamp, SourceIds(w.flight.value.window),
             w.flight.value.valid).inputs)
    ensures var f := w.flight.value;
            var rows := Inputs(f.phase.items, mints, stamp, SourceIds(f.window), f.valid).inputs;
            Inv(w.(log := w.log + rows, flight := Some(f.(phase := Appended(|f.phase.items|)))))
  {
    hide UniqueIds, ConsolidatedOnce, CapturedOnce, CoveredUpTo, Consumed, Inputs, ReadSince, Position, HasId;
    var f := w.flight.value;
    var rows := Inputs(f.phase.items, mints, stamp, SourceIds(f.window), f.valid).inputs;
    LogGrows(w, rows);
    if f.phase.items != [] {
      var born := Born(f.phase.items[0], mints[0], stamp, SourceIds(f.window));
      EveryItemIsBorn(f.phase.items, mints, stamp, SourceIds(f.window), f.valid, 0);
      assert born in w.log + rows;
    }
    var v := w.(log := w.log + rows, flight := Some(f.(phase := Appended(|f.phase.items|))));
    var u := w.(log := w.log + rows);
    SameCover(u, v);
  }

  lemma SameCover(u: World, v: World)
    requires u.log == v.log && u.seen <= v.seen
    ensures forall n: nat, x :: n <= |u.log| && CoveredUpTo(u, n, x) ==> CoveredUpTo(v, n, x)
  {
    assert forall o :: Covered(u, o) ==> Covered(v, o);
  }

  lemma {:induction false} EveryItemIsBorn(items: seq<Item>, mints: seq<Mint>, stamp: Stamp, sources: seq<Id>,
      valid: set<Id>, i: nat)
    requires |items| == |mints| && i < |items|
    ensures Born(items[i], mints[i], stamp, sources) in Inputs(items, mints, stamp, sources, valid).inputs
    decreases |items|
  {
    var n := |items| - 1;
    if i < n { EveryItemIsBorn(items[..n], mints[..n], stamp, sources, valid, i); }
  }

  lemma MarkKeeps(w: World)
    requires Inv(w) && w.flight.Some?
    requires w.flight.value.phase.Opened? ==> w.flight.value.window == []
    ensures var v := w.(watermark := LastOf(w.flight.value.raw, w.watermark), flight := None);
            && (v.watermark.Some? ==> HasId(v.log, v.watermark.value))
            && StartAfter(v.log, v.watermark) >= StartAfter(w.log, w.watermark)
            && CoveredUpTo(v, StartAfter(v.log, v.watermark), {})
  {
    hide UniqueIds, ConsolidatedOnce, CapturedOnce, Consumed, Consumes, ReadSince;
    var f := w.flight.value;
    var v := w.(watermark := LastOf(f.raw, w.watermark), flight := None);
    assert forall o :: o in ObservationIds(f.window) ==> o in w.seen;
    assert forall o :: Covered(w, o) <==> Covered(v, o);
  }

  lemma ExtractKeeps(w: World, items: seq<Item>)
    requires Inv(w) && w.flight.Some? && w.flight.value.phase.Opened?
    ensures var f := w.flight.value;
            Inv(w.(flight := Some(f.(phase := Extracted(items))), seen := w.seen + ObservationIds(f.window)))
  {
    hide UniqueIds, ConsolidatedOnce, CapturedOnce, CoveredUpTo, Consumed, Consumes, ReadSince, Position, HasId;
    var f := w.flight.value;
    SameCover(w, w.(flight := Some(f.(phase := Extracted(items))), seen := w.seen + ObservationIds(f.window)));
  }

  lemma FlightDroppedKeeps(w: World)
    requires Inv(w)
    ensures Inv(w.(flight := None))
  {
    hide UniqueIds, ConsolidatedOnce, CapturedOnce, CoveredUpTo, Consumes, Consumed, ReadSince, FlightOk, HasId;
    SameCover(w, w.(flight := None));
  }

  lemma BeginStepKeeps(w: World, self: Option<Id>)
    requires Inv(w)
    ensures Inv(Next(w, Begin, self))
  {
    hide UniqueIds, ConsolidatedOnce, CapturedOnce, CoveredUpTo, Consumes, Consumed, ReadSince, FlightOk, HandedOver,
         CapturesIn, HasId;
    if w.flight.None? {
      BeginKeeps(w);
      SameFlight(w, Next(w, Begin, self), Next(w, Begin, self).flight.value);
      SameCover(w, Next(w, Begin, self));
    }
  }

  /** A flight is judged by log, table, watermark and what was seen. */
  lemma SameFlight(u: World, v: World, f: Flight)
    requires u.log == v.log && u.table == v.table && u.watermark == v.watermark && u.seen == v.seen && FlightOk(u, f)
    ensures FlightOk(v, f)
  {
    hide CoveredUpTo, Consumes, Consumed, StartAfter, Position, HasId, ObservationIds;
    SameCover(u, v);
  }

  lemma NoopStepKeeps(w: World, self: Option<Id>)
    requires Inv(w)
    ensures Inv(Next(w, Noop, self))
  {
    hide UniqueIds, ConsolidatedOnce, CapturedOnce, CoveredUpTo, Consumes, Consumed, ReadSince, FlightOk, HasId;
    if w.flight.Some? && w.flight.value.phase.Opened? && w.flight.value.window == [] { MarkKeeps(w); }
  }

  lemma MarkStepKeeps(w: World, self: Option<Id>)
    requires Inv(w)
    ensures Inv(Next(w, Mark, self))
  {
    hide UniqueIds, ConsolidatedOnce, CapturedOnce, CoveredUpTo, Consumes, Consumed, ReadSince, HasId, Position;
    if w.flight.Some? && (w.flight.value.phase.Rebuilt? || w.flight.value.phase == Appended(0)) {
      MarkKeeps(w);
      SameCover(w.(watermark := LastOf(w.flight.value.raw, w.watermark), flight := None), Next(w, Mark, self));
    }
  }

  lemma NextKeepsInv(w: World, step: Step, self: Option<Id>)
    requires Inv(w)
    ensures Inv(Next(w, step, self))
  {
    match step
    case Append(e) => { hide Inv, FreshRows; if FreshRows(w.log, [e]) { LogGrows(w, [e]); } }
    case Rebuild => { hide Inv, Reduce; if Reduce(w.log, self).Reduced? { RebuildKeeps(w, self); } }
    case Begin => BeginStepKeeps(w, self);
    case Noop => NoopStepKeeps(w, self);
    case ExtractOk(extracted, routePersonal) =>
      hide Inv;
      if w.flight.Some? && w.flight.value.phase.Opened? { ExtractKeeps(w, ProjectItems(extracted, routePersonal)); }
    case ExtractFail => { hide Inv; FlightDroppedKeeps(w); }
    case Commit(stamp, mints) => CommitStepKeeps(w, stamp, mints, self);
    case Reindex => ReindexKeeps(w, self);
    case Mark => MarkStepKeeps(w, self);
    case Crash => { hide Inv; FlightDroppedKeeps(w); }
    case LoseWatermark => { hide Inv; LossKeeps(w); }
  }

  lemma CommitStepKeeps(w: World, stamp: Stamp, mints: seq<Mint>, self: Option<Id>)
    requires Inv(w)
    ensures Inv(Next(w, Commit(stamp, mints), self))
  {
    hide Inv, Inputs, FreshRows;
    if w.flight.Some? && w.flight.value.phase.Extracted? && |mints| == |w.flight.value.phase.items| &&
       (forall e :: e in w.flight.value.window ==> IsCapture(e)) &&
       FreshRows(w.log, Inputs(w.flight.value.phase.items, mints, stamp, SourceIds(w.flight.value.window),
         w.flight.value.valid).inputs)
    {
      CommitKeeps(w, stamp, mints);
    }
  }

  lemma ReindexKeeps(w: World, self: Option<Id>)
    requires Inv(w)
    ensures Inv(Next(w, Reindex, self))
  {
    hide UniqueIds, ConsolidatedOnce, CapturedOnce, CoveredUpTo, Consumes, Reduce, ReadSince, Consumed, Position,
         HasId;
    if w.flight.Some? && w.flight.value.phase.Appended? {
      if Reduce(w.log, self).Reduced? {
        RebuildKeeps(w, self);
        SameCover(w.(table := Reduce(w.log, self).state.memories), Next(w, Reindex, self));
      } else {
        SameCover(w, w.(flight := None));
      }
    }
  }

  lemma LossKeeps(w: World)
    requires Inv(w)
    ensures Inv(w.(watermark := None))
  {
    hide UniqueIds, ConsolidatedOnce, CapturedOnce, Consumes, Consumed, Position, HasId;
    var v := w.(watermark := None);
    SameCover(w, v);
  }

  lemma {:induction false} RunKeepsInv(w: World, steps: seq<Step>, self: Option<Id>)
    requires Inv(w)
    ensures Inv(Run(w, steps, self))
    decreases steps
  {
    hide Inv, Next;
    if steps != [] {
      NextKeepsInv(w, steps[0], self);
      RunKeepsInv(Next(w, steps[0], self), steps[1..], self);
    }
  }

  lemma StartIsFine()
    ensures Inv(START)
  {
  }

  // --- main results --------------------------------------------------------------------------------------

  /** Nothing at or before the watermark was skipped: an extraction succeeded on it, or a memory holds it. */
  lemma NeverSkips(steps: seq<Step>, self: Option<Id>, p: nat)
    requires var w := Run(START, steps, self); p < StartAfter(w.log, w.watermark) && IsCapture(w.log[p])
    ensures var w := Run(START, steps, self);
            w.log[p].payload.observation.id in w.seen || Consumes(w.log, w.log[p].payload.observation.id)
  {
    hide Run, Consumes;
    StartIsFine();
    RunKeepsInv(START, steps, self);
  }

  /**
   * Whatever comes after a completed boundary that yielded a project memory - crashes, failures,
   * a lost watermark - none of its observations is handed to an extractor again.
   */
  lemma NeverRepeats(steps: seq<Step>, self: Option<Id>, e: Event, o: Id)
    requires var w := Run(START, steps, self); e in HandedOver(w.log, w.watermark, w.table) && Captures(e, o)
    ensures o !in Run(START, steps, self).done
  {
    hide Run, Consumes, Consumed, Unconsumed, CapturesIn;
    StartIsFine();
    RunKeepsInv(START, steps, self);
  }

  /** Short of losing it, no step moves the watermark back. */
  lemma WatermarkNeverMovesBack(steps: seq<Step>, step: Step, self: Option<Id>)
    requires !step.LoseWatermark?
    ensures var w := Run(START, steps, self); var v := Next(w, step, self);
            StartAfter(w.log, w.watermark) <= StartAfter(v.log, v.watermark)
  {
    hide Run, Consumes, Consumed, CoveredUpTo, HandedOver, Inputs, Reduce, FreshRows, ReadSince, Position;
    StartIsFine();
    RunKeepsInv(START, steps, self);
    var w := Run(START, steps, self);
    match step
    case Append(e) => WatermarkKept(w.log, [e], w.watermark);
    case Commit(stamp, mints) =>
      if Next(w, step, self) != w {
        var f := w.flight.value;
        WatermarkKept(w.log, Inputs(f.phase.items, mints, stamp, SourceIds(f.window), f.valid).inputs, w.watermark);
      }
    case Noop => if Next(w, step, self) != w { MarkKeeps(w); }
    case Mark => if Next(w, step, self) != w { MarkKeeps(w); }
    case _ =>
  }

  // --- runs that keep their watermark ----------------------------------------------------------------------

  ghost predicate CapturedBelow(log: Log, n: nat, o: Id)
    requires n <= |log|
  {
    exists p :: 0 <= p < n && Captures(log[p], o)
  }

  /** What was completed lies below the watermark, and what is in flight lies below the next one. */
  ghost predicate Below(w: World) {
    && (forall o :: o in w.marked ==> CapturedBelow(w.log, StartAfter(w.log, w.watermark), o))
    && (w.flight.Some? ==>
          var f := w.flight.value;
          && (f.raw == [] ==> f.window == [])
          && (f.raw != [] ==>
                && HasId(w.log, f.raw[|f.raw| - 1].id)
                && forall o :: o in ObservationIds(f.window) ==>
                     CapturedBelow(w.log, Position(w.log, f.raw[|f.raw| - 1].id) + 1, o)))
  }

  lemma {:induction false} LastCapturePlace(tail: Log) returns (i: nat)
    requires CapturesIn(tail) != []
    ensures i < |tail| && tail[i] == CapturesIn(tail)[|CapturesIn(tail)| - 1]
    ensures forall j :: i < j < |tail| ==> !IsCapture(tail[j])
  {
    var n := |tail| - 1;
    if IsCapture(tail[n]) {
      i := n;
    } else {
      i := LastCapturePlace(tail[..n]);
      assert forall j :: 0 <= j < n ==> tail[..n][j] == tail[j];
    }
  }

  lemma CapturedNoLater(log: Log, start: nat, e: Event, o: Id)
    requires start <= |log| && UniqueIds(log) && e in CapturesIn(log[start..]) && Captures(e, o)
    ensures var raw := CapturesIn(log[start..]);
            raw != [] && HasId(log, raw[|raw| - 1].id) && CapturedBelow(log, Position(log, raw[|raw| - 1].id) + 1, o)
  {
    hide CapturesIn, UniqueIds, HasId;
    var tail := log[start..];
    var i := LastCapturePlace(tail);
    RowAt(log, start, i);
    var j :| 0 <= j < |tail| && tail[j] == e;
    assert log[start + j] == e;
    assert IsCapture(tail[j]);
  }

  lemma RowAt(log: Log, start: nat, i: nat)
    requires UniqueIds(log) && start + i < |log|
    ensures var e := log[start..][i]; e == log[start + i] && HasId(log, e.id) && Position(log, e.id) == start + i
  {
    PositionOf(log, start + i);
    assert log[start + i] in log;
  }

  lemma WindowLiesBelow(w: World, o: Id)
    requires UniqueIds(w.log)
    requires o in ObservationIds(HandedOver(w.log, w.watermark, w.table))
    ensures var raw := CapturesIn(ReadSince(w.log, w.watermark));
            raw != [] && HasId(w.log, raw[|raw| - 1].id) &&
            CapturedBelow(w.log, Position(w.log, raw[|raw| - 1].id) + 1, o)
  {
    hide CapturesIn, UniqueIds, Distilled, ReadSince, HasId, CapturedBelow;
    var e :| e in HandedOver(w.log, w.watermark, w.table) && Captures(e, o);
    CapturedNoLater(w.log, StartAfter(w.log, w.watermark), e, o);
  }

  lemma BeginKeepsBelow(w: World)
    requires UniqueIds(w.log)
    ensures var raw, window := CapturesIn(ReadSince(w.log, w.watermark)), HandedOver(w.log, w.watermark, w.table);
            && (raw == [] ==> window == [])
            && (raw != [] ==> HasId(w.log, raw[|raw| - 1].id))
            && (forall o :: o in ObservationIds(window) ==>
                  raw != [] && CapturedBelow(w.log, Position(w.log, raw[|raw| - 1].id) + 1, o))
  {
    hide UniqueIds, CapturesIn, HandedOver, ReadSince, HasId, CapturedBelow, ObservationIds;
    var window := HandedOver(w.log, w.watermark, w.table);
    forall o | o in ObservationIds(window)
      ensures var raw := CapturesIn(ReadSince(w.log, w.watermark));
              raw != [] && HasId(w.log, raw[|raw| - 1].id) &&
                CapturedBelow(w.log, Position(w.log, raw[|raw| - 1].id) + 1, o)
    {
      WindowLiesBelow(w, o);
    }
    HandedIsCaptured(w.log, w.watermark, w.table);
    RawIsLogged(w);
  }

  lemma GrowthKeepsBelow(w: World, rows: Log)
    requires Below(w) && Inv(w)
    ensures Below(w.(log := w.log + rows))
  {
    hide UniqueIds, ConsolidatedOnce, CapturedOnce, CoveredUpTo, Consumes, Consumed, ReadSince, HasId;
    WatermarkKept(w.log, rows, w.watermark);
    var longer := w.log + rows;
    forall n: nat, o | n <= |w.log| && CapturedBelow(w.log, n, o) ensures CapturedBelow(longer, n, o) {
      var p :| 0 <= p < n && Captures(w.log[p], o);
      assert longer[p] == w.log[p];
    }
    if w.flight.Some? && w.flight.value.raw != [] {
      PositionKeptByAppend(w.log, rows, w.flight.value.raw[|w.flight.value.raw| - 1].id);
    }
  }

  /** Phase, table and what was seen play no part. */
  lemma SameBelow(u: World, v: World)
    requires Below(u) && u.log == v.log && u.watermark == v.watermark && u.marked == v.marked
    requires v.flight.Some? ==>
               u.flight.Some? && v.flight.value.raw == u.flight.value.raw &&
                 v.flight.value.window == u.flight.value.window
    ensures Below(v)
  {
    hide CapturedBelow, StartAfter, Position, HasId, ObservationIds;
  }

  lemma BeginStepKeepsBelow(w: World, self: Option<Id>)
    requires Inv(w) && Below(w)
    ensures Below(Next(w, Begin, self))
  {
    hide UniqueIds, ConsolidatedOnce, CapturedOnce, CoveredUpTo, Consumes, Consumed, ReadSince, HandedOver, HasId,
         CapturesIn, CapturedBelow, FlightOk;
    if w.flight.None? { BeginKeepsBelow(w); }
  }

  lemma MarkStepKeepsBelow(w: World, step: Step, self: Option<Id>)
    requires Inv(w) && Below(w) && (step.Noop? || step.Mark?) && Next(w, step, self) != w
    ensures Below(Next(w, step, self))
  {
    hide Inv, Below, CapturedBelow, StartAfter, ObservationIds, LastOf;
    var v := Next(w, step, self);
    MarkMovesUp(w);
    assert v.marked <= w.marked + ObservationIds(w.flight.value.window);
    MarkedBelow(v);
  }

  lemma MarkedBelow(v: World)
    requires v.flight.None? && forall o :: o in v.marked ==> CapturedBelow(v.log, StartAfter(v.log, v.watermark), o)
    ensures Below(v)
  {
  }

  lemma NextKeepsBelow(w: World, step: Step, self: Option<Id>)
    requires Inv(w) && Below(w) && !step.LoseWatermark?
    ensures Below(Next(w, step, self))
  {
    hide Inv, Below, Reduce, Inputs, FreshRows, HandedOver, OwnValid;
    if Next(w, step, self) != w {
      match step
      case Append(e) => GrowthKeepsBelow(w, [e]);
      case Begin => BeginStepKeepsBelow(w, self);
      case Noop => MarkStepKeepsBelow(w, step, self);
      case Mark => MarkStepKeepsBelow(w, step, self);
      case Commit(stamp, mints) =>
        var f := w.flight.value;
        var rows := Inputs(f.phase.items, mints, stamp, SourceIds(f.window), f.valid).inputs;
        GrowthKeepsBelow(w, rows);
        SameBelow(w.(log := w.log + rows), Next(w, step, self));
      case _ => SameBelow(w, Next(w, step, self));
    }
  }

  lemma HandedIsCaptured(log: Log, watermark: Option<Id>, table: Memories)
    ensures CapturesIn(ReadSince(log, watermark)) == [] ==> HandedOver(log, watermark, table) == []
  {
  }

  lemma RawIsLogged(w: World)
    requires UniqueIds(w.log)
    ensures var raw := CapturesIn(ReadSince(w.log, w.watermark)); raw != [] ==> HasId(w.log, raw[|raw| - 1].id)
  {
    hide UniqueIds;
    if CapturesIn(ReadSince(w.log, w.watermark)) != [] { LastRawPlace(w.log, w.watermark); }
  }

  lemma MarkMovesUp(w: World)
    requires Inv(w) && Below(w) && w.flight.Some?
    ensures var watermark := LastOf(w.flight.value.raw, w.watermark);
            forall o :: o in w.marked + ObservationIds(w.flight.value.window) ==>
              CapturedBelow(w.log, StartAfter(w.log, watermark), o)
  {
    hide UniqueIds, ConsolidatedOnce, CapturedOnce, CoveredUpTo, Consumes, Consumed, ReadSince, CapturedBelow,
         ObservationIds, Position, HasId;
    var f := w.flight.value;
    if f.raw != [] {
      var id := f.raw[|f.raw| - 1].id;
      FoundStartsAfter(w.log, id);
      forall o | o in w.marked ensures CapturedBelow(w.log, Position(w.log, id) + 1, o) {
        BelowStays(w.log, StartAfter(w.log, w.watermark), Position(w.log, id) + 1, o);
      }
    } else {
      assert ObservationIds(f.window) == {} by { NoneObserved(); }
    }
  }

  lemma BelowStays(log: Log, m: nat, n: nat, o: Id)
    requires m <= n <= |log| && CapturedBelow(log, m, o)
    ensures CapturedBelow(log, n, o)
  {
  }

  lemma NoneObserved()
    ensures ObservationIds([]) == {}
  {
  }

  lemma {:induction false} RunKeepsBelow(w: World, steps: seq<Step>, self: Option<Id>)
    requires Inv(w) && Below(w) && forall s :: s in steps ==> !s.LoseWatermark?
    ensures Below(Run(w, steps, self))
    decreases steps
  {
    hide Inv, Below, Next;
    if steps != [] {
      NextKeepsInv(w, steps[0], self);
      NextKeepsBelow(w, steps[0], self);
      RunKeepsBelow(Next(w, steps[0], self), steps[1..], self);
    }
  }

  /** While the watermark is kept, no completed boundary is repeated, whether or not it yielded a memory. */
  lemma NeverRepeatsWhileKept(steps: seq<Step>, self: Option<Id>, e: Event, o: Id)
    requires forall s :: s in steps ==> !s.LoseWatermark?
    requires var w := Run(START, steps, self); e in HandedOver(w.log, w.watermark, w.table) && Captures(e, o)
    ensures o !in Run(START, steps, self).marked
  {
    hide Run, Consumes, Consumed, CoveredUpTo, HandedOver;
    StartIsFine();
    RunKeepsInv(START, steps, self);
    RunKeepsBelow(START, steps, self);
    HandedIsAbove(Run(START, steps, self), e, o);
  }

  lemma HandedIsAbove(w: World, e: Event, o: Id)
    requires CapturedOnce(w.log) && e in HandedOver(w.log, w.watermark, w.table) && Captures(e, o)
    ensures !CapturedBelow(w.log, StartAfter(w.log, w.watermark), o)
  {
    hide Consumed;
    var start := StartAfter(w.log, w.watermark);
    var tail := w.log[start..];
    var j :| 0 <= j < |tail| && tail[j] == e;
    assert w.log[start + j] == e;
  }

  // --- what can be distilled twice ------------------------------------------------------------------------------

  /** A boundary that crashed after its append hands nothing over again once the table was rebuilt. */
  lemma RebuildShieldsAfterCrash(steps: seq<Step>, self: Option<Id>, o: Id)
    requires var w := Run(START, steps, self);
             && w.flight.Some? && w.flight.value.phase.Appended? && w.flight.value.phase.n > 0
             && o in ObservationIds(w.flight.value.window) && Reduce(w.log, self).Reduced?
    ensures var w := Run(START, steps, self); var v := Next(Next(w, Crash, self), Rebuild, self);
            forall e :: e in HandedOver(v.log, v.watermark, v.table) ==> !Captures(e, o)
  {
    hide Run, Consumes, Consumed, CoveredUpTo, HandedOver, Reduce;
    StartIsFine();
    RunKeepsInv(START, steps, self);
    var w := Run(START, steps, self);
    RebuildKeeps(w, self);
  }

  /** What is handed over: captured after the watermark, and held by no memory of the table. */
  lemma HandedExactly(log: Log, watermark: Option<Id>, table: Memories, e: Event, o: Id)
    requires Captures(e, o)
    ensures e in HandedOver(log, watermark, table) <==> e in ReadSince(log, watermark) && !Consumed(table, o)
  {
    hide Consumed, ReadSince;
    assert e in CapturesIn(ReadSince(log, watermark)) <==> e in ReadSince(log, watermark);
  }

  /** What is in flight still lies after the watermark. */
  ghost predicate Ahead(w: World) {
    w.flight.Some? ==> forall e :: e in w.flight.value.window ==> e in ReadSince(w.log, w.watermark)
  }

  lemma ReadsOn(log: Log, rows: Log, watermark: Option<Id>)
    requires watermark.Some? ==> HasId(log, watermark.value)
    ensures forall e :: e in ReadSince(log, watermark) ==> e in ReadSince(log + rows, watermark)
  {
    hide ReadSince, HasId;
    WatermarkKept(log, rows, watermark);
    var start := StartAfter(log, watermark);
    assert (log + rows)[start..] == log[start..] + rows;
  }

  lemma WindowIsAhead(log: Log, watermark: Option<Id>, table: Memories)
    ensures forall e :: e in HandedOver(log, watermark, table) ==> e in ReadSince(log, watermark)
  {
    hide ReadSince, Consumed;
  }

  lemma NextKeepsAhead(w: World, step: Step, self: Option<Id>)
    requires Inv(w) && Ahead(w)
    ensures Ahead(Next(w, step, self))
  {
    hide UniqueIds, ConsolidatedOnce, CapturedOnce, CoveredUpTo, Consumes, Consumed, ReadSince, FlightOk, HasId,
         HandedOver, Inputs, Reduce, FreshRows;
    match step
    case Append(e) => ReadsOn(w.log, [e], w.watermark);
    case Begin => WindowIsAhead(w.log, w.watermark, w.table);
    case Commit(stamp, mints) =>
      if Next(w, step, self) != w {
        var f := w.flight.value;
        ReadsOn(w.log, Inputs(f.phase.items, mints, stamp, SourceIds(f.window), f.valid).inputs, w.watermark);
      }
    case LoseWatermark => NoWatermarkReadsAll(w.log, w.watermark);
    case _ =>
  }

  lemma NoWatermarkReadsAll(log: Log, watermark: Option<Id>)
    ensures ReadSince(log, None) == log && forall e :: e in ReadSince(log, watermark) ==> e in log
  {
  }

  lemma {:induction false} RunKeepsAhead(w: World, steps: seq<Step>, self: Option<Id>)
    requires Inv(w) && Ahead(w)
    ensures Inv(Run(w, steps, self)) && Ahead(Run(w, steps, self))
    decreases steps
  {
    hide Inv, Ahead, Next;
    if steps != [] {
      NextKeepsInv(w, steps[0], self);
      NextKeepsAhead(w, steps[0], self);
      RunKeepsAhead(Next(w, steps[0], self), steps[1..], self);
    }
  }

  /**
   * A boundary that crashes once its rows are in the log hands an observation of its window out
   * again exactly when the table was not rebuilt in between to hold it.
   */
  lemma RepeatsAfterCrashExactly(steps: seq<Step>, self: Option<Id>, e: Event, o: Id)
    requires var w := Run(START, steps, self);
             w.flight.Some? && w.flight.value.phase.Appended? && e in w.flight.value.window && Captures(e, o)
    ensures var w := Run(START, steps, self); var v := Next(w, Crash, self);
            e in HandedOver(v.log, v.watermark, v.table) <==> !Consumed(w.table, o)
  {
    hide Run, Consumes, Consumed, CoveredUpTo, HandedOver, Reduce, ReadSince;
    StartIsFine();
    RunKeepsAhead(START, steps, self);
    var w := Run(START, steps, self);
    HandedExactly(w.log, w.watermark, w.table, e, o);
  }

  /**
   * A boundary that completes and then loses its watermark hands an observation of its window
   * out again exactly when it yielded no project memory and no other memory holds it.
   */
  lemma RepeatsAfterLossExactly(steps: seq<Step>, self: Option<Id>, e: Event, o: Id)
    requires var w := Run(START, steps, self);
             && w.flight.Some? && (w.flight.value.phase.Rebuilt? || w.flight.value.phase == Appended(0))
             && e in w.flight.value.window && Captures(e, o)
    ensures var w := Run(START, steps, self); var v := Next(Next(w, Mark, self), LoseWatermark, self);
            e in HandedOver(v.log, v.watermark, v.table) <==> w.flight.value.phase.n == 0 && !Consumed(w.table, o)
  {
    hide Run, Inv, Next, HandedOver, Consumed, ReadSince;
    StartIsFine();
    RunKeepsAhead(START, steps, self);
    LossExactly(Run(START, steps, self), self, e, o);
  }

  lemma LossExactly(w: World, self: Option<Id>, e: Event, o: Id)
    requires Inv(w) && Ahead(w)
    requires w.flight.Some? && (w.flight.value.phase.Rebuilt? || w.flight.value.phase == Appended(0))
    requires e in w.flight.value.window && Captures(e, o)
    ensures var v := Next(Next(w, Mark, self), LoseWatermark, self);
            e in HandedOver(v.log, v.watermark, v.table) <==> w.flight.value.phase.n == 0 && !Consumed(w.table, o)
  {
    hide Consumes, Consumed, CoveredUpTo, HandedOver, Reduce, ReadSince, UniqueIds, ConsolidatedOnce, CapturedOnce;
    NoWatermarkReadsAll(w.log, w.watermark);
    HandedExactly(w.log, None, w.table, e, o);
    assert o in ObservationIds(w.flight.value.window);
  }

  function OneCapture(): Event {
    Event("e1", "t1", "a", "a", None, None, ObservationCaptured(Observation("o", None, None, "t1")))
  }

  function OneBoundary(items: seq<Item>, mints: seq<Mint>): seq<Step> {
    [Append(OneCapture()), Begin, ExtractOk(items, false), Commit(Stamp("a", None, "x"), mints)]
  }

  lemma RunOne(w: World, step: Step, rest: seq<Step>, self: Option<Id>)
    ensures Run(w, [step] + rest, self) == Run(Next(w, step, self), rest, self)
    ensures Run(w, [], self) == w
  {
    hide Next;
    assert ([step] + rest)[1..] == rest;
  }

  /** The world once a first boundary over one capture has reached its append. */
  function AfterFirstAppend(items: seq<Item>, mints: seq<Mint>): World
    requires |items| == |mints|
  {
    var c := OneCapture();
    World([c] + Inputs(items, mints, Stamp("a", None, "x"), ["o"], {}).inputs, map[], None,
          Some(Flight([c], [c], {}, Appended(|items|))), {"o"}, {}, {})
  }

  lemma FirstBegin()
    ensures var w := START.(log := [OneCapture()]);
            && Next(START, Append(OneCapture()), None) == w
            && Next(w, Begin, None) == w.(flight := Some(Flight([OneCapture()], [OneCapture()], {}, Opened)))
  {
    hide CapturesIn, Unconsumed, HandedOver, Reduce, Inputs, HasId;
    assert FreshRows([], [OneCapture()]);
    WindowOfOne(OneCapture());
    assert OwnValid(map[]) == {};
  }

  lemma FirstExtract(items: seq<Item>)
    requires |items| <= 1
    ensures var c := OneCapture(); var w := START.(log := [c], flight := Some(Flight([c], [c], {}, Opened)));
            Next(w, ExtractOk(items, false), None) ==
            w.(flight := Some(Flight([c], [c], {}, Extracted(items))), seen := {"o"})
  {
    hide HandedOver, Reduce, Inputs, CapturesIn;
    AllAreProjectItems(items);
    assert ObservationIds([OneCapture()]) == {"o"};
  }

  lemma FirstCommit(items: seq<Item>, mints: seq<Mint>)
    requires |items| == |mints| <= 1
    requires |mints| == 1 ==> mints[0].bornId != "e1" && items[0].supersedes.None?
    ensures var c := OneCapture();
            var w := START.(log := [c], flight := Some(Flight([c], [c], {}, Extracted(items))), seen := {"o"});
            Next(w, Commit(Stamp("a", None, "x"), mints), None) == AfterFirstAppend(items, mints)
  {
    hide HandedOver, Reduce, Inputs, CapturesIn;
    var c, stamp := OneCapture(), Stamp("a", None, "x");
    assert SourceIds([c]) == ["o"];
    InputsOfOne(items, mints, stamp, ["o"], {});
  }

  lemma FirstBoundary(items: seq<Item>, mints: seq<Mint>, rest: seq<Step>)
    requires |items| == |mints| <= 1
    requires |mints| == 1 ==> mints[0].bornId != "e1" && items[0].supersedes.None?
    ensures Run(START, OneBoundary(items, mints) + rest, None) == Run(AfterFirstAppend(items, mints), rest, None)
  {
    hide Next, AfterFirstAppend, OneCapture;
    var steps := OneBoundary(items, mints) + rest;
    assert steps == [steps[0]] + ([steps[1]] + ([steps[2]] + ([steps[3]] + rest)));
    FirstBegin();
    FirstExtract(items);
    FirstCommit(items, mints);
    var w1 := Next(START, steps[0], None);
    var w2 := Next(w1, steps[1], None);
    var w3 := Next(w2, steps[2], None);
    RunOne(START, steps[0], [steps[1]] + ([steps[2]] + ([steps[3]] + rest)), None);
    RunOne(w1, steps[1], [steps[2]] + ([steps[3]] + rest), None);
    RunOne(w2, steps[2], [steps[3]] + rest, None);
    RunOne(w3, steps[3], rest, None);
  }

  lemma WindowOfOne(c: Event)
    requires IsCapture(c)
    ensures CapturesIn([c]) == [c] && HandedOver([c], None, map[]) == [c]
  {
    assert [c][..0] == [];
    assert CapturesIn([]) == [] && Unconsumed([], map[]) == [];
    assert !Distilled(c, map[]);
    assert Unconsumed([c], map[]) == [c];
  }

  lemma {:induction false} AllAreProjectItems(items: seq<Item>)
    requires |items| <= 1
    ensures ProjectItems(items, false) == items
  {
    if |items| == 1 { assert items[..0] == [] && items == [items[0]]; }
  }

  lemma InputsOfOne(items: seq<Item>, mints: seq<Mint>, stamp: Stamp, sources: seq<Id>, valid: set<Id>)
    requires |items| == |mints| <= 1 && (|items| == 1 ==> items[0].supersedes.None?)
    ensures Inputs(items, mints, stamp, sources, valid).inputs ==
            if items == [] then [] else [Born(items[0], mints[0], stamp, sources)]
  {
    if |items| == 1 { assert items[..0] == [] && mints[..0] == []; }
  }

  /** The capture is handed out again although an extraction succeeded on it before. */
  ghost predicate HandedAgain(w: World, e: Event, o: Id) {
    e in HandedOver(w.log, w.watermark, w.table) && Captures(e, o) && o in w.seen
  }

  lemma CaptureInLogAlone(log: Log, c: Event, o: Id)
    requires c in log && Captures(c, o)
    ensures c in HandedOver(log, None, map[])
  {
  }

  /** A crash between the append and the rebuild leaves the table behind: the window is distilled a second time. */
  lemma CrashBeforeRebuildRepeats()
    ensures exists steps, e, o :: HandedAgain(Run(START, steps, None), e, o) && Consumes(Run(START, steps, None).log, o)
  {
    hide Run, Consumes, HandedOver;
    var items, mints := [Item(Decision, "x", 1, None, false)], [Mint("m1", "e2", "e3", "t2")];
    var w := AfterFirstAppend(items, mints);
    InputsOfOne(items, mints, Stamp("a", None, "x"), ["o"], {});
    FirstBoundary(items, mints, [Crash]);
    RunOne(w, Crash, [], None);
    RunOne(Next(w, Crash, None), Crash, [], None);
    assert [Crash] + [] == [Crash];
    var v := Next(w, Crash, None);
    CaptureInLogAlone(v.log, OneCapture(), "o");
    SourceConsumes(v.log, Born(items[0], mints[0], Stamp("a", None, "x"), ["o"]), "o");
    assert HandedAgain(v, OneCapture(), "o");
  }

  lemma SourceConsumes(log: Log, e: Event, o: Id)
    requires e in log && e.payload.MemoryConsolidated? && o in e.payload.memory.sources
    ensures Consumes(log, o)
  {
  }

  /** A completed boundary that yielded no project memory is repeated once its watermark is lost. */
  lemma EmptyBoundaryRepeatsAfterLoss()
    ensures exists steps, e, o :: HandedAgain(Run(START, steps, None), e, o) && o in Run(START, steps, None).marked
  {
    hide Run, HandedOver;
    var w := AfterFirstAppend([], []);
    var steps := [Mark, LoseWatermark];
    FirstBoundary([], [], steps);
    assert steps == [Mark] + ([LoseWatermark] + []);
    var w1 := Next(w, Mark, None);
    RunOne(w, Mark, [LoseWatermark] + [], None);
    RunOne(w1, LoseWatermark, [], None);
    RunOne(Next(w1, LoseWatermark, None), Mark, [], None);
    var v := Next(w1, LoseWatermark, None);
    assert Captures(OneCapture(), "o") && OneCapture() in [OneCapture()];
    CaptureInLogAlone(v.log, OneCapture(), "o");
    assert HandedAgain(v, OneCapture(), "o") && "o" in v.marked;
  }

  // --- what a batch supersedes -----------------------------------------------------------------------------------

  predicate Closer(e: Event) {
    e.payload.MemorySuperseded?
  }

  /**
   * Every supersede of a batch aims at a memory that was valid when the boundary began, no two
   * aim at the same one, and each follows the birth of the memory it names as successor.
   */
  lemma {:induction false} SupersedesAreSound(items: seq<Item>, mints: seq<Mint>, stamp: Stamp, sources: seq<Id>,
      valid: set<Id>)
    requires |items| == |mints|
    ensures var b := Inputs(items, mints, stamp, sources, valid);
            && b.valid <= valid
            && (forall i :: 0 <= i < |b.inputs| && Closer(b.inputs[i]) ==>
                  && b.inputs[i].payload.supersedes in valid - b.valid
                  && i > 0 && Consolidates(b.inputs[i - 1], b.inputs[i].payload.supersededBy))
            && (forall i, j :: 0 <= i < j < |b.inputs| && Closer(b.inputs[i]) && Closer(b.inputs[j]) ==>
                  b.inputs[i].payload.supersedes != b.inputs[j].payload.supersedes)
    decreases |items|
  {
    if items != [] {
      SupersedesAreSound(items[..|items| - 1], mints[..|items| - 1], stamp, sources, valid);
    }
  }

  /** Whatever was extracted, a boundary closes only memories of the store's own that were valid when it began. */
  lemma BoundariesCloseOwnOnly(w: World, self: Option<Id>, items: seq<Item>, mints: seq<Mint>, stamp: Stamp,
      sources: seq<Id>)
    requires w.flight.None? && |items| == |mints|
    ensures var f := Next(w, Begin, self).flight;
            f.Some? && forall e :: e in Inputs(items, mints, stamp, sources, f.value.valid).inputs && Closer(e) ==>
              e.payload.supersedes in w.table && w.table[e.payload.supersedes].source.None? &&
              w.table[e.payload.supersedes].invalidAt.None?
  {
    hide Inputs, HandedOver;
    SupersedesAreSound(items, mints, stamp, sources, OwnValid(w.table));
  }

  function BirthsIn(log: Log): Log {
    if log == [] then []
    else
      var rest := BirthsIn(log[..|log| - 1]);
      if log[|log| - 1].payload.MemoryConsolidated? then rest + [log[|log| - 1]] else rest
  }

  lemma BirthsOfLonger(log: Log, e: Event)
    ensures BirthsIn(log + [e]) == BirthsIn(log) + if e.payload.MemoryConsolidated? then [e] else []
  {
    assert (log + [e])[..|log|] == log;
  }

  /** A batch holds one birth for each project item, in order, each with the whole window as its sources. */
  lemma {:induction false} OneBirthPerItem(items: seq<Item>, mints: seq<Mint>, stamp: Stamp, sources: seq<Id>,
      valid: set<Id>)
    requires |items| == |mints|
    ensures BirthsIn(Inputs(items, mints, stamp, sources, valid).inputs) ==
            seq(|items|, i requires 0 <= i < |items| => Born(items[i], mints[i], stamp, sources))
    decreases |items|
  {
    hide BirthsIn, Born, Superseding;
    if items == [] {
      NoBirths();
    } else {
      var n := |items| - 1;
      OneBirthPerItem(items[..n], mints[..n], stamp, sources, valid);
      var rest := Inputs(items[..n], mints[..n], stamp, sources, valid);
      var born := Born(items[n], mints[n], stamp, sources);
      BirthsOfLonger(rest.inputs, born);
      BornIsABirth(items[n], mints[n], stamp, sources);
      if items[n].supersedes.Some? {
        var closing := Superseding(items[n].supersedes.value, mints[n], stamp);
        BirthsOfLonger(rest.inputs + [born], closing);
        assert BirthsIn(rest.inputs + [born]) + [] == BirthsIn(rest.inputs + [born]);
      }
    }
  }

  lemma NoBirths()
    ensures BirthsIn([]) == []
  {
  }

  lemma BornIsABirth(item: Item, mint: Mint, stamp: Stamp, sources: seq<Id>)
    ensures Born(item, mint, stamp, sources).payload.MemoryConsolidated?
    ensures forall target :: !Superseding(target, mint, stamp).payload.MemoryConsolidated?
  {
  }
}
