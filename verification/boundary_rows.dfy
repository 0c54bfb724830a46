/** What a boundary appends, row by row and field by field. */
module BoundaryRows {
  import opened Events
  import opened EventLog
  import opened Dedup
  import opened Projector
  import opened Window
  import opened BoundaryRuns

  // --- one item -----------------------------------------------------------------------------------------

  /** `e` consolidates `item`: the extractor's kind, text and salience, the mint's id and time, all sources. */
  predicate Consolidated(e: Event, item: Item, mint: Mint, stamp: Stamp, sources: seq<Id>) {
    && e.id == mint.bornId && e.createdAt == mint.at
    && e.projectId == stamp.projectId && e.source == Some(stamp.projectId)
    && e.scopeId == (if stamp.sessionId.Some? then stamp.sessionId.value else stamp.projectId)
    && e.writer == Some(stamp.actor)
    && e.payload.MemoryConsolidated?
    && var m := e.payload.memory;
       && m.id == mint.memoryId && m.createdAt == mint.at
       && m.kind == item.kind && m.text == item.text && m.salience == item.salience
       && m.sessionId == stamp.sessionId && m.sources == sources
  }

  /** `e` closes the memory the item names in favour of the one just born. */
  predicate ClosesNamed(e: Event, item: Item, mint: Mint, stamp: Stamp) {
    && e.id == mint.closeId && e.createdAt == mint.at
    && e.projectId == stamp.projectId && e.source == Some(stamp.projectId)
    && e.scopeId == (if stamp.sessionId.Some? then stamp.sessionId.value else stamp.projectId)
    && e.writer == Some(stamp.actor)
    && e.payload.MemorySuperseded?
    && Some(e.payload.supersedes) == item.supersedes && e.payload.supersededBy == mint.memoryId
  }

  /** Item `k` names a memory that was valid, and is the first to do so. */
  predicate Closing(items: seq<Item>, valid: set<Id>, k: nat)
    requires k < |items|
  {
    && items[k].supersedes.Some? && items[k].supersedes.value in valid
    && forall j :: 0 <= j < k ==> items[j].supersedes != items[k].supersedes
  }

  /**
   * `at[k]` is the place of the birth of item `k`. The items come in order, nothing stands between
   * them but the supersede of an item that closes something, right after its birth.
   */
  ghost predicate RowsTold(rows: Log, items: seq<Item>, mints: seq<Mint>, stamp: Stamp, sources: seq<Id>,
      valid: set<Id>, at: seq<nat>)
  {
    && |mints| == |items| && |at| == |items| + 1 && at[0] == 0 && at[|items|] == |rows|
    && forall k :: 0 <= k < |items| ==>
         && at[k] < |rows| && Consolidated(rows[at[k]], items[k], mints[k], stamp, sources)
         && at[k + 1] == at[k] + (if Closing(items, valid, k) then 2 else 1)
         && (Closing(items, valid, k) ==>
               at[k] + 1 < |rows| && ClosesNamed(rows[at[k] + 1], items[k], mints[k], stamp))
  }

  lemma {:induction false} ValidLeft(items: seq<Item>, mints: seq<Mint>, stamp: Stamp, sources: seq<Id>, valid: set<Id>)
    requires |items| == |mints|
    ensures forall t :: t in Inputs(items, mints, stamp, sources, valid).valid <==>
              t in valid && forall j :: 0 <= j < |items| ==> items[j].supersedes != Some(t)
    decreases |items|
  {
    hide Born, Superseding;
    if items != [] {
      var n := |items| - 1;
      ValidLeft(items[..n], mints[..n], stamp, sources, valid);
      assert forall j :: 0 <= j < n ==> items[..n][j] == items[j];
    }
  }

  lemma RowsGrow(rows: Log, items: seq<Item>, mints: seq<Mint>, stamp: Stamp, sources: seq<Id>, valid: set<Id>,
      at: seq<nat>, more: Log)
    requires items != [] && |mints| == |items|
    requires RowsTold(rows, items[..|items| - 1], mints[..|items| - 1], stamp, sources, valid, at)
    requires var n := |items| - 1;
             && |more| == (if Closing(items, valid, n) then 2 else 1)
             && Consolidated(more[0], items[n], mints[n], stamp, sources)
             && (Closing(items, valid, n) ==> ClosesNamed(more[1], items[n], mints[n], stamp))
    ensures RowsTold(rows + more, items, mints, stamp, sources, valid, at + [|rows| + |more|])
  {
    hide Consolidated, ClosesNamed;
    var n := |items| - 1;
    forall k | 0 <= k < n ensures Closing(items, valid, k) <==> Closing(items[..n], valid, k) {
      assert forall j :: 0 <= j < n ==> items[..n][j] == items[j];
    }
    var longer, places := rows + more, at + [|rows| + |more|];
    forall k | 0 <= k < |items|
      ensures places[k] < |longer| && Consolidated(longer[places[k]], items[k], mints[k], stamp, sources)
      ensures places[k + 1] == places[k] + (if Closing(items, valid, k) then 2 else 1)
      ensures Closing(items, valid, k) ==>
                places[k] + 1 < |longer| && ClosesNamed(longer[places[k] + 1], items[k], mints[k], stamp)
    {
      if k < n {
        assert items[..n][k] == items[k] && mints[..n][k] == mints[k] && places[k] == at[k];
        assert longer[at[k]] == rows[at[k]];
      } else {
        assert longer[|rows|] == more[0];
      }
    }
  }

  lemma BornTold(item: Item, mint: Mint, stamp: Stamp, sources: seq<Id>)
    ensures Consolidated(Born(item, mint, stamp, sources), item, mint, stamp, sources)
    ensures item.supersedes.Some? ==> ClosesNamed(Superseding(item.supersedes.value, mint, stamp), item, mint, stamp)
  {
  }

  /** A batch holds one birth for each project item, in order, and a supersede for each item that closes something. */
  lemma {:induction false} BatchIsTold(items: seq<Item>, mints: seq<Mint>, stamp: Stamp, sources: seq<Id>,
      valid: set<Id>) returns (at: seq<nat>)
    requires |items| == |mints|
    ensures RowsTold(Inputs(items, mints, stamp, sources, valid).inputs, items, mints, stamp, sources, valid, at)
    decreases |items|
  {
    hide Born, Superseding, Consolidated, ClosesNamed, Closing, RowsTold;
    if items == [] {
      at := [0];
      NoRows(mints, stamp, sources, valid);
    } else {
      var n := |items| - 1;
      at := BatchIsTold(items[..n], mints[..n], stamp, sources, valid);
      ValidLeft(items[..n], mints[..n], stamp, sources, valid);
      LastCloses(items, valid);
      BornTold(items[n], mints[n], stamp, sources);
      var rest := Inputs(items[..n], mints[..n], stamp, sources, valid).inputs;
      var born := Born(items[n], mints[n], stamp, sources);
      var more := if Closing(items, valid, n) then [born] + [Superseding(items[n].supersedes.value, mints[n], stamp)]
                  else [born];
      RowsGrow(rest, items, mints, stamp, sources, valid, at, more);
      assert Inputs(items, mints, stamp, sources, valid).inputs == rest + more;
      at := at + [|rest| + |more|];
    }
  }

  lemma NoRows(mints: seq<Mint>, stamp: Stamp, sources: seq<Id>, valid: set<Id>)
    requires mints == []
    ensures RowsTold(Inputs([], mints, stamp, sources, valid).inputs, [], mints, stamp, sources, valid, [0])
  {
  }

  lemma LastCloses(items: seq<Item>, valid: set<Id>)
    requires items != []
    ensures var n := |items| - 1;
            Closing(items, valid, n) <==>
            items[n].supersedes.Some? && items[n].supersedes.value in valid &&
            forall j :: 0 <= j < n ==> items[..n][j].supersedes != items[n].supersedes
  {
    assert forall j :: 0 <= j < |items| - 1 ==> items[..|items| - 1][j] == items[j];
  }

  // --- the window and the items ---------------------------------------------------------------------------

  /** Captures after the watermark that no memory of the table was distilled from, in log order. */
  ghost predicate WindowTold(window: Log, log: Log, watermark: Option<Id>, table: Memories, places: seq<nat>) {
    && |window| == |places| && (forall i :: 0 <= i < |places| ==> places[i] < |log| && window[i] == log[places[i]])
    && (forall i, j :: 0 <= i < j < |places| ==> places[i] < places[j])
    && forall p: nat :: p in places <==>
         && StartAfter(log, watermark) <= p < |log| && log[p].payload.ObservationCaptured?
         && forall m :: m in table ==> log[p].payload.observation.id !in table[m].memory.sources
  }

  ghost predicate Handed(window: Log, log: Log, start: nat, n: nat, table: Memories, places: seq<nat>)
    requires n <= |log|
  {
    && |window| == |places| && (forall i :: 0 <= i < |places| ==> places[i] < n && window[i] == log[places[i]])
    && (forall i, j :: 0 <= i < j < |places| ==> places[i] < places[j])
    && forall p: nat :: p in places <==> start <= p < n && IsCapture(log[p]) && !Distilled(log[p], table)
  }

  lemma OneMorePlace(window: Log, log: Log, start: nat, n: nat, table: Memories, places: seq<nat>)
    requires start <= n < |log| && Handed(window, log, start, n, table, places)
    ensures if IsCapture(log[n]) && !Distilled(log[n], table)
            then Handed(window + [log[n]], log, start, n + 1, table, places + [n])
            else Handed(window, log, start, n + 1, table, places)
  {
    hide Distilled;
    assert forall x :: x in places + [n] <==> x in places || x == n;
  }

  lemma {:induction false} UnconsumedTold(log: Log, start: nat, n: nat, table: Memories) returns (places: seq<nat>)
    requires start <= n <= |log|
    ensures Handed(Unconsumed(CapturesIn(log[start..n]), table), log, start, n, table, places)
    decreases n
  {
    hide Distilled, Handed, Unconsumed, CapturesIn;
    if n == start {
      places := [];
      NothingHanded(log, start, table);
    } else {
      var before := log[start..n - 1];
      places := UnconsumedTold(log, start, n - 1, table);
      assert log[start..n] == before + [log[n - 1]];
      OneMoreHanded(before, log[n - 1], table);
      var window := Unconsumed(CapturesIn(before), table);
      OneMorePlace(window, log, start, n - 1, table, places);
      assert window + [] == window;
      if IsCapture(log[n - 1]) && !Distilled(log[n - 1], table) { places := places + [n - 1]; }
    }
  }

  lemma NothingHanded(log: Log, start: nat, table: Memories)
    requires start <= |log|
    ensures Handed(Unconsumed(CapturesIn(log[start..start]), table), log, start, start, table, [])
  {
    assert log[start..start] == [];
  }

  lemma OneMoreHanded(before: Log, e: Event, table: Memories)
    ensures Unconsumed(CapturesIn(before + [e]), table) ==
            Unconsumed(CapturesIn(before), table) + if IsCapture(e) && !Distilled(e, table) then [e] else []
  {
    hide Distilled;
    var captures := CapturesIn(before);
    assert (before + [e])[..|before|] == before;
    assert (captures + [e])[..|captures|] == captures;
  }

  /** What is handed to the extractor, place by place. */
  lemma WindowIsTold(log: Log, watermark: Option<Id>, table: Memories) returns (places: seq<nat>)
    ensures WindowTold(HandedOver(log, watermark, table), log, watermark, table, places)
  {
    hide ReadSince, HasId, CapturesIn, Unconsumed;
    var start := StartAfter(log, watermark);
    places := UnconsumedTold(log, start, |log|, table);
    assert log[start..|log|] == log[start..];
  }

  /** The items that stay in the project, in order: all but the personal ones, when those are routed away. */
  ghost predicate ItemsTold(items: seq<Item>, extracted: seq<Item>, routePersonal: bool, places: seq<nat>) {
    && |items| == |places|
    && (forall i :: 0 <= i < |places| ==> places[i] < |extracted| && items[i] == extracted[places[i]])
    && (forall i, j :: 0 <= i < j < |places| ==> places[i] < places[j])
    && forall p: nat :: p in places <==> p < |extracted| && (!routePersonal || !extracted[p].personal)
  }

  lemma OneMoreItem(items: seq<Item>, extracted: seq<Item>, routePersonal: bool, places: seq<nat>)
    requires extracted != [] && ItemsTold(items, extracted[..|extracted| - 1], routePersonal, places)
    ensures var n := |extracted| - 1;
            if routePersonal && extracted[n].personal then ItemsTold(items, extracted, routePersonal, places)
            else ItemsTold(items + [extracted[n]], extracted, routePersonal, places + [n])
  {
    var n := |extracted| - 1;
    assert forall p :: 0 <= p < n ==> extracted[..n][p] == extracted[p];
    assert forall x :: x in places + [n] <==> x in places || x == n;
  }

  lemma {:induction false} ItemsAreTold(extracted: seq<Item>, routePersonal: bool) returns (places: seq<nat>)
    ensures ItemsTold(ProjectItems(extracted, routePersonal), extracted, routePersonal, places)
  {
    hide ItemsTold;
    if extracted == [] {
      places := [];
      NoItems(routePersonal);
    } else {
      var n := |extracted| - 1;
      places := ItemsAreTold(extracted[..n], routePersonal);
      OneMoreItem(ProjectItems(extracted[..n], routePersonal), extracted, routePersonal, places);
      if !(routePersonal && extracted[n].personal) { places := places + [n]; }
    }
  }

  lemma NoItems(routePersonal: bool)
    ensures ItemsTold(ProjectItems([], routePersonal), [], routePersonal, [])
  {
  }

  // --- one whole boundary ------------------------------------------------------------------------------------

  /** The memories a supersede may aim at: valid, and not of another store. */
  ghost predicate MayClose(table: Memories, valid: set<Id>) {
    forall m :: m in valid <==> m in table && table[m].invalidAt.None? && table[m].source.None?
  }

  /** The sources of every memory of a boundary: the observations of its window, in log order. */
  ghost predicate SourcesTold(sources: seq<Id>, window: Log) {
    |sources| == |window| &&
    forall i :: 0 <= i < |window| ==>
      window[i].payload.ObservationCaptured? && sources[i] == window[i].payload.observation.id
  }

  /** Mint `k` serves item `k`. */
  ghost predicate MintsTold(mints: seq<Mint>, mint: nat -> Mint) {
    forall k: nat :: k < |mints| ==> mints[k] == mint(k)
  }

  /**
   * The rows a boundary appends for what its extractor answered: for each item that stays in the
   * project its memory, drawn from the whole window, and the supersede of what it replaces.
   */
  ghost predicate BoundaryTold(rows: Log, log: Log, watermark: Option<Id>, table: Memories, extracted: seq<Item>,
      routePersonal: bool, stamp: Stamp, mint: nat -> Mint)
  {
    exists window, places, items, picks, mints, sources, valid, at ::
      && WindowTold(window, log, watermark, table, places)
      && ItemsTold(items, extracted, routePersonal, picks)
      && MintsTold(mints, mint) && SourcesTold(sources, window) && MayClose(table, valid)
      && RowsTold(rows, items, mints, stamp, sources, valid, at)
  }

  lemma BoundaryIsTold(log: Log, watermark: Option<Id>, table: Memories, extracted: seq<Item>, routePersonal: bool,
      stamp: Stamp, mint: nat -> Mint, mints: seq<Mint>)
    requires var items := ProjectItems(extracted, routePersonal); |mints| == |items| && MintsTold(mints, mint)
    requires forall e :: e in HandedOver(log, watermark, table) ==> IsCapture(e)
    ensures var items := ProjectItems(extracted, routePersonal); var window := HandedOver(log, watermark, table);
            BoundaryTold(Inputs(items, mints, stamp, SourceIds(window), OwnValid(table)).inputs,
                         log, watermark, table, extracted, routePersonal, stamp, mint)
  {
    hide HandedOver, ProjectItems, Inputs, WindowTold, ItemsTold, RowsTold, MintsTold;
    var window, items := HandedOver(log, watermark, table), ProjectItems(extracted, routePersonal);
    var places := WindowIsTold(log, watermark, table);
    var picks := ItemsAreTold(extracted, routePersonal);
    var at := BatchIsTold(items, mints, stamp, SourceIds(window), OwnValid(table));
    SourcesAreTold(window);
    assert MayClose(table, OwnValid(table));
  }

  lemma SourcesAreTold(window: Log)
    requires forall e :: e in window ==> IsCapture(e)
    ensures SourcesTold(SourceIds(window), window)
  {
    forall i | 0 <= i < |window| ensures IsCapture(window[i]) { assert window[i] in window; }
  }
}
