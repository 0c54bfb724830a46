/** Reclaiming un-pushed retracted memories by rewriting the local log. */
module Gc {
  import opened Events
  import opened EventLog
  import opened Sorting

  // --- what is eligible, and what goes with it -----------------------------------------------

  /** The last consolidation of `m`; an earlier one is overwritten in the index. */
  ghost predicate BornAt(log: Log, m: Id, p: nat) {
    p < |log| && Consolidates(log[p], m) && forall q :: p < q < |log| ==> !Consolidates(log[q], m)
  }

  ghost predicate CapturedAt(log: Log, o: Id, p: nat) {
    p < |log| && Captures(log[p], o) && forall q :: p < q < |log| ==> !Captures(log[q], o)
  }

  ghost predicate RetractedIn(log: Log, m: Id) {
    exists p :: 0 <= p < |log| && Retracts(log[p], m)
  }

  /** `o` is a source of `m` as last consolidated. */
  ghost predicate SourceOf(log: Log, m: Id, o: Id) {
    exists p: nat :: BornAt(log, m, p) && o in log[p].payload.memory.sources
  }

  /** Born above the watermark, and so is every source that was captured here. */
  ghost predicate UnitUnpushed(log: Log, start: nat, m: Id) {
    && (exists p: nat :: BornAt(log, m, p) && p >= start)
    && (forall o, q: nat :: SourceOf(log, m, o) && CapturedAt(log, o, q) ==> q >= start)
  }

  ghost predicate Eligible(log: Log, start: nat, m: Id) {
    RetractedIn(log, m) && UnitUnpushed(log, start, m)
  }

  /** Some memory that stays still leans on `o`. */
  ghost predicate Shielded(log: Log, start: nat, o: Id) {
    exists m :: !Eligible(log, start, m) && SourceOf(log, m, o)
  }

  ghost predicate OrphanAt(log: Log, start: nat, o: Id, p: nat) {
    CapturedAt(log, o, p) && !Shielded(log, start, o)
  }

  /** What goes when `m` goes: its birth, every retract of it, and the captures nobody else needs. */
  ghost predicate InUnit(log: Log, start: nat, m: Id, p: nat)
    requires p < |log|
  {
    || BornAt(log, m, p)
    || Retracts(log[p], m)
    || (exists o :: SourceOf(log, m, o) && OrphanAt(log, start, o, p))
  }

  ghost predicate Swept(log: Log, start: nat, p: nat)
    requires p < |log|
  {
    exists m :: Eligible(log, start, m) && InUnit(log, start, m, p)
  }

  /** The positions of a stretch that survive, in order. */
  ghost function KeptPlaces(log: Log, start: nat, lo: nat, hi: nat): (ps: seq<nat>)
    requires lo <= hi <= |log|
    ensures forall p :: p in ps <==> lo <= p < hi && !Swept(log, start, p)
    ensures forall i, j :: 0 <= i < j < |ps| ==> ps[i] < ps[j]
  {
    if lo == hi then []
    else
      var rest := KeptPlaces(log, start, lo, hi - 1);
      assert forall i :: 0 <= i < |rest| ==> rest[i] in rest;
      if Swept(log, start, hi - 1) then rest else rest + [hi - 1]
  }

  ghost function Pick(log: Log, places: seq<nat>): Log
    requires forall p :: p in places ==> p < |log|
  {
    seq(|places|, i requires 0 <= i < |places| => assert places[i] in places; log[places[i]])
  }

  ghost function Kept(log: Log, start: nat, lo: nat, hi: nat): Log
    requires lo <= hi <= |log|
  {
    Pick(log, KeptPlaces(log, start, lo, hi))
  }

  /** The log after a sweep; `pushed` is the push watermark. */
  ghost function Sweep(log: Log, pushed: Option<Id>): Log {
    Kept(log, StartAfter(log, pushed), 0, |log|)
  }

  // --- what the sweep reports --------------------------------------------------------------

  /** Targets of retracts, in the order they first appear. */
  function RetractOrder(log: Log): (order: seq<Id>)
    ensures forall m :: m in order <==> RetractedIn(log, m)
    ensures NoRepeats(order)
  {
    if log == [] then []
    else
      var last := log[|log| - 1];
      var rest := RetractOrder(log[..|log| - 1]);
      assert forall m :: RetractedIn(log, m) <==> RetractedIn(log[..|log| - 1], m) || Retracts(last, m) by {
        assert forall p :: 0 <= p < |log| - 1 ==> log[..|log| - 1][p] == log[p];
        assert log[|log| - 1] == last;
      }
      if last.payload.MemoryRetracted? && last.payload.retracts !in rest then rest + [last.payload.retracts] else rest
  }

  ghost function EligibleAmong(log: Log, start: nat, order: seq<Id>): (list: seq<Id>)
    ensures forall m :: m in list <==> m in order && Eligible(log, start, m)
    ensures NoRepeats(order) ==> NoRepeats(list)
    ensures |list| <= |order|
  {
    if order == [] then []
    else
      var n := |order| - 1;
      var rest := EligibleAmong(log, start, order[..n]);
      assert order == order[..n] + [order[n]];
      assert NoRepeats(order) ==> NoRepeats(order[..n]) && order[n] !in order[..n];
      if Eligible(log, start, order[n]) then rest + [order[n]] else rest
  }

  /** Sources of one memory whose capture is deleted with it, as often as they are listed. */
  ghost function Orphans(log: Log, start: nat, sources: seq<Id>): (orphans: seq<Id>)
    ensures forall o :: o in orphans <==> o in sources && exists p: nat :: OrphanAt(log, start, o, p)
  {
    if sources == [] then []
    else
      var n := |sources| - 1;
      var rest := Orphans(log, start, sources[..n]);
      assert sources == sources[..n] + [sources[n]];
      if exists p: nat :: OrphanAt(log, start, sources[n], p) then rest + [sources[n]] else rest
  }

  ghost function Sources(log: Log, m: Id): (sources: seq<Id>)
    ensures forall o :: o in sources <==> SourceOf(log, m, o)
  {
    if exists p: nat :: BornAt(log, m, p) then
      var p: nat :| BornAt(log, m, p);
      assert forall q: nat :: BornAt(log, m, q) ==> q == p;
      log[p].payload.memory.sources
    else []
  }

  ghost function OrphansOfAll(log: Log, start: nat, list: seq<Id>): seq<Id> {
    if list == [] then []
    else OrphansOfAll(log, start, list[..|list| - 1]) + Orphans(log, start, Sources(log, list[|list| - 1]))
  }

  datatype Report = Report(
    reclaimedMemories: seq<Id>, reclaimedEvents: nat, reclaimedObservations: nat, skippedShared: nat, dryRun: bool)

  ghost function SweptPlaces(log: Log, start: nat): set<nat> {
    set p: nat | 0 <= p < |log| && Swept(log, start, p)
  }

  ghost function ReportOf(log: Log, pushed: Option<Id>, dryRun: bool): Report {
    var start := StartAfter(log, pushed);
    var order := RetractOrder(log);
    var list := EligibleAmong(log, start, order);
    Report(list, |SweptPlaces(log, start)|, |OrphansOfAll(log, start, list)|, |order| - |list|, dryRun)
  }

  function LastRow(log: Log, places: seq<nat>): Option<Id>
    requires forall p :: p in places ==> p < |log|
  {
    if places == [] then None else assert places[|places| - 1] in places; Some(log[places[|places| - 1]].id)
  }

  /** The last of the first `n` rows that survives. */
  ghost function LastKept(log: Log, start: nat, n: nat): Option<Id>
    requires n <= |log|
  {
    LastRow(log, KeptPlaces(log, start, 0, n))
  }

  /** A deleted consolidation watermark falls back to the last survivor before it. */
  ghost function Repaired(log: Log, start: nat, watermark: Option<Id>): Option<Id> {
    if watermark.None? || !HasId(log, watermark.value) || !Swept(log, start, Position(log, watermark.value)) then
      watermark
    else
      var last := LastKept(log, start, Position(log, watermark.value));
      if last.None? then watermark else last
  }

  // --- the loops of the source ----------------------------------------------------------------

  datatype MemInfo = MemInfo(place: nat, eventId: Id, sources: seq<Id>)
  datatype Spot = Spot(place: nat, eventId: Id)

  ghost predicate BirthIndex(log: Log, births: map<Id, MemInfo>) {
    && (forall m :: m in births ==>
          BornAt(log, m, births[m].place) &&
          births[m] == MemInfo(births[m].place, log[births[m].place].id, log[births[m].place].payload.memory.sources))
    && (forall m, p: nat :: BornAt(log, m, p) ==> m in births)
  }

  ghost predicate CaptureIndex(log: Log, captures: map<Id, Spot>) {
    && (forall o :: o in captures ==>
          CapturedAt(log, o, captures[o].place) && captures[o].eventId == log[captures[o].place].id)
    && (forall o, p: nat :: CapturedAt(log, o, p) ==> o in captures)
  }

  ghost predicate RetractId(log: Log, m: Id, id: Id) {
    exists p :: 0 <= p < |log| && Retracts(log[p], m) && log[p].id == id
  }

  ghost predicate RetractIndex(log: Log, retracts: map<Id, seq<Id>>) {
    && (forall m :: m in retracts <==> RetractedIn(log, m))
    && (forall m, id :: m in retracts ==> (id in retracts[m] <==> RetractId(log, m, id)))
  }

  lemma BirthInLonger(log: Log, row: Event, m: Id, p: nat)
    ensures BornAt(log + [row], m, p) <==> (if Consolidates(row, m) then p == |log| else BornAt(log, m, p))
  {
    var longer := log + [row];
    assert forall q :: 0 <= q < |log| ==> longer[q] == log[q];
    assert longer[|log|] == row;
  }

  lemma CaptureInLonger(log: Log, row: Event, o: Id, p: nat)
    ensures CapturedAt(log + [row], o, p) <==> (if Captures(row, o) then p == |log| else CapturedAt(log, o, p))
  {
    var longer := log + [row];
    assert forall q :: 0 <= q < |log| ==> longer[q] == log[q];
    assert longer[|log|] == row;
  }

  lemma RetractInLonger(log: Log, row: Event, m: Id, id: Id)
    ensures RetractId(log + [row], m, id) <==> RetractId(log, m, id) || (Retracts(row, m) && row.id == id)
    ensures RetractedIn(log + [row], m) <==> RetractedIn(log, m) || Retracts(row, m)
    ensures RetractId(log, m, id) ==> RetractedIn(log, m)
  {
    var longer := log + [row];
    assert longer[|log|] == row;
    if RetractId(log, m, id) {
      var p :| 0 <= p < |log| && Retracts(log[p], m) && log[p].id == id;
      assert Retracts(longer[p], m) && longer[p].id == id;
    }
    if RetractedIn(log, m) {
      var p :| 0 <= p < |log| && Retracts(log[p], m);
      assert Retracts(longer[p], m);
    }
  }

  lemma RowKeepsBirths(log: Log, row: Event, births: map<Id, MemInfo>)
    requires BirthIndex(log, births)
    ensures BirthIndex(log + [row],
              if row.payload.MemoryConsolidated?
              then births[row.payload.memory.id := MemInfo(|log|, row.id, row.payload.memory.sources)] else births)
  {
    forall m, q: nat
      ensures BornAt(log + [row], m, q) <==> (if Consolidates(row, m) then q == |log| else BornAt(log, m, q))
    {
      BirthInLonger(log, row, m, q);
    }
  }

  lemma RowKeepsCaptures(log: Log, row: Event, captures: map<Id, Spot>)
    requires CaptureIndex(log, captures)
    ensures CaptureIndex(log + [row],
              if row.payload.ObservationCaptured?
              then captures[row.payload.observation.id := Spot(|log|, row.id)] else captures)
  {
    forall o, q: nat
      ensures CapturedAt(log + [row], o, q) <==> (if Captures(row, o) then q == |log| else CapturedAt(log, o, q))
    {
      CaptureInLonger(log, row, o, q);
    }
  }

  lemma RowKeepsRetracts(log: Log, row: Event, retracts: map<Id, seq<Id>>)
    requires RetractIndex(log, retracts)
    ensures RetractIndex(log + [row],
              if row.payload.MemoryRetracted? then
                var m := row.payload.retracts;
                retracts[m := (if m in retracts then retracts[m] else []) + [row.id]]
              else retracts)
  {
    hide RetractId, RetractedIn;
    var longer := log + [row];
    forall m, id ensures RetractId(longer, m, id) <==> RetractId(log, m, id) || (Retracts(row, m) && row.id == id) {
      RetractInLonger(log, row, m, id);
    }
    forall m ensures RetractedIn(longer, m) <==> RetractedIn(log, m) || Retracts(row, m) {
      RetractInLonger(log, row, m, row.id);
    }
    forall m, id | RetractId(log, m, id) ensures RetractedIn(log, m) { RetractInLonger(log, row, m, id); }
    if row.payload.MemoryRetracted? {
      var target := row.payload.retracts;
      var known := if target in retracts then retracts[target] else [];
      var next := retracts[target := known + [row.id]];
      forall m, id | m in next ensures id in next[m] <==> RetractId(longer, m, id) {
        if m == target { assert id in known <==> RetractId(log, target, id); }
        else { assert m in retracts && next[m] == retracts[m]; }
      }
      assert RetractIndex(longer, next);
    } else {
      assert RetractIndex(longer, retracts);
    }
  }

  method IndexLog(log: Log)
    returns (births: map<Id, MemInfo>, order: seq<Id>, retracts: map<Id, seq<Id>>, captures: map<Id, Spot>)
    ensures BirthIndex(log, births) && CaptureIndex(log, captures)
    ensures order == RetractOrder(log) && RetractIndex(log, retracts)
  {
    hide BirthIndex, CaptureIndex, RetractIndex;
    births, order, retracts, captures := map[], [], map[], map[];
    NothingYet();
    for i := 0 to |log|
      invariant BirthIndex(log[..i], births) && CaptureIndex(log[..i], captures)
      invariant order == RetractOrder(log[..i]) && RetractIndex(log[..i], retracts)
    {
      var row := log[i];
      assert log[..i + 1] == log[..i] + [row];
      RowKeepsBirths(log[..i], row, births);
      RowKeepsCaptures(log[..i], row, captures);
      RowKeepsRetracts(log[..i], row, retracts);
      match row.payload {
        case MemoryConsolidated(m) => births := births[m.id := MemInfo(i, row.id, m.sources)];
        case MemoryRetracted(target, _) =>
          KeysAreRetracted(log[..i], retracts, target);
          if target !in retracts { order := order + [target]; }
          retracts := retracts[target := (if target in retracts then retracts[target] else []) + [row.id]];
        case ObservationCaptured(o) => captures := captures[o.id := Spot(i, row.id)];
        case _ =>
      }
    }
    assert log[..|log|] == log;
  }

  lemma NothingYet()
    ensures BirthIndex([], map[]) && CaptureIndex([], map[]) && RetractIndex([], map[])
  {
  }

  lemma KeysAreRetracted(log: Log, retracts: map<Id, seq<Id>>, m: Id)
    requires RetractIndex(log, retracts)
    ensures m in retracts <==> RetractedIn(log, m)
  {
  }

  lemma IndexTellsSources(log: Log, births: map<Id, MemInfo>, m: Id)
    requires BirthIndex(log, births)
    ensures m in births ==> Sources(log, m) == births[m].sources && BornAt(log, m, births[m].place)
    ensures m !in births ==> Sources(log, m) == []
    ensures forall o :: SourceOf(log, m, o) <==> m in births && o in births[m].sources
    ensures forall p: nat :: BornAt(log, m, p) <==> m in births && p == births[m].place
  {
    if m in births {
      assert forall p: nat :: BornAt(log, m, p) ==> p == births[m].place;
    }
  }

  lemma IndexTellsCapture(log: Log, captures: map<Id, Spot>, o: Id)
    requires CaptureIndex(log, captures)
    ensures forall p: nat :: CapturedAt(log, o, p) <==> o in captures && p == captures[o].place
  {
  }

  /** The unit test: un-pushed birth, and every source absent or un-pushed. */
  method IsReclaimable(log: Log, start: nat, m: Id, births: map<Id, MemInfo>, captures: map<Id, Spot>) returns (b: bool)
    requires BirthIndex(log, births) && CaptureIndex(log, captures)
    ensures b <==> UnitUnpushed(log, start, m)
  {
    hide BornAt, CapturedAt, SourceOf, BirthIndex, CaptureIndex;
    IndexTellsSources(log, births, m);
    if m !in births || births[m].place < start { return false; }
    var sources := births[m].sources;
    for i := 0 to |sources|
      invariant forall j, q: nat :: 0 <= j < i && CapturedAt(log, sources[j], q) ==> q >= start
    {
      IndexTellsCapture(log, captures, sources[i]);
      if sources[i] in captures && captures[sources[i]].place < start {
        assert SourceOf(log, m, sources[i]) && CapturedAt(log, sources[i], captures[sources[i]].place);
        return false;
      }
    }
    b := true;
  }

  method FindEligible(log: Log, start: nat, order: seq<Id>, births: map<Id, MemInfo>, captures: map<Id, Spot>)
    returns (eligible: seq<Id>)
    requires BirthIndex(log, births) && CaptureIndex(log, captures) && order == RetractOrder(log)
    ensures eligible == EligibleAmong(log, start, order)
    ensures forall m :: m in eligible <==> Eligible(log, start, m)
  {
    hide BirthIndex, CaptureIndex, UnitUnpushed, RetractedIn, EligibleAmong, RetractOrder;
    eligible := [];
    NoneEligible(log, start);
    for i := 0 to |order|
      invariant eligible == EligibleAmong(log, start, order[..i])
    {
      assert order[..i + 1] == order[..i] + [order[i]] && order[i] in order;
      OneMoreEligible(log, start, order[..i], order[i]);
      var b := IsReclaimable(log, start, order[i], births, captures);
      if b { eligible := eligible + [order[i]]; }
    }
    assert order[..|order|] == order;
  }

  lemma NoneEligible(log: Log, start: nat)
    ensures EligibleAmong(log, start, []) == []
  {
  }

  lemma OneMoreEligible(log: Log, start: nat, order: seq<Id>, m: Id)
    ensures EligibleAmong(log, start, order + [m]) ==
            EligibleAmong(log, start, order) + if Eligible(log, start, m) then [m] else []
  {
    hide Eligible, NoRepeats;
    assert (order + [m])[..|order|] == order;
  }

  ghost predicate ShieldedBy(births: map<Id, MemInfo>, eligible: seq<Id>, done: set<Id>, o: Id) {
    exists m :: m in done && m in births && m !in eligible && o in births[m].sources
  }

  /** Observations some surviving memory still needs. */
  method CollectShielded(log: Log, start: nat, births: map<Id, MemInfo>, eligible: seq<Id>) returns (needed: set<Id>)
    requires BirthIndex(log, births) && forall m :: m in eligible <==> Eligible(log, start, m)
    ensures forall o :: o in needed <==> Shielded(log, start, o)
  {
    hide BirthIndex, Eligible, SourceOf;
    needed := {};
    var rest := births.Keys;
    while rest != {}
      invariant rest <= births.Keys
      invariant forall o :: o in needed <==> ShieldedBy(births, eligible, births.Keys - rest, o)
    {
      var m :| m in rest;
      ghost var done := births.Keys - rest;
      assert births.Keys - (rest - {m}) == done + {m};
      forall o ensures ShieldedBy(births, eligible, done + {m}, o) <==>
                       ShieldedBy(births, eligible, done, o) || (m !in eligible && o in births[m].sources) {
      }
      if m !in eligible { needed := needed + set o | o in births[m].sources; }
      rest := rest - {m};
    }
    forall o ensures ShieldedBy(births, eligible, births.Keys, o) <==> Shielded(log, start, o) {
      forall m { IndexTellsSources(log, births, m); }
    }
    assert births.Keys - {} == births.Keys;
  }

  ghost predicate UnitId(log: Log, start: nat, m: Id, id: Id) {
    exists p: nat :: p < |log| && InUnit(log, start, m, p) && log[p].id == id
  }

  ghost predicate OrphanId(log: Log, start: nat, sources: seq<Id>, id: Id) {
    exists o, p: nat :: o in sources && OrphanAt(log, start, o, p) && log[p].id == id
  }

  /** The event ids that go with one eligible memory, and how many source entries that reclaims. */
  method UnitOf(log: Log, start: nat, m: Id, births: map<Id, MemInfo>, retracts: map<Id, seq<Id>>,
      captures: map<Id, Spot>, needed: set<Id>)
    returns (ids: set<Id>, reclaimed: nat)
    requires BirthIndex(log, births) && RetractIndex(log, retracts) && CaptureIndex(log, captures)
    requires Eligible(log, start, m) && forall o :: o in needed <==> Shielded(log, start, o)
    ensures forall id :: id in ids <==> UnitId(log, start, m, id)
    ensures reclaimed == |Orphans(log, start, Sources(log, m))|
  {
    hide BornAt, SourceOf, BirthIndex, CaptureIndex, RetractIndex, Shielded, RetractedIn, CapturedAt;
    IndexTellsSources(log, births, m);
    KeysAreRetracted(log, retracts, m);
    RetractsOf(log, retracts, m);
    var info := births[m];
    ids := {info.eventId} + set id | id in retracts[m];
    ghost var base := ids;
    reclaimed := 0;
    for i := 0 to |info.sources|
      invariant forall id :: id in ids <==> id in base || OrphanId(log, start, info.sources[..i], id)
      invariant reclaimed == |Orphans(log, start, info.sources[..i])|
    {
      var o := info.sources[i];
      assert info.sources[..i + 1] == info.sources[..i] + [o];
      assert info.sources[..i + 1][..i] == info.sources[..i];
      IndexTellsCapture(log, captures, o);
      if o !in needed {
        if o in captures {
          assert OrphanAt(log, start, o, captures[o].place);
          SpotId(log, captures, o);
          ids := ids + {captures[o].eventId};
          reclaimed := reclaimed + 1;
        }
      }
    }
    assert info.sources[..|info.sources|] == info.sources;
    BirthId(log, births, m);
    UnitParts(log, start, m);
  }

  lemma SpotId(log: Log, captures: map<Id, Spot>, o: Id)
    requires CaptureIndex(log, captures) && o in captures
    ensures captures[o].place < |log| && captures[o].eventId == log[captures[o].place].id
  {
  }

  lemma BirthId(log: Log, births: map<Id, MemInfo>, m: Id)
    requires BirthIndex(log, births) && m in births
    ensures births[m].place < |log| && births[m].eventId == log[births[m].place].id
  {
  }

  lemma RetractsOf(log: Log, retracts: map<Id, seq<Id>>, m: Id)
    requires RetractIndex(log, retracts) && m in retracts
    ensures forall id :: id in retracts[m] <==> RetractId(log, m, id)
  {
  }

  lemma UnitParts(log: Log, start: nat, m: Id)
    ensures forall id :: UnitId(log, start, m, id) <==>
              || (exists p: nat :: BornAt(log, m, p) && log[p].id == id)
              || RetractId(log, m, id)
              || OrphanId(log, start, Sources(log, m), id)
  {
    hide Shielded, SourceOf;
  }

  ghost predicate ListedId(log: Log, start: nat, list: seq<Id>, id: Id) {
    exists m :: m in list && UnitId(log, start, m, id)
  }

  lemma NothingListed(log: Log, start: nat)
    ensures OrphansOfAll(log, start, []) == [] && forall id :: !ListedId(log, start, [], id)
  {
  }

  lemma OneMoreListed(log: Log, start: nat, list: seq<Id>, m: Id)
    ensures forall id :: ListedId(log, start, list + [m], id) <==>
            ListedId(log, start, list, id) || UnitId(log, start, m, id)
    ensures |OrphansOfAll(log, start, list + [m])| ==
            |OrphansOfAll(log, start, list)| + |Orphans(log, start, Sources(log, m))|
  {
    hide UnitId, Orphans, Sources;
    assert (list + [m])[..|list|] == list;
    assert forall x :: x in list + [m] <==> x in list || x == m;
  }

  method MarkUnits(log: Log, start: nat, eligible: seq<Id>, births: map<Id, MemInfo>, retracts: map<Id, seq<Id>>,
      captures: map<Id, Spot>, needed: set<Id>)
    returns (deleteIds: set<Id>, reclaimed: nat)
    requires BirthIndex(log, births) && RetractIndex(log, retracts) && CaptureIndex(log, captures)
    requires forall m :: m in eligible ==> Eligible(log, start, m)
    requires forall o :: o in needed <==> Shielded(log, start, o)
    ensures forall id :: id in deleteIds <==> ListedId(log, start, eligible, id)
    ensures reclaimed == |OrphansOfAll(log, start, eligible)|
  {
    hide BirthIndex, CaptureIndex, RetractIndex, Shielded, Eligible, UnitId, ListedId, OrphansOfAll;
    deleteIds, reclaimed := {}, 0;
    NothingListed(log, start);
    for i := 0 to |eligible|
      invariant forall id :: id in deleteIds <==> ListedId(log, start, eligible[..i], id)
      invariant reclaimed == |OrphansOfAll(log, start, eligible[..i])|
    {
      var m := eligible[i];
      assert eligible[..i + 1] == eligible[..i] + [m];
      OneMoreListed(log, start, eligible[..i], m);
      var ids, n := UnitOf(log, start, m, births, retracts, captures, needed);
      deleteIds, reclaimed := deleteIds + ids, reclaimed + n;
    }
    assert eligible[..|eligible|] == eligible;
  }

  /** With unique ids, deleting by id is deleting by place. */
  lemma IdsArePlaces(log: Log, start: nat, eligible: seq<Id>, deleteIds: set<Id>)
    requires UniqueIds(log)
    requires forall m :: m in eligible <==> Eligible(log, start, m)
    requires forall id :: id in deleteIds <==> ListedId(log, start, eligible, id)
    ensures forall p :: 0 <= p < |log| ==> (log[p].id in deleteIds <==> Swept(log, start, p))
    ensures deleteIds == set p | p in SweptPlaces(log, start) :: log[p].id
  {
    hide Eligible, InUnit;
    forall p | 0 <= p < |log| ensures log[p].id in deleteIds <==> Swept(log, start, p) {
      if log[p].id in deleteIds {
        var m :| m in eligible && UnitId(log, start, m, log[p].id);
        var q: nat :| q < |log| && InUnit(log, start, m, q) && log[q].id == log[p].id;
      }
      if Swept(log, start, p) {
        var m :| Eligible(log, start, m) && InUnit(log, start, m, p);
        assert UnitId(log, start, m, log[p].id);
      }
    }
    forall id | id in deleteIds ensures exists p :: p in SweptPlaces(log, start) && log[p].id == id {
      var m :| m in eligible && UnitId(log, start, m, id);
      var p: nat :| p < |log| && InUnit(log, start, m, p) && log[p].id == id;
      assert p in SweptPlaces(log, start);
    }
  }

  lemma IdsDiffer(log: Log, p: nat, q: nat)
    requires UniqueIds(log) && p < |log| && q < |log| && p != q
    ensures log[p].id != log[q].id
  {
  }

  lemma {:induction false} AsManyIdsAsPlaces(log: Log, places: set<nat>, ids: set<Id>)
    requires UniqueIds(log) && forall p :: p in places ==> p < |log|
    requires ids == set p | p in places :: log[p].id
    ensures |ids| == |places|
    decreases |places|
  {
    hide UniqueIds;
    if places != {} {
      var p :| p in places;
      var fewer := set q | q in places - {p} :: log[q].id;
      AsManyIdsAsPlaces(log, places - {p}, fewer);
      assert ids == fewer + {log[p].id};
      forall q | q in places - {p} ensures log[q].id != log[p].id { IdsDiffer(log, p, q); }
      assert log[p].id !in fewer;
    } else {
      assert ids == {};
    }
  }

  class LocalStore {
    var log: Log
    var pushed: Option<Id>
    var watermark: Option<Id>

    constructor (log: Log, pushed: Option<Id>, watermark: Option<Id>)
      ensures this.log == log && this.pushed == pushed && this.watermark == watermark
    {
      this.log, this.pushed, this.watermark := log, pushed, watermark;
    }

    method GcUnpushedRetracted(dryRun: bool) returns (r: Report)
      requires UniqueIds(log)
      modifies this`log, this`watermark
      ensures r == ReportOf(old(log), pushed, dryRun)
      ensures log == if dryRun then old(log) else Sweep(old(log), pushed)
      ensures watermark ==
              if dryRun then old(watermark) else Repaired(old(log), StartAfter(old(log), pushed), old(watermark))
    {
      hide *;
      var start := StartAfter(log, pushed);
      var births, order, retracts, captures := IndexLog(log);
      var eligible := FindEligible(log, start, order, births, captures);
      var needed := CollectShielded(log, start, births, eligible);
      var deleteIds, reclaimed := MarkUnits(log, start, eligible, births, retracts, captures, needed);
      IdsArePlaces(log, start, eligible, deleteIds);
      CountDeleted(log, start, deleteIds);
      r := Report(eligible, |deleteIds|, reclaimed, |order| - |eligible|, dryRun);
      WhatIsReported(log, pushed, dryRun);
      if dryRun { return; }
      if |deleteIds| == 0 {
        NothingSwept(log, start, deleteIds);
        SurvivingWatermarkStays(log, start, deleteIds, watermark);
        return;
      }
      var repaired := watermark;
      if watermark.Some? && watermark.value in deleteIds {
        repaired := LastSurvivor(log, start, deleteIds, watermark.value);
      } else {
        SurvivingWatermarkStays(log, start, deleteIds, watermark);
      }
      log := DeleteRows(log, start, deleteIds);
      watermark := repaired;
    }
  }

  lemma CountDeleted(log: Log, start: nat, deleteIds: set<Id>)
    requires UniqueIds(log) && deleteIds == set p | p in SweptPlaces(log, start) :: log[p].id
    ensures |deleteIds| == |SweptPlaces(log, start)|
    ensures forall id :: id in deleteIds ==> HasId(log, id)
  {
    hide Swept;
    AsManyIdsAsPlaces(log, SweptPlaces(log, start), deleteIds);
    forall id | id in deleteIds ensures HasId(log, id) {
      var p :| p in SweptPlaces(log, start) && log[p].id == id;
      assert log[p] in log;
    }
  }

  lemma WhatIsReported(log: Log, pushed: Option<Id>, dryRun: bool)
    ensures var start := StartAfter(log, pushed); var order := RetractOrder(log);
            var list := EligibleAmong(log, start, order);
            && ReportOf(log, pushed, dryRun) ==
               Report(list, |SweptPlaces(log, start)|, |OrphansOfAll(log, start, list)|, |order| - |list|, dryRun)
            && Sweep(log, pushed) == Kept(log, start, 0, |log|)
  {
  }

  lemma NothingSwept(log: Log, start: nat, deleteIds: set<Id>)
    requires forall p :: 0 <= p < |log| ==> (log[p].id in deleteIds <==> Swept(log, start, p))
    requires deleteIds == {}
    ensures Kept(log, start, 0, |log|) == log
  {
    hide Swept;
    forall p | 0 <= p < |log| ensures !Swept(log, start, p) { assert log[p].id !in deleteIds; }
    AllKept(log, start, 0, |log|);
  }

  /** Only a deleted watermark is moved. */
  lemma SurvivingWatermarkStays(log: Log, start: nat, deleteIds: set<Id>, watermark: Option<Id>)
    requires forall p :: 0 <= p < |log| ==> (log[p].id in deleteIds <==> Swept(log, start, p))
    requires watermark.None? || watermark.value !in deleteIds
    ensures Repaired(log, start, watermark) == watermark
  {
    hide Swept;
  }

  lemma {:induction false} AllKept(log: Log, start: nat, lo: nat, hi: nat)
    requires lo <= hi <= |log| && forall p :: lo <= p < hi ==> !Swept(log, start, p)
    ensures Kept(log, start, lo, hi) == log[lo..hi]
  {
    hide Swept, KeptPlaces;
    PlacesOfAll(log, start, lo, hi);
  }

  lemma PlacesNone(log: Log, start: nat, lo: nat)
    requires lo <= |log|
    ensures KeptPlaces(log, start, lo, lo) == []
  {
  }

  lemma PlacesStep(log: Log, start: nat, lo: nat, hi: nat)
    requires lo < hi <= |log|
    ensures KeptPlaces(log, start, lo, hi) ==
            KeptPlaces(log, start, lo, hi - 1) + if Swept(log, start, hi - 1) then [] else [hi - 1]
  {
    hide Swept;
  }

  function Range(lo: nat, hi: nat): (r: seq<nat>)
    requires lo <= hi
    ensures |r| == hi - lo && forall i :: 0 <= i < hi - lo ==> r[i] == lo + i
  {
    seq(hi - lo, i requires 0 <= i < hi - lo => lo + i)
  }

  lemma {:induction false} PlacesOfAll(log: Log, start: nat, lo: nat, hi: nat)
    requires lo <= hi <= |log| && forall p :: lo <= p < hi ==> !Swept(log, start, p)
    ensures KeptPlaces(log, start, lo, hi) == Range(lo, hi)
  {
    hide Swept, KeptPlaces;
    if lo == hi {
      PlacesNone(log, start, lo);
    } else {
      PlacesOfAll(log, start, lo, hi - 1);
      PlacesStep(log, start, lo, hi);
      assert Range(lo, hi) == Range(lo, hi - 1) + [hi - 1];
    }
  }

  lemma OneMoreKept(log: Log, start: nat, i: nat)
    requires i < |log|
    ensures KeptPlaces(log, start, 0, i + 1) ==
            if Swept(log, start, i) then KeptPlaces(log, start, 0, i) else KeptPlaces(log, start, 0, i) + [i]
  {
    hide Swept, KeptPlaces;
    PlacesStep(log, start, 0, i + 1);
  }

  lemma NoneKept(log: Log, start: nat)
    ensures LastKept(log, start, 0) == None
  {
    hide Swept;
  }

  lemma OneMoreRow(log: Log, start: nat, i: nat)
    requires i < |log|
    ensures LastKept(log, start, i + 1) == if Swept(log, start, i) then LastKept(log, start, i) else Some(log[i].id)
  {
    hide Swept, KeptPlaces;
    OneMoreKept(log, start, i);
  }

  lemma RepairOfDeleted(log: Log, start: nat, watermark: Id)
    requires HasId(log, watermark) && Swept(log, start, Position(log, watermark))
    ensures var last := LastKept(log, start, Position(log, watermark));
            Repaired(log, start, Some(watermark)) == if last.Some? then last else Some(watermark)
  {
    hide Swept, LastKept, HasId;
  }

  /** The greatest surviving row at or before the watermark; the watermark itself when there is none. */
  method LastSurvivor(log: Log, start: nat, deleteIds: set<Id>, watermark: Id) returns (best: Option<Id>)
    requires watermark in deleteIds && HasId(log, watermark)
    requires forall p :: 0 <= p < |log| ==> (log[p].id in deleteIds <==> Swept(log, start, p))
    ensures best == Repaired(log, start, Some(watermark))
  {
    hide Swept, LastKept, Repaired, HasId;
    var place := Position(log, watermark);
    best := None;
    NoneKept(log, start);
    for i := 0 to |log|
      invariant best == LastKept(log, start, if i <= place then i else place)
    {
      if i < place { OneMoreRow(log, start, i); }
      if log[i].id !in deleteIds && i <= place { best := Some(log[i].id); }
    }
    RepairOfDeleted(log, start, watermark);
    if best.None? { best := Some(watermark); }
  }

  method DeleteRows(log: Log, start: nat, deleteIds: set<Id>) returns (out: Log)
    requires forall p :: 0 <= p < |log| ==> (log[p].id in deleteIds <==> Swept(log, start, p))
    ensures out == Kept(log, start, 0, |log|)
  {
    hide Swept;
    out := [];
    for i := 0 to |log|
      invariant out == Kept(log, start, 0, i)
    {
      if log[i].id !in deleteIds { out := out + [log[i]]; }
    }
  }
}
