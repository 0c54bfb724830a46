/**
 * What a sweep may and may not change: which rows go, what the observation window keeps,
 * that no reclaimed memory can come back, that a second sweep finds nothing, and exactly
 * when the valid memories stay as they were.
 */
module GcLaws {
  import opened Events
  import opened EventLog
  import opened Lanes
  import opened Sorting
  import opened Dedup
  import opened Projector
  import opened Convergence
  import opened Gc
  import opened Window

  // --- the swept log is an ordered part of the log ----------------------------------------

  lemma KeptAt(log: Log, start: nat, lo: nat, hi: nat, i: nat) returns (p: nat)
    requires lo <= hi <= |log| && i < |Kept(log, start, lo, hi)|
    ensures lo <= p < hi && !Swept(log, start, p) && p == KeptPlaces(log, start, lo, hi)[i]
    ensures Kept(log, start, lo, hi)[i] == log[p]
  {
    hide Swept;
    p := KeptPlaces(log, start, lo, hi)[i];
    assert p in KeptPlaces(log, start, lo, hi);
  }

  lemma KeptHolds(log: Log, start: nat, lo: nat, hi: nat, p: nat)
    requires lo <= p < hi <= |log| && !Swept(log, start, p)
    ensures log[p] in Kept(log, start, lo, hi)
  {
    hide Swept;
    var ps := KeptPlaces(log, start, lo, hi);
    assert p in ps;
    var i :| 0 <= i < |ps| && ps[i] == p;
    assert Kept(log, start, lo, hi)[i] == log[p];
  }

  lemma {:induction false} PlacesSplit(log: Log, start: nat, lo: nat, mid: nat, hi: nat)
    requires lo <= mid <= hi <= |log|
    ensures KeptPlaces(log, start, lo, hi) == KeptPlaces(log, start, lo, mid) + KeptPlaces(log, start, mid, hi)
    decreases hi
  {
    hide Swept, KeptPlaces;
    if mid == hi {
      PlacesNone(log, start, mid);
      assert KeptPlaces(log, start, lo, mid) + [] == KeptPlaces(log, start, lo, mid);
    } else {
      PlacesSplit(log, start, lo, mid, hi - 1);
      PlacesStep(log, start, lo, hi);
      PlacesStep(log, start, mid, hi);
    }
  }

  lemma PickSplits(log: Log, ps: seq<nat>, qs: seq<nat>)
    requires forall p :: p in ps + qs ==> p < |log|
    ensures (forall p :: p in ps ==> p < |log|) && (forall p :: p in qs ==> p < |log|)
    ensures Pick(log, ps + qs) == Pick(log, ps) + Pick(log, qs)
  {
    assert forall p :: p in ps ==> p in ps + qs;
    assert forall p :: p in qs ==> p in ps + qs;
  }

  lemma KeptSplits(log: Log, start: nat, lo: nat, mid: nat, hi: nat)
    requires lo <= mid <= hi <= |log|
    ensures Kept(log, start, lo, hi) == Kept(log, start, lo, mid) + Kept(log, start, mid, hi)
  {
    hide Swept;
    PlacesSplit(log, start, lo, mid, hi);
    PickSplits(log, KeptPlaces(log, start, lo, mid), KeptPlaces(log, start, mid, hi));
  }

  lemma KeptComesFrom(log: Log, start: nat, lo: nat, hi: nat)
    requires lo <= hi <= |log|
    ensures forall e :: e in Kept(log, start, lo, hi) ==> e in log[lo..hi]
  {
    hide Swept;
    forall e | e in Kept(log, start, lo, hi) ensures e in log[lo..hi] {
      var i :| 0 <= i < |Kept(log, start, lo, hi)| && Kept(log, start, lo, hi)[i] == e;
      var p := KeptAt(log, start, lo, hi, i);
      assert log[lo..hi][p - lo] == e;
    }
  }

  /** A row survives exactly when its place is not swept. */
  lemma SurvivesExactly(log: Log, start: nat, p: nat)
    requires UniqueIds(log) && p < |log|
    ensures log[p] in Kept(log, start, 0, |log|) <==> !Swept(log, start, p)
    ensures HasId(Kept(log, start, 0, |log|), log[p].id) <==> !Swept(log, start, p)
  {
    hide Swept;
    var after := Kept(log, start, 0, |log|);
    if HasId(after, log[p].id) {
      var e :| e in after && e.id == log[p].id;
      var i :| 0 <= i < |after| && after[i] == e;
      var q := KeptAt(log, start, 0, |log|, i);
      assert q == p;
    }
    if !Swept(log, start, p) { KeptHolds(log, start, 0, |log|, p); }
  }

  /** Order and uniqueness carry over to the survivors. */
  lemma SweepKeepsOrder(log: Log, start: nat)
    ensures UniqueIds(log) ==> UniqueIds(Kept(log, start, 0, |log|))
    ensures Causal(log) ==> Causal(Kept(log, start, 0, |log|))
    ensures CapturedOnce(log) ==> CapturedOnce(Kept(log, start, 0, |log|))
  {
    hide Swept, Targets, Consolidates, Captures;
    var after := Kept(log, start, 0, |log|);
    var ps := KeptPlaces(log, start, 0, |log|);
    forall i | 0 <= i < |after| ensures ps[i] < |log| && after[i] == log[ps[i]] {
      var p := KeptAt(log, start, 0, |log|, i);
    }
  }

  // --- what is swept -----------------------------------------------------------------------

  /** In a causal log everything swept lies above the push watermark. */
  lemma SweptIsUnpushed(log: Log, start: nat, p: nat)
    requires TargetsFollow(log) && p < |log| && Swept(log, start, p)
    ensures p >= start
  {
    hide SourceOf, Shielded, RetractedIn;
    var m :| Eligible(log, start, m) && InUnit(log, start, m, p);
    var b: nat :| BornAt(log, m, b) && b >= start;
    if Retracts(log[p], m) {
      assert log[b].payload.MemoryConsolidated? && log[b].payload.memory.id == m && Targets(log[p], m);
    }
  }

  /** The pushed part of the log is left alone, and reads after the push watermark see the survivors. */
  lemma PushedPartSurvives(log: Log, pushed: Option<Id>)
    requires UniqueIds(log) && TargetsFollow(log)
    ensures var start := StartAfter(log, pushed); var after := Sweep(log, pushed);
            && start <= |after| && after[..start] == log[..start]
            && StartAfter(after, pushed) == start
            && ReadSince(after, pushed) == Kept(log, start, start, |log|)
  {
    hide Swept, TargetsFollow;
    var start, after := StartAfter(log, pushed), Sweep(log, pushed);
    forall p | 0 <= p < start ensures !Swept(log, start, p) {
      if Swept(log, start, p) { SweptIsUnpushed(log, start, p); }
    }
    AllKept(log, start, 0, start);
    KeptSplits(log, start, 0, start, |log|);
    KeptComesFrom(log, start, 0, |log|);
    assert log[0..|log|] == log;
  }

  // --- the consolidation window -------------------------------------------------------------

  /**
   * Whatever the watermark was - absent, unknown, kept or itself deleted - the window
   * read after the sweep is the window before it minus the deleted events.
   */
  lemma WindowLosesOnlyTheDeleted(log: Log, pushed: Option<Id>, watermark: Option<Id>)
    requires UniqueIds(log)
    ensures var start := StartAfter(log, pushed);
            ReadSince(Sweep(log, pushed), Repaired(log, start, watermark)) ==
            Kept(log, start, StartAfter(log, watermark), |log|)
  {
    hide *;
    WhatIsReported(log, pushed, false);
    var start := StartAfter(log, pushed);
    if watermark.None? || !HasId(log, watermark.value) {
      UnknownReadsAll(log, start, watermark);
    } else {
      FoundStartsAfter(log, watermark.value);
      if Swept(log, start, Position(log, watermark.value)) {
        WindowOfDeleted(log, start, watermark.value);
      } else {
        WindowOfSurvivor(log, start, watermark.value);
      }
    }
  }

  lemma NoPlacesNoRows(log: Log, start: nat, n: nat)
    requires n <= |log| && KeptPlaces(log, start, 0, n) == []
    ensures Kept(log, start, 0, n) == []
  {
    hide KeptPlaces;
  }

  lemma WindowOfDeleted(log: Log, start: nat, id: Id)
    requires UniqueIds(log) && HasId(log, id) && Swept(log, start, Position(log, id))
    ensures ReadSince(Kept(log, start, 0, |log|), Repaired(log, start, Some(id))) ==
            Kept(log, start, Position(log, id) + 1, |log|)
  {
    hide Swept, KeptPlaces, UniqueIds, Repaired, ReadSince, HasId, Kept, Position;
    var p := Position(log, id);
    RepairOfDeleted(log, start, id);
    PlacesStep(log, start, 0, p + 1);
    if KeptPlaces(log, start, 0, p) == [] {
      OneMoreRowKept(log, start, p + 1);
      NoPlacesNoRows(log, start, p);
      SurvivesExactly(log, start, p);
      UnknownReadsAll(Kept(log, start, 0, |log|), start, Some(id));
      KeptSplits(log, start, 0, p + 1, |log|);
    } else {
      ReadAfterLastOf(log, start, p + 1);
    }
  }

  lemma WindowOfSurvivor(log: Log, start: nat, id: Id)
    requires UniqueIds(log) && HasId(log, id) && !Swept(log, start, Position(log, id))
    ensures ReadSince(Kept(log, start, 0, |log|), Repaired(log, start, Some(id))) ==
            Kept(log, start, Position(log, id) + 1, |log|)
  {
    hide Swept, KeptPlaces, UniqueIds, Repaired, ReadSince, HasId;
    KeptPlaceIsRepaired(log, start, id);
    PlacesStep(log, start, 0, Position(log, id) + 1);
    ReadAfterLastOf(log, start, Position(log, id) + 1);
  }

  lemma UnknownReadsAll(log: Log, start: nat, watermark: Option<Id>)
    requires watermark.None? || !HasId(log, watermark.value)
    ensures ReadSince(log, watermark) == log && StartAfter(log, watermark) == 0
    ensures Repaired(log, start, watermark) == watermark
    ensures ReadSince(Kept(log, start, 0, |log|), watermark) == Kept(log, start, 0, |log|)
  {
    hide Swept;
    if watermark.Some? {
      KeptComesFrom(log, start, 0, |log|);
      assert log[0..|log|] == log;
    }
  }

  lemma KeptPlaceIsRepaired(log: Log, start: nat, id: Id)
    requires HasId(log, id) && !Swept(log, start, Position(log, id))
    ensures Repaired(log, start, Some(id)) == Some(id)
  {
  }

  /** Reading after the last survivor of a stretch leaves the survivors beyond it. */
  lemma ReadAfterLastOf(log: Log, start: nat, n: nat)
    requires UniqueIds(log) && n <= |log| && KeptPlaces(log, start, 0, n) != []
    ensures var places := KeptPlaces(log, start, 0, n);
            LastRow(log, places).Some? &&
            ReadSince(Kept(log, start, 0, |log|), LastRow(log, places)) == Kept(log, start, n, |log|)
  {
    hide Swept, KeptPlaces;
    var places := KeptPlaces(log, start, 0, n);
    var after := Kept(log, start, 0, |log|);
    var front := Kept(log, start, 0, n);
    KeptSplits(log, start, 0, n, |log|);
    var last := |front| - 1;
    assert after[last] == front[last] && front[last].id == LastRow(log, places).value;
    SweepKeepsOrder(log, start);
    assert after[last] in after;
    PositionOf(after, last);
  }

  // --- provenance and revival ----------------------------------------------------------------

  /** A last consolidation is swept exactly when its memory is eligible. */
  lemma BirthIsSweptExactly(log: Log, start: nat, m: Id, b: nat)
    requires BornAt(log, m, b)
    ensures Swept(log, start, b) <==> Eligible(log, start, m)
  {
    hide Eligible, SourceOf;
    if Eligible(log, start, m) { assert InUnit(log, start, m, b); }
  }

  /** A retract is swept exactly when its target is eligible; nothing else aimed at a memory ever is. */
  lemma AimedIsSweptExactly(log: Log, start: nat, m: Id, p: nat)
    requires p < |log| && Targets(log[p], m)
    ensures Swept(log, start, p) <==> Retracts(log[p], m) && Eligible(log, start, m)
  {
    hide Eligible, SourceOf;
    if Retracts(log[p], m) && Eligible(log, start, m) { assert InUnit(log, start, m, p); }
  }

  /** A memory that stays keeps every capture it was distilled from. */
  lemma SurvivorsKeepTheirSources(log: Log, start: nat, m: Id, o: Id, p: nat)
    requires !Eligible(log, start, m) && SourceOf(log, m, o)
    requires p < |log| && Captures(log[p], o)
    ensures !Swept(log, start, p)
  {
    hide Eligible, SourceOf;
    assert Shielded(log, start, o);
  }

  lemma OrphanIsSwept(log: Log, start: nat, m: Id, o: Id, p: nat)
    requires CapturedOnce(log) && p < |log| && Captures(log[p], o)
    requires Eligible(log, start, m) && SourceOf(log, m, o) && !Shielded(log, start, o)
    ensures Swept(log, start, p)
  {
    hide Eligible, SourceOf, Shielded;
    assert OrphanAt(log, start, o, p);
    assert InUnit(log, start, m, p);
  }

  lemma ShieldIsConsumed(log: Log, start: nat, selfId: Option<Id>, isUnion: bool, o: Id)
    requires UniqueIds(log) && Causal(log) && Shielded(log, start, o)
    ensures Consumed(Records(Kept(log, start, 0, |log|), selfId, isUnion), o)
  {
    hide Records, Swept, Eligible, Kept, UniqueIds, ConsolidatedOnce, TargetsFollow, Closed, Retracted;
    var after := Kept(log, start, 0, |log|);
    var m :| !Eligible(log, start, m) && SourceOf(log, m, o);
    var b: nat :| BornAt(log, m, b) && o in log[b].payload.memory.sources;
    BirthIsSweptExactly(log, start, m, b);
    SurvivesExactly(log, start, b);
    SweepKeepsOrder(log, start);
    RecordIsTold(after, selfId, isUnion, log[b]);
  }

  /**
   * For every watermark, a lost one included, the next boundary is handed no source of a
   * reclaimed memory: a source still in the log is a source of a memory still in the table.
   */
  lemma NoRevivalAfterGc(log: Log, pushed: Option<Id>, watermark: Option<Id>, selfId: Option<Id>, isUnion: bool, m: Id,
      o: Id)
    requires UniqueIds(log) && Causal(log) && CapturedOnce(log)
    requires Eligible(log, StartAfter(log, pushed), m) && SourceOf(log, m, o)
    ensures var after := Sweep(log, pushed);
            forall e :: e in HandedOver(after, watermark, Records(after, selfId, isUnion)) ==> !Captures(e, o)
  {
    hide Records, Eligible, KeptPlaces, UniqueIds, Causal, CapturedOnce, SourceOf, CapturedAt, Consumed, ReadSince,
         Shielded;
    var start, after := StartAfter(log, pushed), Sweep(log, pushed);
    forall e | e in HandedOver(after, watermark, Records(after, selfId, isUnion)) && Captures(e, o) ensures false {
      assert e in after;
      var i :| 0 <= i < |after| && after[i] == e;
      var p := KeptAt(log, start, 0, |log|, i);
      if Shielded(log, start, o) {
        ShieldIsConsumed(log, start, selfId, isUnion, o);
      } else {
        OrphanIsSwept(log, start, m, o, p);
      }
    }
  }

  // --- running it twice ------------------------------------------------------------------------

  lemma {:induction false} PlacesGrow(ps: seq<nat>, i: nat)
    requires i < |ps| && forall x, y :: 0 <= x < y < |ps| ==> ps[x] < ps[y]
    ensures ps[i] >= i
  {
    if i > 0 { PlacesGrow(ps, i - 1); }
  }

  /** Whatever survives the first sweep is not eligible for a second one. */
  lemma SurvivorsAreNotEligible(log: Log, pushed: Option<Id>, m: Id)
    requires UniqueIds(log) && TargetsFollow(log)
    ensures !Eligible(Sweep(log, pushed), StartAfter(log, pushed), m)
  {
    hide Swept, KeptPlaces, Kept, UniqueIds, TargetsFollow, UnitUnpushed, BornAt;
    var start, after := StartAfter(log, pushed), Sweep(log, pushed);
    if RetractedIn(after, m) && UnitUnpushed(after, start, m) {
      var i :| 0 <= i < |after| && Retracts(after[i], m);
      var p := KeptAt(log, start, 0, |log|, i);
      AimedIsSweptExactly(log, start, m, p);
      assert RetractedIn(log, m);
      UnitStaysPushed(log, pushed, m);
    }
  }

  /** A unit that reads as un-pushed after the sweep read as un-pushed before it. */
  lemma UnitStaysPushed(log: Log, pushed: Option<Id>, m: Id)
    requires UniqueIds(log) && TargetsFollow(log)
    requires !Eligible(log, StartAfter(log, pushed), m)
    requires UnitUnpushed(Sweep(log, pushed), StartAfter(log, pushed), m)
    ensures UnitUnpushed(log, StartAfter(log, pushed), m)
  {
    hide Swept, KeptPlaces, UniqueIds, TargetsFollow, Eligible, BornAt, CapturedAt;
    var start, after := StartAfter(log, pushed), Sweep(log, pushed);
    var i: nat :| BornAt(after, m, i) && i >= start;
    var b := BirthBefore(log, start, m, i);
    SameBirthSameSources(log, after, m, b, i);
    forall o, q: nat | SourceOf(log, m, o) && CapturedAt(log, o, q) ensures q >= start {
      if q < start { PushedCaptureStays(log, pushed, o, q); }
    }
  }

  lemma BirthBefore(log: Log, start: nat, m: Id, i: nat) returns (b: nat)
    requires !Eligible(log, start, m) && BornAt(Kept(log, start, 0, |log|), m, i)
    ensures BornAt(log, m, b) && b >= i && log[b] == Kept(log, start, 0, |log|)[i]
  {
    hide Swept, Eligible, KeptPlaces;
    var after, ps := Kept(log, start, 0, |log|), KeptPlaces(log, start, 0, |log|);
    b := KeptAt(log, start, 0, |log|, i);
    PlacesGrow(ps, i);
    var last := LastBirth(log, m, b);
    BirthIsSweptExactly(log, start, m, last);
    assert last in ps;
    var j :| 0 <= j < |ps| && ps[j] == last;
    assert after[j] == log[last];
    assert j <= i;
  }

  lemma {:induction false} LastBirth(log: Log, m: Id, b: nat) returns (last: nat)
    requires b < |log| && Consolidates(log[b], m)
    ensures BornAt(log, m, last) && last >= b
    decreases |log| - b
  {
    if q: nat :| b < q < |log| && Consolidates(log[q], m) {
      last := LastBirth(log, m, q);
    } else {
      last := b;
    }
  }

  lemma SameBirthSameSources(log: Log, after: Log, m: Id, b: nat, i: nat)
    requires BornAt(log, m, b) && BornAt(after, m, i) && log[b] == after[i]
    ensures forall o :: SourceOf(log, m, o) <==> SourceOf(after, m, o)
  {
    assert forall q: nat :: BornAt(log, m, q) ==> q == b;
    assert forall q: nat :: BornAt(after, m, q) ==> q == i;
  }

  /** A last capture below the push watermark is still the last one after the sweep. */
  lemma PushedCaptureStays(log: Log, pushed: Option<Id>, o: Id, q: nat)
    requires UniqueIds(log) && TargetsFollow(log) && CapturedAt(log, o, q) && q < StartAfter(log, pushed)
    ensures CapturedAt(Sweep(log, pushed), o, q)
  {
    hide Swept, KeptPlaces, UniqueIds, TargetsFollow, Kept, ReadSince, HasId;
    var start, after := StartAfter(log, pushed), Sweep(log, pushed);
    PushedPartSurvives(log, pushed);
    forall j: nat | q < j < |after| && j >= start ensures !Captures(after[j], o) {
      LaterRowWasLater(log, start, j, q, o);
    }
  }

  lemma LaterRowWasLater(log: Log, start: nat, j: nat, q: nat, o: Id)
    requires CapturedAt(log, o, q) && q < j < |Kept(log, start, 0, |log|)|
    ensures !Captures(Kept(log, start, 0, |log|)[j], o)
  {
    hide Swept, Kept;
    var p := KeptAt(log, start, 0, |log|, j);
    KeptLength(log, start, 0, |log|);
    PlacesGrow(KeptPlaces(log, start, 0, |log|), j);
  }

  lemma KeptLength(log: Log, start: nat, lo: nat, hi: nat)
    requires lo <= hi <= |log|
    ensures |Kept(log, start, lo, hi)| == |KeptPlaces(log, start, lo, hi)|
  {
    hide Swept;
  }

  lemma {:induction false} NoneEligible(log: Log, start: nat, order: seq<Id>)
    requires forall m :: !Eligible(log, start, m)
    ensures EligibleAmong(log, start, order) == []
  {
    hide Eligible;
    if order != [] { NoneEligible(log, start, order[..|order| - 1]); }
  }

  /** A second sweep deletes nothing, and leaves the watermark where it is. */
  lemma SecondSweepDeletesNothing(log: Log, pushed: Option<Id>, watermark: Option<Id>)
    requires UniqueIds(log) && TargetsFollow(log)
    ensures var after := Sweep(log, pushed);
            && Sweep(after, pushed) == after
            && Repaired(after, StartAfter(after, pushed), watermark) == watermark
            && ReportOf(after, pushed, false).reclaimedEvents == 0
            && ReportOf(after, pushed, false).reclaimedMemories == []
  {
    hide Eligible, UniqueIds, TargetsFollow, KeptPlaces, Kept;
    var start, after := StartAfter(log, pushed), Sweep(log, pushed);
    PushedPartSurvives(log, pushed);
    forall m ensures !Eligible(after, start, m) { SurvivorsAreNotEligible(log, pushed, m); }
    AllKept(after, start, 0, |after|);
    assert SweptPlaces(after, start) == {};
    NoneEligible(after, start, RetractOrder(after));
  }

  // --- meaning ------------------------------------------------------------------------------------

  /** The two replays agree on the project, and on whether they stopped. */
  ghost predicate SameProject(a: Outcome, b: Outcome) {
    && (a.Reduced? <==> b.Reduced?)
    && (a.Reduced? ==> a.state.project == b.state.project)
  }

  predicate Sweepable(e: Event) {
    e.payload.MemoryConsolidated? || e.payload.MemoryRetracted? || e.payload.ObservationCaptured?
  }

  lemma OnlySomeKindsAreSwept(log: Log, start: nat, p: nat)
    requires p < |log| && Swept(log, start, p)
    ensures Sweepable(log[p])
  {
    hide Eligible, SourceOf, Shielded;
  }

  lemma {:induction false} SweepKeepsGenesis(log: Log, start: nat, n: nat)
    requires n <= |log|
    ensures GenesisIds(Kept(log, start, 0, n)) == GenesisIds(log[..n])
    ensures FirstGenesis(Kept(log, start, 0, n)) == FirstGenesis(log[..n])
  {
    hide Swept, GenesisIds, FirstGenesis, KeptPlaces;
    if n == 0 {
      PlacesNone(log, start, 0);
      assert Kept(log, start, 0, 0) == log[..0];
    } else {
      SweepKeepsGenesis(log, start, n - 1);
      OneMoreRowKept(log, start, n);
      GenesisOfLonger(log[..n - 1], log[n - 1]);
      GenesisOfLonger(Kept(log, start, 0, n - 1), log[n - 1]);
      assert log[..n] == log[..n - 1] + [log[n - 1]];
      if Swept(log, start, n - 1) {
        OnlySomeKindsAreSwept(log, start, n - 1);
        assert Kept(log, start, 0, n) == Kept(log, start, 0, n - 1);
      }
    }
  }

  lemma OneMoreRowKept(log: Log, start: nat, n: nat)
    requires 0 < n <= |log|
    ensures Kept(log, start, 0, n) ==
            Kept(log, start, 0, n - 1) + if Swept(log, start, n - 1) then [] else [log[n - 1]]
  {
    hide Swept, KeptPlaces;
    PlacesStep(log, start, 0, n);
    PickSplits(log, KeptPlaces(log, start, 0, n - 1), if Swept(log, start, n - 1) then [] else [n - 1]);
  }

  lemma {:induction false} SweepKeepsProject(log: Log, start: nat, c: Context, n: nat)
    requires n <= |log|
    ensures SameProject(Replay(Kept(log, start, 0, n), c), Replay(log[..n], c))
  {
    hide Swept, KeptPlaces, Replay, Kept, SameProject;
    if n == 0 {
      NothingKept(log, start, c);
    } else {
      SweepKeepsProject(log, start, c, n - 1);
      OneMoreRowKept(log, start, n);
      assert log[..n] == log[..n - 1] + [log[n - 1]];
      var before := Kept(log, start, 0, n - 1);
      if Swept(log, start, n - 1) {
        OnlySomeKindsAreSwept(log, start, n - 1);
        assert before + [] == before;
        RowWithoutProject(before, log[..n - 1], log[n - 1], c);
      } else {
        RowKeepsSameProject(before, log[..n - 1], log[n - 1], c);
      }
    }
  }

  lemma NothingKept(log: Log, start: nat, c: Context)
    ensures SameProject(Replay(Kept(log, start, 0, 0), c), Replay(log[..0], c))
  {
    hide Swept, KeptPlaces;
    PlacesNone(log, start, 0);
    assert Kept(log, start, 0, 0) == log[..0];
  }

  lemma RowKeepsSameProject(a: Log, b: Log, e: Event, c: Context)
    requires SameProject(Replay(a, c), Replay(b, c))
    ensures SameProject(Replay(a + [e], c), Replay(b + [e], c))
  {
    hide NextTasks, NextSessions, NextHandoffs, NextMemories, NextMembers, NextObservations, EventLane, NextProject,
         Clashes;
    assert (a + [e])[..|a|] == a && (b + [e])[..|b|] == b;
  }

  lemma RowWithoutProject(a: Log, b: Log, e: Event, c: Context)
    requires SameProject(Replay(a, c), Replay(b, c)) && !e.payload.ProjectCreated? && !e.payload.ProjectUpdated?
    ensures SameProject(Replay(a, c), Replay(b + [e], c))
  {
    hide NextTasks, NextSessions, NextHandoffs, NextMemories, NextMembers, NextObservations, EventLane;
    assert (b + [e])[..|b|] == b;
  }

  /** The open records of `q` are those of `p` without the ones in `gone`. */
  ghost predicate OpenMinus(p: Memories, q: Memories, gone: iset<Id>) {
    && WellKeyed(p) && WellKeyed(q)
    && (forall m :: m in q && q[m].invalidAt.None? ==> m !in gone && m in p && p[m] == q[m])
    && (forall m :: m in p && m !in gone && p[m].invalidAt.None? ==> m in q && q[m] == p[m])
  }

  lemma GroupMinus(p: Memories, q: Memories, gone: iset<Id>, key: string, x: Id)
    requires OpenMinus(p, q, gone)
    ensures InGroup(q, key, x) <==> InGroup(p, key, x) && x !in gone
    ensures InGroup(q, key, x) ==> p[x] == q[x]
  {
    hide DedupKey;
  }

  /** A winner that stays goes on winning. */
  lemma WinnerStays(p: Memories, q: Memories, gone: iset<Id>, m: Id)
    requires OpenMinus(p, q, gone) && m in p && Competes(p[m]) && Winner(p, m) !in gone && m !in gone
    ensures m in q && Competes(q[m]) && Winner(q, m) == Winner(p, m)
  {
    hide DedupKey, Before;
    var key, w := DedupKey(p[m]), Winner(p, m);
    GroupMinus(p, q, gone, key, m);
    GroupMinus(p, q, gone, key, w);
    forall x | InGroup(q, key, x) ensures !Before(q[x], q[w]) { GroupMinus(p, q, gone, key, x); }
    WinnerIsUnique(q, key, w, Winner(q, m));
  }

  /** Dropping records leaves the valid memories alone exactly when none of the dropped ones was valid. */
  lemma DroppingKeepsValidExactly(p: Memories, q: Memories, gone: iset<Id>)
    requires OpenMinus(p, q, gone)
    ensures Valid(Dedupe(q)) == Valid(Dedupe(p)) <==> forall m :: m in gone ==> m !in Valid(Dedupe(p))
  {
    hide DedupKey, Before, InGroup, IsWinner;
    if forall m :: m in gone ==> m !in Valid(Dedupe(p)) {
      forall m | m in p && Competes(p[m]) ensures Winner(p, m) !in gone { WinnerIsValid(p, m); }
      forall m ensures m in Valid(Dedupe(q)) <==> m in Valid(Dedupe(p)) {
        if m in p && Competes(p[m]) && m !in gone { WinnerStays(p, q, gone, m); }
      }
    }
    forall m | m in gone ensures m !in Valid(Dedupe(q)) {
    }
  }

  lemma WinnerIsValid(p: Memories, m: Id)
    requires WellKeyed(p) && m in p && Competes(p[m])
    ensures Winner(p, m) in Valid(Dedupe(p))
  {
    hide DedupKey, Before;
    var w := Winner(p, m);
    WinnerIsUnique(p, DedupKey(p[m]), w, Winner(p, w));
  }

  /** The record of a memory is the same before and after, unless its unit went. */
  lemma SweptRecord(log: Log, start: nat, selfId: Option<Id>, isUnion: bool, m: Id)
    requires UniqueIds(log) && Causal(log)
    ensures var p := Records(log, selfId, isUnion); var q := Records(Kept(log, start, 0, |log|), selfId, isUnion);
            && (m in q <==> m in p && !Eligible(log, start, m))
            && (m in q ==> Matches(p[m], q[m]) && (p[m].invalidAt.None? ==> p[m] == q[m]))
  {
    hide Records, Swept, Eligible, Kept, UniqueIds, ConsolidatedOnce, TargetsFollow, Consolidates, Closed, Retracted,
         LaneOf;
    var after := Kept(log, start, 0, |log|);
    SweepKeepsOrder(log, start);
    RecordsAreBorn(log, selfId, isUnion, m);
    RecordsAreBorn(after, selfId, isUnion, m);
    KeptComesFrom(log, start, 0, |log|);
    assert log[0..|log|] == log;
    if Born(log, m) {
      var b := OnlyBirth(log, m);
      BirthIsSweptExactly(log, start, m, b);
      SurvivesExactly(log, start, b);
      if Eligible(log, start, m) {
        BornOnceGone(log, start, m, b);
      } else {
        SameClosers(log, start, selfId, isUnion, log[b]);
        RecordIsTold(log, selfId, isUnion, log[b]);
        RecordIsTold(after, selfId, isUnion, log[b]);
      }
    }
  }

  lemma OnlyBirth(log: Log, m: Id) returns (b: nat)
    requires ConsolidatedOnce(log) && Born(log, m)
    ensures BornAt(log, m, b)
    ensures log[b].payload.MemoryConsolidated? && log[b].payload.memory.id == m && log[b] in log &&
            Consolidates(log[b], m)
  {
    var e :| e in log && Consolidates(e, m);
    b :| 0 <= b < |log| && log[b] == e;
  }

  lemma BornOnceGone(log: Log, start: nat, m: Id, b: nat)
    requires UniqueIds(log) && ConsolidatedOnce(log) && BornAt(log, m, b) && Swept(log, start, b)
    ensures !Born(Kept(log, start, 0, |log|), m)
  {
    hide Swept, Kept, KeptPlaces, UniqueIds;
    var after := Kept(log, start, 0, |log|);
    forall e | e in after ensures !Consolidates(e, m) {
      var i :| 0 <= i < |after| && after[i] == e;
      var q := KeptAt(log, start, 0, |log|, i);
      assert q != b;
    }
  }

  lemma SameClosers(log: Log, start: nat, selfId: Option<Id>, isUnion: bool, born: Event)
    requires UniqueIds(log) && born.payload.MemoryConsolidated? && !Eligible(log, start, born.payload.memory.id)
    ensures Closed(log, born, selfId, isUnion) <==> Closed(Kept(log, start, 0, |log|), born, selfId, isUnion)
    ensures Retracted(log, born, selfId, isUnion) <==> Retracted(Kept(log, start, 0, |log|), born, selfId, isUnion)
  {
    hide Swept, Eligible, Kept, UniqueIds, LaneOf;
    var after := Kept(log, start, 0, |log|);
    KeptComesFrom(log, start, 0, |log|);
    assert log[0..|log|] == log;
    forall e | e in log && Targets(e, born.payload.memory.id) ensures e in after {
      var p :| 0 <= p < |log| && log[p] == e;
      AimedIsSweptExactly(log, start, born.payload.memory.id, p);
      SurvivesExactly(log, start, p);
    }
  }

  ghost function Reclaimed(log: Log, start: nat): iset<Id> {
    iset m | Eligible(log, start, m)
  }

  lemma SweepDropsTheEligible(log: Log, start: nat, c: Context)
    requires UniqueIds(log) && Causal(log)
    requires Replay(log, c).Reduced? && Replay(Kept(log, start, 0, |log|), c).Reduced?
    ensures OpenMinus(Records(log, c.selfId, c.isUnion), Records(Kept(log, start, 0, |log|), c.selfId, c.isUnion),
                      Reclaimed(log, start))
  {
    hide Records, Replay, Eligible, Kept, UniqueIds, Causal;
    var after := Kept(log, start, 0, |log|);
    RecordsAreWellKeyed(log, c);
    RecordsAreWellKeyed(after, c);
    forall m { SweptRecord(log, start, c.selfId, c.isUnion, m); }
  }

  /** A sweep neither stops a replay nor moves its anchor. */
  lemma SweepKeepsReplay(log: Log, start: nat, self: Option<Id>)
    ensures var after := Kept(log, start, 0, |log|);
            && Prescan(after, self) == Prescan(log, self)
            && (Reduce(after, self).Reduced? <==> Reduce(log, self).Reduced?)
  {
    hide Kept, Replay, GenesisIds, FirstGenesis;
    assert log[..|log|] == log;
    SweepKeepsGenesis(log, start, |log|);
    SweepKeepsProject(log, start, Prescan(log, self), |log|);
  }

  /** The valid memories are the same before and after exactly when no reclaimed memory was valid. */
  lemma GcKeepsValidExactly(log: Log, pushed: Option<Id>, self: Option<Id>)
    requires UniqueIds(log) && Causal(log) && Reduce(log, self).Reduced?
    ensures var after := Sweep(log, pushed);
            Reduce(after, self).Reduced? &&
            (ValidMemories(Reduce(after, self)) == ValidMemories(Reduce(log, self)) <==>
             forall m :: Eligible(log, StartAfter(log, pushed), m) ==> m !in ValidMemories(Reduce(log, self)))
  {
    hide Kept, Replay, Records, Eligible, UniqueIds, Causal, Dedupe, StartAfter;
    var start, c := StartAfter(log, pushed), Prescan(log, self);
    SweepKeepsReplay(log, start, self);
    SweepDropsTheEligible(log, start, c);
    ReplayKeepsRecords(log, c);
    ReplayKeepsRecords(Kept(log, start, 0, |log|), c);
    DroppingKeepsValidExactly(
      Records(log, c.selfId, c.isUnion), Records(Kept(log, start, 0, |log|), c.selfId, c.isUnion),
        Reclaimed(log, start));
    assert forall m :: m in Reclaimed(log, start) <==> Eligible(log, start, m);
  }

  /** Every retract in the log is one the reducer honours. */
  ghost predicate EffectiveRetracts(log: Log, selfId: Option<Id>, isUnion: bool) {
    forall e, born ::
      e in log && born in log && born.payload.MemoryConsolidated? && Retracts(e, born.payload.memory.id) ==>
      HonouredRetract(e, born, selfId, isUnion)
  }

  lemma EligibleIsClosed(log: Log, start: nat, selfId: Option<Id>, isUnion: bool, m: Id)
    requires Causal(log) && EffectiveRetracts(log, selfId, isUnion) && Eligible(log, start, m)
    ensures m in Records(log, selfId, isUnion) && Records(log, selfId, isUnion)[m].invalidAt.Some?
  {
    hide Records, ConsolidatedOnce, TargetsFollow, HonouredRetract, SourceOf;
    var b: nat :| BornAt(log, m, b) && b >= start;
    var r :| 0 <= r < |log| && Retracts(log[r], m);
    assert log[r] in log && log[b] in log;
    assert Closes(log[r], log[b], selfId, isUnion);
    RecordIsTold(log, selfId, isUnion, log[b]);
  }

  /**
   * When every retract is effective and follows its target, the sweep changes no meaning:
   * the valid memories, their records, and the winner named by every record that stays.
   */
  lemma GcPreservesMeaning(log: Log, pushed: Option<Id>, self: Option<Id>)
    requires UniqueIds(log) && Causal(log) && Reduce(log, self).Reduced?
    requires EffectiveRetracts(log, Prescan(log, self).selfId, Prescan(log, self).isUnion)
    ensures var before, after := Reduce(log, self), Reduce(Sweep(log, pushed), self);
            && after.Reduced?
            && ValidMemories(after) == ValidMemories(before)
            && after.state.memories.Keys <= before.state.memories.Keys
            && (forall m :: m in ValidMemories(before) ==> after.state.memories[m] == before.state.memories[m])
            && (forall m :: m in after.state.memories ==>
                  after.state.memories[m].dedupedBy == before.state.memories[m].dedupedBy)
  {
    hide Kept, Replay, Records, Eligible, UniqueIds, Causal, Dedupe, StartAfter, EffectiveRetracts;
    var start, c := StartAfter(log, pushed), Prescan(log, self);
    var p := Records(log, c.selfId, c.isUnion);
    GcKeepsValidExactly(log, pushed, self);
    ReplayKeepsRecords(log, c);
    forall m | Eligible(log, start, m) ensures m !in ValidMemories(Reduce(log, self)) {
      EligibleIsClosed(log, start, c.selfId, c.isUnion, m);
      ClosedIsNotValid(p, m);
    }
    SweepKeepsReplay(log, start, self);
    SweepDropsTheEligible(log, start, c);
    ReplayKeepsRecords(Kept(log, start, 0, |log|), c);
    forall m ensures m in Reclaimed(log, start) && m in p ==> p[m].invalidAt.Some? {
      if Eligible(log, start, m) { EligibleIsClosed(log, start, c.selfId, c.isUnion, m); }
    }
    RecordsStartUndeduped(log, c.selfId, c.isUnion);
    RecordsStartUndeduped(Kept(log, start, 0, |log|), c.selfId, c.isUnion);
    forall m { SweptRecord(log, start, c.selfId, c.isUnion, m); }
    DroppingClosedKeepsDedupe(p, Records(Kept(log, start, 0, |log|), c.selfId, c.isUnion), Reclaimed(log, start));
  }

  lemma ClosedIsNotValid(p: Memories, m: Id)
    requires m in p && p[m].invalidAt.Some?
    ensures m !in Valid(Dedupe(p))
  {
  }

  lemma DroppingClosedKeepsDedupe(p: Memories, q: Memories, gone: iset<Id>)
    requires OpenMinus(p, q, gone) && q.Keys <= p.Keys
    requires forall m :: m in gone && m in p ==> p[m].invalidAt.Some?
    requires forall m :: m in q ==> Matches(p[m], q[m]) && p[m].dedupedBy.None? && q[m].dedupedBy.None?
    ensures Dedupe(q).Keys == q.Keys && Dedupe(p).Keys == p.Keys
    ensures forall m :: m in q ==> Dedupe(q)[m].dedupedBy == Dedupe(p)[m].dedupedBy
    ensures forall m :: m in Valid(Dedupe(p)) ==> m in q && Dedupe(q)[m] == Dedupe(p)[m]
  {
    hide DedupKey, Before;
    forall m | m in p && Competes(p[m])
      ensures m in q && Competes(q[m]) && Winner(q, m) == Winner(p, m) && p[Winner(p, m)] == q[Winner(p, m)]
    {
      WinnerStays(p, q, gone, m);
    }
    forall m | m in q && p[m].invalidAt.None? ensures Dedupe(q)[m] == Dedupe(p)[m] {
      assert p[m] == q[m];
    }
  }

  // --- what goes wrong without the hypothesis ---------------------------------------------------------

  /** Two stores in one union log; the second one retracts a memory of the first. */
  function UnionWithDeafRetract(): Log {
    [ Event("e1", "t1", "a", "a", None, None, ProjectCreated(Project("a", "A", "", []))),
      Event("e2", "t2", "b", "b", None, Some("b"), ProjectCreated(Project("b", "B", "", []))),
      Event("e3", "t3", "a", "a", None, Some("a"), MemoryConsolidated(Memory("m", Decision, "x", 1, None, [], "t3"))),
      Event("e4", "t4", "b", "b", None, Some("b"), MemoryRetracted("m", false)) ]
  }

  lemma DeafRetractIsAUnion()
    ensures Prescan(UnionWithDeafRetract(), Some("a")) == Context(Some("a"), true, true)
  {
    var log := UnionWithDeafRetract();
    assert log[0] in log && log[1] in log;
    assert GenesisIds(log) == {"a", "b"} by {
      assert log[0].payload.project.id in GenesisIds(log) && log[1].payload.project.id in GenesisIds(log);
    }
  }

  lemma DeafRetractReplays()
    ensures Replay(UnionWithDeafRetract(), Context(Some("a"), true, true)).Reduced?
  {
    hide NextTasks, NextSessions, NextHandoffs, NextMemories, NextMembers, NextObservations, EventLane, GenesisIds;
    var log, c := UnionWithDeafRetract(), Context(Some("a"), true, true);
    assert log[..3][..2] == log[..2] && log[..2][..1] == log[..1] && log[..1][..0] == [];
    assert Replay(log[..1], c).Reduced?;
    assert Replay(log[..2], c).Reduced?;
    assert Replay(log[..3], c).Reduced?;
  }

  lemma DeafRetractIsNotHeard()
    ensures var p := Records(UnionWithDeafRetract(), Some("a"), true);
            "m" in p && p == map["m" := p["m"]] && p["m"].memory.sources == [] && p["m"].invalidAt.None?
  {
    var log := UnionWithDeafRetract();
    assert log[..3][..2] == log[..2] && log[..2][..1] == log[..1] && log[..1][..0] == [];
    assert Records(log[..1], Some("a"), true) == map[];
    assert Records(log[..2], Some("a"), true) == map[];
    assert Records(log, Some("a"), true) == map["m" := FreshRecord(log[2].payload.memory, SELF_LANE)];
  }

  lemma DeafRetractIsEligible()
    ensures Eligible(UnionWithDeafRetract(), 0, "m")
  {
    var log := UnionWithDeafRetract();
    assert BornAt(log, "m", 2) && Retracts(log[3], "m");
    forall o ensures !SourceOf(log, "m", o) {
      assert forall q: nat :: BornAt(log, "m", q) ==> q == 2;
    }
  }

  lemma DeafRetractIsCausal()
    ensures UniqueIds(UnionWithDeafRetract()) && Causal(UnionWithDeafRetract())
  {
  }

  lemma SourcelessIsValid(m: Id, r: MemoryRecord)
    requires r.memory.sources == [] && r.invalidAt.None?
    ensures m in Valid(Dedupe(map[m := r]))
  {
    hide DedupKey;
  }

  ghost predicate LosesValid(log: Log, pushed: Option<Id>, self: Option<Id>, m: Id) {
    var before, after := Reduce(log, self), Reduce(Sweep(log, pushed), self);
    && UniqueIds(log) && Causal(log) && before.Reduced? && after.Reduced?
    && m in ValidMemories(before) && m !in ValidMemories(after)
  }

  lemma EligibleIsLost(log: Log, pushed: Option<Id>, self: Option<Id>, m: Id)
    requires UniqueIds(log) && Causal(log) && Reduce(log, self).Reduced?
    requires m in ValidMemories(Reduce(log, self)) && Eligible(log, StartAfter(log, pushed), m)
    ensures LosesValid(log, pushed, self, m)
  {
    hide Replay, Records, Eligible, Kept, UniqueIds, Causal;
    var start, c := StartAfter(log, pushed), Prescan(log, self);
    SweepKeepsReplay(log, start, self);
    SweptRecord(log, start, c.selfId, c.isUnion, m);
    ReplayKeepsRecords(Kept(log, start, 0, |log|), c);
  }

  /**
   * Eligibility looks at raw retracts, not at the ones the reducer honours: another store's
   * retract, to which the reducer is deaf, gets a valid memory deleted.
   */
  lemma DeafRetractDeletesAValidMemory()
    ensures LosesValid(UnionWithDeafRetract(), None, Some("a"), "m")
  {
    hide Replay, Records, Eligible, UniqueIds, Causal, Dedupe, Prescan, UnionWithDeafRetract, ReadSince, HasId,
         LosesValid;
    var log, self := UnionWithDeafRetract(), Some("a");
    DeafRetractIsCausal();
    DeafRetractIsAUnion();
    DeafRetractReplays();
    DeafRetractIsNotHeard();
    DeafRetractIsEligible();
    ReplayKeepsRecords(log, Context(self, true, true));
    SourcelessIsValid("m", Records(log, self, true)["m"]);
    EligibleIsLost(log, None, self, "m");
  }

  // --- what the report counts -----------------------------------------------------------------------

  lemma {:induction false} RowsAddUp(log: Log, start: nat, n: nat)
    requires n <= |log|
    ensures |KeptPlaces(log, start, 0, n)| + |set p: nat | 0 <= p < n && Swept(log, start, p)| == n
  {
    hide Swept, KeptPlaces;
    var swept := set p: nat | 0 <= p < n && Swept(log, start, p);
    if n == 0 {
      PlacesNone(log, start, 0);
      assert swept == {};
    } else {
      RowsAddUp(log, start, n - 1);
      PlacesStep(log, start, 0, n);
      var fewer := set p: nat | 0 <= p < n - 1 && Swept(log, start, p);
      assert swept == if Swept(log, start, n - 1) then fewer + {n - 1} else fewer;
    }
  }

  /** `reclaimedEvents` is exactly what the log loses. */
  lemma ReclaimedEventsIsTheLoss(log: Log, pushed: Option<Id>)
    ensures ReportOf(log, pushed, false).reclaimedEvents == |log| - |Sweep(log, pushed)|
  {
    hide Swept, KeptPlaces, ReadSince, HasId;
    RowsAddUp(log, StartAfter(log, pushed), |log|);
  }

  lemma {:induction false} DistinctAtMost<T>(s: seq<T>)
    ensures |set x | x in s| <= |s|
    ensures |set x | x in s| == |s| <==> NoRepeats(s)
  {
    if s != [] {
      var n := |s| - 1;
      var fewer := set x | x in s[..n];
      DistinctAtMost(s[..n]);
      assert s == s[..n] + [s[n]];
      assert (set x | x in s) == fewer + {s[n]};
      assert NoRepeats(s) <==> NoRepeats(s[..n]) && s[n] !in s[..n] by {
        if NoRepeats(s[..n]) && s[n] !in s[..n] { NoRepeatsGrows(s[..n], s[n]); }
        assert forall i :: 0 <= i < n ==> s[..n][i] == s[i];
      }
    }
  }

  ghost function SweptCaptures(log: Log, start: nat): set<nat> {
    set p: nat | 0 <= p < |log| && Swept(log, start, p) && IsCapture(log[p])
  }

  lemma {:induction false} AsManyCapturesAsIds(log: Log, places: set<nat>, ids: set<Id>)
    requires forall p :: p in places ==>
             p < |log| && IsCapture(log[p]) && CapturedAt(log, log[p].payload.observation.id, p)
    requires forall o :: o in ids <==> exists p :: p in places && Captures(log[p], o)
    ensures |ids| == |places|
    decreases |places|
  {
    hide CapturedAt;
    if places == {} {
      assert ids == {};
    } else {
      var p :| p in places;
      var o := log[p].payload.observation.id;
      assert Captures(log[p], o);
      forall q | q in places - {p} ensures log[q].payload.observation.id != o {
        if log[q].payload.observation.id == o { LastCaptureIsOne(log, o, p, q); }
      }
      AsManyCapturesAsIds(log, places - {p}, ids - {o});
    }
  }

  lemma LastCaptureIsOne(log: Log, o: Id, p: nat, q: nat)
    requires CapturedAt(log, o, p) && CapturedAt(log, o, q)
    ensures p == q
  {
  }

  lemma {:induction false} OrphansAreListed(log: Log, start: nat, list: seq<Id>, o: Id)
    ensures o in OrphansOfAll(log, start, list) <==>
            exists m :: m in list && SourceOf(log, m, o) && exists p: nat :: OrphanAt(log, start, o, p)
  {
    hide SourceOf, OrphanAt;
    if list != [] {
      OrphansAreListed(log, start, list[..|list| - 1], o);
      assert list == list[..|list| - 1] + [list[|list| - 1]];
    }
  }

  lemma SweptCaptureIsOrphan(log: Log, start: nat, p: nat)
    requires p < |log| && IsCapture(log[p])
    ensures var o := log[p].payload.observation.id;
            Swept(log, start, p) <==>
            OrphanAt(log, start, o, p) && exists m :: Eligible(log, start, m) && SourceOf(log, m, o)
  {
    hide Eligible, SourceOf, Shielded;
    var o := log[p].payload.observation.id;
    if OrphanAt(log, start, o, p) && exists m :: Eligible(log, start, m) && SourceOf(log, m, o) {
      var m :| Eligible(log, start, m) && SourceOf(log, m, o);
      assert InUnit(log, start, m, p);
    }
  }

  lemma OrphanIsLast(log: Log, start: nat, o: Id, p: nat)
    requires OrphanAt(log, start, o, p)
    ensures CapturedAt(log, o, p) && p < |log| && Captures(log[p], o)
  {
  }

  lemma ListedIffSwept(log: Log, pushed: Option<Id>, o: Id)
    ensures var start := StartAfter(log, pushed); var list := ReportOf(log, pushed, false).reclaimedMemories;
            o in OrphansOfAll(log, start, list) <==> exists p :: p in SweptCaptures(log, start) && Captures(log[p], o)
  {
    hide Swept, SourceOf, OrphanAt, ReadSince, HasId, UnitUnpushed, RetractedIn;
    var start, list := StartAfter(log, pushed), ReportOf(log, pushed, false).reclaimedMemories;
    OrphansAreListed(log, start, list, o);
    if p: nat :| OrphanAt(log, start, o, p) {
      OrphanIsLast(log, start, o, p);
      SweptCaptureIsOrphan(log, start, p);
      assert (exists m :: m in list && SourceOf(log, m, o)) ==> p in SweptCaptures(log, start);
    }
    forall p | p in SweptCaptures(log, start) && Captures(log[p], o) ensures o in OrphansOfAll(log, start, list) {
      SweptCaptureIsOrphan(log, start, p);
    }
  }

  /** `o` sits more than once among the sources of `m`. */
  ghost predicate ListsTwice(log: Log, m: Id, o: Id) {
    exists p: nat, x: nat, y: nat :: BornAt(log, m, p) && IsListed(log[p], x, o) && IsListed(log[p], y, o) && x < y
  }

  predicate IsListed(e: Event, x: nat, o: Id) {
    e.payload.MemoryConsolidated? && x < |e.payload.memory.sources| && e.payload.memory.sources[x] == o
  }

  ghost predicate Deleted(log: Log, start: nat, o: Id) {
    exists p: nat :: OrphanAt(log, start, o, p)
  }

  /** Some deleted observation is listed twice by one reclaimed memory, or by two. */
  ghost predicate CountedTwice(log: Log, start: nat, o: Id) {
    && Deleted(log, start, o)
    && ( || (exists m :: Eligible(log, start, m) && ListsTwice(log, m, o))
         || (exists m, n :: m != n && Eligible(log, start, m) && Eligible(log, start, n) && SourceOf(log, m, o) &&
              SourceOf(log, n, o)))
  }

  lemma JoinRepeats<T>(a: seq<T>, b: seq<T>)
    ensures NoRepeats(a + b) <==> NoRepeats(a) && NoRepeats(b) && forall x :: x in a ==> x !in b
  {
    if NoRepeats(a) && NoRepeats(b) && forall x :: x in a ==> x !in b { NoRepeatsJoin(a, b); }
    var all := a + b;
    assert forall i :: 0 <= i < |a| ==> all[i] == a[i];
    assert forall i :: 0 <= i < |b| ==> all[|a| + i] == b[i];
    forall x | x in a && x in b ensures !NoRepeats(all) { SharedRepeats(a, b, x); }
  }

  lemma SharedRepeats<T>(a: seq<T>, b: seq<T>, x: T)
    requires x in a && x in b
    ensures !NoRepeats(a + b)
  {
    var i :| 0 <= i < |a| && a[i] == x;
    var k :| 0 <= k < |b| && b[k] == x;
    assert (a + b)[i] == (a + b)[|a| + k];
  }

  predicate TwiceIn(sources: seq<Id>, o: Id) {
    exists x, y :: 0 <= x < y < |sources| && sources[x] == o && sources[y] == o
  }

  lemma {:induction false} OrphansRepeatExactly(log: Log, start: nat, sources: seq<Id>)
    ensures NoRepeats(Orphans(log, start, sources)) <==> forall o :: Deleted(log, start, o) ==> !TwiceIn(sources, o)
  {
    hide OrphanAt, NoRepeats;
    if sources == [] {
      NoneTwice();
      assert NoRepeats(Orphans(log, start, [])) by { NoneRepeatHere(); }
    } else {
      var n := |sources| - 1;
      var rest := Orphans(log, start, sources[..n]);
      OrphansRepeatExactly(log, start, sources[..n]);
      forall o ensures TwiceIn(sources, o) <==> TwiceIn(sources[..n], o) || (o == sources[n] && o in sources[..n]) {
        TwiceInLonger(sources, o);
      }
      JoinRepeats(rest, [sources[n]]);
      OneNeverRepeats(sources[n]);
      assert rest + [] == rest;
    }
  }

  lemma NoneTwice()
    ensures forall o :: !TwiceIn([], o)
  {
  }

  lemma NoneRepeatHere()
    ensures NoRepeats<Id>([])
  {
  }

  lemma OneNeverRepeats(o: Id)
    ensures NoRepeats([o])
  {
  }

  lemma TwiceInLonger(sources: seq<Id>, o: Id)
    requires sources != []
    ensures var n := |sources| - 1; TwiceIn(sources, o) <==>
            TwiceIn(sources[..n], o) || (o == sources[n] && o in sources[..n])
  {
    var n := |sources| - 1;
    assert forall x :: 0 <= x < n ==> sources[..n][x] == sources[x];
    if o == sources[n] && o in sources[..n] {
      var x :| 0 <= x < n && sources[..n][x] == o;
      assert sources[x] == o && sources[n] == o;
    }
  }

  ghost predicate NoneRepeatsIn(log: Log, start: nat, list: seq<Id>) {
    && (forall m :: m in list ==> NoRepeats(Orphans(log, start, Sources(log, m))))
    && (forall m, n, o :: m in list && n in list && m != n && Deleted(log, start, o) ==>
         !(SourceOf(log, m, o) && SourceOf(log, n, o)))
  }

  lemma {:induction false} ListRepeatsExactly(log: Log, start: nat, list: seq<Id>)
    requires NoRepeats(list)
    ensures NoRepeats(OrphansOfAll(log, start, list)) <==> NoneRepeatsIn(log, start, list)
  {
    hide OrphanAt, Deleted, SourceOf, NoRepeats, NoneRepeatsIn, Orphans, Sources, SharedWithLast;
    if list == [] {
      NoneRepeatHere();
      NoneInNothing(log, start);
    } else {
      var n := |list| - 1;
      ShorterList(list);
      ListRepeatsExactly(log, start, list[..n]);
      var rest, last := OrphansOfAll(log, start, list[..n]), Orphans(log, start, Sources(log, list[n]));
      JoinRepeats(rest, last);
      forall o ensures o in rest && o in last <==> SharedWithLast(log, start, list, o) {
        SharedExactly(log, start, list, o);
      }
      OneMoreInList(log, start, list);
    }
  }

  lemma NoneInNothing(log: Log, start: nat)
    ensures NoneRepeatsIn(log, start, [])
  {
  }

  lemma ShorterList(list: seq<Id>)
    requires list != [] && NoRepeats(list)
    ensures NoRepeats(list[..|list| - 1])
  {
  }

  lemma SharedExactly(log: Log, start: nat, list: seq<Id>, o: Id)
    requires list != []
    ensures var n := |list| - 1;
            o in OrphansOfAll(log, start, list[..n]) && o in Orphans(log, start, Sources(log, list[n])) <==>
            SharedWithLast(log, start, list, o)
  {
    hide OrphanAt, SourceOf, OrphansOfAll;
    var n := |list| - 1;
    OrphansAreListed(log, start, list[..n], o);
    LastOrphans(log, start, list[n], o);
  }

  ghost predicate SharedWithLast(log: Log, start: nat, list: seq<Id>, o: Id)
    requires list != []
  {
    && Deleted(log, start, o) && SourceOf(log, list[|list| - 1], o)
    && exists m :: m in list[..|list| - 1] && SourceOf(log, m, o)
  }

  lemma LastOrphans(log: Log, start: nat, m: Id, o: Id)
    ensures o in Orphans(log, start, Sources(log, m)) <==> SourceOf(log, m, o) && Deleted(log, start, o)
    ensures Deleted(log, start, o) <==> exists p: nat :: OrphanAt(log, start, o, p)
  {
    hide OrphanAt, SourceOf;
  }

  lemma OneMoreInList(log: Log, start: nat, list: seq<Id>)
    requires list != [] && NoRepeats(list)
    ensures var n := |list| - 1;
            NoneRepeatsIn(log, start, list) <==>
            && NoneRepeatsIn(log, start, list[..n])
            && NoRepeats(Orphans(log, start, Sources(log, list[n])))
            && (forall o :: !SharedWithLast(log, start, list, o))
  {
    hide Deleted, SourceOf, Orphans, Sources;
    var n := |list| - 1;
    assert list == list[..n] + [list[n]] && list[n] !in list[..n];
    assert forall m :: m in list <==> m in list[..n] || m == list[n];
    forall o | SharedWithLast(log, start, list, o) ensures !NoneRepeatsIn(log, start, list) {
      var m :| m in list[..n] && SourceOf(log, m, o);
      assert m in list && list[n] in list && m != list[n];
    }
    forall m, k, o | m in list && k in list && m != k && Deleted(log, start, o) && (m == list[n] || k == list[n])
      ensures SourceOf(log, m, o) && SourceOf(log, k, o) ==> SharedWithLast(log, start, list, o)
    {
    }
  }

  lemma ListedTwiceInBirth(log: Log, m: Id, o: Id)
    ensures ListsTwice(log, m, o) <==> TwiceIn(Sources(log, m), o)
  {
    if p: nat :| BornAt(log, m, p) {
      assert forall q: nat :: BornAt(log, m, q) ==> q == p;
      var sources := Sources(log, m);
      assert sources == log[p].payload.memory.sources;
      if x, y :| 0 <= x < y < |sources| && sources[x] == o && sources[y] == o {
        assert IsListed(log[p], x, o) && IsListed(log[p], y, o);
      }
    } else {
      assert Sources(log, m) == [];
    }
  }

  /** The entries repeat exactly when some deleted observation is counted twice. */
  lemma EntriesRepeatExactly(log: Log, start: nat, list: seq<Id>)
    requires NoRepeats(list) && forall m :: m in list <==> Eligible(log, start, m)
    ensures NoRepeats(OrphansOfAll(log, start, list)) <==> forall o :: !CountedTwice(log, start, o)
  {
    hide Eligible, SourceOf, Deleted, Orphans, Sources, ListsTwice, TwiceIn, OrphansOfAll, NoRepeats, CountedTwice,
         NoneRepeatsIn;
    ListRepeatsExactly(log, start, list);
    if NoneRepeatsIn(log, start, list) {
      forall o ensures !CountedTwice(log, start, o) { NoneCountedTwice(log, start, list, o); }
    } else {
      SomeCountedTwice(log, start, list);
    }
  }

  lemma OwnEntries(log: Log, start: nat, m: Id)
    ensures NoRepeats(Orphans(log, start, Sources(log, m))) <==> forall o :: Deleted(log, start, o) ==>
            !ListsTwice(log, m, o)
  {
    hide Deleted, ListsTwice, TwiceIn, NoRepeats, Sources, Orphans;
    OrphansRepeatExactly(log, start, Sources(log, m));
    forall o ensures ListsTwice(log, m, o) <==> TwiceIn(Sources(log, m), o) { ListedTwiceInBirth(log, m, o); }
  }

  lemma NoneCountedTwice(log: Log, start: nat, list: seq<Id>, o: Id)
    requires NoneRepeatsIn(log, start, list) && forall m :: m in list <==> Eligible(log, start, m)
    ensures !CountedTwice(log, start, o)
  {
    hide Eligible, SourceOf, Deleted, Orphans, Sources, ListsTwice, NoRepeats;
    forall m | m in list ensures Deleted(log, start, o) ==> !ListsTwice(log, m, o) { OwnEntries(log, start, m); }
  }

  lemma SomeCountedTwice(log: Log, start: nat, list: seq<Id>)
    requires !NoneRepeatsIn(log, start, list) && forall m :: m in list <==> Eligible(log, start, m)
    ensures exists o :: CountedTwice(log, start, o)
  {
    hide Eligible, SourceOf, Deleted, Orphans, Sources, ListsTwice, NoRepeats;
    if m :| m in list && !NoRepeats(Orphans(log, start, Sources(log, m))) {
      OwnEntries(log, start, m);
      var o :| Deleted(log, start, o) && ListsTwice(log, m, o);
      assert CountedTwice(log, start, o);
    } else {
      var m, n, o :| m in list && n in list && m != n && Deleted(log, start, o) && SourceOf(log, m, o) &&
          SourceOf(log, n, o);
      assert CountedTwice(log, start, o);
    }
  }

  lemma ReclaimedAreEligible(log: Log, pushed: Option<Id>)
    ensures var list := ReportOf(log, pushed, false).reclaimedMemories;
            NoRepeats(list) && forall m :: m in list <==> Eligible(log, StartAfter(log, pushed), m)
  {
    hide UnitUnpushed, RetractedIn, ReadSince, HasId, OrphansOfAll;
  }

  /**
   * `reclaimedObservations` counts source entries, not events: it is at least the number of
   * observation events deleted, and equals it exactly when no deleted observation is listed
   * twice by a reclaimed memory or shared by two of them.
   */
  lemma ReclaimedObservationsCountsEntries(log: Log, pushed: Option<Id>)
    ensures var start := StartAfter(log, pushed); var report := ReportOf(log, pushed, false);
            && |SweptCaptures(log, start)| <= report.reclaimedObservations
            && (|SweptCaptures(log, start)| == report.reclaimedObservations <==>
                 forall o :: !CountedTwice(log, start, o))
  {
    hide Swept, Eligible, SourceOf, OrphanAt, ReadSince, HasId, CapturedAt, CountedTwice, SweptCaptures;
    var start, report := StartAfter(log, pushed), ReportOf(log, pushed, false);
    var entries := OrphansOfAll(log, start, report.reclaimedMemories);
    ReclaimedAreEligible(log, pushed);
    EntriesRepeatExactly(log, start, report.reclaimedMemories);
    AsManyAsDistinct(log, pushed);
    DistinctAtMost(entries);
  }

  lemma AsManyAsDistinct(log: Log, pushed: Option<Id>)
    ensures var start := StartAfter(log, pushed);
            |SweptCaptures(log, start)| == |set o | o in OrphansOfAll(log, start,
              ReportOf(log, pushed, false).reclaimedMemories)|
  {
    hide Swept, Eligible, SourceOf, OrphanAt, ReadSince, HasId, CapturedAt;
    var start := StartAfter(log, pushed);
    var entries := OrphansOfAll(log, start, ReportOf(log, pushed, false).reclaimedMemories);
    var ids := set o | o in entries;
    forall p | p in SweptCaptures(log, start) ensures CapturedAt(log, log[p].payload.observation.id, p) {
      SweptCaptureIsOrphan(log, start, p);
      OrphanIsLast(log, start, log[p].payload.observation.id, p);
    }
    forall o ensures o in ids <==> exists p :: p in SweptCaptures(log, start) && Captures(log[p], o) {
      ListedIffSwept(log, pushed, o);
    }
    AsManyCapturesAsIds(log, SweptCaptures(log, start), ids);
  }

  /** Two memories of one boundary, both retracted: they share the one observation of its window. */
  function SharedSource(): Log {
    [ Event("e1", "t1", "a", "a", None, None, ObservationCaptured(Observation("o", None, None, "t1"))),
      Event("e2", "t2", "a", "a", None, None, MemoryConsolidated(Memory("m", Decision, "x", 1, None, ["o"], "t2"))),
      Event("e3", "t2", "a", "a", None, None, MemoryConsolidated(Memory("n", Decision, "y", 1, None, ["o"], "t2"))),
      Event("e4", "t3", "a", "a", None, None, MemoryRetracted("m", false)),
      Event("e5", "t4", "a", "a", None, None, MemoryRetracted("n", false)) ]
  }

  lemma SharedSourceBirths()
    ensures var log := SharedSource();
            forall m, q: nat :: BornAt(log, m, q) <==> (m == "m" && q == 1) || (m == "n" && q == 2)
  {
  }

  lemma SharedSourceUnits()
    ensures var log := SharedSource();
            Eligible(log, 0, "m") && Eligible(log, 0, "n") && OrphanAt(log, 0, "o", 0) && SourceOf(log, "m", "o") &&
              SourceOf(log, "n", "o")
  {
    hide BornAt;
    var log := SharedSource();
    SharedSourceBirths();
    assert BornAt(log, "m", 1) && BornAt(log, "n", 2);
    assert Retracts(log[3], "m") && Retracts(log[4], "n") && CapturedAt(log, "o", 0);
  }

  /** The count can exceed the number of observation events deleted. */
  lemma ReclaimedObservationsOvercounts()
    ensures var log := SharedSource();
            |SweptCaptures(log, StartAfter(log, None))| < ReportOf(log, None, false).reclaimedObservations
  {
    hide Eligible, OrphanAt, SourceOf, SharedSource, SweptCaptures, EligibleAmong, OrphansOfAll, RetractOrder;
    SharedSourceUnits();
    assert CountedTwice(SharedSource(), 0, "o");
    ReclaimedObservationsCountsEntries(SharedSource(), None);
  }
}
