/** What is valid is told by the set of events, not by their order. */
module Convergence {
  import opened Events
  import opened Lanes
  import opened Dedup
  import opened Projector

  /** The memory part of the replay, which never looks at the rest of the state. */
  function Records(events: Log, selfId: Option<Id>, isUnion: bool): Memories {
    if events == [] then map[]
    else
      var last := events[|events| - 1];
      NextMemories(Records(events[..|events| - 1], selfId, isUnion), last, LaneOf(last, selfId, isUnion))
  }

  lemma {:induction false} ReplayKeepsRecords(events: Log, c: Context)
    requires Replay(events, c).Reduced?
    ensures Replay(events, c).state.memories == Records(events, c.selfId, c.isUnion)
  {
    hide NextTasks, NextSessions, NextProject;
    if events != [] { ReplayKeepsRecords(events[..|events| - 1], c); }
  }

  /** `e` is honoured as a retract of the memory born in `born`. */
  predicate HonouredRetract(e: Event, born: Event, selfId: Option<Id>, isUnion: bool)
    requires born.payload.MemoryConsolidated?
  {
    && Retracts(e, born.payload.memory.id)
    && (LaneOf(e, selfId, isUnion) == LaneOf(born, selfId, isUnion) || e.payload.byOwner)
  }

  predicate Closes(e: Event, born: Event, selfId: Option<Id>, isUnion: bool)
    requires born.payload.MemoryConsolidated?
  {
    Supersedes(e, born.payload.memory.id) || HonouredRetract(e, born, selfId, isUnion)
  }

  ghost predicate Closed(events: Log, born: Event, selfId: Option<Id>, isUnion: bool)
    requires born.payload.MemoryConsolidated?
  {
    exists e :: e in events && Closes(e, born, selfId, isUnion)
  }

  ghost predicate Retracted(events: Log, born: Event, selfId: Option<Id>, isUnion: bool)
    requires born.payload.MemoryConsolidated?
  {
    exists e :: e in events && HonouredRetract(e, born, selfId, isUnion)
  }

  predicate Born(events: Log, m: Id) {
    exists e :: e in events && Consolidates(e, m)
  }

  lemma OnlyBirthsAddKeys(memories: Memories, e: Event, lane: string, m: Id)
    ensures m in NextMemories(memories, e, lane) <==> m in memories || Consolidates(e, m)
  {
  }

  lemma {:induction false} RecordsAreBorn(events: Log, selfId: Option<Id>, isUnion: bool, m: Id)
    ensures m in Records(events, selfId, isUnion) <==> Born(events, m)
  {
    hide NextMemories, LaneOf, Consolidates;
    if events != [] {
      var n := |events| - 1;
      RecordsAreBorn(events[..n], selfId, isUnion, m);
      assert events == events[..n] + [events[n]];
      OnlyBirthsAddKeys(Records(events[..n], selfId, isUnion), events[n], LaneOf(events[n], selfId, isUnion), m);
    }
  }

  /** What one event does to a record it does not create. */
  lemma StepOnRecord(memories: Memories, e: Event, lane: string, m: Id)
    requires m in memories && !Consolidates(e, m)
    ensures var next := NextMemories(memories, e, lane);
            m in next &&
            var r, s := memories[m], next[m];
            var honoured := Retracts(e, m) && (lane == r.Lane() || e.payload.byOwner);
            && s.memory == r.memory && s.source == r.source
            && (s.invalidAt.Some? <==> r.invalidAt.Some? || Supersedes(e, m) || honoured)
            && (s.retractedAt.Some? <==> r.retractedAt.Some? || honoured)
            && (!Supersedes(e, m) && !honoured ==> s == r)
  {
  }

  lemma PrefixKeepsOrder(events: Log)
    requires events != [] && ConsolidatedOnce(events) && TargetsFollow(events)
    ensures ConsolidatedOnce(events[..|events| - 1]) && TargetsFollow(events[..|events| - 1])
  {
  }

  /** In a causal log a record is decided by the event it was born in and the set of events aimed at it. */
  lemma {:induction false} RecordIsTold(events: Log, selfId: Option<Id>, isUnion: bool, born: Event)
    requires ConsolidatedOnce(events) && TargetsFollow(events)
    requires born in events && born.payload.MemoryConsolidated?
    ensures var m := born.payload.memory.id;
            m in Records(events, selfId, isUnion) &&
            var r := Records(events, selfId, isUnion)[m];
            && r.memory == born.payload.memory
            && r.Lane() == LaneOf(born, selfId, isUnion)
            && (r.invalidAt.Some? <==> Closed(events, born, selfId, isUnion))
            && (r.retractedAt.Some? <==> Retracted(events, born, selfId, isUnion))
            && (r.invalidAt.None? ==> r == FreshRecord(born.payload.memory, LaneOf(born, selfId, isUnion)))
  {
    hide NextMemories, LaneOf, ConsolidatedOnce, TargetsFollow;
    var n := |events| - 1;
    var before, last := events[..n], events[n];
    var m := born.payload.memory.id;
    assert events == before + [last];
    PrefixKeepsOrder(events);
    if born in before {
      RecordIsTold(before, selfId, isUnion, born);
      NoSecondBirth(events, born);
      StepOnRecord(Records(before, selfId, isUnion), last, LaneOf(last, selfId, isUnion), m);
      assert Closed(events, born, selfId, isUnion) <==>
             Closed(before, born, selfId, isUnion) || Closes(last, born, selfId, isUnion);
      assert Retracted(events, born, selfId, isUnion) <==>
             Retracted(before, born, selfId, isUnion) || HonouredRetract(last, born, selfId, isUnion);
    } else {
      assert last == born;
      NothingAimsAhead(events);
      BirthRecord(Records(before, selfId, isUnion), born, LaneOf(born, selfId, isUnion));
    }
  }

  lemma NoSecondBirth(events: Log, born: Event)
    requires events != [] && ConsolidatedOnce(events)
    requires born in events[..|events| - 1] && born.payload.MemoryConsolidated?
    ensures !Consolidates(events[|events| - 1], born.payload.memory.id)
  {
    var i :| 0 <= i < |events| - 1 && events[i] == born;
  }

  lemma NothingAimsAhead(events: Log)
    requires events != [] && TargetsFollow(events)
    requires events[|events| - 1].payload.MemoryConsolidated?
    ensures forall e :: e in events ==> !Targets(e, events[|events| - 1].payload.memory.id)
  {
  }

  lemma BirthRecord(memories: Memories, born: Event, lane: string)
    requires born.payload.MemoryConsolidated?
    ensures var m := born.payload.memory.id; var next := NextMemories(memories, born, lane);
            m in next && next[m] == FreshRecord(born.payload.memory, lane) && next[m].Lane() == lane
  {
  }

  // --- same events, same answer ------------------------------------------------------

  /** The logs hold the same events, local sync bookkeeping aside. */
  ghost predicate SameHistory(a: Log, b: Log) {
    forall e :: !Bookkeeping(e) ==> (e in a <==> e in b)
  }

  ghost predicate Causal(events: Log) {
    ConsolidatedOnce(events) && TargetsFollow(events)
  }

  lemma SameGenesis(a: Log, b: Log)
    requires SameHistory(a, b)
    ensures GenesisIds(a) == GenesisIds(b)
  {
    forall id | id in GenesisIds(a) ensures id in GenesisIds(b) {
      var e :| e in a && e.payload.ProjectCreated? && e.payload.project.id == id;
      assert e in b;
    }
    forall id | id in GenesisIds(b) ensures id in GenesisIds(a) {
      var e :| e in b && e.payload.ProjectCreated? && e.payload.project.id == id;
      assert e in a;
    }
  }

  /** Two replicas may call different lanes `self`; what counts is which events share one. */
  ghost predicate SameLanes(a: Log, selfA: Option<Id>, selfB: Option<Id>, isUnion: bool) {
    forall e, f :: e in a && f in a && !Bookkeeping(e) && !Bookkeeping(f) ==>
      (LaneOf(e, selfA, isUnion) == LaneOf(f, selfA, isUnion) <==>
        LaneOf(e, selfB, isUnion) == LaneOf(f, selfB, isUnion))
  }

  /** Same memory, and both open or both closed; only the name of the lane may differ. */
  ghost predicate Matches(r: MemoryRecord, s: MemoryRecord) {
    && r.memory == s.memory
    && (r.invalidAt.Some? <==> s.invalidAt.Some?)
    && (r.retractedAt.Some? <==> s.retractedAt.Some?)
  }

  lemma RecordsMatch(a: Log, selfA: Option<Id>, b: Log, selfB: Option<Id>, isUnion: bool)
    requires Causal(a) && Causal(b) && SameHistory(a, b) && SameLanes(a, selfA, selfB, isUnion)
    ensures Records(a, selfA, isUnion).Keys == Records(b, selfB, isUnion).Keys
    ensures forall m :: m in Records(a, selfA, isUnion) ==>
              Matches(Records(a, selfA, isUnion)[m], Records(b, selfB, isUnion)[m])
  {
    forall m ensures m in Records(a, selfA, isUnion) <==> m in Records(b, selfB, isUnion) {
      RecordsAreBorn(a, selfA, isUnion, m);
      RecordsAreBorn(b, selfB, isUnion, m);
    }
    forall m | m in Records(a, selfA, isUnion)
      ensures Matches(Records(a, selfA, isUnion)[m], Records(b, selfB, isUnion)[m])
    {
      RecordsAreBorn(a, selfA, isUnion, m);
      var born :| born in a && Consolidates(born, m);
      RecordIsTold(a, selfA, isUnion, born);
      RecordIsTold(b, selfB, isUnion, born);
      ClosersMatch(a, selfA, b, selfB, isUnion, born);
    }
  }

  lemma ClosersMatch(a: Log, selfA: Option<Id>, b: Log, selfB: Option<Id>, isUnion: bool, born: Event)
    requires SameHistory(a, b) && SameLanes(a, selfA, selfB, isUnion)
    requires born in a && born.payload.MemoryConsolidated?
    ensures Closed(a, born, selfA, isUnion) <==> Closed(b, born, selfB, isUnion)
    ensures Retracted(a, born, selfA, isUnion) <==> Retracted(b, born, selfB, isUnion)
  {
    forall e | e in a && Targets(e, born.payload.memory.id)
      ensures e in b && (HonouredRetract(e, born, selfA, isUnion) <==> HonouredRetract(e, born, selfB, isUnion))
    {
      assert !Bookkeeping(e) && !Bookkeeping(born);
    }
    forall e | e in b && Targets(e, born.payload.memory.id) ensures e in a {
      assert !Bookkeeping(e);
    }
  }

  /** Dedup only compares lanes, so renaming them one to one changes no winner. */
  lemma DedupeMatches(p: Memories, q: Memories)
    requires WellKeyed(p) && WellKeyed(q) && p.Keys == q.Keys
    requires forall m :: m in p ==> Matches(p[m], q[m])
    requires forall m, n :: m in p && n in p && Competes(p[m]) && Competes(p[n]) ==>
               (DedupKey(p[m]) == DedupKey(p[n]) <==> DedupKey(q[m]) == DedupKey(q[n]))
    ensures Valid(Dedupe(p)) == Valid(Dedupe(q))
    ensures forall m :: m in p && m in q && Competes(p[m]) && Competes(q[m]) ==> Winner(p, m) == Winner(q, m)
  {
    hide DedupKey;
    forall m | m in p && m in q && Competes(p[m]) && Competes(q[m]) ensures Winner(p, m) == Winner(q, m) {
      var w := Winner(p, m);
      forall x | InGroup(q, DedupKey(q[m]), x) ensures !Before(q[x], q[w]) {
        assert InGroup(p, DedupKey(p[m]), x);
      }
      WinnerIsUnique(q, DedupKey(q[m]), w, Winner(q, m));
    }
  }

  /** What survives of a reduction: who is valid, and whom each duplicate points to. */
  ghost function ValidMemories(o: Outcome): set<Id>
    requires o.Reduced?
  {
    Valid(o.state.memories)
  }

  ghost predicate SameWinners(a: Outcome, b: Outcome)
    requires a.Reduced? && b.Reduced?
  {
    && a.state.memories.Keys == b.state.memories.Keys
    && forall m :: m in a.state.memories ==> a.state.memories[m].dedupedBy == b.state.memories[m].dedupedBy
  }

  lemma RecordsAreWellKeyed(events: Log, c: Context)
    requires Replay(events, c).Reduced?
    ensures WellKeyed(Records(events, c.selfId, c.isUnion))
  {
    RecordsSitUnderTheirIds(events, c);
    ReplayKeepsRecords(events, c);
  }

  lemma {:induction false} RecordsStartUndeduped(events: Log, selfId: Option<Id>, isUnion: bool)
    ensures forall m :: m in Records(events, selfId, isUnion) ==> Records(events, selfId, isUnion)[m].dedupedBy.None?
  {
    if events != [] { RecordsStartUndeduped(events[..|events| - 1], selfId, isUnion); }
  }

  lemma OpenRecordsAgree(a: Log, b: Log, selfId: Option<Id>, isUnion: bool, m: Id)
    requires Causal(a) && Causal(b) && SameHistory(a, b)
    requires m in Records(a, selfId, isUnion) && Records(a, selfId, isUnion)[m].invalidAt.None?
    ensures m in Records(b, selfId, isUnion) && Records(b, selfId, isUnion)[m] == Records(a, selfId, isUnion)[m]
  {
    hide Records, LaneOf, ConsolidatedOnce, TargetsFollow;
    RecordsAreBorn(a, selfId, isUnion, m);
    var born :| born in a && Consolidates(born, m);
    RecordIsTold(a, selfId, isUnion, born);
    RecordIsTold(b, selfId, isUnion, born);
    ClosersMatch(a, selfId, b, selfId, isUnion, born);
  }

  /**
   * Two causal logs holding the same events in any order agree on the valid
   * memories, on every open record, and on the winner of every duplicate.
   */
  lemma LogsConverge(a: Log, b: Log, selfProjectId: Option<Id>)
    requires Causal(a) && Causal(b) && SameHistory(a, b)
    requires Prescan(a, selfProjectId).selfId == Prescan(b, selfProjectId).selfId
    requires Reduce(a, selfProjectId).Reduced? && Reduce(b, selfProjectId).Reduced?
    ensures ValidMemories(Reduce(a, selfProjectId)) == ValidMemories(Reduce(b, selfProjectId))
    ensures SameWinners(Reduce(a, selfProjectId), Reduce(b, selfProjectId))
    ensures forall m :: m in ValidMemories(Reduce(a, selfProjectId)) ==>
              Reduce(a, selfProjectId).state.memories[m] == Reduce(b, selfProjectId).state.memories[m]
  {
    hide Replay, Records, DedupKey, LaneOf, ConsolidatedOnce, TargetsFollow, Settled, Before;
    var c := Prescan(a, selfProjectId);
    SameGenesis(a, b);
    RecordsMatch(a, c.selfId, b, c.selfId, c.isUnion);
    var p, q := Records(a, c.selfId, c.isUnion), Records(b, c.selfId, c.isUnion);
    forall m | m in p && p[m].invalidAt.None? ensures p[m] == q[m] {
      OpenRecordsAgree(a, b, c.selfId, c.isUnion, m);
    }
    FinishAgrees(a, c, b, c);
    forall m | m in Valid(Dedupe(p)) ensures Dedupe(p)[m] == Dedupe(q)[m] {
      ValidIsUntouched(p, m);
      ValidIsUntouched(q, m);
    }
  }

  lemma ValidIsUntouched(memories: Memories, m: Id)
    requires m in Valid(Dedupe(memories))
    ensures m in memories && memories[m].invalidAt.None? && Dedupe(memories)[m] == memories[m]
  {
  }

  lemma DedupeAgrees(p: Memories, q: Memories)
    requires WellKeyed(p) && WellKeyed(q) && p.Keys == q.Keys
    requires forall m :: m in p ==> Matches(p[m], q[m]) && p[m].dedupedBy.None? && q[m].dedupedBy.None?
    requires forall m, n :: m in p && n in p && Competes(p[m]) && Competes(p[n]) ==>
               (DedupKey(p[m]) == DedupKey(p[n]) <==> DedupKey(q[m]) == DedupKey(q[n]))
    ensures Valid(Dedupe(p)) == Valid(Dedupe(q))
    ensures Dedupe(p).Keys == p.Keys && Dedupe(q).Keys == q.Keys
    ensures forall m :: m in p ==> Dedupe(p)[m].dedupedBy == Dedupe(q)[m].dedupedBy
  {
    hide DedupKey, Before, IsWinner, InGroup;
    DedupeMatches(p, q);
  }

  lemma FinishAgrees(a: Log, c: Context, b: Log, d: Context)
    requires Replay(a, c).Reduced? && Replay(b, d).Reduced?
    requires var p, q := Records(a, c.selfId, c.isUnion), Records(b, d.selfId, d.isUnion);
             && p.Keys == q.Keys
             && (forall m :: m in p ==> Matches(p[m], q[m]))
             && (forall m, n :: m in p && n in p && Competes(p[m]) && Competes(p[n]) ==>
                   (DedupKey(p[m]) == DedupKey(p[n]) <==> DedupKey(q[m]) == DedupKey(q[n])))
    ensures var p, q := Records(a, c.selfId, c.isUnion), Records(b, d.selfId, d.isUnion);
            && Replay(a, c).state.memories == p && Replay(b, d).state.memories == q
            && Valid(Dedupe(p)) == Valid(Dedupe(q))
            && Dedupe(p).Keys == p.Keys && Dedupe(q).Keys == q.Keys
            && (forall m :: m in p ==> Dedupe(p)[m].dedupedBy == Dedupe(q)[m].dedupedBy)
  {
    hide DedupKey, Replay, Before, Dedupe, Competes, Matches, Records, Valid, WellKeyed;
    var p, q := Records(a, c.selfId, c.isUnion), Records(b, d.selfId, d.isUnion);
    RecordsAreWellKeyed(a, c);
    RecordsAreWellKeyed(b, d);
    ReplayKeepsRecords(a, c);
    ReplayKeepsRecords(b, d);
    RecordsStartUndeduped(a, c.selfId, c.isUnion);
    RecordsStartUndeduped(b, d.selfId, d.isUnion);
    DedupeAgrees(p, q);
  }

  /** A log with one identity anchors itself the same way wherever its genesis sits. */
  lemma OneGenesisOneAnchor(a: Log, b: Log)
    requires SameHistory(a, b) && |GenesisIds(a)| <= 1
    ensures Prescan(a, None) == Prescan(b, None)
  {
    SameGenesis(a, b);
    var ids := GenesisIds(a);
    if ids != {} {
      var x, y := FirstGenesis(a).value, FirstGenesis(b).value;
      assert |ids - {x}| == |ids| - 1;
      assert y !in ids - {x};
    }
  }

  // --- one union log, two members -------------------------------------------------------

  /** The store an event comes from, in a union log. */
  function Origin(e: Event): Id {
    e.source.GetOr(e.projectId)
  }

  /** What minted ids look like: no separator of the dedup key, and no store called `self`. */
  ghost predicate CleanIds(log: Log) {
    forall e :: e in log && !Bookkeeping(e) ==>
      && Origin(e) != SELF_LANE && '\n' !in Origin(e)
      && (e.payload.MemoryConsolidated? ==>
            forall o :: o in e.payload.memory.sources ==> ',' !in o && '\n' !in o)
  }

  lemma UnionLanes(e: Event, f: Event, self: Id)
    requires Origin(e) != SELF_LANE && Origin(f) != SELF_LANE
    ensures LaneOf(e, Some(self), true) == LaneOf(f, Some(self), true) <==> Origin(e) == Origin(f)
  {
  }

  lemma KeysMatch(a: Log, selfA: Id, b: Log, selfB: Id, m: Id, n: Id)
    requires Causal(a) && Causal(b) && SameHistory(a, b) && CleanIds(a)
    requires var p, q := Records(a, Some(selfA), true), Records(b, Some(selfB), true);
             && m in p && n in p && m in q && n in q && Competes(p[m]) && Competes(p[n])
    ensures var p, q := Records(a, Some(selfA), true), Records(b, Some(selfB), true);
            DedupKey(p[m]) == DedupKey(p[n]) <==> DedupKey(q[m]) == DedupKey(q[n])
  {
    hide DedupKey, Records, ConsolidatedOnce, TargetsFollow, LaneOf;
    RecordsAreBorn(a, Some(selfA), true, m);
    RecordsAreBorn(a, Some(selfA), true, n);
    var x :| x in a && Consolidates(x, m);
    var y :| y in a && Consolidates(y, n);
    assert x in b && y in b;
    RecordIsTold(a, Some(selfA), true, x);
    RecordIsTold(a, Some(selfA), true, y);
    RecordIsTold(b, Some(selfB), true, x);
    RecordIsTold(b, Some(selfB), true, y);
    CleanLane(x, selfA);
    CleanLane(x, selfB);
    CleanLane(y, selfA);
    CleanLane(y, selfB);
    UnionLanes(x, y, selfA);
    UnionLanes(x, y, selfB);
    DedupKeyExact(Records(a, Some(selfA), true)[m], Records(a, Some(selfA), true)[n]);
    DedupKeyExact(Records(b, Some(selfB), true)[m], Records(b, Some(selfB), true)[n]);
  }

  lemma CleanLane(e: Event, self: Id)
    requires '\n' !in Origin(e)
    ensures '\n' !in LaneOf(e, Some(self), true)
  {
  }

  /**
   * Two members of a workspace hold the same union log but each calls its own lane
   * `self`. They still agree on the valid memories and on every dedup winner.
   */
  lemma UnionConvergence(a: Log, selfA: Id, b: Log, selfB: Id)
    requires Causal(a) && Causal(b) && SameHistory(a, b) && CleanIds(a)
    requires |GenesisIds(a)| > 1
    requires Reduce(a, Some(selfA)).Reduced? && Reduce(b, Some(selfB)).Reduced?
    ensures ValidMemories(Reduce(a, Some(selfA))) == ValidMemories(Reduce(b, Some(selfB)))
    ensures SameWinners(Reduce(a, Some(selfA)), Reduce(b, Some(selfB)))
  {
    hide Replay, Records, DedupKey, LaneOf, ConsolidatedOnce, TargetsFollow, Dedupe, Winner;
    SameGenesis(a, b);
    var c, d := Prescan(a, Some(selfA)), Prescan(b, Some(selfB));
    assert SameLanes(a, Some(selfA), Some(selfB), true) by {
      forall e, f | e in a && f in a && !Bookkeeping(e) && !Bookkeeping(f)
        ensures LaneOf(e, Some(selfA), true) == LaneOf(f, Some(selfA), true) <==>
                LaneOf(e, Some(selfB), true) == LaneOf(f, Some(selfB), true)
      {
        UnionLanes(e, f, selfA);
        UnionLanes(e, f, selfB);
      }
    }
    RecordsMatch(a, Some(selfA), b, Some(selfB), true);
    var p, q := Records(a, Some(selfA), true), Records(b, Some(selfB), true);
    forall m, n | m in p && n in p && Competes(p[m]) && Competes(p[n])
      ensures DedupKey(p[m]) == DedupKey(p[n]) <==> DedupKey(q[m]) == DedupKey(q[n])
    {
      KeysMatch(a, selfA, b, selfB, m, n);
    }
    FinishAgrees(a, c, b, d);
  }
}
