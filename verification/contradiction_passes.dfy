/** Contradiction passes over a growing log. */
module ContradictionPasses {
  import opened Events
  import opened Lanes
  import opened Dedup
  import opened Projector
  import opened Convergence
  import opened Contradictions
  import opened Sorting
  import opened Text

  /** The memories a replay leaves, dedup included. */
  ghost function Table(log: Log, self: Option<Id>): Memories
    requires Reduce(log, self).Reduced?
  {
    Reduce(log, self).state.memories
  }

  predicate OwnDecision(r: MemoryRecord) {
    r.source.None? && r.memory.kind.Decision?
  }

  /** The decisions of the store's own that are valid. */
  function OwnDecisions(table: Memories): (ids: set<Id>)
    ensures forall id :: id in ids <==> id in table && table[id].invalidAt.None? && OwnDecision(table[id])
  {
    set id | id in table && table[id].invalidAt.None? && OwnDecision(table[id])
  }

  /** A listing of the own valid decisions, in whatever order the database yields them. */
  ghost predicate Lists(decisions: seq<Memory>, table: Memories) {
    && Distinct(decisions)
    && (forall x :: x in decisions ==> x.id in OwnDecisions(table) && table[x.id].memory == x)
    && (forall id :: id in OwnDecisions(table) ==> table[id].memory in decisions)
  }

  /** One pass and the ids and times its rows will carry. */
  datatype Logged = Logged(pass: Pass, stamps: nat -> Stamp)

  function Found(p: Pass): seq<Supersession> {
    Detect(p.decisions, p.sim, p.threshold, p.maxPairs, p.judge)
  }

  function AfterPass(log: Log, p: Logged): Log {
    log + Rows(Found(p.pass), p.stamps)
  }

  function AfterPasses(log: Log, passes: seq<Logged>): Log
    decreases passes
  {
    if passes == [] then log else AfterPasses(AfterPass(log, passes[0]), passes[1..])
  }

  /** Each pass looks at the own decisions that are valid when its turn comes. */
  ghost predicate PassesOf(log: Log, self: Option<Id>, passes: seq<Logged>)
    decreases passes
  {
    passes != [] ==>
    && Reduce(log, self).Reduced?
    && Lists(passes[0].pass.decisions, Table(log, self))
    && PassesOf(AfterPass(log, passes[0]), self, passes[1..])
  }

  // --- the loop of the source ------------------------------------------------------------------------

  ghost predicate ListsAmong(decisions: seq<Memory>, table: Memories, seen: set<Id>) {
    && Distinct(decisions)
    && (forall x :: x in decisions ==> x.id in OwnDecisions(table) && x.id in seen && table[x.id].memory == x)
    && (forall id :: id in OwnDecisions(table) && id in seen ==> table[id].memory in decisions)
  }

  method ListOwnDecisions(table: Memories) returns (decisions: seq<Memory>)
    requires WellKeyed(table)
    ensures Lists(decisions, table)
  {
    hide Distinct;
    decisions := [];
    var rest := table.Keys;
    assert Distinct(decisions) by { NoneListed(); }
    while rest != {}
      invariant rest <= table.Keys
      invariant ListsAmong(decisions, table, table.Keys - rest)
    {
      var id :| id in rest;
      if table[id].invalidAt.None? && OwnDecision(table[id]) {
        OneMoreListed(decisions, table[id].memory);
        decisions := decisions + [table[id].memory];
      }
      rest := rest - {id};
    }
  }

  lemma NoneListed()
    ensures Distinct([])
  {
  }

  lemma OneMoreListed(decisions: seq<Memory>, m: Memory)
    ensures Distinct(decisions) && (forall x :: x in decisions ==> x.id != m.id) ==> Distinct(decisions + [m])
  {
  }

  /** One pass over a table: nothing to do with fewer than two own valid decisions. */
  method DetectInTable(table: Memories, sim: Similarity, threshold: real, maxPairs: nat, judge: Judge)
    returns (found: seq<Supersession>)
    requires WellKeyed(table)
    ensures exists decisions :: Lists(decisions, table) && found == Detect(decisions, sim, threshold, maxPairs, judge)
  {
    hide Detect, Lists;
    var decisions := ListOwnDecisions(table);
    if |decisions| < 2 {
      TooFewToContradict(decisions, sim, threshold, maxPairs, judge);
      return [];
    }
    found := DetectContradictions(decisions, sim, threshold, maxPairs, judge);
  }

  lemma TooFewToContradict(decisions: seq<Memory>, sim: Similarity, threshold: real, maxPairs: nat, judge: Judge)
    requires |decisions| < 2
    ensures Detect(decisions, sim, threshold, maxPairs, judge) == []
  {
    assert Pairs(decisions, sim, threshold, 0) == [];
  }

  // --- what a pass does to the records -----------------------------------------------------------

  predicate Supersede(e: Event) {
    e.payload.MemorySuperseded?
  }

  /** Rows neither stop a replay nor change what it anchors itself to. */
  lemma {:induction false} RowsKeepContext(log: Log, rows: Log, self: Option<Id>)
    requires forall e :: e in rows ==> Supersede(e)
    ensures Prescan(log + rows, self) == Prescan(log, self)
  {
    hide GenesisIds, FirstGenesis;
    if rows == [] {
      assert log + rows == log;
    } else {
      var n := |rows| - 1;
      assert log + rows == (log + rows[..n]) + [rows[n]];
      assert rows[n] in rows && forall e :: e in rows[..n] ==> e in rows;
      RowsKeepContext(log, rows[..n], self);
      GenesisOfLonger(log + rows[..n], rows[n]);
    }
  }

  lemma {:induction false} RowsReplay(log: Log, rows: Log, c: Context)
    requires forall e :: e in rows ==> Supersede(e)
    requires Replay(log, c).Reduced?
    ensures Replay(log + rows, c).Reduced?
  {
    hide NextTasks, NextSessions, NextHandoffs, NextMemories, NextMembers, NextObservations, NextProject, EventLane;
    if rows == [] {
      assert log + rows == log;
    } else {
      var n := |rows| - 1;
      assert (log + rows)[..|log + rows| - 1] == log + rows[..n];
      assert rows[n] in rows && forall e :: e in rows[..n] ==> e in rows;
      RowsReplay(log, rows[..n], c);
    }
  }

  lemma RowsSupersede(found: seq<Supersession>, stamps: nat -> Stamp)
    ensures forall e :: e in Rows(found, stamps) ==> Supersede(e)
  {
  }

  /** The records before dedup, as the replay of `log` leaves them. */
  ghost function Told(log: Log, self: Option<Id>): Memories {
    var c := Prescan(log, self);
    Records(log, c.selfId, c.isUnion)
  }

  lemma TableIsDeduped(log: Log, self: Option<Id>)
    requires Reduce(log, self).Reduced?
    ensures Table(log, self) == Dedupe(Told(log, self)) && WellKeyed(Told(log, self))
  {
    hide Replay, Records, Dedupe;
    var c := Prescan(log, self);
    ReplayKeepsRecords(log, c);
    RecordsAreWellKeyed(log, c);
  }

  predicate Loses(found: seq<Supersession>, m: Id) {
    exists i :: 0 <= i < |found| && found[i].loser.id == m
  }

  /** `after` is `before` with the losers of a pass closed. */
  ghost predicate ClosedBy(before: Memories, after: Memories, found: seq<Supersession>) {
    && after.Keys == before.Keys
    && forall m :: m in before ==>
         && after[m].memory == before[m].memory && after[m].source == before[m].source
         && (after[m].invalidAt.Some? <==> before[m].invalidAt.Some? || Loses(found, m))
  }

  lemma PassCloses(log: Log, self: Option<Id>, p: Logged)
    requires Reduce(log, self).Reduced?
    ensures Reduce(AfterPass(log, p), self).Reduced?
    ensures ClosedBy(Told(log, self), Told(AfterPass(log, p), self), Found(p.pass))
  {
    hide Records, Rows, Detect, Dedupe, Replay, Prescan;
    var c := Prescan(log, self);
    var rows := Rows(Found(p.pass), p.stamps);
    RowsSupersede(Found(p.pass), p.stamps);
    RowsKeepContext(log, rows, self);
    RowsReplay(log, rows, c);
    var before, after := Records(log, c.selfId, c.isUnion), Records(log + rows, c.selfId, c.isUnion);
    forall m ensures m in before <==> m in after {
      RecordsAreBorn(log, c.selfId, c.isUnion, m);
      RecordsAreBorn(log + rows, c.selfId, c.isUnion, m);
      RowsBearNothing(log, rows, m);
    }
    forall m | m in before
      ensures after[m].memory == before[m].memory && after[m].source == before[m].source
      ensures after[m].invalidAt.Some? <==> before[m].invalidAt.Some? || Loses(Found(p.pass), m)
    {
      LogClosesTheLosers(log, Found(p.pass), p.stamps, c.selfId, c.isUnion, m);
    }
  }

  lemma RowsBearNothing(log: Log, rows: Log, m: Id)
    requires forall e :: e in rows ==> Supersede(e)
    ensures Born(log + rows, m) <==> Born(log, m)
  {
    assert forall e :: e in log + rows <==> e in log || e in rows;
  }

  // --- the next table -------------------------------------------------------------------------------

  /** `m` is next in line in the group that `w` wins. */
  ghost predicate RunnerUp(memories: Memories, m: Id, w: Id) {
    && m in memories && Competes(memories[m]) && m != w
    && forall x :: InGroup(memories, DedupKey(memories[m]), x) && x != w && x != m ==> Before(memories[m], memories[x])
  }

  /** Only winners of groups, or memories without sources, are closed. */
  ghost predicate LosersWereValid(before: Memories, found: seq<Supersession>) {
    forall m :: Loses(found, m) ==> m in Valid(Dedupe(before))
  }

  lemma SameGroups(before: Memories, after: Memories, found: seq<Supersession>, key: string, m: Id)
    requires ClosedBy(before, after, found)
    ensures InGroup(after, key, m) <==> InGroup(before, key, m) && !Loses(found, m)
  {
    hide Loses, Normalized, SourcesText;
  }

  /**
   * After a pass exactly the losers have gone, and exactly their runners-up have come back.
   */
  lemma NextTableExactly(before: Memories, after: Memories, found: seq<Supersession>, m: Id)
    requires ClosedBy(before, after, found) && WellKeyed(before) && WellKeyed(after) && m in before
    requires LosersWereValid(before, found)
    ensures m in Valid(Dedupe(after)) <==>
            || (m in Valid(Dedupe(before)) && !Loses(found, m))
            || (m !in Valid(Dedupe(before)) && Competes(before[m]) && Loses(found, Winner(before, m)) &&
                RunnerUp(before, m, Winner(before, m)))
  {
    hide Loses, DedupKey, Before, Dedupe, Valid, Winner;
    GroupKeepsItsLeast(before, m);
    GroupKeepsItsLeast(after, m);
    if Competes(before[m]) {
      var key := DedupKey(before[m]);
      SameKey(before[m], after[m]);
      var w := Winner(before, m);
      WinnerFacts(before, m);
      forall x | x in before ensures InGroup(after, key, x) <==> InGroup(before, key, x) && !Loses(found, x) {
        SameGroups(before, after, found, key, x);
      }
      forall x | InGroup(before, key, x) && Loses(found, x) ensures x == w {
        OneValidPerGroup(before, key, x, m);
      }
      assert forall x, y :: x in before && y in before ==>
             (Before(after[x], after[y]) <==> Before(before[x], before[y])) by {
        forall x, y | x in before && y in before ensures Before(after[x], after[y]) <==> Before(before[x], before[y]) {
          SameOrder(before[x], after[x], before[y], after[y]);
        }
      }
    }
  }

  lemma SameKey(r: MemoryRecord, s: MemoryRecord)
    requires r.memory == s.memory && r.source == s.source
    ensures DedupKey(r) == DedupKey(s)
  {
  }

  lemma SameOrder(a: MemoryRecord, a': MemoryRecord, b: MemoryRecord, b': MemoryRecord)
    requires a.memory == a'.memory && b.memory == b'.memory
    ensures Before(a', b') <==> Before(a, b)
  {
  }

  lemma WinnerFacts(memories: Memories, m: Id)
    requires WellKeyed(memories) && m in memories && Competes(memories[m])
    ensures var w := Winner(memories, m);
            && InGroup(memories, DedupKey(memories[m]), w)
            && (w == m <==> m in Valid(Dedupe(memories)))
            && w in Valid(Dedupe(memories))
            && (forall x :: InGroup(memories, DedupKey(memories[m]), x) && x != w ==> Before(memories[w], memories[x]))
  {
    hide DedupKey, Less, Before;
    var w := Winner(memories, m);
    WinnerIsUnique(memories, DedupKey(memories[m]), Winner(memories, w), w);
    forall x | InGroup(memories, DedupKey(memories[m]), x) && x != w ensures Before(memories[w], memories[x]) {
      BeforeDecides(memories[w], memories[x]);
    }
  }

  lemma OneValidPerGroup(memories: Memories, key: string, x: Id, m: Id)
    requires WellKeyed(memories) && InGroup(memories, key, x) && InGroup(memories, key, m)
    requires x in Valid(Dedupe(memories))
    ensures x == Winner(memories, m)
  {
    hide DedupKey, Less, Before;
    WinnerIsUnique(memories, key, Winner(memories, m), Winner(memories, x));
  }

  // --- what a pass over a log can lose -----------------------------------------------------------------

  /**
   * Losers and winners are own decisions that were valid, the losers strictly older: no
   * foreign memory is ever closed.
   */
  lemma PassesTouchOwnOnly(log: Log, self: Option<Id>, p: Logged)
    requires Reduce(log, self).Reduced? && Lists(p.pass.decisions, Table(log, self))
    ensures forall e :: e in Rows(Found(p.pass), p.stamps) ==>
              e.payload.MemorySuperseded? && e.payload.supersedes in OwnDecisions(Table(log, self))
    ensures LosersWereValid(Told(log, self), Found(p.pass))
  {
    hide Detect, Reduce, Told, Older, Dedupe;
    TableIsDeduped(log, self);
    PassIsSound(p.pass.decisions, p.pass.sim, p.pass.threshold, p.pass.maxPairs, p.pass.judge);
  }

  /** The same pass, with every law of one pass over the log at hand. */
  lemma PassOverLog(log: Log, self: Option<Id>, p: Logged)
    requires Reduce(log, self).Reduced? && Lists(p.pass.decisions, Table(log, self))
    ensures Reduce(AfterPass(log, p), self).Reduced?
    ensures var before, after := Told(log, self), Told(AfterPass(log, p), self);
            && ClosedBy(before, after, Found(p.pass)) && LosersWereValid(before, Found(p.pass))
            && WellKeyed(before) && WellKeyed(after)
            && Table(log, self) == Dedupe(before) && Table(AfterPass(log, p), self) == Dedupe(after)
  {
    hide Reduce, Told, ClosedBy, LosersWereValid, Detect, Rows, Lists, Dedupe, Table;
    PassCloses(log, self, p);
    PassesTouchOwnOnly(log, self, p);
    TableIsDeduped(log, self);
    TableIsDeduped(AfterPass(log, p), self);
  }

  /** A pass over a log makes exactly the losers invalid, and exactly their runners-up valid again. */
  lemma PassMovesValidExactly(log: Log, self: Option<Id>, p: Logged, m: Id)
    requires Reduce(log, self).Reduced? && Lists(p.pass.decisions, Table(log, self)) && m in Told(log, self)
    ensures Reduce(AfterPass(log, p), self).Reduced?
    ensures var before := Told(log, self);
            m in Valid(Table(AfterPass(log, p), self)) <==>
            || (m in Valid(Table(log, self)) && !Loses(Found(p.pass), m))
            || (m !in Valid(Table(log, self)) && Competes(before[m]) && Loses(Found(p.pass), Winner(before, m)) &&
                RunnerUp(before, m, Winner(before, m)))
  {
    hide Reduce, Told, ClosedBy, LosersWereValid, Detect, Rows, Lists, Dedupe, Table, RunnerUp, Loses;
    PassOverLog(log, self, p);
    NextTableExactly(Told(log, self), Told(AfterPass(log, p), self), Found(p.pass), m);
  }

  // --- the newest decision, over any number of passes ----------------------------------------------------

  predicate SameGroup(memories: Memories, a: Id, b: Id) {
    a in memories && b in memories && Competes(memories[a]) && Competes(memories[b]) &&
      DedupKey(memories[a]) == DedupKey(memories[b])
  }

  /** No other own decision that is valid is newer. */
  ghost predicate IsNewestValid(table: Memories, m: Id) {
    m in OwnDecisions(table) && forall x :: x in OwnDecisions(table) ==> !Before(table[m], table[x])
  }

  /** An own decision no event has closed, newer than `m`, and not a duplicate of `m` itself. */
  ghost predicate IsThreat(told: Memories, m: Id, b: Id) {
    && m in told && b in told && told[b].invalidAt.None? && OwnDecision(told[b])
    && Before(told[m], told[b]) && !SameGroup(told, m, b)
  }

  ghost predicate Threatened(told: Memories, m: Id) {
    exists b :: IsThreat(told, m, b)
  }

  lemma TableTells(told: Memories, m: Id)
    requires m in Valid(Dedupe(told))
    ensures m in told && told[m].invalidAt.None? && Dedupe(told)[m] == told[m]
  {
  }

  /** One pass takes nothing from an unthreatened newest decision: it stays valid, newest and unthreatened. */
  lemma NewestOutlivesPass(log: Log, self: Option<Id>, p: Logged, m: Id)
    requires Reduce(log, self).Reduced? && Lists(p.pass.decisions, Table(log, self))
    requires IsNewestValid(Table(log, self), m) && !Threatened(Told(log, self), m)
    ensures Reduce(AfterPass(log, p), self).Reduced?
    ensures IsNewestValid(Table(AfterPass(log, p), self), m) && !Threatened(Told(AfterPass(log, p), self), m)
  {
    hide Reduce, Told, Detect, Rows, Dedupe, Table, Loses, DedupKey, Before, Valid, LosersWereValid, Threatened;
    var before, after := Told(log, self), Told(AfterPass(log, p), self);
    PassOverLog(log, self, p);
    var old', new' := Table(log, self), Table(AfterPass(log, p), self);
    OwnAreValid(old', m);
    TableTells(before, m);
    NewestDoesNotLose(log, self, p, m);
    NextTableExactly(before, after, Found(p.pass), m);
    OwnOfTable(before, after, Found(p.pass), m);
    forall x | x in OwnDecisions(new') ensures !Before(new'[m], new'[x]) {
      OwnAreValid(new', x);
      TableTells(after, x);
      NewerWasAThreat(before, after, Found(p.pass), m, x);
    }
    TableTells(after, m);
    NoNewThreat(before, after, Found(p.pass), m);
  }

  lemma NoNewThreat(before: Memories, after: Memories, found: seq<Supersession>, m: Id)
    requires ClosedBy(before, after, found) && m in after && after[m].invalidAt.None?
    ensures Threatened(after, m) ==> Threatened(before, m)
  {
    hide Loses, DedupKey, Before;
    if Threatened(after, m) {
      var b :| IsThreat(after, m, b);
      SameOrder(before[m], after[m], before[b], after[b]);
      SameKey(before[m], after[m]);
      SameKey(before[b], after[b]);
      assert IsThreat(before, m, b);
    }
  }

  lemma OwnAreValid(table: Memories, m: Id)
    requires m in OwnDecisions(table)
    ensures m in Valid(table)
  {
  }

  /** An own decision that a pass leaves valid is still listed as one. */
  lemma OwnOfTable(before: Memories, after: Memories, found: seq<Supersession>, m: Id)
    requires ClosedBy(before, after, found) && m in before && OwnDecision(before[m]) && m in Valid(Dedupe(after))
    ensures m in OwnDecisions(Dedupe(after)) && Dedupe(after)[m] == after[m]
  {
    hide Loses;
    TableTells(after, m);
  }

  lemma NewestDoesNotLose(log: Log, self: Option<Id>, p: Logged, m: Id)
    requires Reduce(log, self).Reduced? && Lists(p.pass.decisions, Table(log, self)) &&
             IsNewestValid(Table(log, self), m)
    ensures !Loses(Found(p.pass), m)
  {
    hide Reduce, Table, Detect, Before;
    var table := Table(log, self);
    PassIsSound(p.pass.decisions, p.pass.sim, p.pass.threshold, p.pass.maxPairs, p.pass.judge);
    if i :| 0 <= i < |Found(p.pass)| && Found(p.pass)[i].loser.id == m {
      var s := Found(p.pass)[i];
      assert s.loser in p.pass.decisions && s.winner in p.pass.decisions;
      OlderIsBefore(s.loser, table[m], s.winner, table[s.winner.id]);
    }
  }

  lemma OlderIsBefore(a: Memory, r: MemoryRecord, b: Memory, q: MemoryRecord)
    requires r.memory == a && q.memory == b
    ensures Older(a, b) <==> Before(r, q)
  {
  }

  lemma ValidAreApart(memories: Memories, a: Id, b: Id)
    requires WellKeyed(memories) && a != b && a in Valid(Dedupe(memories)) && b in Valid(Dedupe(memories))
    ensures !SameGroup(memories, a, b)
  {
    hide DedupKey, Before;
    GroupKeepsItsLeast(memories, a);
    GroupKeepsItsLeast(memories, b);
    BeforeDecides(memories[a], memories[b]);
  }

  /** A valid own decision newer than `m` was no duplicate of `m`, and open all along. */
  lemma NewerWasAThreat(before: Memories, after: Memories, found: seq<Supersession>, m: Id, x: Id)
    requires ClosedBy(before, after, found) && WellKeyed(after)
    requires m in Valid(Dedupe(after)) && x in Valid(Dedupe(after)) && m in after && x in after && OwnDecision(after[x])
    ensures Before(after[m], after[x]) ==> Threatened(before, m)
  {
    hide Loses, DedupKey, Before, Dedupe, Valid;
    TableTells(after, x);
    SameOrder(before[m], after[m], before[x], after[x]);
    if Before(after[m], after[x]) {
      BeforeDecides(after[m], after[m]);
      ValidAreApart(after, m, x);
      TableTells(after, m);
      SameKey(before[m], after[m]);
      SameKey(before[x], after[x]);
      assert IsThreat(before, m, x);
    }
  }

  /** Over any number of passes an unthreatened newest decision stays valid. */
  lemma {:induction false} NewestOutlivesPasses(log: Log, self: Option<Id>, passes: seq<Logged>, m: Id)
    requires Reduce(log, self).Reduced? && PassesOf(log, self, passes)
    requires IsNewestValid(Table(log, self), m) && !Threatened(Told(log, self), m)
    ensures Reduce(AfterPasses(log, passes), self).Reduced?
    ensures m in Valid(Table(AfterPasses(log, passes), self))
    decreases passes
  {
    hide Reduce, Told, Detect, Rows, Dedupe, Table, Threatened, Lists;
    if passes == [] {
      OwnAreValid(Table(log, self), m);
    } else {
      NewestOutlivesPass(log, self, passes[0], m);
      NewestOutlivesPasses(AfterPass(log, passes[0]), self, passes[1..], m);
    }
  }

  // --- a pass that finds one chosen pair --------------------------------------------------------------------

  function PairSim(x: Id, y: Id): Similarity {
    (p: Id, q: Id) => if (p == x && q == y) || (p == y && q == x) then Some(1.0) else None
  }

  function PairJudge(x: Id, y: Id): Judge {
    _ => Some([Verdict(x, y, true)])
  }

  const THRESHOLD: real := 0.5
  const MAX_PAIRS: nat := 20

  lemma {:induction false} RowOfPair(decisions: seq<Memory>, x: Id, y: Id, i: nat, j: nat, row: nat, n: nat)
    requires Distinct(decisions) && i < j < |decisions| && row < n <= |decisions|
    requires (decisions[i].id == x && decisions[j].id == y) || (decisions[i].id == y && decisions[j].id == x)
    ensures RowOfPairs(decisions, PairSim(x, y), THRESHOLD, row, n) ==
            if row == i && n > j then [Candidate(decisions[i], decisions[j], 1.0)] else []
    decreases n
  {
    if n > row + 1 { RowOfPair(decisions, x, y, i, j, row, n - 1); }
  }

  lemma {:induction false} PairsOfPair(decisions: seq<Memory>, x: Id, y: Id, i: nat, j: nat, n: nat)
    requires Distinct(decisions) && i < j < |decisions| && n <= |decisions|
    requires (decisions[i].id == x && decisions[j].id == y) || (decisions[i].id == y && decisions[j].id == x)
    ensures Pairs(decisions, PairSim(x, y), THRESHOLD, n) ==
            if n > i then [Candidate(decisions[i], decisions[j], 1.0)] else []
  {
    hide RowOfPairs, Distinct;
    if n > 0 {
      PairsOfPair(decisions, x, y, i, j, n - 1);
      RowOfPair(decisions, x, y, i, j, n - 1, |decisions|);
    }
  }

  lemma PairKeySymmetric(x: Id, y: Id)
    requires x != y
    ensures PairKey(x, y) == PairKey(y, x)
  {
    LessTotal(x, y);
    if Less(x, y) { LessAsymmetric(x, y); } else { LessAsymmetric(y, x); }
  }

  lemma OneCandidate(c: Candidate, x: Id, y: Id)
    requires x != y && ((c.a.id == x && c.b.id == y) || (c.a.id == y && c.b.id == x))
    ensures SortBy([c], MoreSimilar) == [c]
    ensures Resolve([c], [Verdict(x, y, true)]) == [OrderByRecency(c.a, c.b)]
  {
    assert [c][1..] == [] && [c][..0] == [];
    PairKeySymmetric(x, y);
    assert Resolve([], [Verdict(x, y, true)]) == [];
  }

  lemma OneOrder(a: Memory, m: Memory)
    requires Older(a, m) && a.id != m.id
    ensures OrderByRecency(a, m) == Supersession(a, m) && OrderByRecency(m, a) == Supersession(a, m)
  {
    BeforeDecides(FreshRecord(a, SELF_LANE), FreshRecord(m, SELF_LANE));
  }

  function PairPass(decisions: seq<Memory>, x: Id, y: Id): Pass {
    Pass(decisions, PairSim(x, y), THRESHOLD, MAX_PAIRS, PairJudge(x, y))
  }

  /** Any older and any newer decision of a listing can be what a pass finds, and all it finds. */
  lemma PassFindsPair(decisions: seq<Memory>, a: Memory, m: Memory)
    requires Distinct(decisions) && a in decisions && m in decisions && a.id != m.id && Older(a, m)
    ensures Found(PairPass(decisions, a.id, m.id)) == [Supersession(a, m)]
  {
    hide Distinct, Older, SortBy, Pairs, Resolve, OrderByRecency;
    var p :| 0 <= p < |decisions| && decisions[p] == a;
    var q :| 0 <= q < |decisions| && decisions[q] == m;
    var i, j := if p < q then p else q, if p < q then q else p;
    PairsOfPair(decisions, a.id, m.id, i, j, |decisions|);
    var c := Candidate(decisions[i], decisions[j], 1.0);
    OneCandidate(c, a.id, m.id);
    OneOrder(a, m);
    assert Capped(decisions, PairSim(a.id, m.id), THRESHOLD, MAX_PAIRS) == [c];
  }

  lemma {:induction false} DecisionsCanBeListed(table: Memories, ids: set<Id>) returns (decisions: seq<Memory>)
    requires WellKeyed(table) && ids <= OwnDecisions(table)
    ensures Distinct(decisions)
    ensures forall x :: x in decisions ==> x.id in ids && table[x.id].memory == x
    ensures forall id :: id in ids ==> table[id].memory in decisions
    decreases ids
  {
    if ids == {} {
      decisions := [];
    } else {
      var id :| id in ids;
      var rest := DecisionsCanBeListed(table, ids - {id});
      decisions := rest + [table[id].memory];
      forall i, j | 0 <= i < j < |decisions| ensures decisions[i].id != decisions[j].id {
        assert rest[i] in rest;
      }
    }
  }

  /** A pass over the log that finds exactly `a` contradicted by `m`. */
  lemma ChoosePass(log: Log, self: Option<Id>, a: Id, m: Id, stamps: nat -> Stamp) returns (p: Logged)
    requires Reduce(log, self).Reduced? && WellKeyed(Table(log, self))
    requires var table := Table(log, self);
             a in OwnDecisions(table) && m in OwnDecisions(table) && Before(table[a], table[m])
    ensures Lists(p.pass.decisions, Table(log, self)) && p.stamps == stamps
    ensures Found(p.pass) == [Supersession(Table(log, self)[a].memory, Table(log, self)[m].memory)]
  {
    hide Reduce, Table, Detect, Before, PairPass;
    var table := Table(log, self);
    var decisions := DecisionsCanBeListed(table, OwnDecisions(table));
    BeforeDecides(table[a], table[a]);
    OlderIsBefore(table[a].memory, table[a], table[m].memory, table[m]);
    PassFindsPair(decisions, table[a].memory, table[m].memory);
    p := Logged(PairPass(decisions, a, m), stamps);
    assert p.pass.decisions == decisions by { ListingOfPair(decisions, a, m); }
  }

  lemma ListingOfPair(decisions: seq<Memory>, x: Id, y: Id)
    ensures PairPass(decisions, x, y).decisions == decisions
  {
  }

  // --- a threatened decision can lose -------------------------------------------------------------------------

  ghost predicate CleanTold(told: Memories) {
    forall m :: m in told ==> CleanRecord(told[m])
  }

  lemma DedupedIsWellKeyed(memories: Memories)
    requires WellKeyed(memories)
    ensures WellKeyed(Dedupe(memories))
  {
    hide Winner, DedupKey;
  }

  /** The own lane is never written out as a source. */
  ghost predicate NamesLanes(told: Memories) {
    forall m :: m in told ==> told[m].source != Some(SELF_LANE)
  }

  lemma {:induction false} RecordsNameLanes(log: Log, selfId: Option<Id>, isUnion: bool)
    ensures NamesLanes(Records(log, selfId, isUnion))
  {
    hide LaneOf;
    if log != [] { RecordsNameLanes(log[..|log| - 1], selfId, isUnion); }
  }

  /** A memory that lost the dedup pass has an own valid decision as its winner if it is an own decision. */
  lemma WinnerIsOwn(told: Memories, b: Id)
    requires WellKeyed(told) && CleanTold(told) && NamesLanes(told) && b in told && OwnDecision(told[b]) &&
             told[b].invalidAt.None?
    requires b !in Valid(Dedupe(told))
    ensures Competes(told[b]) && Winner(told, b) != b
    ensures Winner(told, b) in OwnDecisions(Dedupe(told)) && SameGroup(told, Winner(told, b), b)
  {
    hide Normalized, DedupKey, Before;
    GroupKeepsItsLeast(told, b);
    var a := Winner(told, b);
    WinnerFacts(told, b);
    TableTells(told, a);
    DedupKeyExact(told[a], told[b]);
    assert told[a].source.None? by { LaneOfSource(told[a]); }
  }

  lemma LaneOfSource(r: MemoryRecord)
    requires r.Lane() == SELF_LANE && r.source != Some(SELF_LANE)
    ensures r.source.None?
  {
  }

  /** What `m` needs to be known of a log for the argument below. */
  ghost predicate Ready(log: Log, self: Option<Id>, m: Id) {
    && Reduce(log, self).Reduced?
    && CleanTold(Told(log, self))
    && m in OwnDecisions(Table(log, self))
  }

  lemma ReadyFacts(log: Log, self: Option<Id>, m: Id)
    requires Ready(log, self, m)
    ensures var told := Told(log, self);
            && Table(log, self) == Dedupe(told) && WellKeyed(told) && WellKeyed(Table(log, self)) && NamesLanes(told)
            && m in Valid(Dedupe(told)) && m in told && OwnDecision(told[m]) && told[m].invalidAt.None? &&
                 Table(log, self)[m] == told[m]
  {
    hide Reduce, Table, Records;
    TableIsDeduped(log, self);
    DedupedIsWellKeyed(Told(log, self));
    var c := Prescan(log, self);
    RecordsNameLanes(log, c.selfId, c.isUnion);
    OwnAreValid(Table(log, self), m);
    TableTells(Told(log, self), m);
  }

  /** Closing `a` leaves another own decision and its threat where they were. */
  lemma ThreatRemains(log: Log, self: Option<Id>, p: Logged, m: Id, b: Id, a: Id)
    requires Ready(log, self, m) && Lists(p.pass.decisions, Table(log, self))
    requires IsThreat(Told(log, self), m, b) && a != m && a != b
    requires forall x :: Loses(Found(p.pass), x) <==> x == a
    ensures Ready(AfterPass(log, p), self, m) && IsThreat(Told(AfterPass(log, p), self), m, b)
  {
    hide Reduce, Told, Detect, Rows, Dedupe, Table, Loses, DedupKey, Before, Valid, LosersWereValid, Lists;
    var before, after := Told(log, self), Told(AfterPass(log, p), self);
    PassOverLog(log, self, p);
    ReadyFacts(log, self, m);
    NextTableExactly(before, after, Found(p.pass), m);
    OwnOfTable(before, after, Found(p.pass), m);
    SameOrder(before[m], after[m], before[b], after[b]);
    SameKey(before[m], after[m]);
    SameKey(before[b], after[b]);
    StaysClean(before, after, Found(p.pass));
  }

  lemma StaysClean(before: Memories, after: Memories, found: seq<Supersession>)
    requires ClosedBy(before, after, found) && CleanTold(before)
    ensures CleanTold(after)
  {
    hide Loses;
  }

  function Open(told: Memories): set<Id> {
    set m | m in told && told[m].invalidAt.None?
  }

  lemma OpenShrinks(before: Memories, after: Memories, found: seq<Supersession>, a: Id)
    requires ClosedBy(before, after, found) && a in before && before[a].invalidAt.None? && Loses(found, a)
    ensures Open(after) < Open(before)
  {
    hide Loses;
    assert a in Open(before) && a !in Open(after);
  }

  lemma OneLoser(a: Memory, m: Memory)
    ensures forall x :: Loses([Supersession(a, m)], x) <==> x == a.id
  {
    assert [Supersession(a, m)][0].loser == a;
  }

  function LongerThanAll(log: Log): (id: Id)
    ensures forall e :: e in log ==> |e.id| < |id|
  {
    if log == [] then "x" else LongerThanAll(log[..|log| - 1]) + log[|log| - 1].id
  }

  /** An id no row of the log has, and the store's own project. */
  function FreshStamps(log: Log, self: Option<Id>): nat -> Stamp {
    (n: nat) => Stamp(LongerThanAll(log), "", self.GetOr(""), self.GetOr(""), "")
  }

  lemma OneRowIsFresh(log: Log, self: Option<Id>, p: Logged, s: Supersession)
    requires UniqueIds(log) && Found(p.pass) == [s] && p.stamps == FreshStamps(log, self)
    ensures UniqueIds(AfterPass(log, p))
  {
    hide Found;
    assert [s][..0] == [];
    var rows := Rows([s], p.stamps);
    assert |rows| == 1 && rows[0].id == LongerThanAll(log);
    assert forall i :: 0 <= i < |log| ==> log[i] in log;
  }

  /** If some own valid decision is newer than `m`, one pass can close `m`. */
  lemma NewerCanClose(log: Log, self: Option<Id>, m: Id, x: Id) returns (p: Logged)
    requires Ready(log, self, m) && x in OwnDecisions(Table(log, self)) &&
             Before(Table(log, self)[m], Table(log, self)[x])
    requires UniqueIds(log)
    ensures Lists(p.pass.decisions, Table(log, self)) && UniqueIds(AfterPass(log, p))
    ensures Reduce(AfterPass(log, p), self).Reduced? && m !in Valid(Table(AfterPass(log, p), self))
  {
    hide Reduce, Told, Detect, Rows, Dedupe, Table, Loses, Before, Lists, Valid, RunnerUp, Winner, Found;
    ReadyFacts(log, self, m);
    p := ChoosePass(log, self, m, x, FreshStamps(log, self));
    OneRowIsFresh(log, self, p, Supersession(Table(log, self)[m].memory, Table(log, self)[x].memory));
    OneLoser(Table(log, self)[m].memory, Table(log, self)[x].memory);
    PassMovesValidExactly(log, self, p, m);
  }

  ghost predicate Unseats(log: Log, self: Option<Id>, passes: seq<Logged>, m: Id) {
    && PassesOf(log, self, passes) && UniqueIds(AfterPasses(log, passes))
    && Reduce(AfterPasses(log, passes), self).Reduced?
    && m !in Valid(Table(AfterPasses(log, passes), self))
  }

  lemma UnseatsFirst(log: Log, self: Option<Id>, p: Logged, m: Id)
    requires Reduce(log, self).Reduced? && Lists(p.pass.decisions, Table(log, self))
    requires Reduce(AfterPass(log, p), self).Reduced? && m !in Valid(Table(AfterPass(log, p), self))
    requires UniqueIds(AfterPass(log, p))
    ensures Unseats(log, self, [p], m)
  {
    hide UniqueIds, Reduce, AfterPass, Lists, Table, Valid;
    assert [p][1..] == [];
    assert PassesOf(AfterPass(log, p), self, []);
    assert AfterPasses(log, [p]) == AfterPasses(AfterPass(log, p), []) == AfterPass(log, p);
  }

  lemma UnseatsLater(log: Log, self: Option<Id>, p: Logged, rest: seq<Logged>, m: Id)
    requires Reduce(log, self).Reduced? && Lists(p.pass.decisions, Table(log, self))
    requires Unseats(AfterPass(log, p), self, rest, m)
    ensures Unseats(log, self, [p] + rest, m)
  {
    hide Reduce, AfterPass, Lists, Table, Valid;
    assert ([p] + rest)[0] == p && ([p] + rest)[1..] == rest;
  }

  /** While a threat is open, passes can unseat `m`: they reopen the threat's group one winner at a time. */
  lemma {:induction false} ThreatUnseats(log: Log, self: Option<Id>, m: Id, b: Id) returns (passes: seq<Logged>)
    requires UniqueIds(log) && Ready(log, self, m) && IsThreat(Told(log, self), m, b)
    ensures Unseats(log, self, passes, m)
    decreases Open(Told(log, self))
  {
    hide UniqueIds, Reduce, Told, Detect, Rows, Dedupe, Table, Loses, Before, Lists, Valid, RunnerUp, Winner, Found,
         Unseats, DedupKey, AfterPass, CleanRecord, Open, FreshStamps;
    var table, told := Table(log, self), Told(log, self);
    ReadyFacts(log, self, m);
    if x :| x in OwnDecisions(table) && Before(table[m], table[x]) {
      var p := NewerCanClose(log, self, m, x);
      UnseatsFirst(log, self, p, m);
      passes := [p];
    } else {
      ThreatIsBeaten(log, self, m, b);
      var a := Winner(told, b);
      WinnerIsOwn(told, b);
      OwnAreValid(table, a);
      TableTells(told, a);
      var p := ChoosePass(log, self, a, m, FreshStamps(log, self));
      OneRowIsFresh(log, self, p, Supersession(table[a].memory, table[m].memory));
      OneLoser(table[a].memory, table[m].memory);
      PassOverLog(log, self, p);
      OpenShrinks(told, Told(AfterPass(log, p), self), Found(p.pass), a);
      ThreatRemains(log, self, p, m, b, a);
      var rest := ThreatUnseats(AfterPass(log, p), self, m, b);
      UnseatsLater(log, self, p, rest, m);
      passes := [p] + rest;
    }
  }

  /** A threat to the newest valid decision lost the dedup pass, to an older decision that is not `m`. */
  lemma ThreatIsBeaten(log: Log, self: Option<Id>, m: Id, b: Id)
    requires Ready(log, self, m) && IsThreat(Told(log, self), m, b)
    requires forall x :: x in OwnDecisions(Table(log, self)) ==> !Before(Table(log, self)[m], Table(log, self)[x])
    ensures var told, table := Told(log, self), Table(log, self);
            && b !in Valid(Dedupe(told)) && Competes(told[b])
            && var a := Winner(told, b); a != m && a != b && a in OwnDecisions(table) && Before(table[a], table[m])
  {
    hide Reduce, Told, Dedupe, Table, Before, Valid, Winner, DedupKey, CleanRecord;
    var table, told := Table(log, self), Told(log, self);
    ReadyFacts(log, self, m);
    assert b !in Valid(Dedupe(told)) by { OwnIfValid(told, b); }
    WinnerIsOwn(told, b);
    var a := Winner(told, b);
    WinnerFacts(told, b);
    TableTells(told, a);
    BeforeDecides(table[a], table[m]);
  }

  lemma OwnIfValid(told: Memories, b: Id)
    requires b in told && OwnDecision(told[b])
    ensures b in Valid(Dedupe(told)) ==> b in OwnDecisions(Dedupe(told)) && Dedupe(told)[b] == told[b]
  {
    if b in Valid(Dedupe(told)) { TableTells(told, b); }
  }

  ghost predicate StaysValid(log: Log, self: Option<Id>, passes: seq<Logged>, m: Id) {
    Reduce(AfterPasses(log, passes), self).Reduced? && m in Valid(Table(AfterPasses(log, passes), self))
  }

  /**
   * The newest valid decision stays valid over every sequence of passes exactly when no own
   * decision that is still open, dedup losers included, is newer without being its duplicate.
   * The rows of the passes carry fresh ids.
   */
  lemma NewestSurvivesExactly(log: Log, self: Option<Id>, m: Id)
    requires UniqueIds(log)
    requires Reduce(log, self).Reduced? && CleanTold(Told(log, self)) && IsNewestValid(Table(log, self), m)
    ensures (forall passes :: PassesOf(log, self, passes) && UniqueIds(AfterPasses(log, passes)) ==>
               StaysValid(log, self, passes, m)) <==>
            !Threatened(Told(log, self), m)
  {
    hide UniqueIds, Reduce, Told, Table, PassesOf, Valid;
    if Threatened(Told(log, self), m) {
      var b :| IsThreat(Told(log, self), m, b);
      var passes := ThreatUnseats(log, self, m, b);
      assert PassesOf(log, self, passes) && UniqueIds(AfterPasses(log, passes)) && !StaysValid(log, self, passes, m);
    } else {
      forall passes | PassesOf(log, self, passes) ensures StaysValid(log, self, passes, m) {
        NewestOutlivesPasses(log, self, passes, m);
      }
    }
  }

  // --- an input on which the newest valid decision loses ----------------------------------------------------------

  function Decided(id: Id, text: string, source: Id, at: Time): Memory {
    Memory(id, Decision, text, 1, None, [source], at)
  }

  /** The statement made first, its later duplicate, and what contradicts both in between. */
  const FIRST: Memory := Decided("mem_a", "use sqlite", "obs_1", "t1")
  const AGAIN: Memory := Decided("mem_b", "use sqlite", "obs_1", "t5")
  const NEWEST: Memory := Decided("mem_m", "use postgres", "obs_2", "t3")

  const SELF: Option<Id> := Some("proj_a")

  function BirthOf(id: Id, m: Memory): Event {
    Event(id, m.createdAt, "proj_a", "proj_a", None, SELF, MemoryConsolidated(m))
  }

  const THREE_BORN: Log := [BirthOf("evt_1", FIRST), BirthOf("evt_2", AGAIN), BirthOf("evt_3", NEWEST)]

  const THREE: Memories :=
    map["mem_a" := FreshRecord(FIRST, SELF_LANE), "mem_b" := FreshRecord(AGAIN, SELF_LANE),
      "mem_m" := FreshRecord(NEWEST, SELF_LANE)]

  lemma {:induction false} BirthsReplay(log: Log, c: Context)
    requires forall e :: e in log ==> e.payload.MemoryConsolidated?
    ensures Replay(log, c).Reduced?
  {
    hide NextTasks, NextSessions, NextHandoffs, NextMemories, NextMembers, NextObservations, EventLane;
    if log != [] { BirthsReplay(log[..|log| - 1], c); }
  }

  lemma {:induction false} BirthRecords(log: Log, e: Event, isUnion: bool)
    requires e.payload.MemoryConsolidated? && e.source == SELF
    ensures Records(log + [e], SELF, isUnion) ==
            Records(log, SELF, isUnion)[e.payload.memory.id := FreshRecord(e.payload.memory, SELF_LANE)]
  {
    assert (log + [e])[..|log|] == log;
  }

  lemma ThreeTold()
    ensures Reduce(THREE_BORN, SELF).Reduced? && Told(THREE_BORN, SELF) == THREE
  {
    hide Records, FreshRecord, Finish, Replay, Prescan;
    var c := Prescan(THREE_BORN, SELF);
    assert c.selfId == SELF by { SelfIsAnchor(THREE_BORN); }
    BirthsReplay(THREE_BORN, c);
    BirthRecords([], BirthOf("evt_1", FIRST), c.isUnion);
    BirthRecords([BirthOf("evt_1", FIRST)], BirthOf("evt_2", AGAIN), c.isUnion);
    BirthRecords([BirthOf("evt_1", FIRST), BirthOf("evt_2", AGAIN)], BirthOf("evt_3", NEWEST), c.isUnion);
    NothingTold(c.isUnion);
    assert [] + [BirthOf("evt_1", FIRST)] == [BirthOf("evt_1", FIRST)];
    assert [BirthOf("evt_1", FIRST)] + [BirthOf("evt_2", AGAIN)] == [BirthOf("evt_1", FIRST), BirthOf("evt_2", AGAIN)];
    assert [BirthOf("evt_1", FIRST), BirthOf("evt_2", AGAIN)] + [BirthOf("evt_3", NEWEST)] == THREE_BORN;
  }

  lemma NothingTold(isUnion: bool)
    ensures Records([], SELF, isUnion) == map[]
  {
  }

  lemma SelfIsAnchor(log: Log)
    ensures Prescan(log, SELF).selfId == SELF
  {
  }

  lemma Times()
    ensures Less("t1", "t3") && Less("t3", "t5") && Less("t1", "t5") && !Less("t3", "t1")
  {
    assert "t1"[1..] == "1" && "t3"[1..] == "3" && "t5"[1..] == "5";
    assert Less("1", "3") && Less("3", "5") && Less("1", "5") && !Less("3", "1");
  }

  lemma ThreeOrder()
    ensures WellKeyed(THREE) && CleanTold(THREE)
    ensures Before(THREE["mem_a"], THREE["mem_m"]) && Before(THREE["mem_m"], THREE["mem_b"]) &&
            Before(THREE["mem_a"], THREE["mem_b"])
    ensures !Before(THREE["mem_m"], THREE["mem_a"]) && !Before(THREE["mem_m"], THREE["mem_m"])
  {
    hide Less;
    Times();
    BeforeDecides(THREE["mem_m"], THREE["mem_m"]);
  }

  lemma ThreeGroups()
    ensures DedupKey(THREE["mem_a"]) == DedupKey(THREE["mem_b"]) != DedupKey(THREE["mem_m"])
  {
    hide Normalized;
    var a, m := THREE["mem_a"], THREE["mem_m"];
    assert "obs_1" in multiset(a.memory.sources) && "obs_1" !in multiset(m.memory.sources);
    DedupKeyExact(a, m);
  }

  lemma ThreeValid()
    ensures IsNewestValid(Dedupe(THREE), "mem_m")
  {
    hide DedupKey, Before, Dedupe;
    ThreeOrder();
    ThreeGroups();
    GroupKeepsItsLeast(THREE, "mem_a");
    GroupKeepsItsLeast(THREE, "mem_b");
    GroupKeepsItsLeast(THREE, "mem_m");
    BeforeDecides(THREE["mem_a"], THREE["mem_b"]);
    assert InGroup(THREE, DedupKey(THREE["mem_b"]), "mem_a") && "mem_b" !in Valid(Dedupe(THREE));
    var table := Dedupe(THREE);
    TableTells(THREE, "mem_m");
    forall x | x in OwnDecisions(table) ensures !Before(table["mem_m"], table[x]) {
      OwnAreValid(table, x);
      TableTells(THREE, x);
      assert x == "mem_a" || x == "mem_m";
    }
  }

  /**
   * Two decisions that say the same and one in between that contradicts them: the middle one is
   * the newest valid decision, and passes unseat it in favour of the duplicate it had beaten.
   */
  lemma RevivedDuplicateUnseats()
    ensures Reduce(THREE_BORN, SELF).Reduced? && IsNewestValid(Table(THREE_BORN, SELF), "mem_m")
    ensures exists passes :: Unseats(THREE_BORN, SELF, passes, "mem_m")
  {
    hide Reduce, Told, Table, DedupKey, Before, Dedupe, Unseats;
    ThreeTold();
    ThreeOrder();
    ThreeGroups();
    ThreeValid();
    TableIsDeduped(THREE_BORN, SELF);
    assert IsThreat(THREE, "mem_m", "mem_b");
    var passes := ThreatUnseats(THREE_BORN, SELF, "mem_m", "mem_b");
  }

  /** On the same log, closing the first statement brings its duplicate back. */
  lemma DuplicateComesBack()
    ensures Reduce(THREE_BORN, SELF).Reduced? && "mem_b" !in Valid(Table(THREE_BORN, SELF))
    ensures exists p: Logged ::
              && Lists(p.pass.decisions, Table(THREE_BORN, SELF)) && Reduce(AfterPass(THREE_BORN, p), SELF).Reduced?
              && UniqueIds(AfterPass(THREE_BORN, p)) && Loses(Found(p.pass), "mem_a") &&
                   "mem_b" in Valid(Table(AfterPass(THREE_BORN, p), SELF))
  {
    hide Reduce, Told, Table, DedupKey, Before, Dedupe, Valid, Lists, Loses, Found, AfterPass, Winner;
    ThreeTold();
    ThreeOrder();
    ThreeGroups();
    TableIsDeduped(THREE_BORN, SELF);
    ThreeDuplicate();
    var p := ChoosePass(THREE_BORN, SELF, "mem_a", "mem_m", FreshStamps(THREE_BORN, SELF));
    OneRowIsFresh(THREE_BORN, SELF, p,
      Supersession(Table(THREE_BORN, SELF)["mem_a"].memory, Table(THREE_BORN, SELF)["mem_m"].memory));
    OneLoser(Table(THREE_BORN, SELF)["mem_a"].memory, Table(THREE_BORN, SELF)["mem_m"].memory);
    PassMovesValidExactly(THREE_BORN, SELF, p, "mem_b");
  }

  lemma ThreeDuplicate()
    ensures WellKeyed(Dedupe(THREE))
    ensures "mem_a" in OwnDecisions(Dedupe(THREE)) && "mem_m" in OwnDecisions(Dedupe(THREE)) &&
            "mem_b" !in Valid(Dedupe(THREE))
    ensures Dedupe(THREE)["mem_a"] == THREE["mem_a"] && Dedupe(THREE)["mem_m"] == THREE["mem_m"]
    ensures Competes(THREE["mem_b"]) && Winner(THREE, "mem_b") == "mem_a" && RunnerUp(THREE, "mem_b", "mem_a")
  {
    hide DedupKey, Before, Dedupe, Valid, Winner;
    ThreeOrder();
    ThreeGroups();
    DedupedIsWellKeyed(THREE);
    GroupKeepsItsLeast(THREE, "mem_a");
    GroupKeepsItsLeast(THREE, "mem_m");
    OwnIfValid(THREE, "mem_a");
    OwnIfValid(THREE, "mem_m");
    WinnerFacts(THREE, "mem_a");
    WinnerFacts(THREE, "mem_b");
    BeforeDecides(THREE["mem_a"], THREE["mem_b"]);
  }
}
