/** Resolving contradictions between decisions: the newer statement supersedes the older. */
module Contradictions {
  import opened Events
  import opened Lanes
  import opened Dedup
  import opened Sorting
  import opened Text
  import opened Projector
  import opened Convergence

  datatype Candidate = Candidate(a: Memory, b: Memory, sim: real)

  datatype Verdict = Verdict(aId: Id, bId: Id, contradicts: bool)

  datatype Supersession = Supersession(loser: Memory, winner: Memory)

  /** `(createdAt, id)` ascending, the order of the dedup pass. */
  predicate Older(a: Memory, b: Memory) {
    Before(FreshRecord(a, SELF_LANE), FreshRecord(b, SELF_LANE))
  }

  function OrderByRecency(a: Memory, b: Memory): (s: Supersession)
    ensures a.id != b.id ==> Older(s.loser, s.winner)
    ensures (s.loser == a && s.winner == b) || (s.loser == b && s.winner == a)
  {
    BeforeDecides(FreshRecord(a, SELF_LANE), FreshRecord(b, SELF_LANE));
    if a.createdAt != b.createdAt then
      if Less(a.createdAt, b.createdAt) then Supersession(a, b) else Supersession(b, a)
    else if Less(a.id, b.id) then Supersession(a, b)
    else Supersession(b, a)
  }

  function PairKey(x: Id, y: Id): string {
    if Less(x, y) then x + "|" + y else y + "|" + x
  }

  /** The last verdict on a pair counts. */
  function VerdictOn(verdicts: seq<Verdict>, key: string): Option<bool> {
    if verdicts == [] then None
    else
      var last := verdicts[|verdicts| - 1];
      if PairKey(last.aId, last.bId) == key then Some(last.contradicts) else VerdictOn(verdicts[..|verdicts| - 1], key)
  }

  predicate Contradicts(verdicts: seq<Verdict>, c: Candidate) {
    VerdictOn(verdicts, PairKey(c.a.id, c.b.id)) == Some(true)
  }

  function Touched(done: seq<Supersession>): (ids: set<Id>)
    ensures forall id :: id in ids <==>
            exists i :: 0 <= i < |done| && (id == done[i].loser.id || id == done[i].winner.id)
  {
    if done == [] then {}
    else
      var n := |done| - 1;
      var last := done[n];
      var rest := Touched(done[..n]);
      assert forall i :: 0 <= i < n ==> done[..n][i] == done[i];
      assert forall id :: (exists i :: 0 <= i < n && (id == done[i].loser.id || id == done[i].winner.id)) ==>
             id in rest by {
        forall id, i | 0 <= i < n && (id == done[i].loser.id || id == done[i].winner.id) ensures id in rest {
          assert done[..n][i] == done[i];
        }
      }
      rest + {last.loser.id, last.winner.id}
  }

  /** Candidates in order of similarity; a memory already used in this pass is left for the next. */
  function Resolve(capped: seq<Candidate>, verdicts: seq<Verdict>): seq<Supersession> {
    if capped == [] then []
    else
      var c := capped[|capped| - 1];
      var done := Resolve(capped[..|capped| - 1], verdicts);
      if Contradicts(verdicts, c) && c.a.id !in Touched(done) && c.b.id !in Touched(done)
      then done + [OrderByRecency(c.a, c.b)] else done
  }

  type Similarity = (Id, Id) -> Option<real>

  /** Pairs `(i, j)` with `i` fixed and `j` below `n`. */
  function RowOfPairs(decisions: seq<Memory>, sim: Similarity, threshold: real, i: nat, n: nat): seq<Candidate>
    requires i < n <= |decisions|
    decreases n
  {
    if n == i + 1 then []
    else
      var rest := RowOfPairs(decisions, sim, threshold, i, n - 1);
      var s := sim(decisions[i].id, decisions[n - 1].id);
      if s.Some? && s.value >= threshold then rest + [Candidate(decisions[i], decisions[n - 1], s.value)] else rest
  }

  function Pairs(decisions: seq<Memory>, sim: Similarity, threshold: real, n: nat): seq<Candidate>
    requires n <= |decisions|
  {
    if n == 0 then [] else Pairs(decisions, sim, threshold, n - 1) + RowOfPairs(decisions, sim, threshold, n - 1,
      |decisions|)
  }

  predicate MoreSimilar(x: Candidate, y: Candidate) {
    x.sim > y.sim
  }

  function Capped(decisions: seq<Memory>, sim: Similarity, threshold: real, maxPairs: nat): seq<Candidate> {
    var ranked := SortBy(Pairs(decisions, sim, threshold, |decisions|), MoreSimilar);
    if |ranked| <= maxPairs then ranked else ranked[..maxPairs]
  }

  /** The judge may decline to answer at all. */
  type Judge = seq<Candidate> -> Option<seq<Verdict>>

  function Detect(decisions: seq<Memory>, sim: Similarity, threshold: real, maxPairs: nat,
      judge: Judge): seq<Supersession> {
    var capped := Capped(decisions, sim, threshold, maxPairs);
    if capped == [] then []
    else
      var verdicts := judge(capped);
      if verdicts.None? then [] else Resolve(capped, verdicts.value)
  }

  // --- the loops of the source --------------------------------------------------------------------

  method CollectCandidates(decisions: seq<Memory>, sim: Similarity, threshold: real)
      returns (candidates: seq<Candidate>)
    ensures candidates == Pairs(decisions, sim, threshold, |decisions|)
  {
    candidates := [];
    for i := 0 to |decisions|
      invariant candidates == Pairs(decisions, sim, threshold, i)
    {
      for j := i + 1 to |decisions|
        invariant candidates == Pairs(decisions, sim, threshold, i) + RowOfPairs(decisions, sim, threshold, i, j)
      {
        var s := sim(decisions[i].id, decisions[j].id);
        if s.Some? && s.value >= threshold {
          candidates := candidates + [Candidate(decisions[i], decisions[j], s.value)];
        }
      }
    }
  }

  /** A contradicting pair counts unless an earlier one took one of its memories. */
  method ResolvePairs(capped: seq<Candidate>, verdicts: seq<Verdict>) returns (found: seq<Supersession>)
    ensures found == Resolve(capped, verdicts)
  {
    hide Contradicts, OrderByRecency, Touched;
    found := [];
    var touched: set<Id> := {};
    NothingTouched();
    for i := 0 to |capped|
      invariant found == Resolve(capped[..i], verdicts)
      invariant touched == Touched(found)
    {
      assert capped[..i + 1][..i] == capped[..i];
      var c := capped[i];
      if Contradicts(verdicts, c) && c.a.id !in touched && c.b.id !in touched {
        var s := OrderByRecency(c.a, c.b);
        OneMoreTouched(found, s);
        found := found + [s];
        touched := touched + {s.loser.id, s.winner.id};
      }
    }
    assert capped[..|capped|] == capped;
  }

  lemma NothingTouched()
    ensures Touched([]) == {}
  {
  }

  lemma OneMoreTouched(found: seq<Supersession>, s: Supersession)
    ensures Touched(found + [s]) == Touched(found) + {s.loser.id, s.winner.id}
  {
    assert (found + [s])[..|found|] == found;
  }

  method DetectContradictions(decisions: seq<Memory>, sim: Similarity, threshold: real, maxPairs: nat, judge: Judge)
    returns (found: seq<Supersession>)
    ensures found == Detect(decisions, sim, threshold, maxPairs, judge)
  {
    hide Pairs, SortBy, Resolve;
    var candidates := CollectCandidates(decisions, sim, threshold);
    var ranked := SortBy(candidates, MoreSimilar);
    var capped := if |ranked| <= maxPairs then ranked else ranked[..maxPairs];
    if capped == [] { return []; }
    var reply := judge(capped);
    if reply.None? { return []; }
    found := ResolvePairs(capped, reply.value);
  }

  // --- one pass ---------------------------------------------------------------------------------------

  predicate Distinct(decisions: seq<Memory>) {
    forall i, j :: 0 <= i < j < |decisions| ==> decisions[i].id != decisions[j].id
  }

  predicate FromTwo(decisions: seq<Memory>, c: Candidate) {
    c.a in decisions && c.b in decisions && c.a.id != c.b.id
  }

  lemma {:induction false} RowIsFromTwo(decisions: seq<Memory>, sim: Similarity, threshold: real, i: nat, n: nat)
    requires i < n <= |decisions| && Distinct(decisions)
    ensures forall c :: c in RowOfPairs(decisions, sim, threshold, i, n) ==> FromTwo(decisions, c)
    decreases n
  {
    if n > i + 1 { RowIsFromTwo(decisions, sim, threshold, i, n - 1); }
  }

  lemma {:induction false} PairsAreFromTwo(decisions: seq<Memory>, sim: Similarity, threshold: real, n: nat)
    requires n <= |decisions| && Distinct(decisions)
    ensures forall c :: c in Pairs(decisions, sim, threshold, n) ==> FromTwo(decisions, c)
  {
    hide FromTwo, RowOfPairs;
    if n > 0 {
      PairsAreFromTwo(decisions, sim, threshold, n - 1);
      RowIsFromTwo(decisions, sim, threshold, n - 1, |decisions|);
    }
  }

  ghost predicate SoundPass(decisions: seq<Memory>, found: seq<Supersession>) {
    && (forall i :: 0 <= i < |found| ==>
          found[i].loser in decisions && found[i].winner in decisions && Older(found[i].loser, found[i].winner))
    && (forall i, j :: 0 <= i < j < |found| ==>
         {found[i].loser.id, found[i].winner.id} !! {found[j].loser.id, found[j].winner.id})
    && (forall i :: 0 <= i < |found| ==> found[i].loser.id != found[i].winner.id)
  }

  lemma {:induction false} ResolveIsSound(decisions: seq<Memory>, capped: seq<Candidate>, verdicts: seq<Verdict>)
    requires forall i :: 0 <= i < |capped| ==> FromTwo(decisions, capped[i])
    ensures SoundPass(decisions, Resolve(capped, verdicts))
  {
    hide Contradicts, Older, Before, SoundPass, FromTwo;
    if capped == [] {
      NothingFound(decisions);
    } else {
      var n := |capped| - 1;
      var done := Resolve(capped[..n], verdicts);
      ResolveIsSound(decisions, capped[..n], verdicts);
      assert FromTwo(decisions, capped[n]);
      if capped[n].a.id !in Touched(done) && capped[n].b.id !in Touched(done) {
        OneMoreFound(decisions, done, capped[n]);
      }
    }
  }

  lemma NothingFound(decisions: seq<Memory>)
    ensures SoundPass(decisions, [])
  {
  }

  lemma OneMoreFound(decisions: seq<Memory>, done: seq<Supersession>, c: Candidate)
    requires SoundPass(decisions, done) && FromTwo(decisions, c)
    requires c.a.id !in Touched(done) && c.b.id !in Touched(done)
    ensures SoundPass(decisions, done + [OrderByRecency(c.a, c.b)])
  {
    hide Older, Touched;
    var s := OrderByRecency(c.a, c.b);
    forall i | 0 <= i < |done| ensures {done[i].loser.id, done[i].winner.id} !! {s.loser.id, s.winner.id} {
      assert done[i].loser.id in Touched(done) && done[i].winner.id in Touched(done);
    }
  }

  /**
   * In one pass every memory takes part in at most one supersession, losers are strictly older
   * than winners, and all are among the decisions the pass looked at.
   */
  lemma PassIsSound(decisions: seq<Memory>, sim: Similarity, threshold: real, maxPairs: nat, judge: Judge)
    requires Distinct(decisions)
    ensures SoundPass(decisions, Detect(decisions, sim, threshold, maxPairs, judge))
  {
    hide Resolve, FromTwo, SortBy, Pairs, Distinct;
    PairsAreFromTwo(decisions, sim, threshold, |decisions|);
    SortMembers(Pairs(decisions, sim, threshold, |decisions|), MoreSimilar);
    var capped := Capped(decisions, sim, threshold, maxPairs);
    forall i | 0 <= i < |capped| ensures FromTwo(decisions, capped[i]) {
      assert capped[i] in SortBy(Pairs(decisions, sim, threshold, |decisions|), MoreSimilar);
    }
    var verdicts := judge(capped);
    if verdicts.Some? { ResolveIsSound(decisions, capped, verdicts.value); }
  }

  predicate IsNewest(decisions: seq<Memory>, m: Memory) {
    m in decisions && forall x :: x in decisions ==> !Older(m, x)
  }

  /** The newest decision a pass looks at is never the loser. */
  lemma NewestSurvives(decisions: seq<Memory>, sim: Similarity, threshold: real, maxPairs: nat, judge: Judge, m: Memory)
    requires Distinct(decisions) && IsNewest(decisions, m)
    ensures forall s :: s in Detect(decisions, sim, threshold, maxPairs, judge) ==> s.loser != m
  {
    hide Older, Detect, Distinct;
    PassIsSound(decisions, sim, threshold, maxPairs, judge);
  }

  // --- any number of passes -------------------------------------------------------------------------------

  /** What one boundary brings: the decisions then valid, their similarities, and a judge. */
  datatype Pass = Pass(decisions: seq<Memory>, sim: Similarity, threshold: real, maxPairs: nat, judge: Judge)

  function EdgesOf(passes: seq<Pass>): seq<Supersession> {
    if passes == [] then []
    else
      var p := passes[|passes| - 1];
      EdgesOf(passes[..|passes| - 1]) + Detect(p.decisions, p.sim, p.threshold, p.maxPairs, p.judge)
  }

  lemma {:induction false} EdgesAscend(passes: seq<Pass>)
    requires forall p :: p in passes ==> Distinct(p.decisions)
    ensures forall e :: e in EdgesOf(passes) ==> Older(e.loser, e.winner)
  {
    hide Older, Detect, Distinct;
    if passes != [] {
      var p := passes[|passes| - 1];
      EdgesAscend(passes[..|passes| - 1]);
      PassIsSound(p.decisions, p.sim, p.threshold, p.maxPairs, p.judge);
    }
  }

  /** A chain of supersessions, each memory superseded by the next. */
  predicate IsChain(edges: seq<Supersession>, chain: seq<Memory>) {
    forall i :: 0 <= i < |chain| - 1 ==> Supersession(chain[i], chain[i + 1]) in edges
  }

  lemma OlderTransitive(a: Memory, b: Memory, c: Memory)
    requires Older(a, b) && Older(b, c)
    ensures Older(a, c)
  {
    var x, y, z := FreshRecord(a, SELF_LANE), FreshRecord(b, SELF_LANE), FreshRecord(c, SELF_LANE);
    hide Before;
    BeforeDecides(x, y);
    BeforeDecides(y, z);
    if !Before(x, z) { BeforeNegTransitive(y, x, z); }
  }

  /**
   * Over any number of passes, whatever their decisions and judges, no chain of supersessions
   * comes back to where it began.
   */
  lemma {:induction false} ChainsNeverCycle(passes: seq<Pass>, chain: seq<Memory>)
    requires forall p :: p in passes ==> Distinct(p.decisions)
    requires |chain| > 1 && IsChain(EdgesOf(passes), chain)
    ensures Older(chain[0], chain[|chain| - 1]) && chain[0] != chain[|chain| - 1]
  {
    hide Older, Distinct, EdgesOf;
    EdgesAscend(passes);
    var n := |chain| - 1;
    assert Supersession(chain[n - 1], chain[n]) in EdgesOf(passes);
    if n > 1 {
      assert IsChain(EdgesOf(passes), chain[..n]) by { ShorterChain(EdgesOf(passes), chain); }
      ChainsNeverCycle(passes, chain[..n]);
      OlderTransitive(chain[0], chain[n - 1], chain[n]);
    }
    NotOlderThanItself(chain[0]);
  }

  lemma ShorterChain(edges: seq<Supersession>, chain: seq<Memory>)
    requires chain != [] && IsChain(edges, chain)
    ensures IsChain(edges, chain[..|chain| - 1])
  {
  }

  lemma NotOlderThanItself(m: Memory)
    ensures !Older(m, m)
  {
    BeforeDecides(FreshRecord(m, SELF_LANE), FreshRecord(m, SELF_LANE));
  }

  // --- what the log makes of a pass ---------------------------------------------------------------------------

  datatype Stamp = Stamp(id: Id, at: Time, projectId: Id, scopeId: Id, actor: string)

  /** One supersede per pair. */
  function Rows(found: seq<Supersession>, stamps: nat -> Stamp): Log {
    seq(|found|, i requires 0 <= i < |found| => var s := stamps(i);
      Event(s.id, s.at, s.projectId, s.scopeId, Some(s.actor), Some(s.projectId),
        MemorySuperseded(found[i].loser.id, found[i].winner.id)))
  }

  /** The next replay closes exactly the losers: everything else is as open or as closed as before. */
  lemma {:induction false} LogClosesTheLosers(log: Log, found: seq<Supersession>, stamps: nat -> Stamp,
      selfId: Option<Id>, isUnion: bool, m: Id)
    requires m in Records(log, selfId, isUnion)
    ensures var after := Records(log + Rows(found, stamps), selfId, isUnion);
            var before := Records(log, selfId, isUnion);
            && m in after && after[m].memory == before[m].memory && after[m].source == before[m].source
            && (after[m].invalidAt.Some? <==>
                  before[m].invalidAt.Some? || exists i :: 0 <= i < |found| && found[i].loser.id == m)
  {
    hide Records, NextMemories, Rows, LaneOf;
    if found == [] {
      NoRows(stamps);
      assert log + [] == log;
    } else {
      var n := |found| - 1;
      var fewer := Rows(found[..n], stamps);
      var row := OneMoreRow(found, stamps);
      assert log + Rows(found, stamps) == (log + fewer) + [row];
      LogClosesTheLosers(log, found[..n], stamps, selfId, isUnion, m);
      RecordsStep(log + fewer, row, selfId, isUnion);
      StepOnRecord(Records(log + fewer, selfId, isUnion), row, LaneOf(row, selfId, isUnion), m);
      assert forall i :: 0 <= i < n ==> found[..n][i] == found[i];
    }
  }

  lemma NoRows(stamps: nat -> Stamp)
    ensures Rows([], stamps) == []
  {
  }

  lemma OneMoreRow(found: seq<Supersession>, stamps: nat -> Stamp) returns (row: Event)
    requires found != []
    ensures Rows(found, stamps) == Rows(found[..|found| - 1], stamps) + [row]
    ensures row.payload == MemorySuperseded(found[|found| - 1].loser.id, found[|found| - 1].winner.id)
  {
    row := Rows(found, stamps)[|found| - 1];
  }

  lemma RecordsStep(log: Log, e: Event, selfId: Option<Id>, isUnion: bool)
    ensures Records(log + [e], selfId, isUnion) ==
            NextMemories(Records(log, selfId, isUnion), e, LaneOf(e, selfId, isUnion))
  {
    hide NextMemories, LaneOf;
    assert (log + [e])[..|log|] == log;
  }
}
