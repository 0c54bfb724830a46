/** What one contradiction pass resolves. */
module PassLaws {
  import opened Events
  import opened Dedup
  import opened Sorting
  import opened Text
  import opened Projector
  import opened Convergence
  import opened Contradictions
  import opened ContradictionPasses
  import opened ReplayLaws

  // --- the pairs the judge is given ------------------------------------------------------------------------

  /** Two listed decisions whose similarity is known and reaches the threshold. */
  predicate Near(decisions: seq<Memory>, sim: Similarity, threshold: real, i: int, j: int) {
    && 0 <= i < j < |decisions|
    && sim(decisions[i].id, decisions[j].id).Some? && sim(decisions[i].id, decisions[j].id).value >= threshold
  }

  function PairOf(decisions: seq<Memory>, sim: Similarity, i: int, j: int): Candidate
    requires 0 <= i < j < |decisions| && sim(decisions[i].id, decisions[j].id).Some?
  {
    Candidate(decisions[i], decisions[j], sim(decisions[i].id, decisions[j].id).value)
  }

  /** `c` is a pair of decisions at or above the threshold, with its similarity. */
  ghost predicate IsNear(c: Candidate, decisions: seq<Memory>, sim: Similarity, threshold: real) {
    exists i, j :: Near(decisions, sim, threshold, i, j) && c == PairOf(decisions, sim, i, j)
  }

  /**
   * The pairs given to the judge: each at or above the threshold and given once, the most similar
   * first; all of them if they fit the cap, and otherwise none left out is more similar than one given.
   */
  ghost predicate GivenTold(given: seq<Candidate>, decisions: seq<Memory>, sim: Similarity, threshold: real,
      maxPairs: nat)
  {
    && |given| <= maxPairs && NoRepeats(given)
    && (forall c :: c in given ==> IsNear(c, decisions, sim, threshold))
    && (forall i, j :: 0 <= i < j < |given| ==> given[i].sim >= given[j].sim)
    && forall c: Candidate :: IsNear(c, decisions, sim, threshold) && c !in given ==>
         |given| == maxPairs && forall d :: d in given ==> d.sim >= c.sim
  }

  lemma {:induction false} RowExactly(decisions: seq<Memory>, sim: Similarity, threshold: real, i: nat, n: nat)
    requires i < n <= |decisions| && Distinct(decisions)
    ensures var row := RowOfPairs(decisions, sim, threshold, i, n);
            && NoRepeats(row)
            && forall c: Candidate :: c in row <==>
                 exists j :: i < j < n && Near(decisions, sim, threshold, i, j) && c == PairOf(decisions, sim, i, j)
    decreases n
  {
    if n > i + 1 {
      RowExactly(decisions, sim, threshold, i, n - 1);
      var rest := RowOfPairs(decisions, sim, threshold, i, n - 1);
      if Near(decisions, sim, threshold, i, n - 1) {
        var last := PairOf(decisions, sim, i, n - 1);
        assert last !in rest;
        NoRepeatsGrows(rest, last);
        assert forall c :: c in rest + [last] <==> c in rest || c == last;
      }
    }
  }

  ghost predicate NearBelow(c: Candidate, decisions: seq<Memory>, sim: Similarity, threshold: real, n: nat) {
    exists i, j :: i < n && Near(decisions, sim, threshold, i, j) && c == PairOf(decisions, sim, i, j)
  }

  lemma RowIsBelow(decisions: seq<Memory>, sim: Similarity, threshold: real, m: nat, c: Candidate)
    requires m < |decisions| && Distinct(decisions)
    ensures var row := RowOfPairs(decisions, sim, threshold, m, |decisions|);
            var below := NearBelow(c, decisions, sim, threshold, m);
            var next := NearBelow(c, decisions, sim, threshold, m + 1);
            && (c in row ==> next && !below)
            && (next && !below ==> c in row)
            && (below ==> next)
  {
    hide RowOfPairs, NoRepeats;
    RowExactly(decisions, sim, threshold, m, |decisions|);
  }

  lemma {:induction false} PairsExactly(decisions: seq<Memory>, sim: Similarity, threshold: real, n: nat)
    requires n <= |decisions| && Distinct(decisions)
    ensures NoRepeats(Pairs(decisions, sim, threshold, n))
    ensures forall c :: c in Pairs(decisions, sim, threshold, n) <==> NearBelow(c, decisions, sim, threshold, n)
  {
    hide RowOfPairs, Near, NoRepeats, NearBelow, Distinct;
    if n == 0 {
      NoPairs(decisions, sim, threshold);
    } else {
      var m := n - 1;
      PairsExactly(decisions, sim, threshold, m);
      RowExactly(decisions, sim, threshold, m, |decisions|);
      var rest, row := Pairs(decisions, sim, threshold, m), RowOfPairs(decisions, sim, threshold, m, |decisions|);
      forall c
        ensures c in row ==> NearBelow(c, decisions, sim, threshold, n) && c !in rest
        ensures NearBelow(c, decisions, sim, threshold, n) ==> c in rest || c in row
        ensures c in rest ==> NearBelow(c, decisions, sim, threshold, n)
      {
        RowIsBelow(decisions, sim, threshold, m, c);
      }
      NoRepeatsJoin(rest, row);
    }
  }

  lemma NoPairs(decisions: seq<Memory>, sim: Similarity, threshold: real)
    ensures Pairs(decisions, sim, threshold, 0) == [] && NoRepeats(Pairs(decisions, sim, threshold, 0))
    ensures forall c :: !NearBelow(c, decisions, sim, threshold, 0)
  {
  }

  lemma MoreSimilarIsOrder()
    ensures StrictWeakOrder(MoreSimilar)
  {
  }

  lemma SortedHead(all: seq<Candidate>, given: seq<Candidate>, maxPairs: nat)
    requires NoRepeats(all)
    requires var ranked := SortBy(all, MoreSimilar);
             given == if |ranked| <= maxPairs then ranked else ranked[..maxPairs]
    ensures |given| <= maxPairs && NoRepeats(given) && forall c :: c in given ==> c in all
    ensures forall i, j :: 0 <= i < j < |given| ==> given[i].sim >= given[j].sim
    ensures forall c :: c in all && c !in given ==> |given| == maxPairs && forall d :: d in given ==> d.sim >= c.sim
  {
    var ranked := SortBy(all, MoreSimilar);
    MoreSimilarIsOrder();
    SortSorts(all, MoreSimilar);
    SortNoRepeats(all, MoreSimilar);
    SortMembers(all, MoreSimilar);
    forall c | c in all && c !in given ensures |given| == maxPairs && forall d :: d in given ==> d.sim >= c.sim {
      var j :| 0 <= j < |ranked| && ranked[j] == c;
      HeadOf(given, ranked, j);
      forall d | d in given ensures d.sim >= c.sim {
        var i :| 0 <= i < |given| && given[i] == d;
        assert ranked[i] == d;
      }
    }
  }

  lemma HeadOf(given: seq<Candidate>, ranked: seq<Candidate>, j: nat)
    requires given <= ranked && j < |ranked|
    ensures j < |given| ==> ranked[j] in given
  {
  }

  lemma GivenIsTold(decisions: seq<Memory>, sim: Similarity, threshold: real, maxPairs: nat)
    requires Distinct(decisions)
    ensures GivenTold(Capped(decisions, sim, threshold, maxPairs), decisions, sim, threshold, maxPairs)
  {
    hide Pairs, SortBy, Distinct, Near, NoRepeats;
    var all := Pairs(decisions, sim, threshold, |decisions|);
    PairsExactly(decisions, sim, threshold, |decisions|);
    SortedHead(all, Capped(decisions, sim, threshold, maxPairs), maxPairs);
    forall c: Candidate ensures c in all <==> IsNear(c, decisions, sim, threshold) {
      AllBelow(c, decisions, sim, threshold);
    }
  }

  lemma AllBelow(c: Candidate, decisions: seq<Memory>, sim: Similarity, threshold: real)
    ensures NearBelow(c, decisions, sim, threshold, |decisions|) <==> IsNear(c, decisions, sim, threshold)
  {
  }

  // --- what the judge said ------------------------------------------------------------------------------------

  predicate OnPair(v: Verdict, a: Id, b: Id) {
    (v.aId == a && v.bId == b) || (v.aId == b && v.bId == a)
  }

  /** The last verdict on the two, in whichever order it names them, calls them a contradiction. */
  ghost predicate Condemned(verdicts: seq<Verdict>, a: Id, b: Id) {
    exists k :: 0 <= k < |verdicts| && OnPair(verdicts[k], a, b) && verdicts[k].contradicts &&
                forall l :: k < l < |verdicts| ==> !OnPair(verdicts[l], a, b)
  }

  const BAR: char := '|'

  lemma OneBar(x: Id, y: Id, lo: Id, hi: Id)
    requires BAR !in lo && BAR !in hi && x + [BAR] + y == lo + [BAR] + hi
    ensures x == lo && y == hi
  {
    var s, t := x + [BAR] + y, lo + [BAR] + hi;
    assert s[|x|] == BAR && t[|lo|] == BAR;
    assert forall k :: 0 <= k < |lo| ==> t[k] == lo[k];
    assert forall k :: |lo| < k < |t| ==> t[k] == hi[k - |lo| - 1];
    assert |x| == |lo|;
    assert x == s[..|x|] && lo == t[..|lo|] && y == s[|x| + 1..] && hi == t[|lo| + 1..];
  }

  /** Ids hold no bar, so the key of a pair names that pair and no other. */
  lemma KeyNamesPair(v: Verdict, a: Id, b: Id)
    requires BAR !in a && BAR !in b && a != b
    ensures PairKey(v.aId, v.bId) == PairKey(a, b) <==> OnPair(v, a, b)
  {
    hide Less;
    var x, y := v.aId, v.bId;
    assert "|" == [BAR];
    if OnPair(v, a, b) { PairKeySymmetric(a, b); }
    if PairKey(x, y) == PairKey(a, b) {
      var lo, hi := if Less(a, b) then a else b, if Less(a, b) then b else a;
      if Less(x, y) { OneBar(x, y, lo, hi); } else { OneBar(y, x, lo, hi); }
    }
  }

  lemma LastDecides(verdicts: seq<Verdict>, a: Id, b: Id)
    requires verdicts != [] && OnPair(verdicts[|verdicts| - 1], a, b)
    ensures Condemned(verdicts, a, b) <==> verdicts[|verdicts| - 1].contradicts
  {
    hide OnPair;
  }

  lemma {:induction false} VerdictExactly(verdicts: seq<Verdict>, a: Id, b: Id)
    requires BAR !in a && BAR !in b && a != b
    ensures VerdictOn(verdicts, PairKey(a, b)) == Some(true) <==> Condemned(verdicts, a, b)
  {
    hide PairKey, OnPair;
    if verdicts != [] {
      var n := |verdicts| - 1;
      KeyNamesPair(verdicts[n], a, b);
      VerdictExactly(verdicts[..n], a, b);
      if OnPair(verdicts[n], a, b) {
        LastDecides(verdicts, a, b);
      } else {
        assert forall k :: 0 <= k < n ==> verdicts[..n][k] == verdicts[k];
        CondemnedEarlier(verdicts, a, b);
      }
    }
  }

  lemma CondemnedEarlier(verdicts: seq<Verdict>, a: Id, b: Id)
    requires verdicts != [] && !OnPair(verdicts[|verdicts| - 1], a, b)
    ensures Condemned(verdicts, a, b) <==> Condemned(verdicts[..|verdicts| - 1], a, b)
  {
    hide OnPair;
    var n := |verdicts| - 1;
    var before := verdicts[..n];
    assert forall k :: 0 <= k < n ==> before[k] == verdicts[k];
    if Condemned(verdicts, a, b) {
      var k :| 0 <= k < |verdicts| && OnPair(verdicts[k], a, b) && verdicts[k].contradicts &&
               forall l :: k < l < |verdicts| ==> !OnPair(verdicts[l], a, b);
      assert OnPair(before[k], a, b);
    }
    if Condemned(before, a, b) {
      var k :| 0 <= k < n && OnPair(before[k], a, b) && before[k].contradicts &&
               forall l :: k < l < n ==> !OnPair(before[l], a, b);
      assert OnPair(verdicts[k], a, b);
    }
  }

  // --- which pairs are resolved -----------------------------------------------------------------------------

  predicate Shares(c: Candidate, d: Candidate) {
    c.a.id == d.a.id || c.a.id == d.b.id || c.b.id == d.a.id || c.b.id == d.b.id
  }

  /** Created earlier, or at the same time with the smaller id. */
  predicate Earlier(a: Memory, b: Memory) {
    if a.createdAt != b.createdAt then Less(a.createdAt, b.createdAt) else Less(a.id, b.id)
  }

  predicate OldestLoses(s: Supersession, c: Candidate) {
    ((s.loser == c.a && s.winner == c.b) || (s.loser == c.b && s.winner == c.a)) && Earlier(s.loser, s.winner)
  }

  /** The given pair `k` is condemned, and no pair given before it and resolved shares a memory with it. */
  ghost predicate TakenAt(given: seq<Candidate>, verdicts: seq<Verdict>, taken: seq<nat>, k: nat)
    requires k < |given|
  {
    && Condemned(verdicts, given[k].a.id, given[k].b.id)
    && forall t :: t in taken && t < k && t < |given| ==> !Shares(given[t], given[k])
  }

  /** `taken` are the places of the resolved pairs: exactly the condemned ones that nothing given earlier touched. */
  ghost predicate ResolvedTold(found: seq<Supersession>, given: seq<Candidate>, verdicts: seq<Verdict>, taken: seq<nat>)
  {
    && |found| == |taken|
    && (forall i, j :: 0 <= i < j < |taken| ==> taken[i] < taken[j])
    && (forall i :: 0 <= i < |taken| ==> taken[i] < |given| && OldestLoses(found[i], given[taken[i]]))
    && forall k: nat :: k < |given| ==> (k in taken <==> TakenAt(given, verdicts, taken, k))
  }

  predicate CleanPair(c: Candidate) {
    BAR !in c.a.id && BAR !in c.b.id && c.a.id != c.b.id
  }

  lemma TouchedIsShared(found: seq<Supersession>, given: seq<Candidate>, verdicts: seq<Verdict>, taken: seq<nat>,
      c: Candidate)
    requires ResolvedTold(found, given, verdicts, taken)
    ensures c.a.id in Touched(found) || c.b.id in Touched(found) <==>
            exists t :: t in taken && t < |given| && Shares(given[t], c)
  {
    hide Touched, TakenAt, Earlier;
    if c.a.id in Touched(found) || c.b.id in Touched(found) {
      var i :| 0 <= i < |found| && (c.a.id == found[i].loser.id || c.a.id == found[i].winner.id ||
                                     c.b.id == found[i].loser.id || c.b.id == found[i].winner.id);
      assert taken[i] in taken && Shares(given[taken[i]], c);
    }
    if t :| t in taken && t < |given| && Shares(given[t], c) {
      var i :| 0 <= i < |taken| && taken[i] == t;
      assert OldestLoses(found[i], given[t]);
    }
  }

  lemma OldestIsLoser(c: Candidate)
    requires c.a.id != c.b.id
    ensures OldestLoses(OrderByRecency(c.a, c.b), c)
  {
    hide Less;
    BeforeDecides(FreshRecord(c.a, "self"), FreshRecord(c.b, "self"));
    if c.a.id != c.b.id { LessTotal(c.a.id, c.b.id); }
    if c.a.createdAt != c.b.createdAt { LessTotal(c.a.createdAt, c.b.createdAt); }
  }

  lemma OneMoreGiven(found: seq<Supersession>, given: seq<Candidate>, verdicts: seq<Verdict>, taken: seq<nat>)
    requires given != [] && ResolvedTold(found, given[..|given| - 1], verdicts, taken)
    ensures var n := |given| - 1; var c := given[n];
            var takes := Condemned(verdicts, c.a.id, c.b.id) &&
                         forall t :: t in taken && t < n ==> !Shares(given[t], c);
            if takes then c.a.id != c.b.id ==>
              ResolvedTold(found + [OrderByRecency(c.a, c.b)], given, verdicts, taken + [n])
            else ResolvedTold(found, given, verdicts, taken)
  {
    hide Condemned, OldestLoses, Shares;
    var n := |given| - 1;
    var before := given[..n];
    assert forall k :: 0 <= k < n ==> before[k] == given[k];
    forall t | t in taken ensures t < n {
      var i :| 0 <= i < |taken| && taken[i] == t;
    }
    assert forall x :: x in taken + [n] <==> x in taken || x == n;
    forall k: nat | k < n
      ensures TakenAt(before, verdicts, taken, k) <==> TakenAt(given, verdicts, taken, k)
      ensures TakenAt(given, verdicts, taken + [n], k) <==> TakenAt(given, verdicts, taken, k)
    {
    }
    assert TakenAt(given, verdicts, taken + [n], n) <==> TakenAt(given, verdicts, taken, n);
    if given[n].a.id != given[n].b.id { OldestIsLoser(given[n]); }
  }

  lemma {:induction false} ResolveIsTold(given: seq<Candidate>, verdicts: seq<Verdict>) returns (taken: seq<nat>)
    requires forall c :: c in given ==> CleanPair(c)
    ensures ResolvedTold(Resolve(given, verdicts), given, verdicts, taken)
  {
    hide ResolvedTold, Condemned, Touched, OrderByRecency, Shares;
    if given == [] {
      taken := [];
      NothingResolved(verdicts);
    } else {
      var n := |given| - 1;
      var c, before := given[n], given[..n];
      assert c in given && forall d :: d in before ==> d in given;
      taken := ResolveIsTold(before, verdicts);
      var done := Resolve(before, verdicts);
      VerdictExactly(verdicts, c.a.id, c.b.id);
      TouchedIsShared(done, before, verdicts, taken, c);
      assert forall k :: 0 <= k < n ==> before[k] == given[k];
      OneMoreGiven(done, given, verdicts, taken);
      if Contradicts(verdicts, c) && c.a.id !in Touched(done) && c.b.id !in Touched(done) { taken := taken + [n]; }
    }
  }

  lemma NothingResolved(verdicts: seq<Verdict>)
    ensures ResolvedTold(Resolve([], verdicts), [], verdicts, [])
  {
  }

  // --- one pass ---------------------------------------------------------------------------------------------------

  /** One pass: the judge is asked about the pairs it must be given, and if it answers its verdicts are resolved. */
  ghost predicate PassTold(found: seq<Supersession>, decisions: seq<Memory>, sim: Similarity, threshold: real,
      maxPairs: nat, judge: Judge)
  {
    exists given ::
      && GivenTold(given, decisions, sim, threshold, maxPairs)
      && (given == [] || judge(given).None? ==> found == [])
      && (given != [] && judge(given).Some? ==> exists taken :: ResolvedTold(found, given, judge(given).value, taken))
  }

  lemma PassIsTold(decisions: seq<Memory>, sim: Similarity, threshold: real, maxPairs: nat, judge: Judge)
    requires Distinct(decisions) && forall m :: m in decisions ==> BAR !in m.id
    ensures PassTold(Detect(decisions, sim, threshold, maxPairs, judge), decisions, sim, threshold, maxPairs, judge)
  {
    hide Capped, Resolve, GivenTold, ResolvedTold, Distinct;
    var given := Capped(decisions, sim, threshold, maxPairs);
    GivenIsTold(decisions, sim, threshold, maxPairs);
    if given != [] && judge(given).Some? {
      forall c | c in given ensures CleanPair(c) { GivenIsClean(c, given, decisions, sim, threshold, maxPairs); }
      var taken := ResolveIsTold(given, judge(given).value);
    }
  }

  lemma GivenIsClean(c: Candidate, given: seq<Candidate>, decisions: seq<Memory>, sim: Similarity, threshold: real,
      maxPairs: nat)
    requires c in given && GivenTold(given, decisions, sim, threshold, maxPairs)
    requires Distinct(decisions) && forall m :: m in decisions ==> BAR !in m.id
    ensures CleanPair(c)
  {
    hide NoRepeats;
    var i, j :| Near(decisions, sim, threshold, i, j) && c == PairOf(decisions, sim, i, j);
    assert decisions[i] in decisions && decisions[j] in decisions;
  }

  /** A condemned pair is left for a later pass only when one at least as similar took one of its memories. */
  lemma LeftForLater(found: seq<Supersession>, given: seq<Candidate>, decisions: seq<Memory>, sim: Similarity,
      threshold: real, maxPairs: nat, verdicts: seq<Verdict>, taken: seq<nat>, k: nat)
    requires GivenTold(given, decisions, sim, threshold, maxPairs) && ResolvedTold(found, given, verdicts, taken)
    requires k < |given| && Condemned(verdicts, given[k].a.id, given[k].b.id) && k !in taken
    ensures exists t :: t in taken && t < |given| && given[t].sim >= given[k].sim && Shares(given[t], given[k])
  {
    hide IsNear, NoRepeats, Condemned, OldestLoses, Shares;
    assert !TakenAt(given, verdicts, taken, k);
    var t :| t in taken && t < k && Shares(given[t], given[k]);
  }

  /** The decisions compared are exactly the valid ones of the store's own, each once. */
  lemma ListedAreOwn(decisions: seq<Memory>, table: Memories)
    requires ContradictionPasses.Lists(decisions, table)
    ensures forall i, j :: 0 <= i < j < |decisions| ==> decisions[i].id != decisions[j].id
    ensures forall id ::
              id in table && table[id].invalidAt.None? && table[id].source.None? && table[id].memory.kind.Decision? ==>
              table[id].memory in decisions
    ensures forall x :: x in decisions ==>
              && x.id in table && table[x.id].memory == x && x.kind == Decision
              && table[x.id].invalidAt.None? && table[x.id].source.None?
  {
  }

  // --- and what the next replay makes of it -------------------------------------------------------------------------

  /** One row for each pair, in order: the loser superseded by the winner, under the ids and times it was given. */
  lemma RowsAreTold(found: seq<Supersession>, stamps: nat -> Stamp)
    ensures |Rows(found, stamps)| == |found|
    ensures forall i :: 0 <= i < |found| ==>
              var e, s := Rows(found, stamps)[i], stamps(i);
              && e.id == s.id && e.createdAt == s.at && e.projectId == s.projectId && e.source == Some(s.projectId)
              && e.scopeId == s.scopeId && e.writer == Some(s.actor)
              && e.payload == MemorySuperseded(found[i].loser.id, found[i].winner.id)
  {
  }

  lemma {:induction false} LastInTail(log: Log, rows: Log, from: nat, asked: Event -> bool, i: nat)
    requires i < |rows| && from <= |log| && asked(rows[i]) && forall j :: i < j < |rows| ==> !asked(rows[j])
    ensures Last(log + rows, from, asked) == Some(|log| + i)
    decreases |rows|
  {
    var all, n := log + rows, |rows| - 1;
    assert all[|all| - 1] == rows[n];
    if i < n {
      assert all[..|all| - 1] == log + rows[..n];
      LastInTail(log, rows[..n], from, asked, i);
    }
  }

  lemma {:induction false} LastBeforeTail(log: Log, rows: Log, from: nat, asked: Event -> bool)
    requires forall j :: 0 <= j < |rows| ==> !asked(rows[j])
    ensures from <= |log| ==> Last(log + rows, from, asked) == Last(log, from, asked)
  {
    if rows == [] {
      assert log + rows == log;
    } else {
      var all, n := log + rows, |rows| - 1;
      assert all[|all| - 1] == rows[n] && all[..|all| - 1] == log + rows[..n];
      LastBeforeTail(log, rows[..n], from, asked);
    }
  }

  lemma SuccessorIsTold(r: MemoryRecord, log: Log, c: Context, m: Id, p: nat, q: nat)
    requires MemoryTold(r, log, c, m, p) && Last(log, p + 1, Replaces(m)) == Some(q)
    ensures q < |log| && log[q].payload.MemorySuperseded? && r.supersededBy == Some(log[q].payload.supersededBy)
    ensures r.invalidAt == Some(log[q].createdAt)
  {
    hide Last, First;
  }

  /** After the next replay every loser of a pass names its winner as its successor, and closes when its row says. */
  lemma LosersNameTheirWinners(log: Log, c: Context, found: seq<Supersession>, stamps: nat -> Stamp, i: nat)
    requires i < |found| && found[i].loser.id in Records(log, c.selfId, c.isUnion)
    requires forall j :: 0 <= j < |found| && j != i ==> found[j].loser.id != found[i].loser.id
    ensures var after := Records(log + Rows(found, stamps), c.selfId, c.isUnion); var m := found[i].loser.id;
            m in after && after[m].supersededBy == Some(found[i].winner.id) && after[m].invalidAt == Some(stamps(i).at)
  {
    hide Records, Rows, First, Last, MemoryTold;
    var rows, m := Rows(found, stamps), found[i].loser.id;
    RowsAreTold(found, stamps);
    RecordIsReadOff(log, c, m);
    RecordIsReadOff(log + rows, c, m);
    LastBeforeTail(log, rows, 0, Bears(m));
    var p := Last(log, 0, Bears(m)).value;
    LastInTail(log, rows, p + 1, Replaces(m), i);
    SuccessorIsTold(Records(log + rows, c.selfId, c.isUnion)[m], log + rows, c, m, p, |log| + i);
    assert (log + rows)[|log| + i] == rows[i];
  }
}
