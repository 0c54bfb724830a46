/**
 * What a sweep of the log does to live sharing: it is a step of the runs, and one that takes the
 * row of a share watermark has a session shown again what it was shown before.
 */
module ShareSweeps {
  import opened Events
  import opened EventLog
  import opened Sorting
  import opened LiveShare
  import Gc

  ghost function SweptIds(log: Log, pushed: Option<Id>): set<Id> {
    set p: nat | 0 <= p < |log| && Gc.Swept(log, StartAfter(log, pushed), p) :: log[p].id
  }

  // --- a sweep is a step of the runs ----------------------------------------------------------------

  lemma SweptById(log: Log, pushed: Option<Id>, p: nat)
    requires UniqueIds(log) && p < |log|
    ensures log[p].id in SweptIds(log, pushed) <==> Gc.Swept(log, StartAfter(log, pushed), p)
  {
    hide Gc.Swept, ReadSince, HasId;
  }

  lemma {:induction false} KeptIsWithout(log: Log, pushed: Option<Id>, hi: nat)
    requires UniqueIds(log) && hi <= |log|
    ensures Gc.Kept(log, StartAfter(log, pushed), 0, hi) == Without(log[..hi], SweptIds(log, pushed))
  {
    hide Gc.Swept, SweptIds, ReadSince, HasId, UniqueIds;
    if hi > 0 {
      KeptIsWithout(log, pushed, hi - 1);
      SweptById(log, pushed, hi - 1);
      assert log[..hi][..hi - 1] == log[..hi - 1];
    }
  }

  lemma {:induction false} WithoutTwice(log: Log, a: set<Id>, b: set<Id>)
    ensures Without(Without(log, a), b) == Without(log, a + b)
  {
    if log != [] {
      var n := |log| - 1;
      WithoutTwice(log[..n], a, b);
      var rest := Without(log[..n], a);
      if log[n].id !in a {
        WithoutJoins(rest, [log[n]], b);
        assert [log[n]][..0] == [];
        assert Without([log[n]][..0], b) == [];
        assert Without([log[n]], b) == if log[n].id in b then [] else [log[n]];
      }
    }
  }

  /** What the sweep does to the log, with any push watermark, is such a step. */
  lemma SweepIsAStep(w: World, pushed: Option<Id>, me: Id)
    requires UniqueIds(w.ever)
    ensures LogOf(Next(w, Sweep(SweptIds(LogOf(w), pushed)), me)) == Gc.Sweep(LogOf(w), pushed)
  {
    hide SweptIds, Gc.Kept, Without, UniqueIds, ReadSince;
    var log := LogOf(w);
    LogIsUnique(w);
    KeptIsWithout(log, pushed, |log|);
    assert log[..|log|] == log;
    WithoutTwice(w.ever, w.gone, SweptIds(log, pushed));
  }

  // --- a run in which a sibling is shown twice ----------------------------------------------------------

  const GENESIS: Event := Event("e1", "t1", "a", "a", None, None, ProjectCreated(Project("a", "A", "", [])))
  const SEEN: Event := Event("e2", "t2", "a", "a", None, None, ObservationCaptured(Observation("o", None, None, "t2")))
  const BORN: Event :=
    Event("e3", "t3", "a", "a", None, None, MemoryConsolidated(Memory("m", Decision, "x", 1, None, [], "t3")))
  const RETRACTED: Event := Event("e4", "t4", "a", "a", None, None, MemoryRetracted("m", true))
  const ROWS: Log := [GENESIS, SEEN, BORN, RETRACTED]

  /** The birth and the retract go; the capture, and the genesis, stay. */
  lemma BirthAndRetractGo()
    ensures SweptIds(ROWS, None) == {BORN.id, RETRACTED.id} && UniqueIds(ROWS)
  {
    hide SweptIds;
    assert UniqueIds(ROWS);
    assert StartAfter(ROWS, None) == 0;
    assert Gc.BornAt(ROWS, "m", 2) && Retracts(ROWS[3], "m");
    assert forall m, q: nat :: Gc.BornAt(ROWS, m, q) ==> q == 2 && m == "m";
    assert forall m, o :: !Gc.SourceOf(ROWS, m, o);
    assert Gc.Eligible(ROWS, 0, "m");
    assert Gc.InUnit(ROWS, 0, "m", 2) && Gc.InUnit(ROWS, 0, "m", 3);
    assert Gc.Swept(ROWS, 0, 2) && Gc.Swept(ROWS, 0, 3);
    assert !Gc.Swept(ROWS, 0, 0) && !Gc.Swept(ROWS, 0, 1);
    IdsOfTwo(ROWS, None);
  }

  lemma IdsOfTwo(log: Log, pushed: Option<Id>)
    requires UniqueIds(log) && |log| == 4
    requires var start := StartAfter(log, pushed);
             !Gc.Swept(log, start, 0) && !Gc.Swept(log, start, 1) && Gc.Swept(log, start, 2) && Gc.Swept(log, start, 3)
    ensures SweptIds(log, pushed) == {log[2].id, log[3].id}
  {
    hide Gc.Swept, UniqueIds, ReadSince, HasId;
  }

  function Watching(me: Id): Scope {
    Scope(me, {}, e => None, [])
  }

  lemma OneRanks(e: Event, before: (Event, Event) -> bool, cap: nat)
    requires cap > 0
    ensures TopOf([e], [e], before, cap) && TopOf([], [], before, cap)
  {
    assert IsRanking([e], [e], before) && IsRanking([], [], before);
    assert [e][..1] == [e];
  }

  lemma NothingCollides(scanned: Log, me: Id)
    ensures Collisions(scanned, Watching(me)) == []
  {
  }

  lemma ScanOfThree(me: Id)
    ensures Siblings([SEEN, BORN, RETRACTED], me) == [SEEN] && Memories([SEEN, BORN, RETRACTED]) == [BORN]
  {
    var rows := [SEEN, BORN, RETRACTED];
    assert rows[..2] == [SEEN, BORN] && [SEEN, BORN][..1] == [SEEN] && [SEEN][..0] == [];
    assert Siblings([SEEN], me) == [SEEN] && Memories([SEEN]) == [];
    assert Siblings([SEEN, BORN], me) == [SEEN] && Memories([SEEN, BORN]) == [BORN];
  }

  lemma ScanOfTwo(me: Id)
    ensures Siblings([GENESIS, SEEN], me) == [SEEN] && Memories([GENESIS, SEEN]) == []
  {
    var rows := [GENESIS, SEEN];
    assert rows[..1] == [GENESIS] && [GENESIS][..0] == [];
    assert Siblings([GENESIS], me) == [] && Memories([GENESIS]) == [];
  }

  const FIRST: LiveUpdate := LiveUpdate([SEEN], [BORN], [], [], Some(RETRACTED.id), true)
  const SECOND: LiveUpdate := LiveUpdate([SEEN], [], [], [], Some(SEEN.id), true)

  lemma FirstIsUpdate(me: Id)
    ensures IsUpdate(FIRST, ROWS, Some(GENESIS.id), Watching(me))
  {
    hide TopOf, Collisions, Siblings, Memories, Position;
    assert ROWS[0] in ROWS && Position(ROWS, GENESIS.id) == 0;
    var tail := [SEEN, BORN, RETRACTED];
    assert ROWS[1..] == tail && ReadSince(ROWS, Some(GENESIS.id)) == tail;
    ScanOfThree(me);
    OneRanks(SEEN, NewerObservation, MAX_LIVE_OBSERVATIONS);
    OneRanks(BORN, MoreSalient, MAX_LIVE_MEMORIES);
    NothingCollides(tail, me);
  }

  lemma SecondIsUpdate(me: Id)
    ensures IsUpdate(SECOND, [GENESIS, SEEN], Some(RETRACTED.id), Watching(me))
  {
    hide TopOf, Collisions, Siblings, Memories;
    var rows := [GENESIS, SEEN];
    assert !HasId(rows, RETRACTED.id);
    ScanOfTwo(me);
    OneRanks(SEEN, NewerObservation, MAX_LIVE_OBSERVATIONS);
    OneRanks(BORN, MoreSalient, MAX_LIVE_MEMORIES);
    NothingCollides(rows, me);
  }

  /** All rows are there, the first window is delivered, and the watermark is the retract. */
  function Shown(gone: set<Id>): World {
    World(ROWS, gone, Some(RETRACTED.id), 1, [SEEN], [BORN], [], [(1, 4)])
  }

  lemma RowsAreAll()
    ensures Without(ROWS, {}) == ROWS && Without([GENESIS], {}) == [GENESIS]
    ensures Without(ROWS, {BORN.id, RETRACTED.id}) == [GENESIS, SEEN]
  {
    assert ROWS[..3] == [GENESIS, SEEN, BORN] && [GENESIS, SEEN, BORN][..2] == [GENESIS, SEEN];
    assert [GENESIS, SEEN][..1] == [GENESIS] && [GENESIS][..0] == [];
    assert Without([], {}) == [] && Without([], {BORN.id, RETRACTED.id}) == [];
    assert Without([GENESIS], {}) == [GENESIS] && Without([GENESIS], {BORN.id, RETRACTED.id}) == [GENESIS];
    assert Without([GENESIS, SEEN], {}) == [GENESIS, SEEN];
    assert Without([GENESIS, SEEN], {BORN.id, RETRACTED.id}) == [GENESIS, SEEN];
    assert Without([GENESIS, SEEN, BORN], {}) == [GENESIS, SEEN, BORN];
    assert Without([GENESIS, SEEN, BORN], {BORN.id, RETRACTED.id}) == [GENESIS, SEEN];
  }

  const SEEDED: World := World([GENESIS], {}, Some(GENESIS.id), 1, [], [], [], [])

  lemma Seeds(me: Id, u: LiveUpdate)
    ensures Next(Next(START, Append([GENESIS]), me), Call(Watching(me), u), me) == SEEDED
  {
    hide Without, IsUpdate, Position;
    RowsAreAll();
    assert [] + [GENESIS] == [GENESIS];
    assert [GENESIS][0] in [GENESIS] && Position([GENESIS], GENESIS.id) == 0;
  }

  const OPEN: World := World(ROWS, {}, Some(GENESIS.id), 1, [], [], [], [])

  lemma Arrives(me: Id)
    ensures Next(SEEDED, Append([SEEN, BORN, RETRACTED]), me) == OPEN
  {
    BirthAndRetractGo();
    assert [GENESIS] + [SEEN, BORN, RETRACTED] == ROWS;
  }

  lemma ReadsThree()
    ensures ReadsFrom(OPEN) == 1 && ReadSince(LogOf(OPEN), OPEN.watermark) != []
    ensures StartAfter(ROWS, Some(RETRACTED.id)) == 4
  {
    hide Without, UniqueIds, ReadSince;
    BirthAndRetractGo();
    RowsAreAll();
    assert ROWS[0] == GENESIS && ROWS[3] == RETRACTED;
    StartAfterRow(ROWS, 0);
    StartAfterRow(ROWS, 3);
    assert |ROWS[1..]| == 3;
  }

  lemma Shows(me: Id)
    ensures Next(Next(SEEDED, Append([SEEN, BORN, RETRACTED]), me), Call(Watching(me), FIRST), me) == Shown({})
  {
    hide Without, IsUpdate, Position, ReadSince, ReadsFrom, HasId, UniqueIds;
    Arrives(me);
    RowsAreAll();
    FirstIsUpdate(me);
    ReadsThree();
    assert [] + [SEEN] == [SEEN] && [] + [BORN] == [BORN] && EventsOf(FIRST.conflicts) == [];
    assert [] + [(1, 4)] == [(1, 4)];
  }

  /** After the sweep the next call shows the sibling again. */
  lemma ShowsAgain(me: Id)
    ensures Next(Shown({BORN.id, RETRACTED.id}), Call(Watching(me), SECOND), me).observations == [SEEN] + [SEEN]
  {
    hide Without, IsUpdate, Position, ReadSince, ReadsFrom;
    RowsAreAll();
    SecondIsUpdate(me);
  }

  /**
   * A session is shown a sibling's observation, with the log ending in the birth and the retract
   * of a memory that was never pushed. A sweep takes both, and the next call shows it again.
   */
  lemma SweptWatermarkRepeats(me: Id)
    ensures exists steps :: !NoRepeats(Run(START, steps, me).observations)
    ensures Gc.Sweep(ROWS, None) == [GENESIS, SEEN]
  {
    hide Next, Without, SweptIds, Gc.Kept, NoRepeats;
    var ids := SweptIds(ROWS, None);
    BirthAndRetractGo();
    Seeds(me, FIRST);
    Shows(me);
    RowsAreAll();
    KeptIsWithout(ROWS, None, |ROWS|);
    assert ROWS[..|ROWS|] == ROWS;
    SweepTakes(me, ids);
    ShowsAgain(me);
    var steps := [Append([GENESIS]), Call(Watching(me), FIRST), Append([SEEN, BORN, RETRACTED]),
        Call(Watching(me), FIRST),
                  Sweep(ids), Call(Watching(me), SECOND)];
    RunOfTwo(START, steps, me);
    RunOfTwo(SEEDED, steps[2..], me);
    RunOfTwo(Shown({}), steps[4..], me);
    assert steps[2..][2..] == steps[4..] && steps[4..][2..] == [];
    assert Run(START, steps, me).observations == [SEEN] + [SEEN];
    TwiceRepeats(SEEN);
  }

  lemma TwiceRepeats(e: Event)
    ensures !NoRepeats([e] + [e])
  {
    assert ([e] + [e])[0] == ([e] + [e])[1];
  }

  lemma SweepTakes(me: Id, ids: set<Id>)
    ensures Next(Shown({}), Sweep(ids), me) == Shown(ids)
  {
    assert {} + ids == ids;
  }

  lemma RunOfTwo(w: World, steps: seq<Step>, me: Id)
    requires |steps| >= 2
    ensures Run(w, steps, me) == Run(Next(Next(w, steps[0], me), steps[1], me), steps[2..], me)
  {
    hide Next;
    assert steps[1..][1..] == steps[2..] && steps[1..][0] == steps[1];
  }
}
