/** What a live update shows, read off the log. */
module ShareLaws {
  import opened Events
  import opened EventLog
  import opened Sorting
  import opened Text
  import opened LiveShare

  /** The rows an update looks at: those after the watermark, and of them the last 200. */
  function Looked(log: Log, since: Option<Id>): Log {
    var start := StartAfter(log, since);
    log[if |log| - start > 200 then |log| - 200 else start..]
  }

  predicate BySibling(e: Event, me: Id) {
    e.payload.ObservationCaptured? && e.payload.observation.sessionId != Some(me)
  }

  /** At most five sibling observations, newest first, and none left out is newer than one shown. */
  ghost predicate ObservationsTold(shown: Log, rows: Log, me: Id) {
    && |shown| <= 5 && NoRepeats(shown) && (forall e :: e in shown ==> e in rows && BySibling(e, me))
    && (forall i, j :: 0 <= i < j < |shown| && BySibling(shown[i], me) && BySibling(shown[j], me) ==>
          !Less(shown[i].payload.observation.createdAt, shown[j].payload.observation.createdAt))
    && forall e :: e in rows && BySibling(e, me) && e !in shown ==>
         && |shown| == 5
         && forall x :: x in shown && BySibling(x, me) ==>
              !Less(x.payload.observation.createdAt, e.payload.observation.createdAt)
  }

  predicate Remembers(e: Event) {
    e.payload.MemoryConsolidated?
  }

  /** At most three memories, most salient first, and none left out is more salient than one shown. */
  ghost predicate MemoriesTold(shown: Log, rows: Log) {
    && |shown| <= 3 && NoRepeats(shown) && (forall e :: e in shown ==> e in rows && Remembers(e))
    && (forall i, j :: 0 <= i < j < |shown| && Remembers(shown[i]) && Remembers(shown[j]) ==>
          shown[i].payload.memory.salience >= shown[j].payload.memory.salience)
    && forall e :: e in rows && Remembers(e) && e !in shown ==>
         && |shown| == 3
         && forall x :: x in shown && Remembers(x) ==> x.payload.memory.salience >= e.payload.memory.salience
  }

  /** A sibling wrote to a path this session touched. */
  predicate Hits(e: Event, s: Scope, path: string) {
    BySibling(e, s.me) && s.writes(e) == Some(path) && path in s.selfPaths
  }

  /** One warning per path, for the first write to it; in log order, and only the later paths are cut off. */
  ghost predicate ConflictsTold(shown: seq<Collision>, rows: Log, s: Scope, cap: nat, places: seq<nat>) {
    && |shown| == |places| && |shown| <= cap
    && (forall i, j :: 0 <= i < j < |places| ==> places[i] < places[j])
    && (forall i :: 0 <= i < |places| ==>
          && places[i] < |rows| && shown[i].event == rows[places[i]] && Hits(shown[i].event, s, shown[i].path)
          && forall q :: 0 <= q < places[i] ==> !Hits(rows[q], s, shown[i].path))
    && forall q, path :: 0 <= q < |rows| && Hits(rows[q], s, path) ==>
         Warned(shown, path) || (|shown| == cap && forall i :: 0 <= i < |places| ==> places[i] < q)
  }

  ghost predicate Warned(shown: seq<Collision>, path: string) {
    exists i :: 0 <= i < |shown| && shown[i].path == path
  }

  // --- the ranked lists ---------------------------------------------------------------------------------

  lemma InPrefix(list: Log, ranked: Log, j: nat)
    requires list <= ranked && j < |ranked|
    ensures j < |list| ==> ranked[j] in list
  {
  }

  /** The head of a ranking: in order, and ahead of what is left out. */
  lemma TopTold(list: Log, pool: Log, before: (Event, Event) -> bool, cap: nat)
    requires TopOf(list, pool, before, cap) && NoRepeats(pool)
    ensures |list| <= cap && NoRepeats(list) && forall e :: e in list ==> e in pool
    ensures forall i, j :: 0 <= i < j < |list| ==> !before(list[j], list[i])
    ensures forall e :: e in pool && e !in list ==> |list| == cap && forall x :: x in list ==> !before(e, x)
  {
    TopIsPart(list, pool, before, cap);
    var ranked :| IsRanking(ranked, pool, before) && list == ranked[..if |ranked| <= cap then |ranked| else cap];
    forall e | e in pool && e !in list ensures |list| == cap && forall x :: x in list ==> !before(e, x) {
      assert e in multiset(pool) && e in multiset(ranked);
      var j :| 0 <= j < |ranked| && ranked[j] == e;
      InPrefix(list, ranked, j);
      forall x | x in list ensures !before(e, x) {
        var i :| 0 <= i < |list| && list[i] == x;
        assert ranked[i] == x;
      }
    }
  }

  lemma ObservationsAreTold(shown: Log, rows: Log, me: Id)
    requires NoRepeats(rows) && TopOf(shown, Siblings(rows, me), NewerObservation, MAX_LIVE_OBSERVATIONS)
    ensures ObservationsTold(shown, rows, me)
  {
    hide TopOf, NoRepeats, Siblings, Less;
    TopTold(shown, Siblings(rows, me), NewerObservation, MAX_LIVE_OBSERVATIONS);
  }

  lemma MemoriesAreTold(shown: Log, rows: Log)
    requires NoRepeats(rows) && TopOf(shown, Memories(rows), MoreSalient, MAX_LIVE_MEMORIES)
    ensures MemoriesTold(shown, rows)
  {
    hide TopOf, NoRepeats, Memories;
    TopTold(shown, Memories(rows), MoreSalient, MAX_LIVE_MEMORIES);
  }

  // --- collisions -----------------------------------------------------------------------------------------

  /** All warnings of a scan, uncapped. */
  ghost predicate AllTold(found: seq<Collision>, rows: Log, s: Scope, places: seq<nat>) {
    && ConflictsTold(found, rows, s, |rows|, places)
    && forall q, path :: 0 <= q < |rows| && Hits(rows[q], s, path) ==> Warned(found, path)
  }

  lemma KnownPath(found: seq<Collision>, rows: Log, e: Event, s: Scope, places: seq<nat>)
    requires AllTold(found, rows, s, places)
    requires forall path :: Hits(e, s, path) ==> Warned(found, path)
    ensures AllTold(found, rows + [e], s, places)
  {
    hide Hits, Warned;
    var longer := rows + [e];
    assert forall q :: 0 <= q < |rows| ==> longer[q] == rows[q];
  }

  lemma NewPath(found: seq<Collision>, rows: Log, e: Event, s: Scope, places: seq<nat>, path: string)
    requires AllTold(found, rows, s, places)
    requires Hits(e, s, path) && !Warned(found, path)
    ensures AllTold(found + [Collision(e, path)], rows + [e], s, places + [|rows|])
  {
    var longer, more := rows + [e], found + [Collision(e, path)];
    assert forall q :: 0 <= q < |rows| ==> longer[q] == rows[q];
    forall x | Warned(found, x) || x == path ensures Warned(more, x) {
      if x == path {
        assert more[|found|].path == path;
      } else {
        var i :| 0 <= i < |found| && found[i].path == x;
        assert more[i].path == x;
      }
    }
  }

  lemma WarnedIsPath(found: seq<Collision>, path: string)
    ensures path in PathsOf(found) <==> Warned(found, path)
  {
    if Warned(found, path) {
      var i :| 0 <= i < |found| && found[i].path == path;
      assert found[i] in found;
    }
  }

  lemma {:induction false} CollisionsAreTold(rows: Log, s: Scope) returns (places: seq<nat>)
    ensures AllTold(Collisions(rows, s), rows, s, places)
  {
    hide AllTold, Warned, PathsOf;
    if rows == [] {
      places := [];
      NothingCollided(s);
    } else {
      var n := |rows| - 1;
      var e, rest := rows[n], Collisions(rows[..n], s);
      places := CollisionsAreTold(rows[..n], s);
      assert rows == rows[..n] + [e];
      forall path ensures path in PathsOf(rest) <==> Warned(rest, path) { WarnedIsPath(rest, path); }
      if Collides(e, s) && s.writes(e).value !in PathsOf(rest) {
        NewPath(rest, rows[..n], e, s, places, s.writes(e).value);
        places := places + [n];
      } else {
        KnownPath(rest, rows[..n], e, s, places);
      }
    }
  }

  lemma NothingCollided(s: Scope)
    ensures AllTold(Collisions([], s), [], s, [])
  {
  }

  /** The first of all warnings. */
  lemma CappedAreTold(found: seq<Collision>, rows: Log, s: Scope, places: seq<nat>, cap: nat)
    requires AllTold(found, rows, s, places)
    ensures var k := if |found| <= cap then |found| else cap;
            ConflictsTold(TakeUpTo(found, cap), rows, s, cap, places[..k])
  {
    var k := if |found| <= cap then |found| else cap;
    var shown := TakeUpTo(found, cap);
    forall q, path | 0 <= q < |rows| && Hits(rows[q], s, path)
      ensures Warned(shown, path) || (|shown| == cap && forall i :: 0 <= i < k ==> places[i] < q)
    {
      assert Warned(found, path);
      var i :| 0 <= i < |found| && found[i].path == path;
      if i < k { assert shown[i].path == path; }
      assert places[i] <= q by { FirstHit(found, rows, s, places, i, q); }
    }
  }

  lemma FirstHit(found: seq<Collision>, rows: Log, s: Scope, places: seq<nat>, i: nat, q: nat)
    requires AllTold(found, rows, s, places) && i < |found| && q < |rows| && Hits(rows[q], s, found[i].path)
    ensures places[i] <= q
  {
  }

  // --- one update ------------------------------------------------------------------------------------------

  /**
   * What one update shows: nothing when nothing is pending; else the newest sibling observations,
   * the most salient memories and the first path collisions of the rows looked at, and the
   * watermark is the last row of the log.
   */
  lemma UpdateIsTold(u: LiveUpdate, log: Log, since: Option<Id>, s: Scope)
    requires UniqueIds(log) && IsUpdate(u, log, since, s)
    ensures StartAfter(log, since) == |log| ==>
              u.observations == [] && u.memories == [] && u.conflicts == [] && u.newWatermark == since && !u.hasContent
    ensures StartAfter(log, since) < |log| ==>
              && ObservationsTold(u.observations, Looked(log, since), s.me)
              && MemoriesTold(u.memories, Looked(log, since))
              && (exists places :: ConflictsTold(u.conflicts, Looked(log, since), s, 3, places))
              && u.gitWarnings <= s.gitWarnings
              && |u.gitWarnings| == (if |s.gitWarnings| < 3 then |s.gitWarnings| else 3)
              && u.newWatermark == Some(log[|log| - 1].id)
              && (u.hasContent <==> |u.observations| + |u.memories| + |u.conflicts| + |u.gitWarnings| > 0)
  {
    hide TopOf, Collisions, Siblings, Memories, ReadSince, NoRepeats, UniqueIds;
    var start := StartAfter(log, since);
    if start < |log| {
      var rows := Looked(log, since);
      LookedIsScanned(log, start);
      assert NoRepeats(rows) by { RowsDoNotRepeat(log, start); }
      ObservationsAreTold(u.observations, rows, s.me);
      MemoriesAreTold(u.memories, rows);
      var places := CollisionsAreTold(rows, s);
      CappedAreTold(Collisions(rows, s), rows, s, places, 3);
    }
  }

  lemma LookedIsScanned(log: Log, start: nat)
    requires start <= |log|
    ensures Scanned(log[start..]) == log[if |log| - start > 200 then |log| - 200 else start..]
  {
  }

  lemma RowsDoNotRepeat(log: Log, start: nat)
    requires UniqueIds(log) && start <= |log|
    ensures NoRepeats(log[if |log| - start > 200 then |log| - 200 else start..])
  {
  }

  /** So a sibling's latest work is shown whenever any of its is. */
  lemma NewestIsShown(u: LiveUpdate, log: Log, since: Option<Id>, s: Scope, e: Event)
    requires UniqueIds(log) && IsUpdate(u, log, since, s) && StartAfter(log, since) < |log|
    requires e in Looked(log, since) && BySibling(e, s.me)
    requires forall f :: f in Looked(log, since) && BySibling(f, s.me) && f != e ==>
               Less(f.payload.observation.createdAt, e.payload.observation.createdAt)
    ensures u.observations != [] && u.observations[0] == e
  {
    hide IsUpdate, Looked, MemoriesTold, ConflictsTold, NoRepeats;
    UpdateIsTold(u, log, since, s);
    if u.observations != [] { assert u.observations[0] in u.observations; }
    if e in u.observations {
      var i :| 0 <= i < |u.observations| && u.observations[i] == e;
    }
  }
}
