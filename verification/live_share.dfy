/** What one session is shown of its siblings, and how often, over runs of calls, appends and sweeps. */
module LiveShare {
  import opened Events
  import opened EventLog
  import opened Sorting
  import opened Text

  const MAX_LIVE_OBSERVATIONS: nat := 5
  const MAX_LIVE_MEMORIES: nat := 3
  const MAX_LIVE_CONFLICTS: nat := 3
  const MAX_LIVE_GIT_WARNINGS: nat := 3
  const MAX_DELTA_SCAN: nat := 200

  /** A sibling's write to a file this session touched too. */
  datatype Collision = Collision(event: Event, path: string)

  datatype LiveUpdate = LiveUpdate(
    observations: Log, memories: Log, conflicts: seq<Collision>, gitWarnings: seq<string>,
    newWatermark: Option<Id>, hasContent: bool)

  /**
   * What the scan depends on besides the log: the session, the paths it touched, the
   * normalised path an observation event writes to, and time-windowed git warnings.
   */
  datatype Scope = Scope(me: Id, selfPaths: set<string>, writes: Event -> Option<string>, gitWarnings: seq<string>)

  function EmptyUpdate(since: Option<Id>): LiveUpdate {
    LiveUpdate([], [], [], [], since, false)
  }

  predicate IsSibling(e: Event, me: Id) {
    e.payload.ObservationCaptured? && e.payload.observation.sessionId != Some(me)
  }

  predicate IsMemory(e: Event) {
    e.payload.MemoryConsolidated?
  }

  function Siblings(scanned: Log, me: Id): (found: Log)
    ensures forall e :: e in found <==> e in scanned && IsSibling(e, me)
    ensures NoRepeats(scanned) ==> NoRepeats(found)
  {
    if scanned == [] then []
    else
      var n := |scanned| - 1;
      var rest := Siblings(scanned[..n], me);
      assert scanned == scanned[..n] + [scanned[n]];
      assert NoRepeats(scanned) ==> NoRepeats(scanned[..n]) && scanned[n] !in scanned[..n];
      if IsSibling(scanned[n], me) then rest + [scanned[n]] else rest
  }

  function Memories(scanned: Log): (found: Log)
    ensures forall e :: e in found <==> e in scanned && IsMemory(e)
    ensures NoRepeats(scanned) ==> NoRepeats(found)
  {
    if scanned == [] then []
    else
      var n := |scanned| - 1;
      var rest := Memories(scanned[..n]);
      assert scanned == scanned[..n] + [scanned[n]];
      assert NoRepeats(scanned) ==> NoRepeats(scanned[..n]) && scanned[n] !in scanned[..n];
      if IsMemory(scanned[n]) then rest + [scanned[n]] else rest
  }

  predicate Collides(e: Event, s: Scope) {
    IsSibling(e, s.me) && s.writes(e).Some? && s.writes(e).value in s.selfPaths
  }

  function PathsOf(conflicts: seq<Collision>): set<string> {
    set c | c in conflicts :: c.path
  }

  /** One warning per path, for the earliest write to it. */
  function Collisions(scanned: Log, s: Scope): seq<Collision> {
    if scanned == [] then []
    else
      var n := |scanned| - 1;
      var rest := Collisions(scanned[..n], s);
      if Collides(scanned[n], s) && s.writes(scanned[n]).value !in PathsOf(rest)
      then rest + [Collision(scanned[n], s.writes(scanned[n]).value)] else rest
  }

  lemma OneMorePath(conflicts: seq<Collision>, c: Collision)
    ensures PathsOf(conflicts + [c]) == PathsOf(conflicts) + {c.path}
    ensures forall i :: 0 <= i < |conflicts| ==> conflicts[i].path in PathsOf(conflicts)
  {
    assert forall x :: x in conflicts + [c] <==> x in conflicts || x == c;
    assert forall i :: 0 <= i < |conflicts| ==> conflicts[i] in conflicts;
  }

  ghost predicate IsCollision(c: Collision, scanned: Log, s: Scope) {
    c.event in scanned && Collides(c.event, s) && s.writes(c.event) == Some(c.path)
  }

  /** Every path written by a sibling and touched by the session is warned about, once, for a write in the scan. */
  lemma {:induction false} OneCollisionPerPath(scanned: Log, s: Scope)
    ensures var found := Collisions(scanned, s);
            && (forall i :: 0 <= i < |found| ==> IsCollision(found[i], scanned, s))
            && (forall e :: e in scanned && Collides(e, s) ==> s.writes(e).value in PathsOf(found))
            && (forall i, j :: 0 <= i < j < |found| ==> found[i].path != found[j].path)
  {
    hide Collides, PathsOf;
    if scanned != [] {
      var n := |scanned| - 1;
      var rest := Collisions(scanned[..n], s);
      OneCollisionPerPath(scanned[..n], s);
      assert forall e :: e in scanned <==> e in scanned[..n] || e == scanned[n] by {
        assert scanned == scanned[..n] + [scanned[n]];
      }
      assert forall i :: 0 <= i < |rest| ==> IsCollision(rest[i], scanned, s) by {
        assert forall i :: 0 <= i < |rest| ==> IsCollision(rest[i], scanned[..n], s);
      }
      if Collides(scanned[n], s) {
        CollisionHasPath(scanned[n], s);
        var c := Collision(scanned[n], s.writes(scanned[n]).value);
        OneMorePath(rest, c);
        assert IsCollision(c, scanned, s);
      }
    }
  }

  lemma CollisionHasPath(e: Event, s: Scope)
    requires Collides(e, s)
    ensures s.writes(e).Some?
  {
  }

  function CapturedAt(e: Event): Time {
    if e.payload.ObservationCaptured? then e.payload.observation.createdAt else ""
  }

  function SalienceOf(e: Event): int {
    if e.payload.MemoryConsolidated? then e.payload.memory.salience else 0
  }

  predicate NewerObservation(a: Event, b: Event) {
    Less(CapturedAt(b), CapturedAt(a))
  }

  predicate MoreSalient(a: Event, b: Event) {
    SalienceOf(a) > SalienceOf(b)
  }

  /** The first `cap` of the pool under some ranking by `before`; ties may fall either way. */
  ghost predicate TopOf(list: Log, pool: Log, before: (Event, Event) -> bool, cap: nat) {
    exists ranked :: IsRanking(ranked, pool, before) && list == ranked[..if |ranked| <= cap then |ranked| else cap]
  }

  ghost predicate IsRanking(ranked: Log, pool: Log, before: (Event, Event) -> bool) {
    multiset(ranked) == multiset(pool) && SortedBy(ranked, before)
  }

  function Scanned(all: Log): Log {
    if |all| > MAX_DELTA_SCAN then all[|all| - MAX_DELTA_SCAN..] else all
  }

  function TakeUpTo<T>(s: seq<T>, n: nat): (t: seq<T>)
    ensures t <= s && |t| == if |s| <= n then |s| else n
  {
    if |s| <= n then s else s[..n]
  }

  ghost predicate IsUpdate(u: LiveUpdate, log: Log, since: Option<Id>, s: Scope) {
    var all := ReadSince(log, since);
    var scanned := Scanned(all);
    if all == [] then u == EmptyUpdate(since)
    else
      && TopOf(u.observations, Siblings(scanned, s.me), NewerObservation, MAX_LIVE_OBSERVATIONS)
      && TopOf(u.memories, Memories(scanned), MoreSalient, MAX_LIVE_MEMORIES)
      && u.conflicts == TakeUpTo(Collisions(scanned, s), MAX_LIVE_CONFLICTS)
      && u.gitWarnings == TakeUpTo(s.gitWarnings, MAX_LIVE_GIT_WARNINGS)
      && u.newWatermark == Some(all[|all| - 1].id)
      && (u.hasContent <==> u.observations != [] || u.memories != [] || u.conflicts != [] || u.gitWarnings != [])
  }

  lemma NewerObservationRanks(s: Log)
    ensures IsRanking(SortBy(s, NewerObservation), s, NewerObservation)
  {
    hide Less, CapturedAt;
    LessIsOrder();
    SortKeeps(s, NewerObservation);
    SortSorts(s, NewerObservation);
  }

  lemma MoreSalientRanks(s: Log)
    ensures IsRanking(SortBy(s, MoreSalient), s, MoreSalient)
  {
    SortKeeps(s, MoreSalient);
    SortSorts(s, MoreSalient);
  }

  // --- the loops of the source ----------------------------------------------------------------

  method BuildLiveUpdate(log: Log, since: Option<Id>, s: Scope) returns (u: LiveUpdate)
    ensures IsUpdate(u, log, since, s)
  {
    hide Collides, NewerObservation, MoreSalient, IsRanking, ReadSince, SortBy, Siblings, Memories, Collisions,
         Scanned;
    var all := ReadSince(log, since);
    if all == [] { return EmptyUpdate(since); }
    var scanned := Scanned(all);
    var observations, memories := Gather(scanned, s.me);
    var conflicts := FindCollisions(scanned, s);
    NewerObservationRanks(observations);
    MoreSalientRanks(memories);
    var newest, salient := SortBy(observations, NewerObservation), SortBy(memories, MoreSalient);
    var cappedObservations := TakeUpTo(newest, MAX_LIVE_OBSERVATIONS);
    var cappedMemories := TakeUpTo(salient, MAX_LIVE_MEMORIES);
    var cappedConflicts := TakeUpTo(conflicts, MAX_LIVE_CONFLICTS);
    var cappedGit := TakeUpTo(s.gitWarnings, MAX_LIVE_GIT_WARNINGS);
    var hasContent := |cappedObservations| + |cappedMemories| + |cappedConflicts| + |cappedGit| > 0;
    u := LiveUpdate(cappedObservations, cappedMemories, cappedConflicts, cappedGit, Some(all[|all| - 1].id),
      hasContent);
  }

  method Gather(scanned: Log, me: Id) returns (observations: Log, memories: Log)
    ensures observations == Siblings(scanned, me) && memories == Memories(scanned)
  {
    observations, memories := [], [];
    for i := 0 to |scanned|
      invariant observations == Siblings(scanned[..i], me) && memories == Memories(scanned[..i])
    {
      assert scanned[..i + 1][..i] == scanned[..i];
      var e := scanned[i];
      if e.payload.ObservationCaptured? {
        if e.payload.observation.sessionId != Some(me) { observations := observations + [e]; }
      } else if e.payload.MemoryConsolidated? {
        memories := memories + [e];
      }
    }
    assert scanned[..|scanned|] == scanned;
  }

  method FindCollisions(scanned: Log, s: Scope) returns (conflicts: seq<Collision>)
    ensures conflicts == Collisions(scanned, s)
  {
    conflicts := [];
    var seen: set<string> := {};
    for i := 0 to |scanned|
      invariant conflicts == Collisions(scanned[..i], s) && seen == PathsOf(conflicts)
    {
      assert scanned[..i + 1][..i] == scanned[..i];
      if Collides(scanned[i], s) {
        var path := s.writes(scanned[i]).value;
        if path !in seen {
          OneMorePath(conflicts, Collision(scanned[i], path));
          conflicts := conflicts + [Collision(scanned[i], path)];
          seen := seen + {path};
        }
      }
    }
    assert scanned[..|scanned|] == scanned;
  }

  /** The share watermark of one session. */
  class ShareSession {
    var watermark: Option<Id>

    constructor ()
      ensures watermark == None
    {
      watermark := None;
    }

    /** A first call seeds the watermark and shows nothing; later calls advance it over everything they read. */
    method ComposeLiveUpdate(log: Log, s: Scope) returns (shown: Option<LiveUpdate>, ghost update: LiveUpdate)
      modifies this
      ensures old(watermark).None? ==>
                shown.None? && watermark == if log == [] then None else Some(log[|log| - 1].id)
      ensures old(watermark).Some? ==>
                && IsUpdate(update, log, old(watermark), s)
                && watermark == update.newWatermark
                && shown == if update.hasContent then Some(update) else None
    {
      hide IsUpdate;
      update := EmptyUpdate(watermark);
      if watermark.None? {
        if log != [] { watermark := Some(log[|log| - 1].id); }
        return None, update;
      }
      var u := BuildLiveUpdate(log, watermark, s);
      update := u;
      if u.newWatermark != watermark { watermark := u.newWatermark; }
      shown := if u.hasContent then Some(u) else None;
    }
  }

  // --- runs: one session, siblings appending and rows swept in between --------------------------------

  /**
   * `ever` is every row the log ever held, `gone` what sweeps took out of it; `seed` is where
   * the session started. The rest records what was delivered, and from where to where it read.
   */
  datatype World = World(
    ever: Log, gone: set<Id>, watermark: Option<Id>, seed: nat,
    observations: Log, memories: Log, collisions: Log, windows: seq<(nat, nat)>)

  datatype Step = Append(events: Log) | Sweep(ids: set<Id>) | Call(scope: Scope, update: LiveUpdate)

  function Without(log: Log, gone: set<Id>): Log {
    if log == [] then []
    else
      var rest := Without(log[..|log| - 1], gone);
      if log[|log| - 1].id in gone then rest else rest + [log[|log| - 1]]
  }

  function LogOf(w: World): Log {
    Without(w.ever, w.gone)
  }

  function EventsOf(conflicts: seq<Collision>): Log {
    seq(|conflicts|, i requires 0 <= i < |conflicts| => conflicts[i].event)
  }

  /** Where a call reads from, among all rows there ever were: a swept watermark reads everything. */
  function ReadsFrom(w: World): nat {
    if w.watermark.Some? && HasId(LogOf(w), w.watermark.value) then StartAfter(w.ever, w.watermark) else 0
  }

  ghost function Next(w: World, step: Step, me: Id): World {
    match step
    case Append(events) =>
      if UniqueIds(w.ever + events) && forall e :: e in events ==> e.id !in w.gone
      then w.(ever := w.ever + events) else w
    case Sweep(ids) => w.(gone := w.gone + ids)
    case Call(s, u) =>
      var log := LogOf(w);
      if s.me != me then w
      else if w.watermark.None? then
        if log == [] then w
        else
          var head := Some(log[|log| - 1].id);
          w.(watermark := head, seed := StartAfter(w.ever, head))
      else if !IsUpdate(u, log, w.watermark, s) then w
      else
        w.(watermark := u.newWatermark,
           observations := w.observations + u.observations,
           memories := w.memories + u.memories,
           collisions := w.collisions + EventsOf(u.conflicts),
           windows := if ReadSince(log, w.watermark) == [] then w.windows
                      else w.windows + [(ReadsFrom(w), StartAfter(w.ever, u.newWatermark))])
  }

  ghost function Run(w: World, steps: seq<Step>, me: Id): World
    decreases steps
  {
    if steps == [] then w else Run(Next(w, steps[0], me), steps[1..], me)
  }

  const START: World := World([], {}, None, 0, [], [], [], [])

  /** The sweep leaves the row the share watermark names. */
  predicate Spares(w: World, step: Step) {
    step.Sweep? && w.watermark.Some? ==> w.watermark.value !in step.ids
  }

  ghost predicate SparingRun(w: World, steps: seq<Step>, me: Id)
    decreases steps
  {
    steps == [] || (Spares(w, steps[0]) && SparingRun(Next(w, steps[0], me), steps[1..], me))
  }

  /** Delivered once each, from between the seed and the watermark. */
  ghost predicate OnceFrom(delivered: Log, log: Log, seed: nat, place: nat) {
    NoRepeats(delivered) && seed <= place <= |log| && forall e :: e in delivered ==> e in log[seed..place]
  }

  ghost predicate Chained(windows: seq<(nat, nat)>, seed: nat, place: nat) {
    && (forall k :: 0 <= k < |windows| ==> seed <= windows[k].0 < windows[k].1 <= place)
    && (forall k, l :: 0 <= k < l < |windows| ==> windows[k].1 <= windows[l].0)
  }

  ghost predicate Inv(w: World, me: Id) {
    && UniqueIds(w.ever)
    && (w.watermark.None? ==> w.observations == [] && w.memories == [] && w.collisions == [] && w.windows == [])
    && (w.watermark.Some? ==>
          var place := StartAfter(w.ever, w.watermark);
          && HasId(w.ever, w.watermark.value) && w.watermark.value !in w.gone
          && OnceFrom(w.observations, w.ever, w.seed, place)
          && OnceFrom(w.memories, w.ever, w.seed, place)
          && OnceFrom(w.collisions, w.ever, w.seed, place)
          && Chained(w.windows, w.seed, place))
    && (forall e :: e in w.observations + w.collisions ==> IsSibling(e, me))
    && (forall e :: e in w.memories ==> IsMemory(e))
  }

  // --- what is left of a log ---------------------------------------------------------------------

  lemma {:induction false} WithoutMembers(log: Log, gone: set<Id>)
    ensures forall e :: e in Without(log, gone) <==> e in log && e.id !in gone
  {
    if log != [] {
      WithoutMembers(log[..|log| - 1], gone);
      assert log == log[..|log| - 1] + [log[|log| - 1]];
    }
  }

  lemma {:induction false} WithoutJoins(a: Log, b: Log, gone: set<Id>)
    ensures Without(a + b, gone) == Without(a, gone) + Without(b, gone)
  {
    if b == [] {
      assert a + b == a;
    } else {
      assert (a + b)[..|a + b| - 1] == a + b[..|b| - 1];
      WithoutJoins(a, b[..|b| - 1], gone);
    }
  }

  lemma {:induction false} WithoutIsUnique(log: Log, gone: set<Id>)
    requires UniqueIds(log)
    ensures UniqueIds(Without(log, gone))
  {
    if log != [] {
      var n := |log| - 1;
      WithoutIsUnique(log[..n], gone);
      WithoutMembers(log[..n], gone);
      forall e | e in Without(log[..n], gone) ensures e.id != log[n].id {
        var x :| 0 <= x < n && log[x] == e;
      }
    }
  }

  lemma WithoutOne(e: Event, gone: set<Id>)
    requires e.id !in gone
    ensures Without([e], gone) == [e]
  {
    assert Without([e][..0], gone) == [];
  }

  /** Reading on after a row that is still there gives what is left of the rows after it. */
  lemma ReadOfWithout(ever: Log, gone: set<Id>, p: nat)
    requires UniqueIds(ever) && p < |ever| && ever[p].id !in gone
    ensures HasId(Without(ever, gone), ever[p].id)
    ensures ReadSince(Without(ever, gone), Some(ever[p].id)) == Without(ever[p + 1..], gone)
  {
    hide Without, UniqueIds;
    var x, rest := ever[p], ever[p + 1..];
    assert ever == ever[..p] + ([x] + rest);
    WithoutJoins(ever[..p], [x] + rest, gone);
    WithoutJoins([x], rest, gone);
    WithoutOne(x, gone);
    var before, after := Without(ever[..p], gone), Without(rest, gone);
    var log := before + ([x] + after);
    assert Without(ever, gone) == log && log[|before|] == x;
    WithoutIsUnique(ever, gone);
    PositionOf(log, |before|);
    assert x in log;
    assert log[|before| + 1..] == after;
  }

  /** The last row left, and everything left lies up to it. */
  lemma {:induction false} LastOfWithout(log: Log, gone: set<Id>) returns (q: nat)
    requires Without(log, gone) != []
    ensures q < |log| && log[q].id !in gone && Without(log, gone)[|Without(log, gone)| - 1] == log[q]
    ensures forall e :: e in Without(log, gone) ==> e in log[..q + 1]
  {
    var n := |log| - 1;
    if log[n].id in gone {
      q := LastOfWithout(log[..n], gone);
      assert log[..n][..q + 1] == log[..q + 1];
    } else {
      q := n;
      WithoutMembers(log, gone);
      assert log[..n + 1] == log;
    }
  }

  lemma TopIsPart(list: Log, pool: Log, before: (Event, Event) -> bool, cap: nat)
    requires TopOf(list, pool, before, cap) && NoRepeats(pool)
    ensures NoRepeats(list) && forall e :: e in list ==> e in pool
    ensures |list| == if |pool| <= cap then |pool| else cap
  {
    hide SortedBy;
    var ranked :| IsRanking(ranked, pool, before) && list == ranked[..if |ranked| <= cap then |ranked| else cap];
    assert |ranked| == |multiset(ranked)| == |multiset(pool)| == |pool|;
    CountsNoRepeats(pool);
    forall i, j | 0 <= i < j < |ranked| ensures ranked[i] != ranked[j] { NoRepeatsFromCounts(ranked, i, j); }
    forall e | e in list ensures e in pool {
      assert e in ranked;
      assert e in multiset(ranked);
    }
  }

  lemma ScannedIsTail(log: Log, from: nat)
    requires UniqueIds(log) && from <= |log|
    ensures NoRepeats(Scanned(log[from..])) && forall e :: e in Scanned(log[from..]) ==> e in log[from..]
  {
  }

  /** What one update delivers lies in the window it read, once each, and nothing of one's own. */
  lemma UpdateIsFromWindow(u: LiveUpdate, log: Log, since: Option<Id>, s: Scope)
    requires UniqueIds(log) && IsUpdate(u, log, since, s)
    ensures var tail := log[StartAfter(log, since)..];
            && NoRepeats(u.observations) && NoRepeats(u.memories) && NoRepeats(EventsOf(u.conflicts))
            && (forall e :: e in u.observations + EventsOf(u.conflicts) ==> e in tail && IsSibling(e, s.me))
            && (forall e :: e in u.memories ==> e in tail && IsMemory(e))
            && (tail != [] ==> u.newWatermark == Some(log[|log| - 1].id))
            && (tail == [] ==> u == EmptyUpdate(since))
  {
    hide TopOf, UniqueIds, Collisions, Siblings, Memories, Scanned, ReadSince;
    var from := StartAfter(log, since);
    var tail := log[from..];
    if tail != [] {
      ScannedIsTail(log, from);
      var scanned := Scanned(tail);
      TopIsPart(u.observations, Siblings(scanned, s.me), NewerObservation, MAX_LIVE_OBSERVATIONS);
      TopIsPart(u.memories, Memories(scanned), MoreSalient, MAX_LIVE_MEMORIES);
      CollisionsAreOnce(u.conflicts, scanned, s);
    }
  }

  lemma CollisionsAreOnce(conflicts: seq<Collision>, scanned: Log, s: Scope)
    requires conflicts <= Collisions(scanned, s)
    ensures NoRepeats(EventsOf(conflicts))
    ensures forall e :: e in EventsOf(conflicts) ==> e in scanned && IsSibling(e, s.me)
  {
    hide Collisions, PathsOf;
    OneCollisionPerPath(scanned, s);
    var all := Collisions(scanned, s);
    assert forall i :: 0 <= i < |conflicts| ==> conflicts[i] == all[i] && IsCollision(all[i], scanned, s);
  }

  lemma EarlierIsNotLater(log: Log, seed: nat, place: nat, e: Event)
    requires UniqueIds(log) && seed <= place <= |log| && e in log[seed..place]
    ensures e !in log[place..]
  {
    var i :| 0 <= i < |log[seed..place]| && log[seed..place][i] == e;
    assert log[seed + i] == e;
    forall j | 0 <= j < |log[place..]| ensures log[place..][j] != e {
      assert log[place..][j] == log[place + j];
    }
  }

  lemma InSlice(log: Log, lo: nat, hi: nat, more: nat, e: Event)
    requires lo <= hi <= more <= |log| && e in log[lo..hi]
    ensures e in log[lo..more]
  {
    var i :| 0 <= i < |log[lo..hi]| && log[lo..hi][i] == e;
    assert log[lo..more][i] == e;
  }

  lemma InLaterSlice(log: Log, lo: nat, from: nat, hi: nat, e: Event)
    requires lo <= from <= hi <= |log| && e in log[from..hi]
    ensures e in log[lo..hi] && e in log[from..]
  {
    var i :| 0 <= i < |log[from..hi]| && log[from..hi][i] == e;
    assert log[lo..hi][from - lo + i] == e;
    assert log[from..][i] == e;
  }

  lemma DeliverMore(delivered: Log, more: Log, log: Log, seed: nat, place: nat, end: nat)
    requires UniqueIds(log) && OnceFrom(delivered, log, seed, place) && place <= end <= |log|
    requires NoRepeats(more) && forall e :: e in more ==> e in log[place..end]
    ensures OnceFrom(delivered + more, log, seed, end)
  {
    hide UniqueIds;
    forall e | e in more ensures e in log[seed..end] && e in log[place..] { InLaterSlice(log, seed, place, end, e); }
    forall e | e in delivered ensures e !in more && e in log[seed..end] {
      EarlierIsNotLater(log, seed, place, e);
      InSlice(log, seed, place, end, e);
    }
    NoRepeatsJoin(delivered, more);
  }

  lemma GrowthKeepsDelivered(delivered: Log, log: Log, more: Log, seed: nat, place: nat)
    requires OnceFrom(delivered, log, seed, place)
    ensures OnceFrom(delivered, log + more, seed, place)
  {
    assert (log + more)[seed..place] == log[seed..place];
  }

  lemma AppendKeepsInv(w: World, events: Log, me: Id)
    requires Inv(w, me) && UniqueIds(w.ever + events)
    ensures Inv(w.(ever := w.ever + events), me)
  {
    hide UniqueIds, OnceFrom, ReadSince, Position, HasId;
    if w.watermark.Some? {
      PositionKeptByAppend(w.ever, events, w.watermark.value);
      FoundStartsAfter(w.ever, w.watermark.value);
      FoundStartsAfter(w.ever + events, w.watermark.value);
      var place := StartAfter(w.ever, w.watermark);
      GrowthKeepsDelivered(w.observations, w.ever, events, w.seed, place);
      GrowthKeepsDelivered(w.memories, w.ever, events, w.seed, place);
      GrowthKeepsDelivered(w.collisions, w.ever, events, w.seed, place);
    }
  }

  lemma StartAfterRow(log: Log, p: nat)
    requires p < |log| && UniqueIds(log)
    ensures HasId(log, log[p].id) && StartAfter(log, Some(log[p].id)) == p + 1
  {
    PositionOf(log, p);
    assert log[p] in log;
  }

  lemma SeedKeepsInv(w: World, s: Scope, u: LiveUpdate, me: Id)
    requires Inv(w, me) && w.watermark.None? && LogOf(w) != [] && s.me == me
    ensures Inv(Next(w, Call(s, u), me), me)
  {
    hide UniqueIds, ReadSince, Position, HasId, IsUpdate, Without;
    var q := LastOfWithout(w.ever, w.gone);
    StartAfterRow(w.ever, q);
  }

  /** What is left after row `p` lies after row `p`. */
  lemma WindowAfter(ever: Log, gone: set<Id>, p: nat) returns (q: nat)
    requires UniqueIds(ever) && p < |ever| && ever[p].id !in gone && Without(ever[p + 1..], gone) != []
    ensures var tail := Without(ever[p + 1..], gone);
            && p < q < |ever| && ever[q] == tail[|tail| - 1] && ever[q].id !in gone
            && forall e :: e in tail ==> e in ever[p + 1..q + 1]
  {
    hide UniqueIds, Without;
    var rest := ever[p + 1..];
    var r := LastOfWithout(rest, gone);
    q := p + 1 + r;
    assert rest[..r + 1] == ever[p + 1..q + 1];
  }

  lemma WatermarkIsThere(w: World, me: Id)
    requires Inv(w, me) && w.watermark.Some?
    ensures UniqueIds(w.ever) && HasId(w.ever, w.watermark.value) && w.watermark.value !in w.gone
  {
  }

  /** The rows a call reads are new ones, up to the new watermark. */
  lemma WindowIsNew(w: World, me: Id) returns (q: nat)
    requires Inv(w, me) && w.watermark.Some? && ReadSince(LogOf(w), w.watermark) != []
    ensures var tail := ReadSince(LogOf(w), w.watermark);
            && ReadsFrom(w) == StartAfter(w.ever, w.watermark) <= q < |w.ever|
            && w.ever[q] == tail[|tail| - 1] && w.ever[q].id !in w.gone
            && forall e :: e in tail ==> e in w.ever[ReadsFrom(w)..q + 1]
  {
    hide Inv, UniqueIds, Without, HasId, ReadSince;
    WatermarkIsThere(w, me);
    var p := Position(w.ever, w.watermark.value);
    FoundStartsAfter(w.ever, w.watermark.value);
    ReadOfWithout(w.ever, w.gone, p);
    q := WindowAfter(w.ever, w.gone, p);
  }

  lemma NothingNew(w: World, s: Scope, u: LiveUpdate, me: Id)
    requires Inv(w, me) && w.watermark.Some? && s.me == me && IsUpdate(u, LogOf(w), w.watermark, s)
    requires ReadSince(LogOf(w), w.watermark) == []
    ensures Next(w, Call(s, u), me) == w
  {
    hide ReadSince, LogOf, Inv;
    assert w.observations + [] == w.observations && w.memories + [] == w.memories && w.collisions + [] == w.collisions;
    assert EventsOf(u.conflicts) == [];
  }

  /** The world after a call that read up to row `q`. */
  function Advanced(w: World, u: LiveUpdate, q: nat): World
    requires q < |w.ever|
  {
    w.(watermark := Some(w.ever[q].id),
       observations := w.observations + u.observations,
       memories := w.memories + u.memories,
       collisions := w.collisions + EventsOf(u.conflicts),
       windows := w.windows + [(ReadsFrom(w), q + 1)])
  }

  lemma CallAdvances(w: World, s: Scope, u: LiveUpdate, me: Id, q: nat)
    requires Inv(w, me) && w.watermark.Some? && s.me == me && IsUpdate(u, LogOf(w), w.watermark, s)
    requires ReadSince(LogOf(w), w.watermark) != [] && q < |w.ever|
    requires var tail := ReadSince(LogOf(w), w.watermark); w.ever[q] == tail[|tail| - 1]
    ensures Next(w, Call(s, u), me) == Advanced(w, u, q)
  {
    hide Inv, ReadSince, LogOf, ReadsFrom, TopOf, Collisions, Scanned, HasId;
    LastIsTheLogs(LogOf(w), w.watermark);
    assert UniqueIds(w.ever) by { EverIsUnique(w, me); }
    StartAfterRow(w.ever, q);
  }

  lemma EverIsUnique(w: World, me: Id)
    requires Inv(w, me)
    ensures UniqueIds(w.ever)
  {
  }

  /** What an update delivers comes from the window, once each. */
  ghost predicate Delivers(u: LiveUpdate, window: Log, me: Id) {
    && NoRepeats(u.observations) && NoRepeats(u.memories) && NoRepeats(EventsOf(u.conflicts))
    && (forall e :: e in u.observations || e in EventsOf(u.conflicts) ==> e in window && IsSibling(e, me))
    && (forall e :: e in u.memories ==> e in window && IsMemory(e))
  }

  lemma AdvanceKeepsInv(w: World, u: LiveUpdate, q: nat, me: Id)
    requires Inv(w, me) && w.watermark.Some? && q < |w.ever| && w.ever[q].id !in w.gone
    requires ReadsFrom(w) == StartAfter(w.ever, w.watermark) <= q && Delivers(u, w.ever[ReadsFrom(w)..q + 1], me)
    ensures Inv(Advanced(w, u, q), me)
  {
    hide UniqueIds, ReadSince, Position, HasId, OnceFrom, LogOf, ReadsFrom, Chained, EventsOf;
    var from := ReadsFrom(w);
    StartAfterRow(w.ever, q);
    DeliverMore(w.observations, u.observations, w.ever, w.seed, from, q + 1);
    DeliverMore(w.memories, u.memories, w.ever, w.seed, from, q + 1);
    DeliverMore(w.collisions, EventsOf(u.conflicts), w.ever, w.seed, from, q + 1);
    SeedIsBehind(w, me);
    ChainMore(w.windows, w.seed, from, q + 1);
  }

  lemma CallKeepsInv(w: World, s: Scope, u: LiveUpdate, me: Id)
    requires Inv(w, me) && w.watermark.Some? && s.me == me && IsUpdate(u, LogOf(w), w.watermark, s)
    ensures Inv(Next(w, Call(s, u), me), me)
  {
    hide UniqueIds, ReadSince, Inv, IsUpdate, LogOf, ReadsFrom, Next, Advanced, NoRepeats;
    var log := LogOf(w);
    if ReadSince(log, w.watermark) == [] {
      NothingNew(w, s, u, me);
    } else {
      EverIsUnique(w, me);
      LogIsUnique(w);
      UpdateIsFromWindow(u, log, w.watermark, s);
      LastIsTheLogs(log, w.watermark);
      var q := WindowIsNew(w, me);
      var tail := ReadSince(log, w.watermark);
      forall e | e in u.observations || e in EventsOf(u.conflicts) ensures e in tail && IsSibling(e, me) {
        assert e in u.observations + EventsOf(u.conflicts);
      }
      AdvanceKeepsInv(w, u, q, me);
      CallAdvances(w, s, u, me, q);
    }
  }

  lemma ChainMore(windows: seq<(nat, nat)>, seed: nat, from: nat, to: nat)
    requires Chained(windows, seed, from) && seed <= from < to
    ensures Chained(windows + [(from, to)], seed, to)
  {
  }

  lemma LogIsUnique(w: World)
    requires UniqueIds(w.ever)
    ensures UniqueIds(LogOf(w))
  {
    WithoutIsUnique(w.ever, w.gone);
  }

  lemma LastIsTheLogs(log: Log, since: Option<Id>)
    requires ReadSince(log, since) != []
    ensures var tail := ReadSince(log, since); log != [] && tail[|tail| - 1] == log[|log| - 1]
    ensures log[StartAfter(log, since)..] == ReadSince(log, since)
  {
  }

  lemma SeedIsBehind(w: World, me: Id)
    requires Inv(w, me) && w.watermark.Some?
    ensures w.seed <= StartAfter(w.ever, w.watermark)
  {
  }

  lemma SweepKeepsInv(w: World, ids: set<Id>, me: Id)
    requires Inv(w, me) && Spares(w, Sweep(ids))
    ensures Inv(w.(gone := w.gone + ids), me)
  {
    hide UniqueIds, OnceFrom, Chained, HasId;
  }

  lemma {:induction false} RunKeepsInv(w: World, steps: seq<Step>, me: Id)
    requires Inv(w, me) && SparingRun(w, steps, me)
    ensures Inv(Run(w, steps, me), me)
    decreases steps
  {
    hide Inv, IsUpdate, UniqueIds, StartAfter, LogOf, ReadsFrom, Spares;
    if steps != [] {
      match steps[0] {
        case Append(events) =>
          if UniqueIds(w.ever + events) && forall e :: e in events ==> e.id !in w.gone {
            AppendKeepsInv(w, events, me);
          }
        case Sweep(ids) => SweepKeepsInv(w, ids, me);
        case Call(s, u) =>
          if s.me == me && w.watermark.None? && LogOf(w) != [] { SeedKeepsInv(w, s, u, me); }
          if s.me == me && w.watermark.Some? && IsUpdate(u, LogOf(w), w.watermark, s) { CallKeepsInv(w, s, u, me); }
      }
      RunKeepsInv(Next(w, steps[0], me), steps[1..], me);
    }
  }

  /**
   * Over any run of calls by one session, appends by others and sweeps that spare the row of the
   * watermark: windows are disjoint and in log order; no observation, memory or collision event
   * is delivered twice; nothing captured by the session itself is delivered as a sibling's;
   * nothing older than the cold start is delivered.
   */
  lemma AtMostOnce(steps: seq<Step>, me: Id)
    requires SparingRun(START, steps, me)
    ensures var w := Run(START, steps, me);
            && NoRepeats(w.observations) && NoRepeats(w.memories) && NoRepeats(w.collisions)
            && (forall e :: e in w.observations + w.collisions ==> IsSibling(e, me))
            && w.seed <= |w.ever|
            && (forall e :: e in w.observations + w.memories + w.collisions ==> e in w.ever[w.seed..])
            && Chained(w.windows, w.seed, |w.ever|)
  {
    hide Run, UniqueIds, SparingRun;
    StartIsFine(me);
    RunKeepsInv(START, steps, me);
    var w := Run(START, steps, me);
    RunKeepsSeed(START, steps, me);
    if w.watermark.Some? {
      var place := StartAfter(w.ever, w.watermark);
      forall e | e in w.ever[w.seed..place] ensures e in w.ever[w.seed..] {
        InSlice(w.ever, w.seed, place, |w.ever|, e);
        assert w.ever[w.seed..|w.ever|] == w.ever[w.seed..];
      }
    }
  }

  lemma StartIsFine(me: Id)
    ensures Inv(START, me)
  {
  }

  lemma {:induction false} RunKeepsSeed(w: World, steps: seq<Step>, me: Id)
    requires w.seed <= |w.ever|
    ensures Run(w, steps, me).seed <= |Run(w, steps, me).ever|
    decreases steps
  {
    hide IsUpdate, UniqueIds, LogOf, ReadsFrom;
    if steps != [] { RunKeepsSeed(Next(w, steps[0], me), steps[1..], me); }
  }

  /**
   * The call after a sweep reads rows again, or rows from before the cold start, exactly when the
   * sweep took the row of the watermark and left one before it.
   */
  lemma SweepRereadsExactly(w: World, ids: set<Id>, me: Id)
    requires Inv(w, me) && w.watermark.Some?
    ensures var v := w.(gone := w.gone + ids); var behind := w.ever[..StartAfter(w.ever, w.watermark)];
            (exists e :: e in ReadSince(LogOf(v), v.watermark) && e in behind) <==>
            w.watermark.value in ids && exists e :: e in LogOf(v) && e in behind
  {
    hide UniqueIds, Without, OnceFrom, Chained;
    var v := w.(gone := w.gone + ids);
    var p := Position(w.ever, w.watermark.value);
    FoundStartsAfter(w.ever, w.watermark.value);
    WithoutMembers(v.ever, v.gone);
    if w.watermark.value in ids {
      assert !HasId(LogOf(v), v.watermark.value);
    } else {
      ReadOfWithout(v.ever, v.gone, p);
      WithoutMembers(w.ever[p + 1..], v.gone);
      var behind, rest := w.ever[0..p + 1], w.ever[p + 1..];
      assert behind == w.ever[..p + 1];
      forall e | e in behind ensures e !in rest { EarlierIsNotLater(w.ever, 0, p + 1, e); }
    }
  }
}
