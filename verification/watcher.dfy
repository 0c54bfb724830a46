/** The watcher tick: pull, then push only when there is something of one's own to send. */
module Watcher {
  import opened Events
  import opened EventLog
  import opened Encryption
  import opened SyncRuns
  import opened SyncAgreement
  import opened SyncService
  import Traffic
  import Rebinds

  predicate Configured(state: SyncState) {
    state.syncEnabled && state.transport && state.remote.Some?
  }

  /** Neither bookkeeping nor pulled from another store. */
  predicate OwnWork(e: Event, projectId: Id) {
    !Bookkeeping(e) && (e.source.None? || e.source.value == projectId)
  }

  /** The gate of the push. */
  predicate Unsent(s: Site, projectId: Id) {
    && s.log != []
    && Some(s.log[|s.log| - 1].id) != s.state.pushed
    && exists e :: e in ReadSince(s.log, s.state.pushed) && OwnWork(e, projectId)
  }

  function Probe(s: Site): Log {
    ReadSince(s.lines, s.state.pulled)
  }

  /** What one tick draws from outside: fresh bookkeeping events and initialisation vectors. */
  datatype Draw = Draw(forPull: Log, forPush: Log, ivs: nat -> string)

  ghost predicate FreshDraw(d: Draw, state: SyncState) {
    Stamps(d.forPull, state) && Stamps(d.forPush, state)
  }

  function Pulled(s: Site, a: Aead, d: Draw): Site
    requires |d.forPull| == 4
  {
    var plain := Unwire(a, s.state.key, Probe(s));
    if plain.None? then s else AfterPull(s, plain.value, d.forPull)
  }

  /** An automatic push steps aside while a push is marked as in flight. */
  predicate Pushes(s: Site, projectId: Id) {
    Unsent(s, projectId) && !s.state.status.Syncing?
  }

  function Tick(s: Site, projectId: Id, a: Aead, d: Draw): Site
    requires |d.forPull| == 4 && |d.forPush| == 4
  {
    if !Configured(s.state) then s
    else
      var mid := Pulled(s, a, d);
      if Pushes(mid, projectId) then AfterPush(mid, projectId, a, d.ivs, d.forPush) else mid
  }

  function Ticks(s: Site, projectId: Id, a: Aead, draws: seq<Draw>): Site
    requires forall d :: d in draws ==> |d.forPull| == 4 && |d.forPush| == 4
    decreases |draws|
  {
    if draws == [] then s else Ticks(Tick(s, projectId, a, draws[0]), projectId, a, draws[1..])
  }

  /** Nothing to fetch and nothing to send. */
  predicate Still(s: Site, projectId: Id, a: Aead) {
    Configured(s.state) ==>
      && (Unwire(a, s.state.key, Probe(s)).None? || (Probe(s) == [] && s.state.status.Idle?))
      && !Pushes(s, projectId)
  }

  method WatcherTick(store: SyncStore, relay: FileRelay, a: Aead, d: Draw)
    returns (configured: bool, pulled: nat, pushed: nat, ghost ranPush: bool)
    requires FreshDraw(d, store.state)
    modifies store, relay
    ensures store.At(relay) == Tick(old(store.At(relay)), store.projectId, a, d)
    ensures configured == Configured(old(store.state))
    ensures ranPush <==> configured && Pushes(Pulled(old(store.At(relay)), a, d), store.projectId)
    ensures ranPush ==> pushed > 0
    ensures !ranPush ==> pushed == 0 && relay.lines == old(relay.lines)
    ensures configured ==>
              pulled == var plain := Unwire(a, old(store.state).key, Probe(old(store.At(relay))));
                        if plain.None? then 0 else |InsertNew(old(store.log), plain.value)| - |old(store.log)|
  {
    hide Unwire, InsertNew, ReadSince, AfterPush, AfterPull;
    ranPush, pulled, pushed := false, 0, 0;
    ghost var start := store.At(relay);
    configured := Configured(store.state);
    if !configured { return; }
    var outcome := store.PullProject(relay, a, d.forPull);
    if outcome.Pulled? { pulled := outcome.inserted; }
    PullKeepsWatermark(start, a, d);
    ghost var mid := Pulled(start, a, d);
    assert store.At(relay) == mid;
    if store.log == [] || Some(store.log[|store.log| - 1].id) == store.state.pushed { return; }
    var delta := ReadSince(store.log, store.state.pushed);
    var i := 0;
    while i < |delta| && !OwnWork(delta[i], store.projectId)
      invariant 0 <= i <= |delta|
      invariant forall j :: 0 <= j < i ==> !OwnWork(delta[j], store.projectId)
    {
      i := i + 1;
    }
    assert i < |delta| <==> Unsent(mid, store.projectId);
    if i < |delta| && !store.state.status.Syncing? {
      OwnWorkIsPending(mid, store.projectId, delta[i]);
      var accepted := store.PushProject(relay, a, d.ivs, d.forPush);
      pushed := |accepted|;
      ranPush := true;
    }
  }

  lemma PullKeepsWatermark(s: Site, a: Aead, d: Draw)
    requires |d.forPull| == 4
    ensures Pulled(s, a, d).state.pushed == s.state.pushed && Pulled(s, a, d).lines == s.lines
  {
  }

  lemma OwnWorkIsPending(s: Site, projectId: Id, e: Event)
    requires e in ReadSince(s.log, s.state.pushed) && OwnWork(e, projectId)
    ensures Pending(s.log, s.state.pushed) != []
  {
    var tail := ReadSince(s.log, s.state.pushed);
    var j :| 0 <= j < |tail| && tail[j] == e;
    ShareableHolds(tail, j);
  }

  /** Row `p` is news of the store's own: no bookkeeping, and not stamped by another store. */
  ghost predicate OwnNewsAt(s: Site, projectId: Id, p: nat) {
    && StartAfter(s.log, s.state.pushed) <= p < |s.log|
    && !s.log[p].payload.SyncStateUpdated?
    && (s.log[p].source == None || s.log[p].source == Some(projectId))
  }

  lemma SinceIsSuffix(s: Site, p: nat)
    ensures var start := StartAfter(s.log, s.state.pushed); var since := ReadSince(s.log, s.state.pushed);
            |since| == |s.log| - start && (start <= p < |s.log| ==> since[p - start] == s.log[p])
  {
    hide Position, HasId;
  }

  lemma UnsentExactly(s: Site, projectId: Id)
    ensures Unsent(s, projectId) <==>
            (exists p: nat :: OwnNewsAt(s, projectId, p)) && Some(s.log[|s.log| - 1].id) != s.state.pushed
  {
    hide ReadSince, StartAfter;
    var start := StartAfter(s.log, s.state.pushed);
    var since := ReadSince(s.log, s.state.pushed);
    SinceIsSuffix(s, 0);
    if Unsent(s, projectId) {
      var j :| 0 <= j < |since| && OwnWork(since[j], projectId);
      SinceIsSuffix(s, start + j);
      assert OwnNewsAt(s, projectId, start + j);
    }
    forall p: nat | OwnNewsAt(s, projectId, p) ensures s.log[p] in since && OwnWork(s.log[p], projectId) {
      SinceIsSuffix(s, p);
    }
  }

  /**
   * A tick sends something exactly when syncing is set up, no push is marked as in flight, and past the
   * push watermark, which is not the newest row, lies news of the store's own. It then sends all that is pending.
   */
  lemma TickSendsExactly(s: Site, projectId: Id, a: Aead, d: Draw)
    requires |d.forPull| == 4 && |d.forPush| == 4
    ensures var mid := Pulled(s, a, d); var after := Tick(s, projectId, a, d);
            var sends := && s.state.syncEnabled && s.state.transport && s.state.remote.Some?
                         && mid.state.status != Syncing && (exists p: nat :: OwnNewsAt(mid, projectId, p))
                         && Some(mid.log[|mid.log| - 1].id) != mid.state.pushed;
            && (after.lines != s.lines <==> sends)
            && |after.lines| == |s.lines| + if sends then |Pending(mid.log, mid.state.pushed)| else 0
  {
    hide Unsent, ReadSince, Pending, Unwire, Wire, OwnNewsAt, InsertNew;
    var mid := Pulled(s, a, d);
    UnsentExactly(mid, projectId);
    PullKeepsWatermark(s, a, d);
    if Configured(s.state) && Pushes(mid, projectId) {
      WireKeepsIds(a, mid.state.key, d.ivs, Pending(mid.log, mid.state.pushed));
      UnsentIsPending(mid, projectId);
    }
  }

  lemma UnsentIsPending(s: Site, projectId: Id)
    requires Unsent(s, projectId)
    ensures Pending(s.log, s.state.pushed) != []
  {
    var e :| e in ReadSince(s.log, s.state.pushed) && OwnWork(e, projectId);
    OwnWorkIsPending(s, projectId, e);
  }

  lemma PushWritesSomething(s: Site, projectId: Id, a: Aead, d: Draw)
    requires |d.forPush| == 4 && Unsent(s, projectId)
    ensures |AfterPush(s, projectId, a, d.ivs, d.forPush).log| >= |s.log| + 2
  {
    hide ReadSince, Pending, Wire, LastId;
    var e :| e in ReadSince(s.log, s.state.pushed) && OwnWork(e, projectId);
    OwnWorkIsPending(s, projectId, e);
    var pending := Pending(s.log, s.state.pushed);
    assert PushWrites(s.state, pending) >= 2;
    assert |d.forPush[..PushWrites(s.state, pending)]| == PushWrites(s.state, pending);
  }

  lemma EmptyProbeReadsNothing(a: Aead, key: Option<Key>, probe: Log)
    requires probe == []
    ensures Unwire(a, key, probe) == Some([])
  {
  }

  /** The pull of a tick finds nothing it can use, and no status to reset. */
  predicate NothingToPull(s: Site, a: Aead) {
    Unwire(a, s.state.key, Probe(s)).None? || (Probe(s) == [] && s.state.status.Idle?)
  }

  lemma PullIsIdleExactly(s: Site, a: Aead, d: Draw)
    requires |d.forPull| == 4
    ensures NothingToPull(s, a) ==> Pulled(s, a, d) == s
    ensures !NothingToPull(s, a) ==> |Pulled(s, a, d).log| > |s.log|
  {
    hide Unwire, ReadSince;
    var plain := Unwire(a, s.state.key, Probe(s));
    if plain.Some? {
      InsertKeepsPrefix(s.log, plain.value);
      if Probe(s) == [] { EmptyProbeReadsNothing(a, s.state.key, Probe(s)); }
      assert |d.forPull[..PullWrites(s.state, Probe(s))]| == PullWrites(s.state, Probe(s));
      if NothingToPull(s, a) { assert s.log + d.forPull[..0] == s.log; }
    }
  }

  /** A tick leaves log, sync state and relay alone exactly when there is nothing to fetch and nothing to send. */
  lemma TickIsIdleExactly(s: Site, projectId: Id, a: Aead, d: Draw)
    requires |d.forPull| == 4 && |d.forPush| == 4
    ensures Tick(s, projectId, a, d) == s <==> Still(s, projectId, a)
  {
    hide Unsent, Unwire, Pulled, ReadSince, AfterPush;
    if Configured(s.state) {
      var mid := Pulled(s, a, d);
      PullIsIdleExactly(s, a, d);
      if Pushes(mid, projectId) { PushWritesSomething(mid, projectId, a, d); }
    }
  }

  /** Once a site is still, every further tick leaves it as it is, bookkeeping head or not. */
  lemma {:induction false} StillForever(s: Site, projectId: Id, a: Aead, draws: seq<Draw>)
    requires forall d :: d in draws ==> |d.forPull| == 4 && |d.forPush| == 4
    requires Still(s, projectId, a)
    ensures Ticks(s, projectId, a, draws) == s
    decreases |draws|
  {
    hide Tick, Still;
    if draws != [] {
      TickIsIdleExactly(s, projectId, a, draws[0]);
      StillForever(s, projectId, a, draws[1..]);
    }
  }

  /** Plaintext, idle, everything on the relay already held, cursor on the last line, nothing of its own to send. */
  ghost predicate CaughtUp(s: Site, projectId: Id) {
    && Configured(s.state) && s.state.status.Idle? && s.state.key.None?
    && !AnySealed(s.lines)
    && (forall e :: e in s.lines ==> HasId(s.log, e.id))
    && s.lines != [] && s.state.pulled == Some(s.lines[|s.lines| - 1].id)
    && !Unsent(s, projectId)
  }

  predicate LastLineRepeats(lines: Log) {
    exists j :: 0 <= j < |lines| - 1 && lines[j].id == lines[|lines| - 1].id
  }

  /** A caught-up site is still exactly when the last relay line has no earlier copy. */
  lemma CaughtUpIsStillExactly(s: Site, projectId: Id, a: Aead)
    requires CaughtUp(s, projectId)
    ensures Still(s, projectId, a) <==> !LastLineRepeats(s.lines)
  {
    ProbeIsEmptyExactly(s.lines);
    assert forall e :: e in Probe(s) ==> e in s.lines;
    assert !AnySealed(Probe(s));
  }

  lemma {:induction false} KnownBatchChangesNothing(log: Log, batch: Log)
    requires forall e :: e in batch ==> HasId(log, e.id)
    ensures InsertNew(log, batch) == log
    decreases |batch|
  {
    if batch != [] {
      assert batch[0] in batch;
      KnownBatchChangesNothing(log, batch[1..]);
    }
  }

  lemma StampIsNoWork(log: Log, pushed: Option<Id>, stamp: Event, projectId: Id)
    requires Bookkeeping(stamp) && pushed != Some(stamp.id)
    ensures forall e :: OwnWork(e, projectId) ==>
              (e in ReadSince(log + [stamp], pushed) <==> e in ReadSince(log, pushed))
  {
    hide ReadSince;
    ReadOneMore(log, pushed, stamp);
    var tail := ReadSince(log, pushed);
    assert forall e :: e in tail + [stamp] <==> e in tail || e == stamp;
  }

  /** A plaintext push ends the relay in a repeated line exactly when its last event was already there. */
  lemma PushRepeatsLastLineExactly(s: Site, projectId: Id, a: Aead, d: Draw)
    requires s.state.key.None? && |d.forPush| == 4 && UniqueIds(s.log)
    requires Pending(s.log, s.state.pushed) != []
    ensures var pending := Pending(s.log, s.state.pushed);
            LastLineRepeats(AfterPush(s, projectId, a, d.ivs, d.forPush).lines) <==>
            HasId(s.lines, pending[|pending| - 1].id)
  {
    hide ReadSince, Shareable, PushWrites, LastId;
    var pending := Pending(s.log, s.state.pushed);
    var lines, last := s.lines + pending, pending[|pending| - 1];
    var tail := ReadSince(s.log, s.state.pushed);
    TailIsUnique(s.log, s.state.pushed);
    Traffic.ShareableNoRepeats(tail);
    forall j | 0 <= j < |pending| - 1 ensures pending[j].id != last.id {
      ShareableFrom(tail, pending[j]);
      ShareableFrom(tail, last);
    }
    if HasId(s.lines, last.id) {
      var f :| f in s.lines && f.id == last.id;
      var j :| 0 <= j < |s.lines| && s.lines[j] == f;
      assert lines[j] == f;
    }
    assert forall j :: |s.lines| <= j < |lines| - 1 ==> lines[j] == pending[j - |s.lines|];
    assert forall j :: 0 <= j < |s.lines| ==> lines[j] == s.lines[j] && s.lines[j] in s.lines;
  }

  lemma TailIsUnique(log: Log, since: Option<Id>)
    requires UniqueIds(log)
    ensures UniqueIds(ReadSince(log, since))
  {
    hide ReadSince;
    SuffixIsUnique(log, StartAfter(log, since));
  }

  lemma SuffixIsUnique(log: Log, start: nat)
    requires start <= |log| && UniqueIds(log)
    ensures UniqueIds(log[start..])
  {
  }

  lemma ProbeReadsPlain(s: Site, projectId: Id, a: Aead)
    requires CaughtUp(s, projectId)
    ensures Unwire(a, s.state.key, Probe(s)) == Some(Probe(s)) && InsertNew(s.log, Probe(s)) == s.log
  {
    hide Unsent, HasId;
    var start := StartAfter(s.lines, s.state.pulled);
    assert forall e :: e in s.lines[start..] ==> e in s.lines;
    KnownBatchChangesNothing(s.log, Probe(s));
  }

  lemma ProbeEndsTheLines(lines: Log, since: Option<Id>)
    requires ReadSince(lines, since) != []
    ensures lines != [] && ReadSince(lines, since)[|ReadSince(lines, since)| - 1] == lines[|lines| - 1]
  {
    hide HasId;
    var start := StartAfter(lines, since);
  }

  /** The lines come back, nothing is new in them, and the state is written all the same. */
  lemma RepeatedProbe(s: Site, projectId: Id, a: Aead, d: Draw)
    requires CaughtUp(s, projectId) && LastLineRepeats(s.lines) && |d.forPull| == 4
    ensures Pulled(s, a, d) == s.(log := s.log + [d.forPull[0]])
  {
    hide Unsent, ReadSince, Unwire, InsertNew, HasId;
    ProbeIsEmptyExactly(s.lines);
    ProbeReadsPlain(s, projectId, a);
    ProbeEndsTheLines(s.lines, s.state.pulled);
    assert d.forPull[..1] == [d.forPull[0]];
  }

  lemma StampKeepsCaughtUp(s: Site, projectId: Id, stamp: Event)
    requires CaughtUp(s, projectId) && UniqueIds(s.log)
    requires Bookkeeping(stamp) && s.state.pushed != Some(stamp.id) && !HasId(s.log, stamp.id)
    ensures CaughtUp(s.(log := s.log + [stamp]), projectId) && UniqueIds(s.log + [stamp])
  {
    hide ReadSince;
    var t := s.(log := s.log + [stamp]);
    StampIsNoWork(s.log, s.state.pushed, stamp, projectId);
    HeadCheckHidesNothing(s, projectId);
    forall e | e in s.lines ensures HasId(t.log, e.id) {
      var f :| f in s.log && f.id == e.id;
      assert f in t.log;
    }
    assert forall f :: f in s.log ==> f.id != stamp.id;
  }

  /** Otherwise the same lines come back on every tick, and every tick leaves a bookkeeping event. */
  lemma RepeatedLineKeepsTicking(s: Site, projectId: Id, a: Aead, d: Draw)
    requires CaughtUp(s, projectId) && LastLineRepeats(s.lines) && UniqueIds(s.log)
    requires FreshDraw(d, s.state) && forall x :: x in d.forPull ==> !HasId(s.log, x.id)
    ensures var t := Tick(s, projectId, a, d);
            CaughtUp(t, projectId) && UniqueIds(t.log) && t == s.(log := s.log + [d.forPull[0]])
  {
    hide Pulled, Unsent, LastLineRepeats;
    RepeatedProbe(s, projectId, a, d);
    StampKeepsCaughtUp(s, projectId, d.forPull[0]);
  }

  /** With unique ids, a head equal to the watermark leaves nothing to read. */
  lemma HeadCheckHidesNothing(s: Site, projectId: Id)
    requires UniqueIds(s.log)
    ensures Unsent(s, projectId) <==> exists e :: e in ReadSince(s.log, s.state.pushed) && OwnWork(e, projectId)
  {
    if s.log != [] && Some(s.log[|s.log| - 1].id) == s.state.pushed {
      PositionOf(s.log, |s.log| - 1);
    }
  }

  /** Each tick draws bookkeeping ids that nothing in the log carries yet. */
  ghost predicate FreshDraws(s: Site, projectId: Id, a: Aead, draws: seq<Draw>)
    decreases |draws|
  {
    draws != [] ==>
      && FreshDraw(draws[0], s.state)
      && (forall x :: x in draws[0].forPull ==> !HasId(s.log, x.id))
      && FreshDraws(Tick(s, projectId, a, draws[0]), projectId, a, draws[1..])
  }

  /** So a caught-up site whose last relay line repeats never becomes still: its log grows with every tick. */
  lemma {:induction false} NeverStill(s: Site, projectId: Id, a: Aead, draws: seq<Draw>)
    requires CaughtUp(s, projectId) && LastLineRepeats(s.lines) && UniqueIds(s.log)
    requires forall d :: d in draws ==> |d.forPull| == 4 && |d.forPush| == 4
    requires FreshDraws(s, projectId, a, draws)
    ensures var t := Ticks(s, projectId, a, draws);
            |t.log| == |s.log| + |draws| && t.lines == s.lines && t.state == s.state
    decreases |draws|
  {
    hide Tick, CaughtUp, LastLineRepeats, UniqueIds;
    if draws != [] {
      RepeatedLineKeepsTicking(s, projectId, a, draws[0]);
      NeverStill(Tick(s, projectId, a, draws[0]), projectId, a, draws[1..]);
    }
  }

  // --- a run that leaves a repeated last line -----------------------------------------------------

  const BOUND: SyncState := SyncState(Some(Rebinds.OLD), true, true, Some(Rebinds.X.id), Some(Rebinds.X.id), Idle, None)
  const AT_IT_AGAIN: Site := Site([Rebinds.Z, Rebinds.X], BOUND, [Rebinds.X, Rebinds.Z, Rebinds.X])

  /** A store that minted an event, pulled another one and then pushed both. */
  lemma RepeatedLineIsReachable()
    ensures exists w :: Rebinds.Reachable(w) && |w.replicas| == 2 && w.replicas[0] == AsReplica(AT_IT_AGAIN) &&
              Lines(w, Rebinds.OLD) == AT_IT_AGAIN.lines
    ensures CaughtUp(AT_IT_AGAIN, "proj_a") && LastLineRepeats(AT_IT_AGAIN.lines) && UniqueIds(AT_IT_AGAIN.log)
  {
    hide Rebinds.Reachable, Rebinds.Looks, Lines, Pending, LastId;
    var w := Rebinds.PushBackIsReachable();
    ItIsCaughtUp();
  }

  lemma ItIsCaughtUp()
    ensures CaughtUp(AT_IT_AGAIN, "proj_a") && LastLineRepeats(AT_IT_AGAIN.lines) && UniqueIds(AT_IT_AGAIN.log)
  {
    var s := AT_IT_AGAIN;
    assert s.lines[0].id == s.lines[2].id;
    assert Rebinds.X in s.log && Rebinds.Z in s.log;
    assert Some(s.log[|s.log| - 1].id) == s.state.pushed;
  }
}
