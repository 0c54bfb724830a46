/** Store-and-forward sync as a state machine. */
module SyncRuns {
  import opened Events
  import opened EventLog

  /** A push in flight: the relay bound when it began, the slice read from the log, and how much of it went out. */
  datatype PushOp = PushOp(relay: Id, batch: Log, sent: nat)

  /** A pull in flight: the relay bound when it began, the slice read at `start`, and whether it reached the log. */
  datatype PullOp = PullOp(relay: Id, start: nat, batch: Log, inserted: bool)

  datatype Replica = Replica(
    log: Log, remote: Id, pushed: Option<Id>, pulled: Option<Id>, push: Option<PushOp>, pull: Option<PullOp>)

  datatype World = World(replicas: seq<Replica>, relays: map<Id, Log>)

  /**
   * N replicas, any number of relays, and every push and pull cut into its smallest steps,
   * so that a crash, a rebind, a local append or another replica can come between any two of them.
   */
  datatype Step =
    | Append(i: nat, event: Event)
    | Note(i: nat, event: Event)
    | PushBegin(i: nat)
    | PushLine(i: nat)
    | PushMark(i: nat)
    | PullBegin(i: nat)
    | PullInsert(i: nat)
    | PullMark(i: nat)
    | Crash(i: nat)
    | Rebind(i: nat, remote: Id)
    | Bind(i: nat, remote: Id)

  function LinesIn(relays: map<Id, Log>, relay: Id): Log {
    if relay in relays then relays[relay] else []
  }

  function Lines(w: World, relay: Id): Log {
    LinesIn(w.relays, relay)
  }

  ghost predicate InWorld(w: World, e: Event) {
    || (exists i :: 0 <= i < |w.replicas| && e in w.replicas[i].log)
    || (exists relay :: e in Lines(w, relay))
  }

  /** What a push sends: everything after the watermark except sync bookkeeping. */
  function Shareable(log: Log): Log {
    if log == [] then []
    else
      var rest := Shareable(log[..|log| - 1]);
      if Bookkeeping(log[|log| - 1]) then rest else rest + [log[|log| - 1]]
  }

  function Pending(log: Log, pushed: Option<Id>): Log {
    Shareable(ReadSince(log, pushed))
  }

  /** Ids are minted fresh, a memory is minted once, and a supersede or retract names a memory the store knows. */
  ghost predicate MayAppend(w: World, i: nat, e: Event)
    requires i < |w.replicas|
  {
    && !Bookkeeping(e)
    && (forall f :: InWorld(w, f) ==> f.id != e.id)
    && (forall m, f :: Consolidates(e, m) && InWorld(w, f) ==> !Consolidates(f, m))
    && (forall m :: Targets(e, m) ==> BornIn(w.replicas[i].log, m))
  }

  function WithReplica(w: World, i: nat, r: Replica): World
    requires i < |w.replicas|
  {
    w.(replicas := w.replicas[i := r])
  }

  function LastId(batch: Log, otherwise: Option<Id>): Option<Id> {
    if batch == [] then otherwise else Some(batch[|batch| - 1].id)
  }

  /** What a pull reads when it begins. */
  function SliceOf(w: World, r: Replica): PullOp {
    var lines := Lines(w, r.remote);
    PullOp(r.remote, StartAfter(lines, r.pulled), ReadSince(lines, r.pulled), false)
  }

  /**
   * One step; a step that is not enabled changes nothing. A migration rebinds and drops both
   * watermarks, every other change of binding keeps them, and neither waits for anything.
   */
  ghost function Next(w: World, step: Step): World {
    if step.i >= |w.replicas| then w
    else
      var i, r := step.i, w.replicas[step.i];
      match step
      case Append(_, e) =>
        if MayAppend(w, i, e) then WithReplica(w, i, r.(log := r.log + [e])) else w
      case Note(_, e) =>
        if Bookkeeping(e) && (forall f :: InWorld(w, f) ==> f.id != e.id)
        then WithReplica(w, i, r.(log := r.log + [e])) else w
      case PushBegin(_) =>
        if r.push.None? then WithReplica(w, i, r.(push := Some(PushOp(r.remote, Pending(r.log, r.pushed), 0)))) else w
      case PushLine(_) =>
        if r.push.Some? && r.push.value.sent < |r.push.value.batch| then
          var op := r.push.value;
          WithReplica(w, i, r.(push := Some(op.(sent := op.sent + 1))))
            .(relays := w.relays[op.relay := Lines(w, op.relay) + [op.batch[op.sent]]])
        else w
      case PushMark(_) =>
        if r.push.Some? && r.push.value.sent == |r.push.value.batch|
        then WithReplica(w, i, r.(push := None, pushed := LastId(r.push.value.batch, r.pushed))) else w
      case PullBegin(_) =>
        if r.pull.None? then WithReplica(w, i, r.(pull := Some(SliceOf(w, r)))) else w
      case PullInsert(_) =>
        if r.pull.Some? && !r.pull.value.inserted
        then WithReplica(w, i, r.(log := InsertNew(r.log, r.pull.value.batch),
          pull := Some(r.pull.value.(inserted := true)))) else w
      case PullMark(_) =>
        if r.pull.Some? && r.pull.value.inserted
        then WithReplica(w, i, r.(pull := None, pulled := LastId(r.pull.value.batch, r.pulled))) else w
      case Crash(_) => WithReplica(w, i, r.(push := None, pull := None))
      case Rebind(_, remote) => WithReplica(w, i, r.(remote := remote, pushed := None, pulled := None))
      case Bind(_, remote) => WithReplica(w, i, r.(remote := remote))
  }

  ghost function Run(w: World, steps: seq<Step>): World
    decreases steps
  {
    if steps == [] then w else Run(Next(w, steps[0]), steps[1..])
  }

  ghost predicate Fresh(w: World) {
    w.relays == map[] && forall r :: r in w.replicas ==> r == Replica([], r.remote, None, None, None, None)
  }

  // --- what must hold --------------------------------------------------------------------

  /** Everything shareable among the first `n` log entries is on the relay. */
  ghost predicate SharedUpTo(log: Log, n: nat, relay: Log)
    requires n <= |log|
  {
    forall j :: 0 <= j < n && !Bookkeeping(log[j]) ==> log[j] in relay
  }

  ghost predicate HeldUpTo(relay: Log, n: nat, log: Log)
    requires n <= |relay|
  {
    forall j :: 0 <= j < n ==> relay[j] in log
  }

  ghost predicate PushedIsShared(r: Replica, relay: Log) {
    r.pushed.Some? ==> HasId(r.log, r.pushed.value) && SharedUpTo(r.log, Position(r.log, r.pushed.value) + 1, relay)
  }

  ghost predicate PulledIsHeld(r: Replica, relay: Log) {
    r.pulled.Some? ==> HasId(relay, r.pulled.value) && HeldUpTo(relay, Position(relay, r.pulled.value) + 1, r.log)
  }

  /** The sync promise of one replica. */
  ghost predicate ReplicaSafe(r: Replica, relay: Log) {
    && PushedIsShared(r, relay)
    && PulledIsHeld(r, relay)
    && UniqueIds(r.log)
    && CausallyClosed(r.log)
  }

  ghost predicate Safe(w: World) {
    && (forall i :: 0 <= i < |w.replicas| ==> ReplicaSafe(w.replicas[i], Lines(w, w.replicas[i].remote)))
    && (forall relay :: CausallyClosed(Lines(w, relay)))
  }

  // --- what makes it hold -----------------------------------------------------------------

  ghost predicate Waits(op: PushOp, k: nat, e: Event)
    requires k <= |op.batch|
  {
    exists x :: op.sent <= x < k && op.batch[x] == e
  }

  /** Batch entry `k` sits in the log, and all that is shareable before it is sent or goes first. */
  ghost predicate InPlace(log: Log, relay: Log, op: PushOp, k: nat, p: nat)
    requires k < |op.batch|
  {
    && p < |log| && log[p] == op.batch[k] && !Bookkeeping(log[p])
    && (forall j :: 0 <= j < p && !Bookkeeping(log[j]) ==> log[j] in relay || Waits(op, k, log[j]))
  }

  ghost predicate Placed(log: Log, relay: Log, op: PushOp, k: nat)
    requires k < |op.batch|
  {
    exists p: nat :: InPlace(log, relay, op, k, p)
  }

  ghost predicate PushOpOk(log: Log, relay: Log, op: PushOp) {
    && op.sent <= |op.batch|
    && (forall k :: 0 <= k < |op.batch| ==> Placed(log, relay, op, k))
    && (forall x :: 0 <= x < op.sent ==> op.batch[x] in relay)
  }

  ghost predicate PullOpOk(log: Log, relay: Log, op: PullOp) {
    && op.start + |op.batch| <= |relay|
    && op.batch == relay[op.start..op.start + |op.batch|]
    && HeldUpTo(relay, if op.inserted then op.start + |op.batch| else op.start, log)
  }

  ghost predicate NamesShareable(log: Log, id: Id) {
    exists e :: e in log && e.id == id && !Bookkeeping(e)
  }

  /** An operation in flight answers to the relay it began on, whatever the replica is bound to by now. */
  ghost predicate ReplicaInv(r: Replica, relays: map<Id, Log>) {
    && ReplicaSafe(r, LinesIn(relays, r.remote))
    && (r.pushed.Some? ==> NamesShareable(r.log, r.pushed.value))
    && (r.push.Some? ==> PushOpOk(r.log, LinesIn(relays, r.push.value.relay), r.push.value))
    && (r.pull.Some? ==> PullOpOk(r.log, LinesIn(relays, r.pull.value.relay), r.pull.value))
  }

  ghost predicate RelayInv(lines: Log) {
    CausallyClosed(lines) && forall e :: e in lines ==> !Bookkeeping(e)
  }

  /** One id, one event; one memory, one birth; everywhere. */
  ghost predicate Coherent(w: World) {
    && (forall e, f :: InWorld(w, e) && InWorld(w, f) && e.id == f.id ==> e == f)
    && (forall e, f, m :: InWorld(w, e) && InWorld(w, f) && Consolidates(e, m) && Consolidates(f, m) ==> e == f)
  }

  ghost predicate Inv(w: World) {
    && (forall i :: 0 <= i < |w.replicas| ==> ReplicaInv(w.replicas[i], w.relays))
    && (forall relay :: RelayInv(Lines(w, relay)))
    && Coherent(w)
  }

  // --- one replica, one step -----------------------------------------------------------------

  lemma SafeOnGrowingRelay(r: Replica, relay: Log, more: Log)
    requires ReplicaSafe(r, relay)
    ensures ReplicaSafe(r, relay + more)
  {
    hide CausallyClosed, UniqueIds;
    if r.pulled.Some? { PositionKeptByAppend(relay, more, r.pulled.value); }
  }

  lemma PushOnGrowingRelay(log: Log, relay: Log, op: PushOp, more: Log)
    requires PushOpOk(log, relay, op)
    ensures PushOpOk(log, relay + more, op)
  {
    forall k | 0 <= k < |op.batch| ensures Placed(log, relay + more, op, k) {
      assert Placed(log, relay, op, k);
      var p: nat :| InPlace(log, relay, op, k, p);
      assert InPlace(log, relay + more, op, k, p);
    }
  }

  lemma PullOnGrowingRelay(log: Log, relay: Log, op: PullOp, more: Log)
    requires PullOpOk(log, relay, op)
    ensures PullOpOk(log, relay + more, op)
  {
    assert (relay + more)[op.start..op.start + |op.batch|] == relay[op.start..op.start + |op.batch|];
  }

  lemma RelayGrowth(r: Replica, relays: map<Id, Log>, relay: Id, more: Log)
    requires ReplicaInv(r, relays)
    ensures ReplicaInv(r, relays[relay := LinesIn(relays, relay) + more])
  {
    hide ReplicaSafe, PushOpOk, PullOpOk;
    SafeOnGrowingRelay(r, LinesIn(relays, r.remote), if r.remote == relay then more else []);
    assert LinesIn(relays, r.remote) + [] == LinesIn(relays, r.remote);
    if r.push.Some? && r.push.value.relay == relay {
      PushOnGrowingRelay(r.log, LinesIn(relays, relay), r.push.value, more);
    }
    if r.pull.Some? && r.pull.value.relay == relay {
      PullOnGrowingRelay(r.log, LinesIn(relays, relay), r.pull.value, more);
    }
  }

  lemma SafeOnGrowingLog(r: Replica, relay: Log, more: Log)
    requires ReplicaSafe(r, relay)
    requires UniqueIds(r.log + more) && CausallyClosed(r.log + more)
    ensures ReplicaSafe(r.(log := r.log + more), relay)
  {
    hide CausallyClosed, UniqueIds;
    if r.pushed.Some? { PositionKeptByAppend(r.log, more, r.pushed.value); }
  }

  lemma PushOnGrowingLog(log: Log, relay: Log, op: PushOp, more: Log)
    requires PushOpOk(log, relay, op)
    ensures PushOpOk(log + more, relay, op)
  {
    forall k | 0 <= k < |op.batch| ensures Placed(log + more, relay, op, k) {
      assert Placed(log, relay, op, k);
      var p: nat :| InPlace(log, relay, op, k, p);
      assert InPlace(log + more, relay, op, k, p);
    }
  }

  lemma LogGrowth(r: Replica, relays: map<Id, Log>, more: Log)
    requires ReplicaInv(r, relays)
    requires UniqueIds(r.log + more) && CausallyClosed(r.log + more)
    ensures ReplicaInv(r.(log := r.log + more), relays)
  {
    hide CausallyClosed, UniqueIds, PushOpOk, ReplicaSafe;
    SafeOnGrowingLog(r, LinesIn(relays, r.remote), more);
    if r.push.Some? { PushOnGrowingLog(r.log, LinesIn(relays, r.push.value.relay), r.push.value, more); }
  }

  lemma AppendOne(r: Replica, relays: map<Id, Log>, e: Event)
    requires ReplicaInv(r, relays)
    requires forall f :: f in r.log ==> f.id != e.id
    requires forall m :: Targets(e, m) ==> BornIn(r.log, m)
    ensures ReplicaInv(r.(log := r.log + [e]), relays)
  {
    hide PushOpOk, PullOpOk;
    AppendKeepsClosed(r.log, e);
    LogGrowth(r, relays, [e]);
  }

  /** Log entry `p` is the `k`-th shareable one: all shareable entries before it come earlier in the slice. */
  ghost predicate IsShareable(log: Log, batch: Log, k: nat, p: nat)
    requires k < |batch|
  {
    && p < |log| && log[p] == batch[k] && !Bookkeeping(log[p])
    && forall j :: 0 <= j < p && !Bookkeeping(log[j]) ==> log[j] in batch[..k]
  }

  lemma {:induction false} ShareablePlaces(log: Log, k: nat) returns (p: nat)
    requires k < |Shareable(log)|
    ensures IsShareable(log, Shareable(log), k, p)
  {
    var n := |log| - 1;
    var batch, rest := Shareable(log), Shareable(log[..n]);
    if k < |rest| {
      p := ShareablePlaces(log[..n], k);
      assert batch[..k] == rest[..k] && batch[k] == rest[k];
      assert forall j :: 0 <= j <= p ==> log[..n][j] == log[j];
    } else {
      p := n;
      assert batch[..k] == rest;
      forall j | 0 <= j < n && !Bookkeeping(log[j]) ensures log[j] in rest {
        ShareableHolds(log[..n], j);
      }
    }
  }

  lemma {:induction false} ShareableHolds(log: Log, j: nat)
    requires j < |log| && !Bookkeeping(log[j])
    ensures log[j] in Shareable(log)
  {
    if j < |log| - 1 { ShareableHolds(log[..|log| - 1], j); }
  }

  lemma {:induction false} ShareableFrom(log: Log, e: Event)
    requires e in Shareable(log)
    ensures e in log
  {
    if e in Shareable(log[..|log| - 1]) { ShareableFrom(log[..|log| - 1], e); }
  }

  lemma PlacedAtStart(log: Log, relay: Log, start: nat, op: PushOp, k: nat)
    requires start <= |log| && SharedUpTo(log, start, relay)
    requires op.batch == Shareable(log[start..]) && op.sent == 0 && k < |op.batch|
    ensures Placed(log, relay, op, k)
  {
    var tail := log[start..];
    var q := ShareablePlaces(tail, k);
    forall j | 0 <= j < start + q && !Bookkeeping(log[j]) ensures log[j] in relay || Waits(op, k, log[j]) {
      if j >= start {
        assert tail[j - start] == log[j];
        var x :| 0 <= x < k && op.batch[..k][x] == log[j];
        assert op.batch[x] == log[j];
      }
    }
    assert InPlace(log, relay, op, k, start + q);
  }

  lemma StartPush(r: Replica, relays: map<Id, Log>)
    requires ReplicaInv(r, relays)
    ensures ReplicaInv(r.(push := Some(PushOp(r.remote, Pending(r.log, r.pushed), 0))), relays)
  {
    hide Shareable, InPlace, CausallyClosed, UniqueIds;
    var relay := LinesIn(relays, r.remote);
    var start := StartAfter(r.log, r.pushed);
    var op := PushOp(r.remote, Shareable(r.log[start..]), 0);
    forall k | 0 <= k < |op.batch| ensures Placed(r.log, relay, op, k) {
      PlacedAtStart(r.log, relay, start, op, k);
    }
  }

  /** The next line of a batch may go out: whatever it aims at went before it. */
  lemma NextLineFollowsBirths(log: Log, relay: Log, op: PushOp)
    requires PushOpOk(log, relay, op) && op.sent < |op.batch| && CausallyClosed(log)
    ensures op.batch[op.sent] in log && !Bookkeeping(op.batch[op.sent])
    ensures forall m :: Targets(op.batch[op.sent], m) ==> BornIn(relay, m)
  {
    var e := op.batch[op.sent];
    assert Placed(log, relay, op, op.sent);
    var p: nat :| InPlace(log, relay, op, op.sent, p);
    forall m | Targets(e, m) ensures BornIn(relay, m) {
      assert BornBefore(log, p, m);
      var b :| 0 <= b < p && Consolidates(log[b], m);
      assert log[b] in relay;
    }
  }

  lemma LineSent(log: Log, relay: Log, op: PushOp)
    requires PushOpOk(log, relay, op) && op.sent < |op.batch|
    ensures PushOpOk(log, relay + [op.batch[op.sent]], op.(sent := op.sent + 1))
  {
    var longer := relay + [op.batch[op.sent]];
    var op' := op.(sent := op.sent + 1);
    forall k | 0 <= k < |op'.batch| ensures Placed(log, longer, op', k) {
      assert Placed(log, relay, op, k);
      var q: nat :| InPlace(log, relay, op, k, q);
      forall j | 0 <= j < q && !Bookkeeping(log[j]) ensures log[j] in longer || Waits(op', k, log[j]) {
        if log[j] !in relay {
          var x :| op.sent <= x < k && op.batch[x] == log[j];
        }
      }
      assert InPlace(log, longer, op', k, q);
    }
  }

  lemma SendLine(r: Replica, relays: map<Id, Log>)
    requires ReplicaInv(r, relays) && r.push.Some? && r.push.value.sent < |r.push.value.batch|
    requires RelayInv(LinesIn(relays, r.push.value.relay))
    ensures var op := r.push.value; var e := op.batch[op.sent]; var longer := LinesIn(relays, op.relay) + [e];
            && ReplicaInv(r.(push := Some(op.(sent := op.sent + 1))), relays[op.relay := longer])
            && RelayInv(longer)
            && e in r.log
  {
    hide PushOpOk, PullOpOk, SharedUpTo, HeldUpTo, UniqueIds, CausallyClosed;
    var op := r.push.value;
    var e, relay := op.batch[op.sent], LinesIn(relays, op.relay);
    NextLineFollowsBirths(r.log, relay, op);
    AppendKeepsClosed(relay, e);
    RelayGrowth(r, relays, op.relay, [e]);
    LineSent(r.log, relay, op);
  }

  /** What a mark claims holds of the relay the push ran on. */
  lemma MarkedIsShared(log: Log, relay: Log, op: PushOp)
    requires UniqueIds(log) && PushOpOk(log, relay, op) && op.sent == |op.batch| && op.batch != []
    ensures var id := op.batch[|op.batch| - 1].id;
            HasId(log, id) && NamesShareable(log, id) && SharedUpTo(log, Position(log, id) + 1, relay)
  {
    var k := |op.batch| - 1;
    assert Placed(log, relay, op, k);
    var p: nat :| InPlace(log, relay, op, k, p);
    PositionOf(log, p);
    assert log[p] in log;
    assert op.batch[k] in relay;
    assert SharedUpTo(log, p + 1, relay);
  }

  lemma FinishPush(r: Replica, relays: map<Id, Log>)
    requires ReplicaInv(r, relays) && r.push.Some? && r.push.value.sent == |r.push.value.batch|
    requires r.push.value.relay == r.remote || r.push.value.batch == []
    ensures ReplicaInv(r.(push := None, pushed := LastId(r.push.value.batch, r.pushed)), relays)
  {
    hide PushOpOk, PullOpOk, SharedUpTo, HeldUpTo, UniqueIds, CausallyClosed, HasId;
    var op := r.push.value;
    if op.batch != [] { MarkedIsShared(r.log, LinesIn(relays, r.remote), op); }
  }

  lemma StartPull(r: Replica, w: World)
    requires ReplicaInv(r, w.relays)
    ensures ReplicaInv(r.(pull := Some(SliceOf(w, r))), w.relays)
  {
    hide PushOpOk, UniqueIds, CausallyClosed;
  }

  /** A supersede or retract in a pulled slice has its target in the slice, or in the log already. */
  lemma SliceFollowsBirths(log: Log, relay: Log, op: PullOp, x: nat, m: Id)
    requires PullOpOk(log, relay, op) && !op.inserted && CausallyClosed(relay)
    requires x < |op.batch| && Targets(op.batch[x], m)
    ensures BornIn(log, m) || BornBefore(op.batch, x, m)
  {
    hide Consolidates, Targets;
    assert op.batch[x] == relay[op.start + x];
    assert BornBefore(relay, op.start + x, m);
    var b :| 0 <= b < op.start + x && Consolidates(relay[b], m);
    if b < op.start {
      assert relay[b] in log;
    } else {
      assert op.batch[b - op.start] == relay[b];
    }
  }

  lemma SliceIsHeld(log: Log, relay: Log, op: PullOp, after: Log)
    requires PullOpOk(log, relay, op) && !op.inserted
    requires forall e :: e in log || e in op.batch ==> e in after
    ensures PullOpOk(after, relay, op.(inserted := true))
  {
    forall j | 0 <= j < op.start + |op.batch| ensures relay[j] in after {
      if j >= op.start { assert op.batch[j - op.start] == relay[j]; }
    }
  }

  /** The slice lies in the relay, so its ids agree with what is held. */
  lemma SliceAgrees(log: Log, relay: Log, op: PullOp)
    requires PullOpOk(log, relay, op) && Agree(log, relay) && Agree(relay, relay)
    ensures Agree(log, op.batch) && Agree(op.batch, op.batch) && forall e :: e in op.batch ==> e in relay
  {
    hide HeldUpTo;
    assert forall x :: 0 <= x < |op.batch| ==> op.batch[x] == relay[op.start + x];
    assert forall e :: e in op.batch ==> e in relay;
  }

  lemma ReplaceSlice(r: Replica, relays: map<Id, Log>, op: PullOp)
    requires ReplicaInv(r, relays) && PullOpOk(r.log, LinesIn(relays, op.relay), op)
    ensures ReplicaInv(r.(pull := Some(op)), relays)
  {
    hide CausallyClosed, UniqueIds, PushOpOk, SharedUpTo, HeldUpTo, Position, HasId;
  }

  lemma InsertPulled(r: Replica, relays: map<Id, Log>)
    requires ReplicaInv(r, relays) && r.pull.Some? && !r.pull.value.inserted
    requires var relay := LinesIn(relays, r.pull.value.relay);
             RelayInv(relay) && Agree(r.log, relay) && Agree(relay, relay)
    ensures ReplicaInv(r.(log := InsertNew(r.log, r.pull.value.batch), pull := Some(r.pull.value.(inserted := true))),
            relays)
    ensures forall e :: e in InsertNew(r.log, r.pull.value.batch) ==>
            e in r.log || e in LinesIn(relays, r.pull.value.relay)
  {
    hide CausallyClosed, UniqueIds, PushOpOk, PullOpOk, PushedIsShared, PulledIsHeld, BornIn, BornBefore, InsertNew,
         Targets, Agree;
    var op := r.pull.value;
    var relay := LinesIn(relays, op.relay);
    var after := InsertNew(r.log, op.batch);
    SliceAgrees(r.log, relay, op);
    InsertMembers(r.log, op.batch);
    InsertKeepsUnique(r.log, op.batch);
    InsertKeepsPrefix(r.log, op.batch);
    forall x: nat, m | x < |op.batch| && Targets(op.batch[x], m)
      ensures BornIn(r.log, m) || BornBefore(op.batch, x, m)
    {
      SliceFollowsBirths(r.log, relay, op, x, m);
    }
    InsertKeepsClosed(r.log, op.batch);
    assert after == r.log + after[|r.log|..];
    LogGrowth(r, relays, after[|r.log|..]);
    SliceIsHeld(r.log, relay, op, after);
    ReplaceSlice(r.(log := after), relays, op.(inserted := true));
  }

  /** What a cursor claims holds of the relay the pull ran on. */
  lemma CursorIsHeld(log: Log, relay: Log, op: PullOp)
    requires PullOpOk(log, relay, op) && op.inserted && op.batch != []
    ensures var id := op.batch[|op.batch| - 1].id; HasId(relay, id) && HeldUpTo(relay, Position(relay, id) + 1, log)
  {
    var last := op.start + |op.batch| - 1;
    assert relay[last] == op.batch[|op.batch| - 1];
    assert relay[last] in relay;
    var c := Position(relay, relay[last].id);
    assert c <= last;
  }

  lemma SafeInPushed(r: Replica, s: Replica, relay: Log)
    requires PushedIsShared(r, relay) && s.log == r.log && s.pushed == r.pushed
    ensures PushedIsShared(s, relay)
  {
    hide SharedUpTo, HasId, Position;
  }

  lemma FinishPull(r: Replica, relays: map<Id, Log>)
    requires ReplicaInv(r, relays) && r.pull.Some? && r.pull.value.inserted
    requires r.pull.value.relay == r.remote || r.pull.value.batch == []
    ensures ReplicaInv(r.(pull := None, pulled := LastId(r.pull.value.batch, r.pulled)), relays)
  {
    hide PushOpOk, PullOpOk, SharedUpTo, HeldUpTo, UniqueIds, CausallyClosed, HasId, Position, PushedIsShared;
    var op := r.pull.value;
    SafeInPushed(r, r.(pull := None, pulled := LastId(op.batch, r.pulled)), LinesIn(relays, r.remote));
    if op.batch != [] { CursorIsHeld(r.log, LinesIn(relays, r.remote), op); }
  }

  // --- the whole world, one step ------------------------------------------------------------

  /** Replica `i` and one relay may change; events come from the world or are the one fresh event. */
  ghost predicate LocalChange(w: World, w': World, i: nat, relay: Id, minted: Option<Event>) {
    && i < |w.replicas| && |w'.replicas| == |w.replicas|
    && (forall k :: 0 <= k < |w.replicas| && k != i ==> w'.replicas[k] == w.replicas[k])
    && (w'.relays == w.relays || exists more :: w'.relays == w.relays[relay := Lines(w, relay) + more])
    && RelayInv(Lines(w', relay))
    && ReplicaInv(w'.replicas[i], w'.relays)
    && (forall e :: e in w'.replicas[i].log || e in Lines(w', relay) ==> InWorld(w, e) || minted == Some(e))
    && (minted.Some? ==> forall f :: InWorld(w, f) ==> f.id != minted.value.id)
    && (minted.Some? ==> forall f, m :: InWorld(w, f) && Consolidates(minted.value, m) ==> !Consolidates(f, m))
  }

  lemma LocalChangeKeepsInv(w: World, w': World, i: nat, relay: Id, minted: Option<Event>)
    requires Inv(w) && LocalChange(w, w', i, relay, minted)
    ensures Inv(w')
  {
    hide ReplicaInv, RelayInv;
    forall k | 0 <= k < |w'.replicas| ensures ReplicaInv(w'.replicas[k], w'.relays) {
      if k != i && w'.relays != w.relays {
        var more :| w'.relays == w.relays[relay := Lines(w, relay) + more];
        RelayGrowth(w.replicas[k], w.relays, relay, more);
      }
    }
    forall other ensures RelayInv(Lines(w', other)) {
      if other != relay { assert RelayInv(Lines(w, other)); }
    }
    assert Coherent(w') by {
      forall e | InWorld(w', e) ensures InWorld(w, e) || minted == Some(e) {
        NothingElseIsNew(w, w', i, relay, minted, e);
      }
    }
  }

  lemma NothingElseIsNew(w: World, w': World, i: nat, relay: Id, minted: Option<Event>, e: Event)
    requires LocalChange(w, w', i, relay, minted) && InWorld(w', e)
    ensures InWorld(w, e) || minted == Some(e)
  {
    hide ReplicaInv, RelayInv;
    if k :| 0 <= k < |w'.replicas| && e in w'.replicas[k].log {
      if k != i { assert e in w.replicas[k].log; }
    } else {
      var other :| e in Lines(w', other);
      if other != relay { assert e in Lines(w, other); }
    }
  }

  lemma StoresAgree(w: World, i: nat, relay: Id)
    requires Inv(w) && i < |w.replicas|
    ensures var lines := Lines(w, relay); Agree(w.replicas[i].log, lines) && Agree(lines, lines)
  {
    hide ReplicaInv, RelayInv;
    var lines := Lines(w, relay);
    forall e | e in w.replicas[i].log || e in lines ensures InWorld(w, e) {
    }
  }

  /** A mark that reaches a binding other than the one its push or pull ran on, and names something. */
  predicate LateMark(w: World, step: Step) {
    step.i < |w.replicas| &&
    var r := w.replicas[step.i];
    || (step.PushMark? && r.push.Some? && r.push.value.sent == |r.push.value.batch| &&
        r.push.value.relay != r.remote && r.push.value.batch != [])
    || (step.PullMark? && r.pull.Some? && r.pull.value.inserted &&
        r.pull.value.relay != r.remote && r.pull.value.batch != [])
  }

  /** A bind that carries a watermark to a relay which does not go on from the one it was earned on. */
  predicate BlindBind(w: World, step: Step) {
    step.Bind? && step.i < |w.replicas| &&
    var r := w.replicas[step.i];
    (r.pushed.Some? || r.pulled.Some?) && !(Lines(w, r.remote) <= Lines(w, step.remote))
  }

  predicate Careless(w: World, step: Step) {
    LateMark(w, step) || BlindBind(w, step)
  }

  /**
   * Every step keeps the promise, changes of binding in the middle of a push or a pull
   * included; late marks and blind binds aside.
   */
  lemma NextKeepsInv(w: World, step: Step)
    requires Inv(w) && !Careless(w, step)
    ensures Inv(Next(w, step))
  {
    hide ReplicaInv, RelayInv, MayAppend, Coherent, LocalChange, LateMark, BlindBind, Inv;
    var w' := Next(w, step);
    if step.i < |w.replicas| && w' != w {
      StepOfReplica(w, step);
      LocalChangeKeepsInv(w, w', step.i, Touched(w, step), Minted(step));
    }
  }

  ghost function Minted(step: Step): Option<Event> {
    if step.Append? || step.Note? then Some(step.event) else None
  }

  /** The relay a step may add to. */
  function Touched(w: World, step: Step): Id
    requires step.i < |w.replicas|
  {
    var r := w.replicas[step.i];
    if step.PushLine? && r.push.Some? then r.push.value.relay else r.remote
  }

  lemma SameRelays(w: World, w': World, i: nat, relay: Id, minted: Option<Event>)
    requires Inv(w) && i < |w.replicas| == |w'.replicas| && w'.relays == w.relays
    requires w'.replicas == w.replicas[i := w'.replicas[i]] && ReplicaInv(w'.replicas[i], w.relays)
    requires forall e :: e in w'.replicas[i].log ==> InWorld(w, e) || minted == Some(e)
    requires minted.Some? ==> forall f :: InWorld(w, f) ==> f.id != minted.value.id
    requires minted.Some? ==> forall f, m :: InWorld(w, f) && Consolidates(minted.value, m) ==> !Consolidates(f, m)
    ensures LocalChange(w, w', i, relay, minted)
  {
    hide ReplicaInv, RelayInv, Coherent;
    assert RelayInv(Lines(w, relay));
    assert forall e :: e in Lines(w, relay) ==> InWorld(w, e);
  }

  lemma LocalStep(w: World, step: Step)
    requires Inv(w) && step.i < |w.replicas| && Next(w, step) != w
    requires step.Append? || step.Note? || step.Crash? || step.Rebind? || (step.Bind? && !BlindBind(w, step))
    ensures LocalChange(w, Next(w, step), step.i, Touched(w, step), Minted(step))
  {
    hide ReplicaInv, RelayInv, Coherent, Pending, ReadSince, InsertNew, LocalChange;
    var i := step.i;
    var r := w.replicas[i];
    assert forall e :: e in r.log ==> InWorld(w, e);
    match step {
      case Append(_, e) => AppendOne(r, w.relays, e);
      case Note(_, e) => AppendOne(r, w.relays, e);
      case Crash(_) => DropOps(r, w.relays);
      case Rebind(_, remote) => StartOver(r, w.relays, remote);
      case Bind(_, remote) => CarryOn(r, w.relays, remote);
    }
    SameRelays(w, Next(w, step), i, r.remote, Minted(step));
  }

  lemma PushStep(w: World, step: Step)
    requires Inv(w) && step.i < |w.replicas| && Next(w, step) != w && !LateMark(w, step)
    requires step.PushBegin? || step.PushMark?
    ensures LocalChange(w, Next(w, step), step.i, Touched(w, step), None)
  {
    hide ReplicaInv, RelayInv, Coherent, Pending, ReadSince, InsertNew, MayAppend, Consolidates, LocalChange;
    var r := w.replicas[step.i];
    assert forall e :: e in r.log ==> InWorld(w, e);
    match step {
      case PushBegin(_) => StartPush(r, w.relays);
      case PushMark(_) => FinishPush(r, w.relays);
    }
    SameRelays(w, Next(w, step), step.i, r.remote, None);
  }

  lemma LineStep(w: World, step: Step)
    requires Inv(w) && step.PushLine? && step.i < |w.replicas| && Next(w, step) != w
    ensures LocalChange(w, Next(w, step), step.i, Touched(w, step), None)
  {
    hide ReplicaInv, RelayInv, Coherent, Pending, ReadSince, InsertNew, MayAppend, Consolidates;
    var r := w.replicas[step.i];
    var op := r.push.value;
    assert forall e :: e in r.log || e in Lines(w, op.relay) ==> InWorld(w, e);
    assert RelayInv(Lines(w, op.relay));
    SendLine(r, w.relays);
    assert Next(w, step).relays == w.relays[op.relay := Lines(w, op.relay) + [op.batch[op.sent]]];
  }

  lemma PullStep(w: World, step: Step)
    requires Inv(w) && step.i < |w.replicas| && Next(w, step) != w && !LateMark(w, step)
    requires step.PullBegin? || step.PullInsert? || step.PullMark?
    ensures LocalChange(w, Next(w, step), step.i, Touched(w, step), None)
  {
    hide ReplicaInv, RelayInv, Coherent, Pending, ReadSince, InsertNew, MayAppend, Consolidates, Agree, LocalChange,
         SliceOf;
    var i := step.i;
    var r := w.replicas[i];
    assert forall e :: e in r.log ==> InWorld(w, e);
    match step {
      case PullBegin(_) => StartPull(r, w);
      case PullInsert(_) =>
        var relay := r.pull.value.relay;
        StoresAgree(w, i, relay);
        assert RelayInv(Lines(w, relay));
        assert forall e :: e in Lines(w, relay) ==> InWorld(w, e);
        InsertPulled(r, w.relays);
      case PullMark(_) => FinishPull(r, w.relays);
    }
    SameRelays(w, Next(w, step), i, r.remote, None);
  }

  lemma StepOfReplica(w: World, step: Step)
    requires Inv(w) && step.i < |w.replicas| && Next(w, step) != w && !Careless(w, step)
    ensures LocalChange(w, Next(w, step), step.i, Touched(w, step), Minted(step))
  {
    hide Inv, Next, LocalChange, LateMark, BlindBind;
    match step
    case PushBegin(_) => PushStep(w, step);
    case PushLine(_) => LineStep(w, step);
    case PushMark(_) => PushStep(w, step);
    case PullBegin(_) => PullStep(w, step);
    case PullInsert(_) => PullStep(w, step);
    case PullMark(_) => PullStep(w, step);
    case Append(_, _) => LocalStep(w, step);
    case Note(_, _) => LocalStep(w, step);
    case Crash(_) => LocalStep(w, step);
    case Rebind(_, _) => LocalStep(w, step);
    case Bind(_, _) => LocalStep(w, step);
  }

  lemma DropOps(r: Replica, relays: map<Id, Log>)
    requires ReplicaInv(r, relays)
    ensures ReplicaInv(r.(push := None, pull := None), relays)
  {
  }

  lemma StartOver(r: Replica, relays: map<Id, Log>, remote: Id)
    requires ReplicaInv(r, relays)
    ensures ReplicaInv(r.(remote := remote, pushed := None, pulled := None), relays)
  {
    hide PushOpOk, PullOpOk, UniqueIds, CausallyClosed;
  }

  /** No watermark to carry, or a relay on which it stands for the same lines. */
  lemma CarryOn(r: Replica, relays: map<Id, Log>, remote: Id)
    requires ReplicaInv(r, relays)
    requires (r.pushed.None? && r.pulled.None?) || LinesIn(relays, r.remote) <= LinesIn(relays, remote)
    ensures ReplicaInv(r.(remote := remote), relays)
  {
    hide PushOpOk, PullOpOk, UniqueIds, CausallyClosed, SharedUpTo, HeldUpTo, HasId, Position;
    var here, there := LinesIn(relays, r.remote), LinesIn(relays, remote);
    if here <= there {
      SafeOnGrowingRelay(r, here, there[|here|..]);
      assert here + there[|here|..] == there;
    }
  }

  // --- whole runs -------------------------------------------------------------------------------

  /** No mark of the run is late and no bind blind. */
  ghost predicate Careful(w: World, steps: seq<Step>)
    decreases steps
  {
    steps == [] || (!Careless(w, steps[0]) && Careful(Next(w, steps[0]), steps[1..]))
  }

  lemma {:induction false} RunKeepsInv(w: World, steps: seq<Step>)
    requires Inv(w) && Careful(w, steps)
    ensures Inv(Run(w, steps))
    decreases steps
  {
    hide Inv, Next, Careless;
    if steps != [] {
      NextKeepsInv(w, steps[0]);
      RunKeepsInv(Next(w, steps[0]), steps[1..]);
    }
  }

  predicate AtRest(r: Replica) {
    r.push.None? && r.pull.None?
  }

  /** Every change of binding finds its replica with nothing in flight, and no bind is blind. */
  ghost predicate BindingsWait(w: World, steps: seq<Step>)
    decreases steps
  {
    steps != [] ==>
    && ((steps[0].Rebind? || steps[0].Bind?) && steps[0].i < |w.replicas| ==> AtRest(w.replicas[steps[0].i]))
    && !BlindBind(w, steps[0])
    && BindingsWait(Next(w, steps[0]), steps[1..])
  }

  /** What is in flight runs on the relay the replica is bound to. */
  ghost predicate AtHome(r: Replica) {
    && (r.push.Some? ==> r.push.value.relay == r.remote)
    && (r.pull.Some? ==> r.pull.value.relay == r.remote)
  }

  /** Changes of binding that wait are enough: no mark is late then. */
  lemma {:induction false} WaitingRunsAreCareful(w: World, steps: seq<Step>)
    requires BindingsWait(w, steps) && forall i :: 0 <= i < |w.replicas| ==> AtHome(w.replicas[i])
    ensures Careful(w, steps)
    decreases steps
  {
    hide MayAppend, InWorld, Pending, ReadSince, InsertNew, Lines;
    if steps != [] {
      if steps[0].i < |w.replicas| { assert AtHome(w.replicas[steps[0].i]); }
      WaitingRunsAreCareful(Next(w, steps[0]), steps[1..]);
    }
  }

  lemma FreshStart(w: World)
    requires Fresh(w)
    ensures Inv(w)
  {
    assert forall i :: 0 <= i < |w.replicas| ==> w.replicas[i] in w.replicas;
    assert forall i :: 0 <= i < |w.replicas| ==> w.replicas[i].log == [];
  }

  lemma InvIsSafe(w: World)
    requires Inv(w)
    ensures Safe(w)
  {
    hide ReplicaSafe, CausallyClosed, PushOpOk, PullOpOk, Coherent;
    assert forall i :: 0 <= i < |w.replicas| ==> ReplicaInv(w.replicas[i], w.relays);
    assert forall relay :: RelayInv(Lines(w, relay));
  }

  /** Over every run of every length: watermarks never claim too much, and no log or relay breaks causality. */
  lemma SyncSafety(w: World, steps: seq<Step>)
    requires Fresh(w) && Careful(w, steps)
    ensures Safe(Run(w, steps))
  {
    hide Inv, Safe;
    FreshStart(w);
    RunKeepsInv(w, steps);
    InvIsSafe(Run(w, steps));
  }

  // --- what a late mark does ----------------------------------------------------------------------

  /** The relay bound by now has no line of an event the operation in flight names. */
  ghost predicate Foreign(w: World, r: Replica, batch: Log) {
    forall e :: e in batch ==> e !in Lines(w, r.remote)
  }

  /** A push that outlives its binding marks too much exactly when it had something to push. */
  lemma LatePushMarkExactly(w: World, i: nat)
    requires Inv(w) && i < |w.replicas| && w.replicas[i].push.Some?
    requires var r := w.replicas[i]; r.push.value.sent == |r.push.value.batch| && Foreign(w, r, r.push.value.batch)
    ensures Safe(Next(w, PushMark(i))) <==> w.replicas[i].push.value.batch == []
  {
    hide ReplicaInv, RelayInv, Coherent, CausallyClosed, Pending, InsertNew, MayAppend;
    var r, op, w' := w.replicas[i], w.replicas[i].push.value, Next(w, PushMark(i));
    if op.batch == [] {
      NextKeepsInv(w, PushMark(i));
      InvIsSafe(w');
    } else {
      var last := op.batch[|op.batch| - 1];
      LastOfBatch(w, i);
      var r' := w'.replicas[i];
      assert r'.pushed == Some(last.id) && r'.log == r.log && r'.remote == r.remote;
      var p := Position(r.log, last.id);
      assert last in op.batch && w'.relays == w.relays;
      assert !SharedUpTo(r.log, p + 1, Lines(w', r'.remote));
      assert !ReplicaSafe(r', Lines(w', r'.remote));
    }
  }

  lemma LastOfBatch(w: World, i: nat)
    requires Inv(w) && i < |w.replicas| && w.replicas[i].push.Some? && w.replicas[i].push.value.batch != []
    ensures var r := w.replicas[i]; var last := r.push.value.batch[|r.push.value.batch| - 1];
            HasId(r.log, last.id) && r.log[Position(r.log, last.id)] == last && !Bookkeeping(last)
  {
    hide RelayInv, Coherent, CausallyClosed;
    var r, op := w.replicas[i], w.replicas[i].push.value;
    assert ReplicaInv(r, w.relays);
    var k := |op.batch| - 1;
    assert Placed(r.log, LinesIn(w.relays, op.relay), op, k);
    var p: nat :| InPlace(r.log, LinesIn(w.relays, op.relay), op, k, p);
    PositionOf(r.log, p);
    assert r.log[p] in r.log;
  }

  /** A pull that outlives its binding leaves a cursor unknown to the new relay exactly when it had pulled something. */
  lemma LatePullMarkExactly(w: World, i: nat)
    requires Inv(w) && i < |w.replicas| && w.replicas[i].pull.Some?
    requires var r := w.replicas[i]; r.pull.value.inserted && Foreign(w, r, r.pull.value.batch)
    ensures Safe(Next(w, PullMark(i))) <==> w.replicas[i].pull.value.batch == []
  {
    hide ReplicaInv, RelayInv, CausallyClosed, Pending, InsertNew, MayAppend, SharedUpTo, HeldUpTo, UniqueIds;
    var r, op, w' := w.replicas[i], w.replicas[i].pull.value, Next(w, PullMark(i));
    if op.batch == [] {
      NextKeepsInv(w, PullMark(i));
      InvIsSafe(w');
    } else {
      var last := op.batch[|op.batch| - 1];
      SliceIsLines(w, i);
      assert last in Lines(w, op.relay);
      assert InWorld(w, last);
      forall e | e in Lines(w, r.remote) ensures e.id != last.id {
        assert InWorld(w, e);
      }
      var r' := w'.replicas[i];
      assert r'.pulled == Some(last.id) && !HasId(Lines(w', r'.remote), last.id);
      assert !ReplicaSafe(r', Lines(w', r'.remote));
    }
  }

  lemma SliceIsLines(w: World, i: nat)
    requires Inv(w) && i < |w.replicas| && w.replicas[i].pull.Some?
    ensures forall e :: e in w.replicas[i].pull.value.batch ==> e in Lines(w, w.replicas[i].pull.value.relay)
  {
    hide RelayInv, Coherent, ReplicaSafe, PushOpOk, HeldUpTo;
    assert ReplicaInv(w.replicas[i], w.relays);
  }

  // --- what a blind bind does ---------------------------------------------------------------------

  /** A bind to a relay with none of the log's ids keeps the promise exactly when it carries no watermark. */
  lemma BlindBindExactly(w: World, i: nat, remote: Id)
    requires Inv(w) && i < |w.replicas|
    requires forall e :: e in w.replicas[i].log ==> !HasId(Lines(w, remote), e.id)
    ensures Safe(Next(w, Bind(i, remote))) <==> w.replicas[i].pushed.None? && w.replicas[i].pulled.None?
  {
    hide RelayInv, Coherent, CausallyClosed, UniqueIds, PushOpOk, PullOpOk, MayAppend, Pending, InsertNew;
    var r, w' := w.replicas[i], Next(w, Bind(i, remote));
    assert ReplicaInv(r, w.relays);
    if r.pushed.None? && r.pulled.None? {
      NextKeepsInv(w, Bind(i, remote));
      InvIsSafe(w');
    } else {
      var r' := w'.replicas[i];
      assert r' == r.(remote := remote) && Lines(w', remote) == Lines(w, remote);
      if r.pushed.Some? {
        MarkIsNotThere(r, Lines(w, remote));
      } else {
        CursorIsNotThere(r, LinesIn(w.relays, r.remote), Lines(w, remote));
      }
      assert !ReplicaSafe(r', Lines(w', r'.remote));
    }
  }

  lemma MarkIsNotThere(r: Replica, relay: Log)
    requires r.pushed.Some? && UniqueIds(r.log) && NamesShareable(r.log, r.pushed.value)
    requires forall e :: e in r.log ==> !HasId(relay, e.id)
    ensures !PushedIsShared(r, relay)
  {
    var e :| e in r.log && e.id == r.pushed.value && !Bookkeeping(e);
    var p :| 0 <= p < |r.log| && r.log[p] == e;
    PositionOf(r.log, p);
    assert r.log[p] !in relay;
  }

  lemma CursorIsNotThere(r: Replica, here: Log, there: Log)
    requires r.pulled.Some? && PulledIsHeld(r, here)
    requires forall e :: e in r.log ==> !HasId(there, e.id)
    ensures !PulledIsHeld(r, there)
  {
    var p := Position(here, r.pulled.value);
    assert here[p] in r.log && here[p].id == r.pulled.value;
  }
}
