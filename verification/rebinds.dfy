/** What changes of binding, crashes and watermarks that outlive their binding come to, on concrete runs. */
module Rebinds {
  import opened Events
  import opened EventLog
  import opened SyncRuns
  import opened SyncAgreement
  import opened Convergence
  import opened Sorting
  import opened Traffic

  /** Some run from empty logs and relays ends in `w`. */
  ghost predicate Reachable(w: World) {
    exists start, steps :: Fresh(start) && Run(start, steps) == w
  }

  lemma FreshIsReachable(w: World)
    requires Fresh(w)
    ensures Reachable(w)
  {
    assert Run(w, []) == w;
  }

  lemma RunReaches(w: World, steps: seq<Step>)
    requires Reachable(w)
    ensures Reachable(Run(w, steps))
  {
    hide Run, Fresh;
    var start, before :| Fresh(start) && Run(start, before) == w;
    RunConcat(start, before, steps);
  }

  lemma StepReaches(w: World, step: Step)
    requires Reachable(w)
    ensures Reachable(Next(w, step))
  {
    hide Next, Reachable;
    RunOne(w, step);
    RunReaches(w, [step]);
  }

  function Plain(id: Id): Event {
    Event(id, "t", "proj_a", "proj_a", None, None, Other("rule.upserted"))
  }

  /** A relay bound by hand, and a workspace the server minted. */
  const OLD: Id := "proj_a"
  const NEW: Id := "wsp_b"

  const X: Event := Plain("evt_x")
  const Z: Event := Plain("evt_z")

  function Idle(log: Log, remote: Id, pushed: Option<Id>, pulled: Option<Id>): Replica {
    Replica(log, remote, pushed, pulled, None, None)
  }

  lemma MintedFirst(w: World, i: nat, e: Event)
    requires i < |w.replicas| && e.payload.Other? && forall f :: InWorld(w, f) ==> f.id != e.id
    ensures Next(w, Append(i, e)) == WithReplica(w, i, w.replicas[i].(log := w.replicas[i].log + [e]))
  {
    hide InWorld;
  }

  lemma RebindStep(w: World, i: nat, remote: Id)
    requires i < |w.replicas|
    ensures Next(w, Rebind(i, remote)) ==
            WithReplica(w, i, w.replicas[i].(remote := remote, pushed := None, pulled := None))
  {
    hide MayAppend;
  }

  lemma BindStep(w: World, i: nat, remote: Id)
    requires i < |w.replicas|
    ensures Next(w, Bind(i, remote)) == WithReplica(w, i, w.replicas[i].(remote := remote))
  {
    hide MayAppend;
  }

  lemma OneEventToSend(e: Event)
    requires !Bookkeeping(e)
    ensures Shareable([e]) == [e] && Pending([e], None) == [e]
  {
    assert [e][..0] == [];
    assert Shareable([e][..0]) == [];
  }

  // --- a push that outlives its binding ---------------------------------------------------------

  const ONE: World := World([Idle([], OLD, None, None)], map[])

  function Pushing(sent: nat): World {
    World([Replica([X], OLD, None, None, Some(PushOp(OLD, [X], sent)), None)],
          if sent == 0 then map[] else map[OLD := [X]])
  }

  lemma PushOfOne()
    ensures Reachable(Pushing(1))
  {
    hide Reachable, Next, MayAppend, Pending;
    FreshIsReachable(ONE);
    var w1 := World([Idle([X], OLD, None, None)], map[]);
    MintedFirst(ONE, 0, X);
    assert [] + [X] == [X];
    assert Next(ONE, Append(0, X)) == w1;
    StepReaches(ONE, Append(0, X));
    OneEventToSend(X);
    PushBeginStep(w1, 0);
    StepReaches(w1, PushBegin(0));
    BeginIsPushing(w1);
    SendIsPushing();
    StepReaches(Pushing(0), PushLine(0));
  }

  lemma BeginIsPushing(w: World)
    requires w == World([Idle([X], OLD, None, None)], map[])
    ensures Next(w, PushBegin(0)) == Pushing(0)
  {
    hide MayAppend, Pending;
    OneEventToSend(X);
  }

  lemma SendIsPushing()
    ensures Next(Pushing(0), PushLine(0)) == Pushing(1)
  {
    hide MayAppend, Pending;
    assert Lines(Pushing(0), OLD) + [X] == [X];
  }

  /** A run in which a push finishes after a rebind, and the promise with it: the new relay never got what is marked. */
  lemma LatePushBreaksThePromise()
    ensures exists w :: Reachable(w) && !Safe(Next(w, PushMark(0)))
  {
    hide Reachable, Next, Safe, Inv;
    PushOfOne();
    var w := Next(Pushing(1), Rebind(0, NEW));
    RebindStep(Pushing(1), 0, NEW);
    StepReaches(Pushing(1), Rebind(0, NEW));
    InvWhilePushing(w);
    LatePushMarkExactly(w, 0);
  }

  lemma InvWhilePushing(w: World)
    requires w == World([Replica([X], NEW, None, None, Some(PushOp(OLD, [X], 1)), None)], map[OLD := [X]])
    ensures Inv(w) && Foreign(w, w.replicas[0], [X])
  {
    var r := w.replicas[0];
    assert InPlace(r.log, [X], r.push.value, 0, 0);
    assert Placed(r.log, [X], r.push.value, 0);
    assert forall relay :: Lines(w, relay) == [] || Lines(w, relay) == [X];
    forall f | InWorld(w, f) ensures f == X {
    }
  }

  // --- a bind that keeps the watermark -----------------------------------------------------------

  function Alone(remote: Id, pushed: Option<Id>, push: Option<PushOp>): World {
    World([Replica([X], remote, pushed, None, push, None)], map[OLD := [X]])
  }

  lemma MarkAlone()
    ensures Next(Pushing(1), PushMark(0)) == Alone(OLD, Some(X.id), None)
  {
    hide MayAppend;
  }

  lemma AloneInv()
    ensures Inv(Alone(OLD, Some(X.id), None))
  {
    var w := Alone(OLD, Some(X.id), None);
    var r := w.replicas[0];
    assert X in r.log && r.log[0] == X;
    assert Position(r.log, X.id) == 0;
    assert forall relay :: Lines(w, relay) == [] || Lines(w, relay) == [X];
    forall f | InWorld(w, f) ensures f == X {
    }
  }

  /** A run after which all is well and nothing is in flight, until the binding alone is changed. */
  lemma BindBreaksThePromise()
    ensures exists w, remote :: Reachable(w) && |w.replicas| == 1 && AtRest(w.replicas[0]) && Safe(w) &&
              !Safe(Next(w, Bind(0, remote)))
  {
    hide Reachable, Next, Safe, Inv;
    PushOfOne();
    var w := Alone(OLD, Some(X.id), None);
    MarkAlone();
    StepReaches(Pushing(1), PushMark(0));
    AloneInv();
    InvIsSafe(w);
    assert Lines(w, NEW) == [];
    BlindBindExactly(w, 0, NEW);
  }

  // --- lines that go out twice -------------------------------------------------------------------

  lemma SendsThen(w: World, step: Step, rest: seq<Step>)
    ensures Sends(w, [step] + rest) == Sent(w, step) + Sends(Next(w, step), rest)
  {
    hide Next, Sent;
    assert ([step] + rest)[0] == step && ([step] + rest)[1..] == rest;
  }

  /** A migration drops the watermark, and a bind by hand goes back without one. */
  lemma ThereAndBack()
    ensures Next(Next(Alone(OLD, Some(X.id), None), Rebind(0, NEW)), Bind(0, OLD)) == Alone(OLD, None, None)
  {
    hide MayAppend;
    RebindStep(Alone(OLD, Some(X.id), None), 0, NEW);
    BindStep(Alone(NEW, None, None), 0, OLD);
    assert Next(Alone(OLD, Some(X.id), None), Rebind(0, NEW)) == Alone(NEW, None, None);
  }

  lemma BeginAlone()
    ensures Next(Alone(OLD, None, None), PushBegin(0)) == Alone(OLD, None, Some(PushOp(OLD, [X], 0)))
  {
    hide MayAppend, Pending;
    OneEventToSend(X);
  }

  const AGAIN: seq<Step> := [PushBegin(0)] + [PushLine(0)]
  const BACK: seq<Step> := [PushMark(0)] + ([Rebind(0, NEW)] + ([Bind(0, OLD)] + AGAIN))
  const BROKEN: seq<Step> := [Crash(0)] + AGAIN

  lemma SentOnceMore()
    ensures Sends(Alone(OLD, None, None), AGAIN) == [Sending(0, OLD, X)]
  {
    hide Next, Sends;
    BeginAlone();
    SendsThen(Alone(OLD, None, None), PushBegin(0), [PushLine(0)]);
    var last := Alone(OLD, None, Some(PushOp(OLD, [X], 0)));
    assert [PushLine(0)] + [] == [PushLine(0)];
    SendsThen(last, PushLine(0), []);
    NothingMore(Next(last, PushLine(0)));
  }

  lemma NothingMore(w: World)
    ensures Sends(w, []) == []
  {
  }

  lemma SentAfterReturn()
    ensures Sends(Pushing(1), BACK) == [Sending(0, OLD, X)]
  {
    hide Next, Sends;
    var marked := Alone(OLD, Some(X.id), None);
    MarkAlone();
    SendsThen(Pushing(1), PushMark(0), [Rebind(0, NEW)] + ([Bind(0, OLD)] + AGAIN));
    SendsThen(marked, Rebind(0, NEW), [Bind(0, OLD)] + AGAIN);
    SendsThen(Next(marked, Rebind(0, NEW)), Bind(0, OLD), AGAIN);
    ThereAndBack();
    SentOnceMore();
    assert Sent(Pushing(1), PushMark(0)) == [] && Sent(marked, Rebind(0, NEW)) == [];
    assert Sent(Next(marked, Rebind(0, NEW)), Bind(0, OLD)) == [];
  }

  lemma SentAfterCrash()
    ensures Sends(Pushing(1), BROKEN) == [Sending(0, OLD, X)]
  {
    hide Next, Sends;
    CrashAlone();
    SendsThen(Pushing(1), Crash(0), AGAIN);
    SentOnceMore();
    assert Sent(Pushing(1), Crash(0)) == [];
  }

  lemma CrashAlone()
    ensures Next(Pushing(1), Crash(0)) == Alone(OLD, None, None)
  {
    hide MayAppend;
  }

  const PREFIX: seq<Step> := [Append(0, X), PushBegin(0), PushLine(0)]

  /** Mint an event, push it, and go on. */
  lemma SentAndGoneOn(later: seq<Step>)
    ensures Sends(ONE, PREFIX + later) == [Sending(0, OLD, X)] + Sends(Pushing(1), later)
  {
    hide Next, Sends;
    var appended := World([Idle([X], OLD, None, None)], map[]);
    MintedFirst(ONE, 0, X);
    assert [] + [X] == [X];
    assert Next(ONE, Append(0, X)) == appended;
    SendsThen(ONE, Append(0, X), [PushBegin(0)] + ([PushLine(0)] + later));
    BeginIsPushing(appended);
    SendsThen(appended, PushBegin(0), [PushLine(0)] + later);
    SendIsPushing();
    SendsThen(Pushing(0), PushLine(0), later);
    assert Sent(Pushing(0), PushLine(0)) == [Sending(0, OLD, X)];
    assert Sent(ONE, Append(0, X)) == [] && Sent(appended, PushBegin(0)) == [];
    assert PREFIX + later == [Append(0, X)] + ([PushBegin(0)] + ([PushLine(0)] + later));
  }

  /** A run without a crash in which a migration and a bind back send an event again. */
  lemma ReturnSendsAgain()
    ensures exists w, steps :: Fresh(w) && NoCrash(steps) && !NoRepeats(Sends(w, steps))
  {
    hide Next, Sends;
    SentAndGoneOn(BACK);
    SentAfterReturn();
    var steps := PREFIX + BACK;
    assert Sends(ONE, steps)[0] == Sends(ONE, steps)[1];
    assert Fresh(ONE) && NoCrash(steps);
  }

  lemma {:induction false} StayingIsNoReturn(bound: set<(nat, Id)>, steps: seq<Step>)
    requires forall s: Step :: s in steps ==> !s.Rebind? && !s.Bind?
    ensures NoReturn(bound, steps)
    decreases |steps|
  {
    if steps != [] { StayingIsNoReturn(Bound(bound, steps[0]), steps[1..]); }
  }

  /** A run that never changes a binding, in which a crash sends an event again. */
  lemma CrashSendsAgain()
    ensures exists w, steps :: Fresh(w) && NoReturn(FirstBindings(w), steps) && !NoRepeats(Sends(w, steps))
  {
    hide Next, Sends;
    SentAndGoneOn(BROKEN);
    SentAfterCrash();
    var steps := PREFIX + BROKEN;
    assert Sends(ONE, steps)[0] == Sends(ONE, steps)[1];
    StayingIsNoReturn(FirstBindings(ONE), steps);
    assert Fresh(ONE);
  }

  // --- a pull that outlives its binding -----------------------------------------------------------

  /** Two replicas and at most two relays, told by what they hold. */
  ghost predicate Looks(w: World, zero: Replica, one: Replica, first: Log, second: Log) {
    && w.replicas == [zero, one]
    && Lines(w, OLD) == first && Lines(w, NEW) == second
    && forall relay :: relay != OLD && relay != NEW ==> Lines(w, relay) == []
  }

  /** Two events, one fresh: minting it is allowed wherever nobody has it. */
  lemma MintWhere(w: World, i: nat, e: Event, zero: Replica, one: Replica, first: Log)
    requires Looks(w, zero, one, first, []) && i < 2 && e.payload.Other?
    requires forall f :: f in zero.log || f in one.log || f in first ==> f.id != e.id
    ensures var r := if i == 0 then zero else one;
            Next(w, Append(i, e)) == WithReplica(w, i, r.(log := r.log + [e]))
    ensures Looks(Next(w, Append(i, e)),
                  if i == 0 then zero.(log := zero.log + [e]) else zero,
                  if i == 1 then one.(log := one.log + [e]) else one, first, [])
  {
    forall f | InWorld(w, f) ensures f.id != e.id {
      if k :| 0 <= k < |w.replicas| && f in w.replicas[k].log {
        assert w.replicas[k] == zero || w.replicas[k] == one;
      } else {
        var relay :| f in Lines(w, relay);
        assert relay == OLD;
      }
    }
    MintedFirst(w, i, e);
    assert forall relay :: Lines(Next(w, Append(i, e)), relay) == Lines(w, relay);
  }

  lemma BecameLooks(w: World, v: World, i: nat, r: Replica, lines: Log, zero: Replica, one: Replica, first: Log,
      second: Log)
    requires Looks(w, zero, one, first, second) && Became(w, v, i, r, lines) && i < 2
    requires w.replicas[i].remote == OLD || w.replicas[i].remote == NEW
    ensures var mine := w.replicas[i].remote;
            Looks(v, if i == 0 then r else zero, if i == 1 then r else one,
                  if mine == OLD then lines else first, if mine == NEW then lines else second)
  {
    hide Lines;
  }

  const ZERO: Replica := Idle([], OLD, None, None)

  lemma SliceOfOne()
    ensures ReadSince([X], None) == [X] && InsertNew([], [X]) == [X] && InsertNew([X], [X]) == [X] &&
            InsertNew([Z], [X]) == [Z, X]
  {
    assert X in [X] && [X][1..] == [] && [Z] + [X] == [Z, X] && [] + [X] == [X];
    assert Z.id != X.id;
    assert !HasId([Z], X.id);
  }

  /** Replica 1 shares `X`; replica 0 mints `Z` and then pulls `X`. */
  lemma SharedIsReachable() returns (w: World)
    ensures Reachable(w)
    ensures Looks(w, Idle([Z, X], OLD, None, Some(X.id)), Idle([X], OLD, Some(X.id), None), [X], [])
  {
    hide Reachable, Next, Run, MayAppend, Pending, ReadSince, InsertNew, PushSteps, PullSteps, Looks;
    var start := World([ZERO, ZERO], map[]);
    FreshIsReachable(start);
    assert Looks(start, ZERO, ZERO, [], []) by { NothingYet(ZERO); }
    assert [] + [X] == [X] && [] + [Z] == [Z];
    MintWhere(start, 1, X, ZERO, ZERO, []);
    StepReaches(start, Append(1, X));
    var w1 := Next(start, Append(1, X));
    var has := Idle([X], OLD, None, None);
    OneEventToSend(X);
    var w2 := PushedBy1(w1, ZERO, has, []);
    var shared := Idle([X], OLD, Some(X.id), None);
    MintWhere(w2, 0, Z, ZERO, shared, [X]);
    StepReaches(w2, Append(0, Z));
    var w3 := Next(w2, Append(0, Z));
    SliceOfOne();
    w := PulledBy0(w3, Idle([Z], OLD, None, None), shared, [X]);
  }

  lemma NothingYet(zero: Replica)
    ensures Looks(World([zero, ZERO], map[]), zero, ZERO, [], [])
  {
  }

  lemma PushedBy1(w: World, zero: Replica, one: Replica, first: Log) returns (v: World)
    requires Reachable(w) && Looks(w, zero, one, first, []) && one.remote == OLD
    ensures Reachable(v)
    ensures var pending := Pending(one.log, one.pushed);
            Looks(v, zero, one.(push := None, pull := None, pushed := LastId(pending, one.pushed)), first + pending, [])
  {
    hide Reachable, Next, Run, Pending, PushSteps, Lines;
    assert |w.replicas| == 2 && w.replicas[1] == one;
    v := Run(w, PushSteps(w, 1));
    RunReaches(w, PushSteps(w, 1));
    WholePush(w, 1);
    var pending := Pending(one.log, one.pushed);
    BecameLooks(w, v, 1, one.(push := None, pull := None, pushed := LastId(pending, one.pushed)), first + pending, zero,
      one, first, []);
  }

  lemma PulledBy0(w: World, zero: Replica, one: Replica, first: Log) returns (v: World)
    requires Reachable(w) && Looks(w, zero, one, first, []) && zero.remote == OLD
    ensures Reachable(v)
    ensures var batch := ReadSince(first, zero.pulled);
            Looks(v, zero.(push := None, pull := None, log := InsertNew(zero.log, batch),
              pulled := LastId(batch, zero.pulled)), one, first, [])
  {
    hide Reachable, Next, Run, ReadSince, InsertNew, PullSteps, Lines;
    assert |w.replicas| == 2 && w.replicas[0] == zero;
    v := Run(w, PullSteps(0));
    RunReaches(w, PullSteps(0));
    WholePull(w, 0);
    var batch := ReadSince(first, zero.pulled);
    BecameLooks(w, v, 0, zero.(push := None, pull := None, log := InsertNew(zero.log, batch),
      pulled := LastId(batch, zero.pulled)),
                first, zero, one, first, []);
  }

  /** Then replica 0 pushes, and `X` is on the relay twice. */
  lemma PushBackIsReachable() returns (w: World)
    ensures Reachable(w) && |w.replicas| == 2
    ensures w.replicas[0] == Idle([Z, X], OLD, Some(X.id), Some(X.id)) && Lines(w, OLD) == [X, Z, X]
  {
    hide Reachable, Run, Next, Pending, PushSteps, Lines;
    var v := SharedIsReachable();
    BothToSend();
    w := Run(v, PushSteps(v, 0));
    RunReaches(v, PushSteps(v, 0));
    WholePush(v, 0);
    assert [X] + [Z, X] == [X, Z, X];
  }

  /**
   * Replica 1 pulls `X` back from its old relay, is migrated, and only then stores its cursor;
   * replica 0, which never synced, joins the new workspace.
   */
  lemma StaleCursorIsReachable() returns (w: World)
    ensures Reachable(w)
    ensures Looks(w, Idle([Z], NEW, None, None), Idle([X], NEW, None, Some(X.id)), [X], [])
  {
    hide Reachable, Next, Looks, ReadSince, InsertNew, Lines, LastId;
    var w0 := MintedApart();
    var zero, one := Idle([Z], ELSEWHERE, None, None), Idle([X], OLD, Some(X.id), None);
    var pulling := one.(pull := Some(PullOp(OLD, 0, [X], false)));
    var held := one.(pull := Some(PullOp(OLD, 0, [X], true)));
    var w1 := BeginBy1(w0, zero, one);
    var w2 := InsertBy1(w1, zero, pulling);
    var w3 := MigratedBy1(w2, zero, held);
    var w4 := MarkBy1(w3, zero, held.(remote := NEW, pushed := None, pulled := None));
    w := JoinedBy0(w4, zero, Idle([X], NEW, None, Some(X.id)));
  }

  const ELSEWHERE: Id := "proj_zz"

  /** Replica 1 mints `X` and pushes it; replica 0 mints `Z` and syncs with nobody. */
  lemma MintedApart() returns (w: World)
    ensures Reachable(w) && Looks(w, Idle([Z], ELSEWHERE, None, None), Idle([X], OLD, Some(X.id), None), [X], [])
  {
    hide Reachable, Next, Run, MayAppend, Pending, ReadSince, InsertNew, PushSteps, PullSteps, Looks;
    var apart := Idle([], ELSEWHERE, None, None);
    var start := World([apart, ZERO], map[]);
    FreshIsReachable(start);
    assert Looks(start, apart, ZERO, [], []) by { NothingYet(apart); }
    assert [] + [X] == [X] && [] + [Z] == [Z];
    MintWhere(start, 1, X, apart, ZERO, []);
    StepReaches(start, Append(1, X));
    OneEventToSend(X);
    var w2 := PushedBy1(Next(start, Append(1, X)), apart, Idle([X], OLD, None, None), []);
    MintWhere(w2, 0, Z, apart, Idle([X], OLD, Some(X.id), None), [X]);
    StepReaches(w2, Append(0, Z));
    w := Next(w2, Append(0, Z));
  }

  lemma MigratedBy1(w: World, zero: Replica, one: Replica) returns (v: World)
    requires Reachable(w) && Looks(w, zero, one, [X], [])
    ensures Reachable(v) && Looks(v, zero, one.(remote := NEW, pushed := None, pulled := None), [X], [])
  {
    hide Reachable, Next;
    v := Next(w, Rebind(1, NEW));
    StepReaches(w, Rebind(1, NEW));
    RebindStep(w, 1, NEW);
    assert forall relay :: Lines(v, relay) == Lines(w, relay);
  }

  lemma JoinedBy0(w: World, zero: Replica, one: Replica) returns (v: World)
    requires Reachable(w) && Looks(w, zero, one, [X], [])
    ensures Reachable(v) && Looks(v, zero.(remote := NEW), one, [X], [])
  {
    hide Reachable, Next;
    v := Next(w, Bind(0, NEW));
    StepReaches(w, Bind(0, NEW));
    BindStep(w, 0, NEW);
    assert forall relay :: Lines(v, relay) == Lines(w, relay);
  }

  lemma BeginBy1(w: World, zero: Replica, one: Replica) returns (v: World)
    requires Reachable(w) && Looks(w, zero, one, [X], []) && one == Idle([X], OLD, Some(X.id), None)
    ensures Reachable(v) && Looks(v, zero, one.(pull := Some(PullOp(OLD, 0, [X], false))), [X], [])
  {
    hide Reachable, Next, InsertNew, Lines;
    v := Next(w, PullBegin(1));
    StepReaches(w, PullBegin(1));
    PullBeginStep(w, 1);
    BecameLooks(w, v, 1, one.(pull := Some(PullOp(OLD, 0, [X], false))), [X], zero, one, [X], []);
  }

  lemma InsertBy1(w: World, zero: Replica, one: Replica) returns (v: World)
    requires Reachable(w) && Looks(w, zero, one, [X], [])
    requires one == Idle([X], OLD, Some(X.id), None).(pull := Some(PullOp(OLD, 0, [X], false)))
    ensures Reachable(v) && Looks(v, zero, one.(pull := Some(PullOp(OLD, 0, [X], true))), [X], [])
  {
    hide Reachable, Next, Lines, InsertNew;
    v := Next(w, PullInsert(1));
    StepReaches(w, PullInsert(1));
    PullInsertStep(w, 1);
    SliceOfOne();
    BecameLooks(w, v, 1, one.(pull := Some(PullOp(OLD, 0, [X], true))), [X], zero, one, [X], []);
  }

  lemma MarkBy1(w: World, zero: Replica, one: Replica) returns (v: World)
    requires Reachable(w) && Looks(w, zero, one, [X], [])
    requires one == Idle([X], NEW, None, None).(pull := Some(PullOp(OLD, 0, [X], true)))
    ensures Reachable(v) && Looks(v, zero, Idle([X], NEW, None, Some(X.id)), [X], [])
  {
    hide Reachable, Next, Lines;
    v := Next(w, PullMark(1));
    StepReaches(w, PullMark(1));
    PullMarkStep(w, 1);
    BecameLooks(w, v, 1, Idle([X], NEW, None, Some(X.id)), [], zero, one, [X], []);
  }

  /** One round of pushes and one of pulls from there. */
  lemma SettlingSkipsZ(w: World)
    requires Looks(w, Idle([Z], NEW, None, None), Idle([X], NEW, None, Some(X.id)), [X], [])
    ensures |Settle(w).replicas| == 2 && Settle(w).replicas[0].log == [Z, X] && Settle(w).replicas[1].log == [X]
  {
    hide Run, Next, Looks, Lines, Pending, ReadSince, InsertNew, PushSteps, PullSteps, LastId;
    var zero, one := Idle([Z], NEW, None, None), Idle([X], NEW, None, Some(X.id));
    TwoReplicas(w, zero, one, [X], []);
    OneEventToSend(X);
    OneEventToSend(Z);
    var p1 := PushRound(w, 1);
    assert PushRound(w, 0) == w;
    WholePush(w, 0);
    var zero' := zero.(pushed := LastId([Z], None));
    BecameLooks(w, p1, 0, zero', [] + [Z], zero, one, [X], []);
    assert [] + [Z] == [Z];
    TwoReplicas(p1, zero', one, [X], [Z]);
    var p2 := PushRound(w, 2);
    WholePush(p1, 1);
    var one' := one.(pushed := LastId([X], None));
    var lines := [Z, X];
    assert [Z] + [X] == lines;
    BecameLooks(p1, p2, 1, one', lines, zero', one, [X], [Z]);
    TwoReplicas(p2, zero', one', [X], lines);
    ReadsOfLines();
    var q1 := PullRound(p2, 1);
    assert PullRound(p2, 0) == p2;
    WholePull(p2, 0);
    var zero'' := zero'.(log := InsertNew([Z], lines), pulled := LastId(lines, None));
    BecameLooks(p2, q1, 0, zero'', lines, zero', one', [X], lines);
    TwoReplicas(q1, zero'', one', [X], lines);
    WholePull(q1, 1);
    var one'' := one'.(log := InsertNew([X], []), pulled := LastId([], Some(X.id)));
    BecameLooks(q1, PullRound(p2, 2), 1, one'', lines, zero'', one', [X], lines);
    TwoReplicas(PullRound(p2, 2), zero'', one'', [X], lines);
  }

  lemma TwoReplicas(w: World, zero: Replica, one: Replica, first: Log, second: Log)
    requires Looks(w, zero, one, first, second)
    ensures |w.replicas| == 2 && w.replicas[0] == zero && w.replicas[1] == one && Lines(w, OLD) == first &&
            Lines(w, NEW) == second
  {
  }

  lemma BothToSend()
    ensures Pending([Z, X], None) == [Z, X] && Pending([X], None) == [X]
  {
    assert [Z, X][..1] == [Z] && [Z][..0] == [] && [X][..0] == [];
    assert Shareable([Z]) == [Z];
    assert [Z] + [X] == [Z, X];
  }

  /** After `X`, `Z` is out of sight. */
  lemma ReadsOfLines()
    ensures ReadSince([Z, X], None) == [Z, X] && ReadSince([Z, X], Some(X.id)) == []
    ensures InsertNew([Z], [Z, X]) == [Z, X] && InsertNew([X], []) == [X]
  {
    hide Position, InsertNew;
    var lines := [Z, X];
    assert Z.id != X.id;
    assert X in lines && lines[1] == X && lines[2..] == [];
    assert HasId(lines, X.id);
    KnownIsIgnored([Z], Z, [X]);
    assert [Z] + [X] == lines;
    InsertNothing([X]);
    SliceOfOne();
  }

  lemma KnownIsIgnored(log: Log, e: Event, rest: Log)
    requires e in log
    ensures InsertNew(log, [e] + rest) == InsertNew(log, rest)
  {
    assert ([e] + rest)[1..] == rest;
  }

  lemma InsertNothing(log: Log)
    ensures InsertNew(log, []) == log
  {
  }

  /** A run in which a pull finishes after a migration; from then on settling no longer makes the replicas agree. */
  lemma LatePullSkipsLines()
    ensures exists w :: Reachable(w) && OneRelay(w, NEW) && |w.replicas| == 2 &&
              !SameHistory(Settle(w).replicas[0].log, Settle(w).replicas[1].log)
  {
    hide Reachable, Settle, Lines;
    var w := StaleCursorIsReachable();
    SettlingSkipsZ(w);
    assert Z in [Z, X] && Z !in [X] && !Bookkeeping(Z);
    assert OneRelay(w, NEW);
  }
}
