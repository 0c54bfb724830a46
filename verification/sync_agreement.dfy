/** Settled replicas have the same history. */
module SyncAgreement {
  import opened Events
  import opened EventLog
  import opened SyncRuns
  import opened Convergence
  import opened Projector

  // --- a whole push and a whole pull, as runs -----------------------------------------------

  function Repeat(step: Step, n: nat): seq<Step> {
    seq(n, _ => step)
  }

  /** A push that abandons whatever was in flight and then goes through to the end. */
  function PushSteps(w: World, i: nat): seq<Step>
    requires i < |w.replicas|
  {
    [Crash(i), PushBegin(i)] + Repeat(PushLine(i), |Pending(w.replicas[i].log, w.replicas[i].pushed)|) + [PushMark(i)]
  }

  function PullSteps(i: nat): seq<Step> {
    [Crash(i), PullBegin(i), PullInsert(i), PullMark(i)]
  }

  lemma {:induction false} RunConcat(w: World, a: seq<Step>, b: seq<Step>)
    ensures Run(w, a + b) == Run(Run(w, a), b)
    decreases a
  {
    if a == [] {
      assert a + b == b;
    } else {
      assert (a + b)[1..] == a[1..] + b;
      RunConcat(Next(w, a[0]), a[1..], b);
    }
  }

  lemma RunTwo(w: World, a: Step, b: Step)
    ensures Run(w, [a, b]) == Next(Next(w, a), b)
  {
    hide Next;
    assert [a, b][1..] == [b] && [b][1..] == [];
    assert Run(Next(w, a), [b]) == Run(Next(Next(w, a), b), []);
  }

  /** `w'` differs from `w` only in replica `i` and in the relay it is bound to. */
  ghost predicate Became(w: World, w': World, i: nat, r: Replica, lines: Log) {
    && i < |w.replicas|
    && w'.replicas == w.replicas[i := r]
    && Lines(w', w.replicas[i].remote) == lines
    && forall relay :: relay != w.replicas[i].remote ==> Lines(w', relay) == Lines(w, relay)
  }

  lemma BecameThen(w: World, w1: World, w2: World, i: nat, r1: Replica, lines1: Log, r2: Replica, lines2: Log)
    requires Became(w, w1, i, r1, lines1) && Became(w1, w2, i, r2, lines2)
    requires r1.remote == w.replicas[i].remote
    ensures Became(w, w2, i, r2, lines2)
  {
    hide Lines;
    assert w.replicas[i := r1][i := r2] == w.replicas[i := r2];
  }

  lemma CrashStep(w: World, i: nat)
    requires i < |w.replicas|
    ensures var r := w.replicas[i]; Became(w, Next(w, Crash(i)), i, r.(push := None, pull := None), Lines(w, r.remote))
  {
    hide MayAppend, InWorld, Pending, ReadSince, InsertNew;
  }

  lemma PushBeginStep(w: World, i: nat)
    requires i < |w.replicas| && w.replicas[i].push.None?
    ensures var r := w.replicas[i];
            Became(w, Next(w, PushBegin(i)), i, r.(push := Some(PushOp(r.remote, Pending(r.log, r.pushed), 0))),
              Lines(w, r.remote))
  {
    hide MayAppend, InWorld, Pending, ReadSince, InsertNew;
  }

  lemma PushLineStep(w: World, i: nat)
    requires i < |w.replicas| && w.replicas[i].push.Some?
    requires w.replicas[i].push.value.sent < |w.replicas[i].push.value.batch|
    requires w.replicas[i].push.value.relay == w.replicas[i].remote
    ensures var r, op := w.replicas[i], w.replicas[i].push.value;
            Became(w, Next(w, PushLine(i)), i, r.(push := Some(op.(sent := op.sent + 1))),
                   Lines(w, r.remote) + [op.batch[op.sent]])
  {
    hide MayAppend, InWorld, Pending, ReadSince, InsertNew;
  }

  lemma PushMarkStep(w: World, i: nat)
    requires i < |w.replicas| && w.replicas[i].push.Some?
    requires w.replicas[i].push.value.sent == |w.replicas[i].push.value.batch|
    ensures var r := w.replicas[i];
            Became(w, Next(w, PushMark(i)), i, r.(push := None, pushed := LastId(r.push.value.batch, r.pushed)),
              Lines(w, r.remote))
  {
    hide MayAppend, InWorld, Pending, ReadSince, InsertNew;
  }

  lemma PullBeginStep(w: World, i: nat)
    requires i < |w.replicas| && w.replicas[i].pull.None?
    ensures var r := w.replicas[i];
            Became(w, Next(w, PullBegin(i)), i, r.(pull := Some(SliceOf(w, r))), Lines(w, r.remote))
  {
    hide MayAppend, InWorld, Pending, ReadSince, InsertNew;
  }

  lemma PullInsertStep(w: World, i: nat)
    requires i < |w.replicas| && w.replicas[i].pull.Some? && !w.replicas[i].pull.value.inserted
    ensures var r := w.replicas[i];
            Became(w, Next(w, PullInsert(i)), i,
                   r.(log := InsertNew(r.log, r.pull.value.batch), pull := Some(r.pull.value.(inserted := true))),
                     Lines(w, r.remote))
  {
    hide MayAppend, InWorld, Pending, ReadSince, InsertNew;
  }

  lemma PullMarkStep(w: World, i: nat)
    requires i < |w.replicas| && w.replicas[i].pull.Some? && w.replicas[i].pull.value.inserted
    ensures var r := w.replicas[i];
            Became(w, Next(w, PullMark(i)), i, r.(pull := None, pulled := LastId(r.pull.value.batch, r.pulled)),
              Lines(w, r.remote))
  {
    hide MayAppend, InWorld, Pending, ReadSince, InsertNew;
  }

  lemma {:induction false} LinesGoOut(w: World, i: nat, n: nat)
    requires i < |w.replicas| && w.replicas[i].push.Some?
    requires w.replicas[i].push.value.sent + n <= |w.replicas[i].push.value.batch|
    requires w.replicas[i].push.value.relay == w.replicas[i].remote
    ensures var r, op := w.replicas[i], w.replicas[i].push.value;
            Became(w, Run(w, Repeat(PushLine(i), n)), i, r.(push := Some(op.(sent := op.sent + n))),
                   Lines(w, r.remote) + op.batch[op.sent..op.sent + n])
    decreases n
  {
    hide Next, Lines;
    var r, op := w.replicas[i], w.replicas[i].push.value;
    var steps := Repeat(PushLine(i), n);
    if n == 0 {
      assert op.batch[op.sent..op.sent] == [];
      assert Lines(w, r.remote) + [] == Lines(w, r.remote);
    } else {
      var w1 := Next(w, PushLine(i));
      var r1 := r.(push := Some(op.(sent := op.sent + 1)));
      PushLineStep(w, i);
      assert steps[0] == PushLine(i) && steps[1..] == Repeat(PushLine(i), n - 1);
      LinesGoOut(w1, i, n - 1);
      assert op.batch[op.sent..op.sent + n] == [op.batch[op.sent]] + op.batch[op.sent + 1..op.sent + n];
      var lines := Lines(w, r.remote);
      assert lines + [op.batch[op.sent]] + op.batch[op.sent + 1..op.sent + n] == lines + op.batch[op.sent..op.sent + n];
      BecameThen(w, w1, Run(w1, steps[1..]), i, r1, lines + [op.batch[op.sent]],
                 r.(push := Some(op.(sent := op.sent + n))), lines + op.batch[op.sent..op.sent + n]);
    }
  }

  lemma WholePush(w: World, i: nat)
    requires i < |w.replicas|
    ensures var r := w.replicas[i]; var pending := Pending(r.log, r.pushed);
            Became(w, Run(w, PushSteps(w, i)), i, r.(push := None, pull := None, pushed := LastId(pending, r.pushed)),
                   Lines(w, r.remote) + pending)
  {
    hide Next, Pending, Run, Repeat, Lines;
    var r := w.replicas[i];
    var pending, lines := Pending(r.log, r.pushed), Lines(w, r.remote);
    var head, body, tail := [Crash(i), PushBegin(i)], Repeat(PushLine(i), |pending|), [PushMark(i)];
    RunConcat(w, head + body, tail);
    RunConcat(w, head, body);
    RunTwo(w, Crash(i), PushBegin(i));
    var w1 := Next(w, Crash(i));
    var w2 := Next(w1, PushBegin(i));
    var r1 := r.(push := None, pull := None);
    var r2 := r1.(push := Some(PushOp(r.remote, pending, 0)));
    CrashStep(w, i);
    PushBeginStep(w1, i);
    BecameThen(w, w1, w2, i, r1, lines, r2, lines);
    LinesGoOut(w2, i, |pending|);
    assert pending[0..0 + |pending|] == pending;
    var w3 := Run(w2, body);
    var r3 := r1.(push := Some(PushOp(r.remote, pending, |pending|)));
    BecameThen(w, w2, w3, i, r2, lines, r3, lines + pending);
    RunOne(w3, PushMark(i));
    PushMarkStep(w3, i);
    BecameThen(w, w3, Next(w3, PushMark(i)), i, r3, lines + pending, r1.(pushed := LastId(pending, r.pushed)),
      lines + pending);
  }

  lemma RunOne(w: World, a: Step)
    ensures Run(w, [a]) == Next(w, a)
  {
    hide Next;
    assert [a][1..] == [];
  }

  lemma WholePull(w: World, i: nat)
    requires i < |w.replicas|
    ensures var r := w.replicas[i]; var lines := Lines(w, r.remote); var batch := ReadSince(lines, r.pulled);
            Became(w, Run(w, PullSteps(i)), i,
                   r.(push := None, pull := None, log := InsertNew(r.log, batch), pulled := LastId(batch, r.pulled)),
                     lines)
  {
    hide Next, ReadSince, InsertNew, Run, Lines, LastId;
    var r := w.replicas[i];
    var lines := Lines(w, r.remote);
    var batch := ReadSince(lines, r.pulled);
    assert PullSteps(i) == [Crash(i), PullBegin(i)] + [PullInsert(i), PullMark(i)];
    RunConcat(w, [Crash(i), PullBegin(i)], [PullInsert(i), PullMark(i)]);
    RunTwo(w, Crash(i), PullBegin(i));
    var w1 := Next(w, Crash(i));
    var w2 := Next(w1, PullBegin(i));
    RunTwo(w2, PullInsert(i), PullMark(i));
    var w3 := Next(w2, PullInsert(i));
    var r1 := r.(push := None, pull := None);
    var op := PullOp(r.remote, StartAfter(lines, r.pulled), batch, false);
    CrashStep(w, i);
    PullBeginStep(w1, i);
    BecameThen(w, w1, w2, i, r1, lines, r1.(pull := Some(op)), lines);
    PullInsertStep(w2, i);
    var r3 := r1.(log := InsertNew(r.log, batch), pull := Some(op.(inserted := true)));
    BecameThen(w, w2, w3, i, r1.(pull := Some(op)), lines, r3, lines);
    PullMarkStep(w3, i);
    BecameThen(w, w3, Next(w3, PullMark(i)), i, r3, lines, r3.(pull := None, pulled := LastId(batch, r.pulled)), lines);
  }

  // --- such runs mark in time ----------------------------------------------------------------

  lemma {:induction false} CarefulConcat(w: World, a: seq<Step>, b: seq<Step>)
    requires Careful(w, a) && Careful(Run(w, a), b)
    ensures Careful(w, a + b)
    decreases a
  {
    hide Next, Careless;
    if a == [] {
      assert a + b == b;
    } else {
      assert (a + b)[1..] == a[1..] + b;
      CarefulConcat(Next(w, a[0]), a[1..], b);
    }
  }

  lemma {:induction false} MarklessIsCareful(w: World, steps: seq<Step>)
    requires forall s :: s in steps ==> !s.PushMark? && !s.PullMark? && !s.Bind?
    ensures Careful(w, steps)
    decreases steps
  {
    hide Next;
    if steps != [] { MarklessIsCareful(Next(w, steps[0]), steps[1..]); }
  }

  lemma CarefulMark(w: World, step: Step)
    requires !Careless(w, step)
    ensures Careful(w, [step])
  {
    hide Next, Careless;
    assert [step][1..] == [];
    assert Careful(Next(w, step), []);
  }

  lemma WholePushIsCareful(w: World, i: nat)
    requires i < |w.replicas|
    ensures Careful(w, PushSteps(w, i))
  {
    hide Next, Pending, Run, Lines, Careful;
    var r := w.replicas[i];
    var pending := Pending(r.log, r.pushed);
    var head, body := [Crash(i), PushBegin(i)], Repeat(PushLine(i), |pending|);
    RunTwo(w, Crash(i), PushBegin(i));
    var w1 := Next(w, Crash(i));
    CrashStep(w, i);
    PushBeginStep(w1, i);
    var w2 := Next(w1, PushBegin(i));
    LinesGoOut(w2, i, |pending|);
    RunConcat(w, head, body);
    MarklessIsCareful(w, head + body);
    CarefulMark(Run(w, head + body), PushMark(i));
    CarefulConcat(w, head + body, [PushMark(i)]);
  }

  lemma WholePullIsCareful(w: World, i: nat)
    requires i < |w.replicas|
    ensures Careful(w, PullSteps(i))
  {
    hide Next, ReadSince, InsertNew, Run, Lines, Careful;
    var head := [Crash(i), PullBegin(i)] + [PullInsert(i)];
    RunConcat(w, [Crash(i), PullBegin(i)], [PullInsert(i)]);
    RunTwo(w, Crash(i), PullBegin(i));
    var w1 := Next(w, Crash(i));
    var w2 := Next(w1, PullBegin(i));
    CrashStep(w, i);
    PullBeginStep(w1, i);
    PullInsertStep(w2, i);
    RunOne(w2, PullInsert(i));
    MarklessIsCareful(w, head);
    CarefulMark(Run(w, head), PullMark(i));
    CarefulConcat(w, head, [PullMark(i)]);
    assert PullSteps(i) == head + [PullMark(i)];
  }

  // --- the effect on what is shared and what is held ---------------------------------------------

  ghost predicate AllShared(r: Replica, relay: Log) {
    SharedUpTo(r.log, |r.log|, relay)
  }

  ghost predicate AllHeld(r: Replica, relay: Log) {
    HeldUpTo(relay, |relay|, r.log)
  }

  lemma SharedBelow(r: Replica, relay: Log)
    requires ReplicaSafe(r, relay)
    ensures SharedUpTo(r.log, StartAfter(r.log, r.pushed), relay)
  {
    hide CausallyClosed, UniqueIds, PulledIsHeld;
  }

  lemma HeldBelow(r: Replica, relay: Log)
    requires ReplicaSafe(r, relay)
    ensures HeldUpTo(relay, StartAfter(relay, r.pulled), r.log)
  {
    hide CausallyClosed, UniqueIds, PushedIsShared;
  }

  lemma PushSharesAll(r: Replica, relay: Log)
    requires ReplicaSafe(r, relay)
    ensures AllShared(r, relay + Pending(r.log, r.pushed))
  {
    hide ReplicaSafe, Shareable;
    SharedBelow(r, relay);
    var start := StartAfter(r.log, r.pushed);
    var tail := r.log[start..];
    forall j | 0 <= j < |r.log| && !Bookkeeping(r.log[j]) ensures r.log[j] in relay + Shareable(tail) {
      if j >= start {
        assert tail[j - start] == r.log[j];
        ShareableHolds(tail, j - start);
      }
    }
  }

  lemma PullHoldsAll(r: Replica, relay: Log)
    requires ReplicaSafe(r, relay) && Agree(r.log, relay) && Agree(relay, relay)
    ensures var log := InsertNew(r.log, ReadSince(relay, r.pulled));
            && (forall e :: e in relay ==> e in log)
            && (forall e :: e in log ==> e in r.log || e in relay)
            && (forall e :: e in r.log ==> e in log)
  {
    hide ReplicaSafe, InsertNew;
    HeldBelow(r, relay);
    var start := StartAfter(relay, r.pulled);
    var batch := relay[start..];
    assert forall e :: e in batch ==> e in relay;
    InsertMembers(r.log, batch);
    forall j | 0 <= j < |relay| ensures relay[j] in r.log || relay[j] in batch {
      if j >= start { assert batch[j - start] == relay[j]; }
    }
  }

  // --- everybody pushes, then everybody pulls ------------------------------------------------

  lemma RoundKeepsCount(w: World, i: nat)
    requires i < |w.replicas|
    ensures |Run(w, PushSteps(w, i)).replicas| == |w.replicas| && |Run(w, PullSteps(i)).replicas| == |w.replicas|
  {
    hide Run, Next, Lines, PushSteps, PullSteps;
    WholePush(w, i);
    WholePull(w, i);
  }

  /** One whole push of replica `i`. */
  ghost function AfterPushOf(w: World, i: nat): (v: World)
    requires i < |w.replicas|
    ensures |v.replicas| == |w.replicas|
  {
    RoundKeepsCount(w, i);
    Run(w, PushSteps(w, i))
  }

  /** One whole pull of replica `i`. */
  ghost function AfterPullOf(w: World, i: nat): (v: World)
    requires i < |w.replicas|
    ensures |v.replicas| == |w.replicas|
  {
    RoundKeepsCount(w, i);
    Run(w, PullSteps(i))
  }

  ghost function PushRound(w: World, k: nat): World
    requires k <= |w.replicas|
    ensures |PushRound(w, k).replicas| == |w.replicas|
  {
    if k == 0 then w else AfterPushOf(PushRound(w, k - 1), k - 1)
  }

  ghost function PullRound(w: World, k: nat): World
    requires k <= |w.replicas|
    ensures |PullRound(w, k).replicas| == |w.replicas|
  {
    if k == 0 then w else AfterPullOf(PullRound(w, k - 1), k - 1)
  }

  ghost predicate OneRelay(w: World, relay: Id) {
    forall i :: 0 <= i < |w.replicas| ==> w.replicas[i].remote == relay
  }

  lemma {:induction false} PushRoundShares(w: World, k: nat, relay: Id)
    requires Inv(w) && OneRelay(w, relay) && k <= |w.replicas|
    ensures var v := PushRound(w, k);
            && Inv(v) && OneRelay(v, relay)
            && (forall i :: 0 <= i < |w.replicas| ==> v.replicas[i].log == w.replicas[i].log)
            && (forall i :: 0 <= i < k ==> AllShared(v.replicas[i], Lines(v, relay)))
  {
    hide Inv, AllShared, Run, Pending, PushSteps, Lines, LastId;
    if k > 0 {
      var before := PushRound(w, k - 1);
      PushRoundShares(w, k - 1, relay);
      WholePush(before, k - 1);
      WholePushIsCareful(before, k - 1);
      RunKeepsInv(before, PushSteps(before, k - 1));
      var lines := Lines(before, relay);
      var pending := Pending(before.replicas[k - 1].log, before.replicas[k - 1].pushed);
      PushSharesOne(before, k - 1, relay);
      var v := PushRound(w, k);
      assert Lines(v, relay) == lines + pending;
      assert forall i :: 0 <= i < k ==> v.replicas[i].log == before.replicas[i].log;
      forall i | 0 <= i < k - 1 ensures AllShared(before.replicas[i], lines + pending) {
        SharingStays(before.replicas[i], lines, pending);
      }
      forall i | 0 <= i < k ensures AllShared(v.replicas[i], Lines(v, relay)) {
        SharingReadsTheLog(before.replicas[i], v.replicas[i], lines + pending);
      }
    }
  }

  lemma SharingReadsTheLog(r: Replica, s: Replica, relay: Log)
    requires r.log == s.log
    ensures AllShared(r, relay) == AllShared(s, relay) && AllHeld(r, relay) == AllHeld(s, relay)
  {
  }

  lemma PushSharesOne(w: World, i: nat, relay: Id)
    requires Inv(w) && OneRelay(w, relay) && i < |w.replicas|
    ensures AllShared(w.replicas[i], Lines(w, relay) + Pending(w.replicas[i].log, w.replicas[i].pushed))
  {
    PushSharesAll(w.replicas[i], Lines(w, relay));
  }

  lemma SharingStays(r: Replica, relay: Log, more: Log)
    requires AllShared(r, relay)
    ensures AllShared(r, relay + more)
  {
  }

  lemma {:induction false} PullRoundHolds(w: World, k: nat, relay: Id)
    requires Inv(w) && OneRelay(w, relay) && k <= |w.replicas|
    requires forall i :: 0 <= i < |w.replicas| ==> AllShared(w.replicas[i], Lines(w, relay))
    ensures var v := PullRound(w, k);
            && Inv(v) && OneRelay(v, relay) && Lines(v, relay) == Lines(w, relay)
            && (forall i :: 0 <= i < |w.replicas| ==> AllShared(v.replicas[i], Lines(w, relay)))
            && (forall i :: 0 <= i < |w.replicas| ==> forall e :: e in w.replicas[i].log ==> e in v.replicas[i].log)
            && (forall i :: 0 <= i < k ==> AllHeld(v.replicas[i], Lines(w, relay)))
  {
    hide Inv, Run, ReadSince, InsertNew, AllShared, AllHeld, Lines, LastId;
    if k > 0 {
      var before, v := PullRound(w, k - 1), PullRound(w, k);
      PullRoundHolds(w, k - 1, relay);
      WholePull(before, k - 1);
      WholePullIsCareful(before, k - 1);
      RunKeepsInv(before, PullSteps(k - 1));
      PullHoldsOne(before, k - 1, relay);
      var lines, r := Lines(w, relay), before.replicas[k - 1];
      var pulled := r.(log := InsertNew(r.log, ReadSince(lines, r.pulled)));
      SharingReadsTheLog(pulled, v.replicas[k - 1], lines);
      OnlyOneChanged(before, v, k - 1);
      assert Lines(v, relay) == lines;
      forall i | 0 <= i < |w.replicas|
        ensures AllShared(v.replicas[i], lines) && (i < k ==> AllHeld(v.replicas[i], lines))
        ensures v.replicas[i].remote == relay && forall e :: e in w.replicas[i].log ==> e in v.replicas[i].log
      {
        if i != k - 1 { assert v.replicas[i] == before.replicas[i]; }
      }
    }
  }

  lemma OnlyOneChanged(w: World, v: World, i: nat)
    requires i < |w.replicas| && |v.replicas| == |w.replicas| && v.replicas == w.replicas[i := v.replicas[i]]
    ensures forall k :: 0 <= k < |w.replicas| && k != i ==> v.replicas[k] == w.replicas[k]
  {
  }

  lemma PullHoldsOne(w: World, i: nat, relay: Id)
    requires Inv(w) && OneRelay(w, relay) && i < |w.replicas|
    requires AllShared(w.replicas[i], Lines(w, relay))
    ensures var r := w.replicas[i];
            var after := r.(log := InsertNew(r.log, ReadSince(Lines(w, relay), r.pulled)));
            AllShared(after, Lines(w, relay)) && AllHeld(after, Lines(w, relay))
            && forall e :: e in r.log ==> e in after.log
  {
    hide InsertNew, ReadSince;
    var r, lines := w.replicas[i], Lines(w, relay);
    assert RelayInv(lines);
    StoresAgree(w, i, relay);
    PullHoldsAll(r, lines);
    var log := InsertNew(r.log, ReadSince(lines, r.pulled));
    forall j | 0 <= j < |log| && !Bookkeeping(log[j]) ensures log[j] in lines {
      if log[j] in r.log {
        var x :| 0 <= x < |r.log| && r.log[x] == log[j];
      }
    }
  }

  /** All replicas push once, then all pull once, with no local event in between. */
  ghost function Settle(w: World): (v: World)
    ensures |v.replicas| == |w.replicas|
  {
    PullRound(PushRound(w, |w.replicas|), |w.replicas|)
  }

  /**
   * From any reachable world on one relay, in-flight work and all, one round of pushes
   * and one of pulls give every replica the same events, sync bookkeeping aside,
   * and take none away.
   */
  lemma QuiescentAgreement(start: World, steps: seq<Step>, relay: Id, i: nat, j: nat)
    requires Fresh(start) && Careful(start, steps) && OneRelay(Run(start, steps), relay)
    requires i < |Run(start, steps).replicas| && j < |Run(start, steps).replicas|
    ensures var w := Run(start, steps); var v := Settle(w);
            && Inv(v)
            && SameHistory(v.replicas[i].log, v.replicas[j].log)
            && (forall e :: e in w.replicas[i].log ==> e in v.replicas[i].log)
  {
    hide Inv, Run, AllShared, AllHeld;
    var w := Run(start, steps);
    FreshStart(start);
    RunKeepsInv(start, steps);
    var u := PushRound(w, |w.replicas|);
    PushRoundShares(w, |w.replicas|, relay);
    PullRoundHolds(u, |w.replicas|, relay);
    var v := Settle(w);
    HistoryIsTheRelay(v, i, Lines(u, relay));
    HistoryIsTheRelay(v, j, Lines(u, relay));
  }

  lemma HistoryIsTheRelay(v: World, i: nat, lines: Log)
    requires Inv(v) && i < |v.replicas| && (exists relay :: Lines(v, relay) == lines)
    requires AllShared(v.replicas[i], lines) && AllHeld(v.replicas[i], lines)
    ensures forall e :: !Bookkeeping(e) ==> (e in v.replicas[i].log <==> e in lines)
  {
    var log := v.replicas[i].log;
    forall e | !Bookkeeping(e) && e in log ensures e in lines {
      var x :| 0 <= x < |log| && log[x] == e;
    }
    forall e | e in lines ensures e in log {
      var x :| 0 <= x < |lines| && lines[x] == e;
    }
  }

  // --- and so the same memories ----------------------------------------------------------------

  /** What sync keeps of a log is what convergence asks of it. */
  lemma SyncedLogsAreCausal(w: World, i: nat)
    requires Inv(w) && i < |w.replicas|
    ensures Causal(w.replicas[i].log)
  {
    var r := w.replicas[i];
    var log := r.log;
    assert ReplicaInv(r, w.relays);
    forall x, y | 0 <= x < |log| && 0 <= y < |log| && log[x].payload.MemoryConsolidated?
      ensures Consolidates(log[y], log[x].payload.memory.id) ==> x == y
    {
      assert log[x] in log && log[y] in log;
      assert InWorld(w, log[x]) && InWorld(w, log[y]);
    }
    forall x, y | 0 <= x < y < |log| && log[y].payload.MemoryConsolidated?
      ensures !Targets(log[x], log[y].payload.memory.id)
    {
      assert !BornBefore(log, x, log[y].payload.memory.id);
    }
  }

  /** Replicas of one store agree on every valid memory and every dedup winner once settled. */
  lemma SettledReplicasAgree(start: World, steps: seq<Step>, relay: Id, i: nat, j: nat, self: Id)
    requires Fresh(start) && Careful(start, steps) && OneRelay(Run(start, steps), relay)
    requires i < |Run(start, steps).replicas| && j < |Run(start, steps).replicas|
    requires var v := Settle(Run(start, steps));
             Reduce(v.replicas[i].log, Some(self)).Reduced? && Reduce(v.replicas[j].log, Some(self)).Reduced?
    ensures var v := Settle(Run(start, steps));
            var a, b := Reduce(v.replicas[i].log, Some(self)), Reduce(v.replicas[j].log, Some(self));
            ValidMemories(a) == ValidMemories(b) && SameWinners(a, b)
  {
    hide Inv, Run, Settle, Reduce, Causal, SameWinners, ValidMemories, SameHistory;
    QuiescentAgreement(start, steps, relay, i, j);
    var v := Settle(Run(start, steps));
    SyncedLogsAreCausal(v, i);
    SyncedLogsAreCausal(v, j);
    LogsConverge(v.replicas[i].log, v.replicas[j].log, Some(self));
  }

  /** Members of one workspace agree too, though each calls its own lane `self`. */
  lemma SettledMembersAgree(start: World, steps: seq<Step>, relay: Id, i: nat, j: nat, selfI: Id, selfJ: Id)
    requires Fresh(start) && Careful(start, steps) && OneRelay(Run(start, steps), relay)
    requires i < |Run(start, steps).replicas| && j < |Run(start, steps).replicas|
    requires var v := Settle(Run(start, steps));
             && CleanIds(v.replicas[i].log) && |GenesisIds(v.replicas[i].log)| > 1
             && Reduce(v.replicas[i].log, Some(selfI)).Reduced?
             && Reduce(v.replicas[j].log, Some(selfJ)).Reduced?
    ensures var v := Settle(Run(start, steps));
            var a, b := Reduce(v.replicas[i].log, Some(selfI)), Reduce(v.replicas[j].log, Some(selfJ));
            ValidMemories(a) == ValidMemories(b) && SameWinners(a, b)
  {
    hide Inv, Run, Settle, Reduce, Causal, SameWinners, ValidMemories, SameHistory, CleanIds, GenesisIds;
    QuiescentAgreement(start, steps, relay, i, j);
    var v := Settle(Run(start, steps));
    SyncedLogsAreCausal(v, i);
    SyncedLogsAreCausal(v, j);
    UnionConvergence(v.replicas[i].log, selfI, v.replicas[j].log, selfJ);
  }

  // --- where the protocol stops helping -----------------------------------------------------------

  /**
   * After a pull the cursor names the last relay line, but reads resume after the FIRST
   * line with that id. The next probe is empty exactly when that line has no earlier copy.
   */
  lemma ProbeIsEmptyExactly(lines: Log)
    requires lines != []
    ensures ReadSince(lines, Some(lines[|lines| - 1].id)) == [] <==>
            forall j :: 0 <= j < |lines| - 1 ==> lines[j].id != lines[|lines| - 1].id
  {
    var last := lines[|lines| - 1];
    assert last in lines;
    var p := Position(lines, last.id);
    if p < |lines| - 1 { assert lines[p].id == last.id; }
  }
}
