/** What runs put on the relays, and which lines go out twice. */
module Traffic {
  import opened Events
  import opened EventLog
  import opened Sorting
  import opened SyncRuns
  import opened SyncAgreement

  /** One line on its way. */
  datatype Sending = Sending(from: nat, relay: Id, event: Event)

  /** Who put which event on which relay, in order, along a run. */
  ghost function Sends(w: World, steps: seq<Step>): seq<Sending>
    decreases steps
  {
    if steps == [] then [] else Sent(w, steps[0]) + Sends(Next(w, steps[0]), steps[1..])
  }

  function Sent(w: World, step: Step): seq<Sending> {
    if step.PushLine? && step.i < |w.replicas| && w.replicas[step.i].push.Some? &&
       w.replicas[step.i].push.value.sent < |w.replicas[step.i].push.value.batch|
    then
      var op := w.replicas[step.i].push.value;
      [Sending(step.i, op.relay, op.batch[op.sent])]
    else []
  }

  /** A batch on its way to one relay. */
  function ToRelay(i: nat, relay: Id, batch: Log): seq<Sending> {
    seq(|batch|, k requires 0 <= k < |batch| => Sending(i, relay, batch[k]))
  }

  function OutOf(i: nat, r: Replica): seq<Sending> {
    if r.push.Some? && r.push.value.sent <= |r.push.value.batch|
    then ToRelay(i, r.push.value.relay, r.push.value.batch[..r.push.value.sent]) else []
  }

  predicate MarksSomething(r: Replica) {
    r.push.Some? && r.push.value.sent == |r.push.value.batch| && r.push.value.batch != []
  }

  function By(history: seq<Sending>, i: nat): set<Sending> {
    set h | h in history && h.from == i
  }

  /** Sending makes a line loose, a mark of its sender ties all it sent, a migration drops the mark and looses all. */
  function LooseAfter(w: World, step: Step, history: seq<Sending>, loose: set<Sending>): set<Sending> {
    if step.i >= |w.replicas| then loose
    else
      match step
      case PushLine(_) => loose + set h | h in Sent(w, step)
      case PushMark(i) => if MarksSomething(w.replicas[i]) then set h | h in loose && h.from != i else loose
      case Rebind(i, _) => loose + By(history, i)
      case _ => loose
  }

  ghost function LooseFrom(w: World, steps: seq<Step>, history: seq<Sending>, loose: set<Sending>): set<Sending>
    decreases |steps|
  {
    if steps == [] then loose
    else
      LooseFrom(Next(w, steps[0]), steps[1..], history + Sent(w, steps[0]), LooseAfter(w, steps[0], history, loose))
  }

  /** The lines of a run that no watermark of their sender stands for at its end. */
  ghost function Loose(w: World, steps: seq<Step>): set<Sending> {
    LooseFrom(w, steps, [], {})
  }

  // --- what a replica has behind it -----------------------------------------------------------

  /** `e` lies at or below the push watermark. */
  ghost predicate Marked(r: Replica, e: Event) {
    r.pushed.Some? && e in r.log[..StartAfter(r.log, r.pushed)]
  }

  /** `e` will lie at or below it once the push in flight is marked. */
  ghost predicate MarkedSoon(r: Replica, e: Event) {
    r.push.Some? && r.push.value.batch != [] ==>
      e in r.log[..StartAfter(r.log, LastId(r.push.value.batch, None))]
  }

  ghost predicate Tidy(r: Replica) {
    && UniqueIds(r.log)
    && (r.pushed.Some? ==> HasId(r.log, r.pushed.value))
    && (r.push.Some? ==>
          && r.push.value.sent <= |r.push.value.batch|
          && NoRepeats(r.push.value.batch)
          && forall e :: e in r.push.value.batch ==> Going(r, e))
  }

  ghost predicate Going(r: Replica, e: Event) {
    e in r.log && !Bookkeeping(e) && MarkedSoon(r, e) && !Marked(r, e)
  }

  ghost predicate Gone(r: Replica, h: Sending, loose: set<Sending>) {
    h.event in r.log && !Bookkeeping(h.event) && MarkedSoon(r, h.event) && (h in loose <==> !Marked(r, h.event))
  }

  ghost predicate Record(r: Replica, i: nat, history: seq<Sending>, loose: set<Sending>) {
    Tidy(r) && forall h :: h in history && h.from == i ==> Gone(r, h, loose)
  }

  ghost predicate Recorded(w: World, history: seq<Sending>, loose: set<Sending>) {
    && (forall i :: 0 <= i < |w.replicas| ==> Record(w.replicas[i], i, history, loose))
    && (forall h :: h in history ==> h.from < |w.replicas|)
    && (forall h :: h in loose ==> h in history)
  }

  // --- facts about batches ----------------------------------------------------------------------

  lemma {:induction false} ShareableNoRepeats(log: Log)
    requires UniqueIds(log)
    ensures NoRepeats(Shareable(log))
  {
    if log != [] {
      var n := |log| - 1;
      ShareableNoRepeats(log[..n]);
      if log[n] in Shareable(log[..n]) { ShareableFrom(log[..n], log[n]); }
    }
  }

  lemma StartAfterEvent(log: Log, p: nat)
    requires p < |log| && UniqueIds(log)
    ensures StartAfter(log, Some(log[p].id)) == p + 1
  {
    PositionOf(log, p);
    assert log[p] in log;
  }

  /** Earlier entries of what is shareable sit earlier in the log. */
  lemma PlaceBounded(tail: Log, x: nat, last: nat, q: nat) returns (y: nat)
    requires x <= last < |Shareable(tail)| && IsShareable(tail, Shareable(tail), last, q)
    requires UniqueIds(tail)
    ensures y <= q < |tail| && tail[y] == Shareable(tail)[x]
  {
    hide Shareable;
    var batch := Shareable(tail);
    y := ShareablePlaces(tail, x);
    ShareableNoRepeats(tail);
    assert batch[last] !in batch[..x];
  }

  /** All pending events, and all before them, lie at or below the last pending one. */
  lemma LastIsBehindAll(log: Log, start: nat, batch: Log)
    requires UniqueIds(log) && start <= |log| && batch == Shareable(log[start..]) && batch != []
    ensures forall e :: e in log[..start] || e in batch ==> e in log[..StartAfter(log, LastId(batch, None))]
  {
    hide Shareable;
    var tail, last := log[start..], |batch| - 1;
    var q := ShareablePlaces(tail, last);
    var p := start + q;
    assert log[p] == tail[q];
    StartAfterEvent(log, p);
    assert log[..p + 1] == log[..start] + log[start..p + 1];
    forall x | 0 <= x < |batch| ensures batch[x] in log[..p + 1] {
      var y := PlaceBounded(tail, x, last, q);
      assert log[..p + 1][start + y] == batch[x];
    }
  }

  lemma PartsAreApart(log: Log, start: nat, e: Event)
    requires UniqueIds(log) && start <= |log|
    ensures e in log[start..] <==> e in log && e !in log[..start]
  {
    assert log == log[..start] + log[start..];
    if e in log[start..] {
      var y :| 0 <= y < |log[start..]| && log[start..][y] == e;
      assert log[start + y] == e;
    }
  }

  /** Pending is what is in the log, shareable and not marked. */
  lemma PendingIsUnmarked(r: Replica, e: Event)
    requires Tidy(r)
    ensures e in Pending(r.log, r.pushed) <==> e in r.log && !Bookkeeping(e) && !Marked(r, e)
  {
    hide Shareable, UniqueIds, NoRepeats, Going, HasId;
    var start := StartAfter(r.log, r.pushed);
    var tail := r.log[start..];
    PartsAreApart(r.log, start, e);
    if e in Shareable(tail) {
      ShareableFrom(tail, e);
      ShareableClean(tail, e);
    }
    if e in tail && !Bookkeeping(e) {
      var j :| 0 <= j < |tail| && tail[j] == e;
      ShareableHolds(tail, j);
    }
  }

  lemma {:induction false} ShareableClean(log: Log, e: Event)
    requires e in Shareable(log)
    ensures !Bookkeeping(e)
  {
    if e in Shareable(log[..|log| - 1]) { ShareableClean(log[..|log| - 1], e); }
  }

  // --- one step of one replica ----------------------------------------------------------------------

  lemma SamePrefix(log: Log, more: Log, id: Option<Id>)
    requires id.Some? ==> HasId(log, id.value)
    ensures StartAfter(log + more, id) == StartAfter(log, id)
    ensures (log + more)[..StartAfter(log, id)] == log[..StartAfter(log, id)]
  {
    if id.Some? { PositionKeptByAppend(log, more, id.value); }
  }

  lemma LongerLogKeepsRecord(r: Replica, i: nat, history: seq<Sending>, loose: set<Sending>, more: Log)
    requires Record(r, i, history, loose) && UniqueIds(r.log + more)
    ensures Record(r.(log := r.log + more), i, history, loose)
  {
    hide UniqueIds, HasId, NoRepeats, ReadSince;
    var s := r.(log := r.log + more);
    if r.pushed.Some? { PositionKeptByAppend(r.log, more, r.pushed.value); }
    SamePrefix(r.log, more, r.pushed);
    if r.push.Some? && r.push.value.batch != [] {
      var last := r.push.value.batch[|r.push.value.batch| - 1];
      assert last in r.push.value.batch && Going(r, last);
      assert HasId(r.log, last.id) by { HeldIdIsThere(r.log, last); }
      SamePrefix(r.log, more, Some(last.id));
    }
    assert forall e :: Marked(s, e) <==> Marked(r, e);
    assert forall e :: MarkedSoon(s, e) <==> MarkedSoon(r, e);
  }

  lemma HeldIdIsThere(log: Log, e: Event)
    requires e in log
    ensures HasId(log, e.id)
  {
  }

  lemma BeginKeepsRecord(r: Replica, i: nat, history: seq<Sending>, loose: set<Sending>)
    requires Record(r, i, history, loose) && r.push.None?
    ensures Record(r.(push := Some(PushOp(r.remote, Pending(r.log, r.pushed), 0))), i, history, loose)
  {
    hide HasId, NoRepeats, Shareable, UniqueIds, Pending;
    var start := StartAfter(r.log, r.pushed);
    var batch := Pending(r.log, r.pushed);
    var s := r.(push := Some(PushOp(r.remote, batch, 0)));
    BatchIsShareable(r.log, r.pushed);
    if batch != [] { LastIsBehindAll(r.log, start, batch); }
    assert forall e :: Marked(s, e) <==> Marked(r, e);
    forall e | e in batch ensures Going(s, e) {
      PendingIsUnmarked(r, e);
    }
    forall h | h in history && h.from == i ensures Gone(s, h, loose) {
      PendingIsUnmarked(r, h.event);
      assert Gone(r, h, loose);
    }
  }

  lemma BatchIsShareable(log: Log, pushed: Option<Id>)
    requires UniqueIds(log)
    ensures Pending(log, pushed) == Shareable(log[StartAfter(log, pushed)..]) && NoRepeats(Pending(log, pushed))
  {
    hide Shareable, NoRepeats;
    ShareableNoRepeats(log[StartAfter(log, pushed)..]);
  }

  lemma SendKeepsRecord(r: Replica, i: nat, history: seq<Sending>, loose: set<Sending>)
    requires Record(r, i, history, loose) && r.push.Some? && r.push.value.sent < |r.push.value.batch|
    ensures var op := r.push.value; var h := Sending(i, op.relay, op.batch[op.sent]);
            Record(r.(push := Some(op.(sent := op.sent + 1))), i, history + [h], loose + {h})
  {
    hide UniqueIds, HasId, ReadSince, NoRepeats;
    var op := r.push.value;
    var h := Sending(i, op.relay, op.batch[op.sent]);
    var s := r.(push := Some(op.(sent := op.sent + 1)));
    assert op.batch[op.sent] in op.batch && Going(r, h.event);
    assert forall e :: Marked(s, e) <==> Marked(r, e);
    assert forall e :: MarkedSoon(s, e) <==> MarkedSoon(r, e);
    assert forall x :: x in history + [h] <==> x in history || x == h;
  }

  lemma MarkKeepsRecord(r: Replica, i: nat, history: seq<Sending>, loose: set<Sending>)
    requires Record(r, i, history, loose) && r.push.Some? && r.push.value.sent == |r.push.value.batch|
    ensures Record(r.(push := None, pushed := LastId(r.push.value.batch, r.pushed)), i, history,
                   if MarksSomething(r) then set h | h in loose && h.from != i else loose)
  {
    hide UniqueIds, ReadSince, NoRepeats, HasId;
    var batch := r.push.value.batch;
    var s := r.(push := None, pushed := LastId(batch, r.pushed));
    if batch != [] {
      var last := batch[|batch| - 1];
      assert last in batch && Going(r, last);
      HeldIdIsThere(r.log, last);
      assert forall e :: Marked(s, e) <==> MarkedSoon(r, e);
    } else {
      assert forall e :: Marked(s, e) <==> Marked(r, e);
    }
  }

  lemma RebindKeepsRecord(r: Replica, i: nat, history: seq<Sending>, loose: set<Sending>, remote: Id)
    requires Record(r, i, history, loose)
    ensures Record(r.(remote := remote, pushed := None, pulled := None), i, history, loose + By(history, i))
  {
    hide UniqueIds, HasId, NoRepeats, ReadSince;
    var s := r.(remote := remote, pushed := None, pulled := None);
    assert forall e :: MarkedSoon(s, e) <==> MarkedSoon(r, e);
  }

  /** The record is about the log, the mark and the push in flight. */
  lemma RecordReadsPush(r: Replica, s: Replica, i: nat, history: seq<Sending>, loose: set<Sending>)
    requires Record(r, i, history, loose) && s.log == r.log && s.pushed == r.pushed &&
             (s.push == r.push || s.push.None?)
    ensures Record(s, i, history, loose)
  {
    hide UniqueIds, HasId, NoRepeats, ReadSince;
    assert forall e :: Marked(s, e) <==> Marked(r, e);
    assert forall e :: MarkedSoon(r, e) ==> MarkedSoon(s, e);
  }

  lemma InsertKeepsRecord(r: Replica, i: nat, history: seq<Sending>, loose: set<Sending>)
    requires Record(r, i, history, loose) && r.pull.Some?
    ensures Record(r.(log := InsertNew(r.log, r.pull.value.batch), pull := Some(r.pull.value.(inserted := true))), i,
            history, loose)
  {
    hide Record, InsertNew, UniqueIds;
    var after := InsertNew(r.log, r.pull.value.batch);
    InsertKeepsPrefix(r.log, r.pull.value.batch);
    assert UniqueIds(r.log) by { RecordIsTidy(r, i, history, loose); }
    InsertKeepsUnique(r.log, r.pull.value.batch);
    assert after == r.log + after[|r.log|..];
    LongerLogKeepsRecord(r, i, history, loose, after[|r.log|..]);
    RecordReadsPush(r.(log := after), r.(log := after, pull := Some(r.pull.value.(inserted := true))), i, history,
      loose);
  }

  lemma RecordIsTidy(r: Replica, i: nat, history: seq<Sending>, loose: set<Sending>)
    requires Record(r, i, history, loose)
    ensures Tidy(r) && UniqueIds(r.log)
  {
  }

  lemma AppendKeepsRecord(r: Replica, i: nat, history: seq<Sending>, loose: set<Sending>, e: Event)
    requires Record(r, i, history, loose) && forall f :: f in r.log ==> f.id != e.id
    ensures Record(r.(log := r.log + [e]), i, history, loose)
  {
    hide Record;
    RecordIsTidy(r, i, history, loose);
    LongerLogKeepsRecord(r, i, history, loose, [e]);
  }

  // --- the whole world -----------------------------------------------------------------------------

  lemma OneReplicaKeepsRecord(w: World, step: Step, history: seq<Sending>, loose: set<Sending>)
    requires step.i < |w.replicas| && Record(w.replicas[step.i], step.i, history, loose)
    ensures var w' := Next(w, step); var i := step.i;
            && |w'.replicas| == |w.replicas|
            && (forall k :: 0 <= k < |w.replicas| && k != i ==> w'.replicas[k] == w.replicas[k])
            && (forall h :: h in Sent(w, step) ==> h.from == i)
            && Record(w'.replicas[i], i, history + Sent(w, step), LooseAfter(w, step, history, loose))
  {
    hide Record, InsertNew, Pending, ReadSince, SliceOf, By;
    var i, r := step.i, w.replicas[step.i];
    assert history + [] == history && loose + {} == loose;
    match step
    case Append(_, e) => if MayAppend(w, i, e) { AppendKeepsRecord(r, i, history, loose, e); }
    case Note(_, e) =>
      if Bookkeeping(e) && (forall f :: InWorld(w, f) ==> f.id != e.id) { AppendKeepsRecord(r, i, history, loose, e); }
    case PushBegin(_) => if r.push.None? { BeginKeepsRecord(r, i, history, loose); }
    case PushLine(_) =>
      if r.push.Some? && r.push.value.sent < |r.push.value.batch| {
        SendKeepsRecord(r, i, history, loose);
        var op := r.push.value;
        assert (set h | h in Sent(w, step)) == {Sending(i, op.relay, op.batch[op.sent])};
      } else {
        assert (set h | h in Sent(w, step)) == {};
      }
    case PushMark(_) =>
      if r.push.Some? && r.push.value.sent == |r.push.value.batch| { MarkKeepsRecord(r, i, history, loose); }
    case PullBegin(_) => RecordReadsPush(r, r.(pull := Some(SliceOf(w, r))), i, history, loose);
    case PullInsert(_) => if r.pull.Some? { InsertKeepsRecord(r, i, history, loose); }
    case PullMark(_) =>
      if r.pull.Some? {
        RecordReadsPush(r, r.(pull := None, pulled := LastId(r.pull.value.batch, r.pulled)), i, history, loose);
      }
    case Crash(_) => RecordReadsPush(r, r.(push := None, pull := None), i, history, loose);
    case Rebind(_, remote) => RebindKeepsRecord(r, i, history, loose, remote);
    case Bind(_, remote) => RecordReadsPush(r, r.(remote := remote), i, history, loose);
  }

  lemma OthersKeepRecord(r: Replica, k: nat, history: seq<Sending>, loose: set<Sending>, now: seq<Sending>,
      after: set<Sending>)
    requires Record(r, k, history, loose)
    requires forall h :: h in now ==> h.from != k
    requires forall h: Sending :: h.from == k ==> (h in after <==> h in loose)
    ensures Record(r, k, history + now, after)
  {
    hide Tidy, MarkedSoon, Marked;
  }

  lemma LooseIsLocal(w: World, step: Step, history: seq<Sending>, loose: set<Sending>)
    requires forall h :: h in loose ==> h in history
    ensures forall h: Sending :: h.from != step.i ==> (h in LooseAfter(w, step, history, loose) <==> h in loose)
    ensures forall h :: h in LooseAfter(w, step, history, loose) ==> h in history + Sent(w, step)
  {
  }

  lemma StepKeepsRecord(w: World, step: Step, history: seq<Sending>, loose: set<Sending>)
    requires Recorded(w, history, loose)
    ensures Recorded(Next(w, step), history + Sent(w, step), LooseAfter(w, step, history, loose))
  {
    hide Record, Next, LooseAfter;
    var w', after := Next(w, step), LooseAfter(w, step, history, loose);
    var i, now := step.i, Sent(w, step);
    LooseIsLocal(w, step, history, loose);
    if i < |w.replicas| {
      OneReplicaKeepsRecord(w, step, history, loose);
    } else {
      NobodyThere(w, step);
    }
    forall k | 0 <= k < |w'.replicas| ensures Record(w'.replicas[k], k, history + now, after) {
      if k != i { OthersKeepRecord(w.replicas[k], k, history, loose, now, after); }
    }
  }

  lemma NobodyThere(w: World, step: Step)
    requires step.i >= |w.replicas|
    ensures Next(w, step) == w && Sent(w, step) == []
  {
  }

  lemma {:induction false} RunKeepsRecord(w: World, steps: seq<Step>, history: seq<Sending>, loose: set<Sending>)
    requires Recorded(w, history, loose)
    ensures Recorded(Run(w, steps), history + Sends(w, steps), LooseFrom(w, steps, history, loose))
    decreases steps
  {
    hide Recorded, Next, Sent, LooseAfter;
    if steps == [] {
      assert history + [] == history;
    } else {
      StepKeepsRecord(w, steps[0], history, loose);
      RunKeepsRecord(Next(w, steps[0]), steps[1..], history + Sent(w, steps[0]),
        LooseAfter(w, steps[0], history, loose));
      assert history + Sent(w, steps[0]) + Sends(Next(w, steps[0]), steps[1..]) == history + Sends(w, steps);
    }
  }

  lemma FreshIsRecorded(w: World)
    requires Fresh(w)
    ensures Recorded(w, [], {})
  {
    assert forall i :: 0 <= i < |w.replicas| ==> w.replicas[i] in w.replicas;
  }

  lemma RunIsRecorded(start: World, steps: seq<Step>)
    requires Fresh(start)
    ensures Recorded(Run(start, steps), Sends(start, steps), Loose(start, steps))
  {
    hide Recorded, Fresh, Run, Sends, LooseFrom;
    FreshIsRecorded(start);
    RunKeepsRecord(start, steps, [], {});
    assert [] + Sends(start, steps) == Sends(start, steps);
  }

  // --- what the next push repeats ---------------------------------------------------------------

  /** A whole push sends what is pending, in order. */
  lemma WholePushSends(w: World, i: nat)
    requires i < |w.replicas|
    ensures var r := w.replicas[i]; Sends(w, PushSteps(w, i)) == ToRelay(i, r.remote, Pending(r.log, r.pushed))
  {
    hide Next, Pending, Run, Repeat, Lines, Sends, ToRelay;
    var r := w.replicas[i];
    var pending := Pending(r.log, r.pushed);
    var body := Repeat(PushLine(i), |pending|);
    var w1 := Next(w, Crash(i));
    var w2 := Next(w1, PushBegin(i));
    CrashStep(w, i);
    PushBeginStep(w1, i);
    SendsTwo(w, Crash(i), PushBegin(i));
    SendsJoin(w, [Crash(i), PushBegin(i)], body);
    RunTwo(w, Crash(i), PushBegin(i));
    LinesAreSent(w2, i, |pending|);
    assert pending[0..0 + |pending|] == pending;
    SendsJoin(w, [Crash(i), PushBegin(i)] + body, [PushMark(i)]);
    NothingAtMark(Run(w, [Crash(i), PushBegin(i)] + body), i);
    var all := ToRelay(i, r.remote, pending);
    assert [] + all == all && all + [] == all;
  }

  lemma NothingAtMark(w: World, i: nat)
    ensures Sends(w, [PushMark(i)]) == []
  {
    hide Next;
    assert [PushMark(i)][1..] == [];
  }

  lemma SendsTwo(w: World, a: Step, b: Step)
    requires !a.PushLine? && !b.PushLine?
    ensures Sends(w, [a, b]) == []
  {
    hide Next;
    assert [a, b][1..] == [b] && [b][1..] == [];
    assert Sends(Next(w, a), [b]) == [];
  }

  lemma {:induction false} SendsJoin(w: World, a: seq<Step>, b: seq<Step>)
    ensures Sends(w, a + b) == Sends(w, a) + Sends(Run(w, a), b)
    decreases a
  {
    hide Next, Sent;
    if a == [] {
      assert a + b == b;
    } else {
      assert (a + b)[0] == a[0] && (a + b)[1..] == a[1..] + b;
      SendsJoin(Next(w, a[0]), a[1..], b);
    }
  }

  lemma {:induction false} LinesAreSent(w: World, i: nat, n: nat)
    requires i < |w.replicas| && w.replicas[i].push.Some?
    requires w.replicas[i].push.value.sent + n <= |w.replicas[i].push.value.batch|
    requires w.replicas[i].push.value.relay == w.replicas[i].remote
    ensures var op := w.replicas[i].push.value;
            Sends(w, Repeat(PushLine(i), n)) == ToRelay(i, op.relay, op.batch[op.sent..op.sent + n])
    decreases n
  {
    hide Next, Lines, ToRelay;
    var op := w.replicas[i].push.value;
    var steps := Repeat(PushLine(i), n);
    if n == 0 {
      assert op.batch[op.sent..op.sent + n] == [];
      NothingToRelay(i, op.relay);
    } else {
      PushLineStep(w, i);
      assert steps[0] == PushLine(i) && steps[1..] == Repeat(PushLine(i), n - 1);
      LinesAreSent(Next(w, PushLine(i)), i, n - 1);
      FirstOf(i, op.relay, op.batch, op.sent, n);
    }
  }

  lemma NothingToRelay(i: nat, relay: Id)
    ensures ToRelay(i, relay, []) == []
  {
  }

  lemma FirstOf(i: nat, relay: Id, batch: Log, from: nat, n: nat)
    requires 0 < n && from + n <= |batch|
    ensures ToRelay(i, relay, batch[from..from + n]) ==
            [Sending(i, relay, batch[from])] + ToRelay(i, relay, batch[from + 1..from + n])
  {
    assert batch[from..from + n] == [batch[from]] + batch[from + 1..from + n];
  }

  ghost predicate Repeats(start: World, steps: seq<Step>, i: nat, h: Sending)
    requires i < |Run(start, steps).replicas|
  {
    h in Sends(start, steps) && h in Sends(Run(start, steps), PushSteps(Run(start, steps), i))
  }

  /** After any run, crashes and rebinds included, a whole push repeats exactly the loose lines of its relay. */
  lemma WholePushRepeatsExactly(start: World, steps: seq<Step>, i: nat, h: Sending)
    requires Fresh(start) && i < |Run(start, steps).replicas|
    ensures Repeats(start, steps, i, h) <==>
            h in Loose(start, steps) && h.from == i && h.relay == Run(start, steps).replicas[i].remote
  {
    hide Run, Sends, LooseFrom, Pending, Fresh, PushSteps, Loose;
    var w, history, loose := Run(start, steps), Sends(start, steps), Loose(start, steps);
    var r := w.replicas[i];
    RunIsRecorded(start, steps);
    WholePushSends(w, i);
    InBatchOnItsWay(i, r.remote, Pending(r.log, r.pushed), h);
    if h.from == i && h in history { RecordDecidesPending(r, i, history, loose, h); }
  }

  lemma InBatchOnItsWay(i: nat, relay: Id, batch: Log, h: Sending)
    ensures h in ToRelay(i, relay, batch) <==> h.from == i && h.relay == relay && h.event in batch
  {
    var all := ToRelay(i, relay, batch);
    if h.from == i && h.relay == relay && h.event in batch {
      var x :| 0 <= x < |batch| && batch[x] == h.event;
      assert all[x] == h;
    }
  }

  lemma RecordDecidesPending(r: Replica, i: nat, history: seq<Sending>, loose: set<Sending>, h: Sending)
    requires Record(r, i, history, loose) && h.from == i && h in history
    ensures h.event in Pending(r.log, r.pushed) <==> h in loose
  {
    hide Pending, Tidy, MarkedSoon;
    assert Gone(r, h, loose);
    PendingIsUnmarked(r, h.event);
  }

  /** With no watermark all that ever went to its relay goes again. */
  lemma NoMarkRepeatsAll(start: World, steps: seq<Step>, i: nat, h: Sending)
    requires Fresh(start) && i < |Run(start, steps).replicas| && Run(start, steps).replicas[i].pushed.None?
    ensures Repeats(start, steps, i, h) <==>
            h in Sends(start, steps) && h.from == i && h.relay == Run(start, steps).replicas[i].remote
  {
    hide Run, Sends, LooseFrom, Fresh, Loose, Repeats, Tidy, MarkedSoon;
    RunIsRecorded(start, steps);
    WholePushRepeatsExactly(start, steps, i, h);
    var r := Run(start, steps).replicas[i];
    assert Record(r, i, Sends(start, steps), Loose(start, steps));
    if h in Sends(start, steps) && h.from == i { assert Gone(r, h, Loose(start, steps)); }
  }

  // --- runs in which a replica never crashes --------------------------------------------------------

  predicate NeverCrashes(steps: seq<Step>, i: nat) {
    forall s :: s in steps ==> !(s.Crash? && s.i == i)
  }

  predicate NeverRebinds(steps: seq<Step>, i: nat) {
    forall s :: s in steps ==> !(s.Rebind? && s.i == i)
  }

  /** What is loose is out of the push in flight, as long as a mark is kept. */
  ghost predicate LooseIsOut(r: Replica, i: nat, loose: set<Sending>, kept: bool) {
    r.pushed.Some? || kept ==> forall h: Sending :: h.from == i ==> (h in loose <==> h in OutOf(i, r))
  }

  ghost predicate SentWithin(r: Replica) {
    r.push.Some? ==> r.push.value.sent <= |r.push.value.batch|
  }

  lemma OutGrows(i: nat, r: Replica)
    requires r.push.Some? && r.push.value.sent < |r.push.value.batch|
    ensures var op := r.push.value;
            OutOf(i, r.(push := Some(op.(sent := op.sent + 1)))) ==
            OutOf(i, r) + [Sending(i, op.relay, op.batch[op.sent])]
  {
    var op := r.push.value;
    assert op.batch[..op.sent + 1] == op.batch[..op.sent] + [op.batch[op.sent]];
  }

  lemma StepKeepsLooseOut(w: World, step: Step, i: nat, history: seq<Sending>, loose: set<Sending>, kept: bool)
    requires i < |w.replicas| && SentWithin(w.replicas[i]) && LooseIsOut(w.replicas[i], i, loose, kept)
    requires forall h :: h in loose ==> h in history
    requires !(step.Crash? && step.i == i) && (kept ==> !(step.Rebind? && step.i == i))
    ensures var w' := Next(w, step);
            i < |w'.replicas| && SentWithin(w'.replicas[i]) &&
              LooseIsOut(w'.replicas[i], i, LooseAfter(w, step, history, loose), kept)
  {
    hide MayAppend, InWorld, InsertNew, Pending, ReadSince, SliceOf, OutOf;
    LooseIsLocal(w, step, history, loose);
    if step.i == i {
      var r := w.replicas[i];
      if step.PushLine? && r.push.Some? && r.push.value.sent < |r.push.value.batch| {
        OutGrows(i, r);
      } else if step.PushMark? {
        MarkEmptiesOut(w, i);
      } else {
        OutReadsPush(i, r, Next(w, step).replicas[i]);
        NothingOut(i, r);
        NothingOut(i, Next(w, step).replicas[i]);
      }
    }
  }

  /** A mark ties what is out; a batch it need not mark has nothing out. */
  lemma MarkEmptiesOut(w: World, i: nat)
    requires i < |w.replicas|
    ensures var r, s := w.replicas[i], Next(w, PushMark(i)).replicas[i];
            && (s == r || (s.push.None? && OutOf(i, s) == []))
            && (s != r ==> MarksSomething(r) || (OutOf(i, r) == [] && s.pushed == r.pushed))
            && (s == r ==> !MarksSomething(r))
  {
    hide MayAppend, InWorld, InsertNew, Pending, ReadSince, SliceOf;
  }

  lemma OutReadsPush(i: nat, r: Replica, s: Replica)
    ensures r.push == s.push ==> OutOf(i, r) == OutOf(i, s)
  {
  }

  lemma NothingOut(i: nat, r: Replica)
    ensures r.push.None? || r.push.value.sent == 0 ==> OutOf(i, r) == []
  {
  }

  lemma {:induction false} RunKeepsLooseOut(
      w: World, steps: seq<Step>, i: nat, history: seq<Sending>, loose: set<Sending>, kept: bool)
    requires i < |w.replicas| && SentWithin(w.replicas[i]) && LooseIsOut(w.replicas[i], i, loose, kept)
    requires forall h :: h in loose ==> h in history
    requires NeverCrashes(steps, i) && (kept ==> NeverRebinds(steps, i))
    ensures var v := Run(w, steps);
            i < |v.replicas| && SentWithin(v.replicas[i]) &&
              LooseIsOut(v.replicas[i], i, LooseFrom(w, steps, history, loose), kept)
    decreases steps
  {
    hide Next, Sent, LooseAfter, LooseIsOut, SentWithin;
    if steps != [] {
      assert steps[0] in steps;
      StepKeepsLooseOut(w, steps[0], i, history, loose, kept);
      LooseIsLocal(w, steps[0], history, loose);
      assert NeverCrashes(steps[1..], i) && (kept ==> NeverRebinds(steps[1..], i));
      RunKeepsLooseOut(Next(w, steps[0]), steps[1..], i, history + Sent(w, steps[0]),
        LooseAfter(w, steps[0], history, loose), kept);
    }
  }

  lemma {:induction false} RunKeepsSize(w: World, steps: seq<Step>)
    ensures |Run(w, steps).replicas| == |w.replicas|
    decreases steps
  {
    hide Next;
    if steps != [] {
      NextKeepsSize(w, steps[0]);
      RunKeepsSize(Next(w, steps[0]), steps[1..]);
    }
  }

  lemma NextKeepsSize(w: World, step: Step)
    ensures |Next(w, step).replicas| == |w.replicas|
  {
    hide MayAppend, InWorld, InsertNew, Pending, ReadSince, SliceOf;
  }

  lemma WithoutCrashLooseIsOut(start: World, steps: seq<Step>, i: nat, kept: bool)
    requires Fresh(start) && i < |Run(start, steps).replicas|
    requires NeverCrashes(steps, i) && (kept ==> NeverRebinds(steps, i))
    ensures LooseIsOut(Run(start, steps).replicas[i], i, Loose(start, steps), kept)
  {
    hide Run, LooseFrom;
    RunKeepsSize(start, steps);
    assert start.replicas[i] in start.replicas;
    RunKeepsLooseOut(start, steps, i, [], {}, kept);
  }

  /**
   * A replica that never crashed and has no push in flight repeats a sending exactly when it
   * has no push watermark and sent something to its relay before.
   */
  lemma WithoutCrashRepeatsExactly(start: World, steps: seq<Step>, i: nat)
    requires Fresh(start) && i < |Run(start, steps).replicas|
    requires NeverCrashes(steps, i) && Run(start, steps).replicas[i].push.None?
    ensures var r := Run(start, steps).replicas[i];
            (exists h :: Repeats(start, steps, i, h)) <==>
            r.pushed.None? && exists h :: h in Sends(start, steps) && h.from == i && h.relay == r.remote
  {
    hide Run, Sends, Fresh, Loose, NeverCrashes, Repeats;
    WithoutCrashLooseIsOut(start, steps, i, false);
    var r := Run(start, steps).replicas[i];
    forall h ensures Repeats(start, steps, i, h) <==> h in Loose(start, steps) && h.from == i && h.relay == r.remote {
      WholePushRepeatsExactly(start, steps, i, h);
    }
    if r.pushed.None? {
      forall h ensures Repeats(start, steps, i, h) <==> h in Sends(start, steps) && h.from == i && h.relay == r.remote {
        NoMarkRepeatsAll(start, steps, i, h);
      }
    }
  }

  /**
   * A first crash, in the middle of a push: if a mark is kept, or no migration ever dropped
   * one, the next whole push repeats exactly the lines already out, and so something exactly
   * when a line was out.
   */
  lemma CrashRepeatsExactly(start: World, steps: seq<Step>, i: nat)
    requires Fresh(start) && i < |Run(start, steps).replicas|
    requires NeverCrashes(steps, i) && Run(start, steps).replicas[i].push.Some?
    requires Run(start, steps).replicas[i].pushed.Some? || NeverRebinds(steps, i)
    ensures var r := Run(start, steps).replicas[i];
            && (forall h :: Repeats(start, steps, i, h) <==> h in OutOf(i, r) && h.relay == r.remote)
            && (r.push.value.relay == r.remote ==>
                 ((exists h :: Repeats(start, steps, i, h)) <==> r.push.value.sent > 0))
  {
    hide Run, Sends, Fresh, Loose, NeverCrashes, NeverRebinds, Repeats, OutOf;
    var r := Run(start, steps).replicas[i];
    WithoutCrashLooseIsOut(start, steps, i, r.pushed.None?);
    RunIsTidy(start, steps, i);
    forall h ensures Repeats(start, steps, i, h) <==> h in OutOf(i, r) && h.relay == r.remote {
      WholePushRepeatsExactly(start, steps, i, h);
      OutIsOnTheRelay(i, r, h);
    }
    if r.push.value.sent > 0 { FirstIsOut(i, r); } else { NothingOut(i, r); }
  }

  lemma RunIsTidy(start: World, steps: seq<Step>, i: nat)
    requires Fresh(start) && i < |Run(start, steps).replicas|
    ensures SentWithin(Run(start, steps).replicas[i])
  {
    hide Run, Sends, LooseFrom, Fresh, Going, Gone;
    RunIsRecorded(start, steps);
    assert Record(Run(start, steps).replicas[i], i, Sends(start, steps), Loose(start, steps));
  }

  lemma OutIsOnTheRelay(i: nat, r: Replica, h: Sending)
    requires r.push.Some?
    ensures h in OutOf(i, r) ==> h.from == i && h.relay == r.push.value.relay
  {
  }

  lemma FirstIsOut(i: nat, r: Replica)
    requires r.push.Some? && 0 < r.push.value.sent <= |r.push.value.batch|
    ensures Sending(i, r.push.value.relay, r.push.value.batch[0]) in OutOf(i, r)
  {
    assert OutOf(i, r)[0] == Sending(i, r.push.value.relay, r.push.value.batch[0]);
  }

  // --- runs that send everything once ---------------------------------------------------------------

  /** No line of the relay a push begins on is loose. */
  predicate BeginsClean(w: World, step: Step, loose: set<Sending>) {
    step.PushBegin? && step.i < |w.replicas| && w.replicas[step.i].push.None? ==>
      forall h :: h in loose && h.from == step.i ==> h.relay != w.replicas[step.i].remote
  }

  ghost predicate CleanRun(w: World, steps: seq<Step>, history: seq<Sending>, loose: set<Sending>)
    decreases |steps|
  {
    steps != [] ==>
    && BeginsClean(w, steps[0], loose)
    && CleanRun(Next(w, steps[0]), steps[1..], history + Sent(w, steps[0]), LooseAfter(w, steps[0], history, loose))
  }

  /** Nothing sent to the relay of the push in flight is still to go there. */
  ghost predicate NewAhead(r: Replica, i: nat, history: seq<Sending>) {
    r.push.Some? && r.push.value.sent <= |r.push.value.batch| ==>
      forall h :: h in history && h.from == i && h.relay == r.push.value.relay ==>
        h.event !in r.push.value.batch[r.push.value.sent..]
  }

  ghost predicate AllNewAhead(w: World, history: seq<Sending>) {
    NoRepeats(history) && forall i :: 0 <= i < |w.replicas| ==> NewAhead(w.replicas[i], i, history)
  }

  lemma BeginIsNew(r: Replica, i: nat, history: seq<Sending>, loose: set<Sending>)
    requires Record(r, i, history, loose) && r.push.None?
    requires forall h :: h in loose && h.from == i ==> h.relay != r.remote
    ensures NewAhead(r.(push := Some(PushOp(r.remote, Pending(r.log, r.pushed), 0))), i, history)
  {
    hide Record, Pending;
    var batch := Pending(r.log, r.pushed);
    assert batch[0..] == batch;
    forall h | h in history && h.from == i && h.relay == r.remote ensures h.event !in batch {
      RecordDecidesPending(r, i, history, loose, h);
    }
  }

  lemma SendIsNew(r: Replica, i: nat, history: seq<Sending>)
    requires NewAhead(r, i, history) && r.push.Some? && r.push.value.sent < |r.push.value.batch|
    requires NoRepeats(r.push.value.batch)
    ensures var op := r.push.value; var h := Sending(i, op.relay, op.batch[op.sent]);
            h !in history && NewAhead(r.(push := Some(op.(sent := op.sent + 1))), i, history + [h])
  {
    var op := r.push.value;
    assert op.batch[op.sent..] == [op.batch[op.sent]] + op.batch[op.sent + 1..];
    NoneAhead(op.batch, op.sent);
  }

  lemma NoneAhead(batch: Log, k: nat)
    requires k < |batch| && NoRepeats(batch)
    ensures batch[k] !in batch[k + 1..]
  {
  }

  lemma BatchDoesNotRepeat(r: Replica, i: nat, history: seq<Sending>, loose: set<Sending>)
    requires Record(r, i, history, loose) && r.push.Some?
    ensures NoRepeats(r.push.value.batch)
  {
  }

  lemma SenderKeepsNew(w: World, step: Step, history: seq<Sending>, loose: set<Sending>)
    requires step.i < |w.replicas| && Record(w.replicas[step.i], step.i, history, loose)
    requires NewAhead(w.replicas[step.i], step.i, history) && BeginsClean(w, step, loose)
    ensures NewAhead(Next(w, step).replicas[step.i], step.i, history + Sent(w, step))
    ensures forall h :: h in Sent(w, step) ==> h !in history
  {
    hide Record, InsertNew, Pending, ReadSince, SliceOf, MayAppend, InWorld, NoRepeats;
    var i, r := step.i, w.replicas[step.i];
    assert history + [] == history;
    if step.PushBegin? && r.push.None? { BeginIsNew(r, i, history, loose); }
    if step.PushLine? && r.push.Some? && r.push.value.sent < |r.push.value.batch| {
      BatchDoesNotRepeat(r, i, history, loose);
      SendIsNew(r, i, history);
    }
  }

  lemma StepKeepsNew(w: World, step: Step, history: seq<Sending>, loose: set<Sending>)
    requires Recorded(w, history, loose) && AllNewAhead(w, history) && BeginsClean(w, step, loose)
    ensures AllNewAhead(Next(w, step), history + Sent(w, step))
  {
    hide Record, Next, BeginsClean, NoRepeats;
    var w', i, now := Next(w, step), step.i, Sent(w, step);
    if i < |w.replicas| {
      OneReplicaKeepsRecord(w, step, history, loose);
      SenderKeepsNew(w, step, history, loose);
      forall k | 0 <= k < |w'.replicas| ensures NewAhead(w'.replicas[k], k, history + now) {
        if k != i { assert w'.replicas[k] == w.replicas[k] && NewAhead(w.replicas[k], k, history); }
      }
      if now != [] {
        assert now == [now[0]] && now[0] in now;
        NoRepeatsGrows(history, now[0]);
      } else {
        assert history + now == history;
      }
    } else {
      NobodyThere(w, step);
      assert history + now == history;
    }
  }

  lemma {:induction false} CleanRunKeepsNew(w: World, steps: seq<Step>, history: seq<Sending>, loose: set<Sending>)
    requires Recorded(w, history, loose) && AllNewAhead(w, history) && CleanRun(w, steps, history, loose)
    ensures NoRepeats(history + Sends(w, steps))
    decreases steps
  {
    hide Recorded, Next, Sent, LooseAfter, BeginsClean, NewAhead, NoRepeats;
    if steps == [] {
      assert history + [] == history;
    } else {
      StepKeepsRecord(w, steps[0], history, loose);
      StepKeepsNew(w, steps[0], history, loose);
      CleanRunKeepsNew(Next(w, steps[0]), steps[1..], history + Sent(w, steps[0]),
        LooseAfter(w, steps[0], history, loose));
      assert history + Sent(w, steps[0]) + Sends(Next(w, steps[0]), steps[1..]) == history + Sends(w, steps);
    }
  }

  /** If every push begins where none of its lines is loose, no event goes to a relay twice, whatever crashed. */
  lemma CleanRunSendsOnce(w: World, steps: seq<Step>)
    requires Fresh(w) && CleanRun(w, steps, [], {})
    ensures NoRepeats(Sends(w, steps))
  {
    hide CleanRun, Sends, Recorded;
    FreshIsRecorded(w);
    FreshIsNew(w);
    CleanRunKeepsNew(w, steps, [], {});
    assert [] + Sends(w, steps) == Sends(w, steps);
  }

  lemma FreshIsNew(w: World)
    requires Fresh(w)
    ensures AllNewAhead(w, [])
  {
  }

  // --- without crashes, and never back --------------------------------------------------------------

  predicate NoCrash(steps: seq<Step>) {
    forall s :: s in steps ==> !s.Crash?
  }

  /** Who was bound to which relay, once `step` is done. */
  function Bound(bound: set<(nat, Id)>, step: Step): set<(nat, Id)> {
    if step.Rebind? || step.Bind? then bound + {(step.i, step.remote)} else bound
  }

  /** No change of binding takes a replica back to a relay it was bound to before. */
  predicate NoReturn(bound: set<(nat, Id)>, steps: seq<Step>)
    decreases |steps|
  {
    steps != [] ==>
    && (steps[0].Rebind? || steps[0].Bind? ==> (steps[0].i, steps[0].remote) !in bound)
    && NoReturn(Bound(bound, steps[0]), steps[1..])
  }

  function FirstBindings(w: World): set<(nat, Id)> {
    set i | 0 <= i < |w.replicas| :: (i, w.replicas[i].remote)
  }

  /** Where no mark is held, only the push in flight has sent anything to the relay bound now. */
  ghost predicate FirstStay(r: Replica, i: nat, history: seq<Sending>, bound: set<(nat, Id)>) {
    && (i, r.remote) in bound
    && (r.push.Some? ==> (i, r.push.value.relay) in bound)
    && (forall h :: h in history && h.from == i ==> (i, h.relay) in bound)
    && (r.pushed.None? ==>
          forall h :: h in history && h.from == i && h.relay == r.remote ==>
            r.push.Some? && r.push.value.relay == r.remote && r.push.value.sent > 0)
  }

  ghost predicate NeverBack(w: World, history: seq<Sending>, loose: set<Sending>, bound: set<(nat, Id)>) {
    forall i :: 0 <= i < |w.replicas| ==>
      && FirstStay(w.replicas[i], i, history, bound)
      && SentWithin(w.replicas[i])
      && LooseIsOut(w.replicas[i], i, loose, false)
  }

  lemma StepKeepsStay(w: World, step: Step, i: nat, history: seq<Sending>, bound: set<(nat, Id)>)
    requires i < |w.replicas| && FirstStay(w.replicas[i], i, history, bound) && !step.Crash?
    requires step.Rebind? || step.Bind? ==> (step.i, step.remote) !in bound
    ensures i < |Next(w, step).replicas|
    ensures FirstStay(Next(w, step).replicas[i], i, history + Sent(w, step), Bound(bound, step))
  {
    hide MayAppend, InWorld, InsertNew, Pending, ReadSince, SliceOf;
    assert history + [] == history;
  }

  lemma StepKeepsNeverBack(w: World, step: Step, history: seq<Sending>, loose: set<Sending>, bound: set<(nat, Id)>)
    requires Recorded(w, history, loose) && NeverBack(w, history, loose, bound) && !step.Crash?
    requires step.Rebind? || step.Bind? ==> (step.i, step.remote) !in bound
    ensures NeverBack(Next(w, step), history + Sent(w, step), LooseAfter(w, step, history, loose), Bound(bound, step))
    ensures BeginsClean(w, step, loose)
  {
    hide Record, Next, LooseAfter, Sent, Bound;
    NextKeepsSize(w, step);
    forall i | 0 <= i < |w.replicas|
      ensures FirstStay(Next(w, step).replicas[i], i, history + Sent(w, step), Bound(bound, step))
      ensures SentWithin(Next(w, step).replicas[i])
      ensures LooseIsOut(Next(w, step).replicas[i], i, LooseAfter(w, step, history, loose), false)
    {
      StepKeepsStay(w, step, i, history, bound);
      StepKeepsLooseOut(w, step, i, history, loose, false);
    }
  }

  lemma {:induction false} NeverBackIsClean(w: World, steps: seq<Step>, history: seq<Sending>, loose: set<Sending>,
      bound: set<(nat, Id)>)
    requires Recorded(w, history, loose) && NeverBack(w, history, loose, bound)
    requires NoCrash(steps) && NoReturn(bound, steps)
    ensures CleanRun(w, steps, history, loose)
    decreases steps
  {
    hide Recorded, Next, Sent, LooseAfter, BeginsClean, NeverBack;
    if steps != [] {
      StepKeepsRecord(w, steps[0], history, loose);
      StepKeepsNeverBack(w, steps[0], history, loose, bound);
      NeverBackIsClean(
        Next(w, steps[0]), steps[1..], history + Sent(w, steps[0]), LooseAfter(w, steps[0], history, loose),
          Bound(bound, steps[0]));
    }
  }

  /**
   * Without crashes no replica sends an event to a relay twice, changes of binding to relays it
   * was not bound to before included, whatever was in flight when they came.
   */
  lemma EachEventIsSentOnce(w: World, steps: seq<Step>)
    requires Fresh(w) && NoCrash(steps) && NoReturn(FirstBindings(w), steps)
    ensures NoRepeats(Sends(w, steps))
  {
    hide CleanRun, Sends, NoReturn, NoRepeats, Recorded;
    FreshIsRecorded(w);
    assert forall i :: 0 <= i < |w.replicas| ==> w.replicas[i] in w.replicas;
    NeverBackIsClean(w, steps, [], {}, FirstBindings(w));
    CleanRunSendsOnce(w, steps);
  }

  // --- counting -------------------------------------------------------------------------------

  /** What a history put on one relay. */
  function OnRelay(history: seq<Sending>, relay: Id): Log {
    if history == [] then []
    else
      var rest := OnRelay(history[..|history| - 1], relay);
      var last := history[|history| - 1];
      if last.relay == relay then rest + [last.event] else rest
  }

  lemma {:induction false} OnRelayJoins(a: seq<Sending>, b: seq<Sending>, relay: Id)
    ensures OnRelay(a + b, relay) == OnRelay(a, relay) + OnRelay(b, relay)
  {
    if b == [] {
      assert a + b == a;
    } else {
      assert (a + b)[..|a + b| - 1] == a + b[..|b| - 1];
      OnRelayJoins(a, b[..|b| - 1], relay);
    }
  }

  lemma OneStepOnRelay(w: World, step: Step, relay: Id)
    ensures |Next(w, step).replicas| == |w.replicas|
    ensures Lines(Next(w, step), relay) == Lines(w, relay) + OnRelay(Sent(w, step), relay)
    ensures forall h :: h in Sent(w, step) ==> h.from < |w.replicas|
  {
    hide MayAppend, InWorld, Pending, InsertNew, ReadSince;
    var now := Sent(w, step);
    if now != [] { assert now[..0] == [] && OnRelay([], relay) == []; }
    assert Lines(w, relay) + [] == Lines(w, relay);
  }

  lemma {:induction false} RelayIsWhatWasSent(w: World, steps: seq<Step>, relay: Id)
    ensures Lines(Run(w, steps), relay) == Lines(w, relay) + OnRelay(Sends(w, steps), relay)
    ensures |Run(w, steps).replicas| == |w.replicas| && forall h :: h in Sends(w, steps) ==> h.from < |w.replicas|
    decreases steps
  {
    hide Next, Sent, Lines;
    if steps == [] {
      assert Lines(w, relay) + [] == Lines(w, relay);
    } else {
      var w1 := Next(w, steps[0]);
      OneStepOnRelay(w, steps[0], relay);
      RelayIsWhatWasSent(w1, steps[1..], relay);
      OnRelayJoins(Sent(w, steps[0]), Sends(w1, steps[1..]), relay);
    }
  }

  /** Whoever sent what to `relay`, the same order, each pair as often as it was sent. */
  function PairsOn(history: seq<Sending>, relay: Id): (pairs: seq<(nat, Event)>)
    ensures |pairs| == |OnRelay(history, relay)|
    ensures forall x :: 0 <= x < |pairs| ==> pairs[x].1 == OnRelay(history, relay)[x]
    ensures forall p :: p in pairs ==> Sending(p.0, relay, p.1) in history
  {
    if history == [] then []
    else
      var n := |history| - 1;
      var rest := PairsOn(history[..n], relay);
      assert history == history[..n] + [history[n]];
      if history[n].relay == relay then rest + [(history[n].from, history[n].event)] else rest
  }

  lemma {:induction false} PairsDoNotRepeat(history: seq<Sending>, relay: Id)
    requires NoRepeats(history)
    ensures NoRepeats(PairsOn(history, relay))
  {
    if history != [] {
      var n := |history| - 1;
      LastIsNew(history);
      PairsDoNotRepeat(history[..n], relay);
      if history[n].relay == relay {
        NoRepeatsGrows(PairsOn(history[..n], relay), (history[n].from, history[n].event));
      }
    }
  }

  lemma LastIsNew(history: seq<Sending>)
    requires history != [] && NoRepeats(history)
    ensures NoRepeats(history[..|history| - 1]) && history[|history| - 1] !in history[..|history| - 1]
  {
  }

  ghost function Pairs(n: nat, events: set<Event>): set<(nat, Event)> {
    set i: nat, e | 0 <= i < n && e in events :: (i, e)
  }

  ghost function Row(i: nat, events: set<Event>): set<(nat, Event)> {
    set e | e in events :: (i, e)
  }

  lemma OneMoreRow(m: nat, events: set<Event>)
    ensures Pairs(m + 1, events) == Pairs(m, events) + Row(m, events) && Pairs(m, events) !! Row(m, events)
  {
  }

  lemma {:induction false} PairsCount(n: nat, events: set<Event>)
    ensures |Pairs(n, events)| == n * |events|
  {
    hide Row;
    if n == 0 {
      assert Pairs(0, events) == {};
    } else {
      hide Pairs;
      var m: nat := n - 1;
      RowCount(m, events);
      PairsCount(m, events);
      OneMoreRow(m, events);
      OnceMore(m, |events|);
    }
  }

  lemma OnceMore(m: nat, k: nat)
    ensures m * k + k == (m + 1) * k
  {
  }

  lemma {:induction false} RowCount(i: nat, events: set<Event>)
    ensures |Row(i, events)| == |events|
  {
    if events == {} {
      assert Row(i, events) == {};
    } else {
      var x :| x in events;
      RowCount(i, events - {x});
      assert Row(i, events) == Row(i, events - {x}) + {(i, x)};
    }
  }

  lemma {:induction false} DistinctFitIn<T>(s: seq<T>, pool: set<T>)
    requires NoRepeats(s) && forall x :: x in s ==> x in pool
    ensures |s| <= |pool|
  {
    if s != [] {
      var n := |s| - 1;
      assert forall x :: x in s[..n] ==> x in pool - {s[n]};
      DistinctFitIn(s[..n], pool - {s[n]});
    }
  }

  /** A relay of a clean run is never longer than replicas times distinct events. */
  lemma RelayLengthIsBounded(w: World, steps: seq<Step>, relay: Id)
    requires Fresh(w) && CleanRun(w, steps, [], {})
    ensures var lines := Lines(Run(w, steps), relay);
            |lines| <= |w.replicas| * |set e | e in lines|
  {
    hide Run, NoRepeats, Pairs, OnRelay, PairsOn, Sends, CleanRun;
    CleanRunSendsOnce(w, steps);
    RelayIsWhatWasSent(w, steps, relay);
    var history := Sends(w, steps);
    var lines := Lines(Run(w, steps), relay);
    assert lines == OnRelay(history, relay);
    var events := set e | e in lines;
    var pairs := PairsOn(history, relay);
    PairsFit(history, relay, |w.replicas|, events);
    PairsDoNotRepeat(history, relay);
    DistinctFitIn(pairs, Pairs(|w.replicas|, events));
    PairsCount(|w.replicas|, events);
  }

  lemma PairsFit(history: seq<Sending>, relay: Id, n: nat, events: set<Event>)
    requires forall h :: h in history ==> h.from < n
    requires forall e :: e in OnRelay(history, relay) ==> e in events
    ensures forall p :: p in PairsOn(history, relay) ==> p in Pairs(n, events)
  {
    hide OnRelay;
    var pairs := PairsOn(history, relay);
    forall p | p in pairs ensures p in Pairs(n, events) {
      var x :| 0 <= x < |pairs| && pairs[x] == p;
      assert OnRelay(history, relay)[x] == p.1;
      assert Sending(p.0, relay, p.1) in history;
    }
  }
}
