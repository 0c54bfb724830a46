/** Push and pull of a store with a project key. */
module KeyedSync {
  import opened Events
  import opened EventLog
  import opened Encryption
  import opened SyncRuns
  import opened SyncAgreement
  import opened SyncService
  import opened EncryptedRuns

  // --- one push -----------------------------------------------------------------------------------

  lemma SealedLine(a: Aead, key: Key, iv: string, e: Event)
    requires Sound(a)
    ensures var line := EncryptEvent(a, key, iv, e);
            && line.payload.Sealed? && line == e.(payload := line.payload)
            && DecryptEvent(a, key, line) == Some(e)
            && forall other :: other != key ==> DecryptEvent(a, other, line).None?
  {
    hide Sound;
    forall other ensures DecryptEvent(a, other, EncryptEvent(a, key, iv, e)) == if other == key then Some(e) else None {
      OnlyTheRightKeyAndId(a, key, other, iv, e, e.id);
      assert EncryptEvent(a, key, iv, e).(id := e.id) == EncryptEvent(a, key, iv, e);
    }
  }

  /**
   * Nothing leaves a keyed store in the clear: every pending event goes out sealed, under its
   * own id and in order; the key gives the events back, no key and any other key give nothing.
   */
  lemma KeyedPushSeals(s: Site, projectId: Id, a: Aead, ivs: nat -> string, stamps: Log, key: Key)
    requires Sound(a) && s.state.key == Some(key) && |stamps| == 4
    ensures var after := AfterPush(s, projectId, a, ivs, stamps); var pending := Pending(s.log, s.state.pushed);
            && |after.lines| == |s.lines| + |pending| && after.lines[..|s.lines|] == s.lines
            && var sent := after.lines[|s.lines|..];
               && (forall i :: 0 <= i < |pending| ==>
                     sent[i].payload.Sealed? && sent[i] == pending[i].(payload := sent[i].payload))
               && DecryptAll(a, key, sent) == Some(pending)
               && (pending != [] ==>
                     && Unwire(a, None, sent).None?
                     && forall other :: other != key ==> DecryptAll(a, other, sent).None?)
  {
    hide Sound, EncryptEvent, DecryptEvent, Pending, DecryptAll;
    var pending := Pending(s.log, s.state.pushed);
    var sent := EncryptAll(a, key, ivs, pending);
    assert AfterPush(s, projectId, a, ivs, stamps).lines == s.lines + sent;
    assert (s.lines + sent)[|s.lines|..] == sent;
    forall i | 0 <= i < |pending|
      ensures sent[i].payload.Sealed? && sent[i] == pending[i].(payload := sent[i].payload)
      ensures forall other :: other != key ==> DecryptEvent(a, other, sent[i]).None?
    {
      SealedLine(a, key, ivs(i), pending[i]);
    }
    BatchRoundTrip(a, key, ivs, pending);
    if pending != [] {
      assert sent[0] in sent;
      forall other | other != key ensures DecryptAll(a, other, sent).None? {
        DecryptAllPointwise(a, other, sent);
      }
    }
  }

  // --- the service and the runs over the wire -----------------------------------------------------------

  function Plainly(steps: seq<Step>): seq<WireStep> {
    seq(|steps|, i requires 0 <= i < |steps| => WireStep(steps[i], ""))
  }

  function LinesOut(i: nat, ivs: nat -> string, from: nat, n: nat): seq<WireStep>
    requires from <= n
  {
    seq(n - from, k requires 0 <= k => WireStep(PushLine(i), ivs(from + k)))
  }

  /** A whole push over the wire, one initialisation vector a line. */
  function WirePush(i: nat, ivs: nat -> string, n: nat): seq<WireStep> {
    Plainly([Crash(i), PushBegin(i)]) + (LinesOut(i, ivs, 0, n) + Plainly([PushMark(i)]))
  }

  function WirePull(i: nat): seq<WireStep> {
    Plainly([Crash(i), PullBegin(i), PullInsert(i), PullMark(i)])
  }

  lemma OneThen(a: Aead, key: Key, keys: Keys, w: World, s: WireStep, rest: seq<WireStep>)
    requires |keys| == |w.replicas|
    ensures |WireNext(a, key, keys, w, s).replicas| == |w.replicas|
    ensures WireRun(a, key, keys, w, [s] + rest) == WireRun(a, key, keys, WireNext(a, key, keys, w, s), rest)
  {
    hide WireNext;
    WireNextKeepsSize(a, key, keys, w, s);
    assert ([s] + rest)[0] == s && ([s] + rest)[1..] == rest;
  }

  /** A step that touches no relay changes one replica, sealed lines or not. */
  lemma QuietStep(a: Aead, key: Key, keys: Keys, w: World, step: Step, iv: string, r: Replica)
    requires |keys| == |w.replicas| && step.i < |w.replicas|
    requires step.Crash? || step.PushBegin? || step.PushMark? || step.PullInsert? || step.PullMark?
    requires var q := w.replicas[step.i];
             r == match step
                  case Crash(_) => q.(push := None, pull := None)
                  case PushBegin(_) =>
                    if q.push.None? then q.(push := Some(PushOp(q.remote, Pending(q.log, q.pushed), 0))) else q
                  case PushMark(_) =>
                    if q.push.Some? && q.push.value.sent == |q.push.value.batch|
                    then q.(push := None, pushed := LastId(q.push.value.batch, q.pushed)) else q
                  case PullInsert(_) =>
                    if q.pull.Some? && !q.pull.value.inserted
                    then q.(log := InsertNew(q.log, q.pull.value.batch), pull := Some(q.pull.value.(inserted := true)))
                    else q
                  case PullMark(_) =>
                    if q.pull.Some? && q.pull.value.inserted
                    then q.(pull := None, pulled := LastId(q.pull.value.batch, q.pulled)) else q
                  case _ => q
    ensures WireNext(a, key, keys, w, WireStep(step, iv)) == WithReplica(w, step.i, r)
  {
    hide MayAppend, InWorld, Pending, InsertNew, ReadSince, Unwire, EncryptEvent;
    assert w.replicas[step.i := w.replicas[step.i]] == w.replicas;
  }

  /** `n` lines of a batch go out, each as the store's key has it. */
  lemma {:induction false} LinesGoOutSealed(
      a: Aead, key: Key, keys: Keys, w: World, i: nat, ivs: nat -> string, n: nat, wire: Log, rest: seq<WireStep>)
    requires |keys| == |w.replicas| && i < |w.replicas| && w.replicas[i].push.Some?
    requires var op := w.replicas[i].push.value;
             && op.sent <= n == |op.batch| == |wire|
             && forall k :: 0 <= k < n ==> wire[k] == WireLine(a, keys[i], ivs(k), op.batch[k])
    ensures var r, op := w.replicas[i], w.replicas[i].push.value;
            var v := World(w.replicas[i := r.(push := Some(op.(sent := n)))],
                           w.relays[op.relay := Lines(w, op.relay) + wire[op.sent..]]);
            && |v.replicas| == |w.replicas|
            && WireRun(a, key, keys, w, LinesOut(i, ivs, op.sent, n) + rest) ==
               if op.sent == n then WireRun(a, key, keys, w, rest) else WireRun(a, key, keys, v, rest)
    decreases n - w.replicas[i].push.value.sent
  {
    hide WireNext, WireRun, WireLine;
    var r, op := w.replicas[i], w.replicas[i].push.value;
    var steps := LinesOut(i, ivs, op.sent, n);
    if op.sent == n {
      assert steps + rest == rest;
    } else {
      var s := WireStep(PushLine(i), ivs(op.sent));
      var w1 := WireNext(a, key, keys, w, s);
      var r1 := r.(push := Some(op.(sent := op.sent + 1)));
      assert steps + rest == [s] + (LinesOut(i, ivs, op.sent + 1, n) + rest);
      OneThen(a, key, keys, w, s, LinesOut(i, ivs, op.sent + 1, n) + rest);
      WireLineStep(a, key, keys, w, s);
      assert w1 == World(w.replicas[i := r1], w.relays[op.relay := Lines(w, op.relay) + [wire[op.sent]]]);
      LinesGoOutSealed(a, key, keys, w1, i, ivs, n, wire, rest);
      assert wire[op.sent..] == [wire[op.sent]] + wire[op.sent + 1..];
      OneMoreLine(w, w1, i, r1, op.relay, wire, op.sent, n);
      var done := r.(push := Some(op.(sent := n)));
      assert w1.replicas[i := done] == w.replicas[i := done];
    }
  }

  lemma OneMoreLine(w: World, w1: World, i: nat, r1: Replica, relay: Id, wire: Log, sent: nat, n: nat)
    requires i < |w.replicas| && sent < n == |wire|
    requires w1 == World(w.replicas[i := r1], w.relays[relay := Lines(w, relay) + [wire[sent]]])
    ensures w1.relays[relay := Lines(w1, relay) + wire[sent + 1..]] == w.relays[relay := Lines(w, relay) + wire[sent..]]
    ensures sent + 1 == n ==> w1.relays == w.relays[relay := Lines(w, relay) + wire[sent..]]
  {
    assert Lines(w1, relay) + wire[sent + 1..] == Lines(w, relay) + wire[sent..];
    if sent + 1 == n { assert [wire[sent]] == wire[sent..]; }
  }

  /** The replica of a bound site, next to its relay. */
  ghost predicate Stands(s: Site, w: World, keys: Keys, i: nat) {
    && s.state.remote.Some? && |keys| == |w.replicas| && i < |w.replicas|
    && w.replicas[i] == AsReplica(s) && Lines(w, s.state.remote.value) == s.lines && keys[i] == s.state.key
  }

  /** What `w` becomes when the site does, bookkeeping notes aside. */
  ghost predicate Follows(w: World, v: World, i: nat, s: Site, after: Site, notes: nat) {
    && i < |w.replicas| && s.state.remote.Some? && after.state.remote == s.state.remote && notes <= |after.log|
    && v.replicas == w.replicas[i := AsReplica(after).(log := after.log[..|after.log| - notes])]
    && (forall n :: n in after.log[|after.log| - notes..] ==> Bookkeeping(n))
    && Lines(v, s.state.remote.value) == after.lines
    && forall relay :: relay != s.state.remote.value ==> Lines(v, relay) == Lines(w, relay)
  }

  /** A push of the service, keyed or not, is a whole push over the wire followed by bookkeeping notes. */
  lemma PushIsWirePush(s: Site, projectId: Id, a: Aead, ivs: nat -> string, stamps: Log, key: Key, keys: Keys, w: World,
      i: nat)
    requires Stands(s, w, keys, i) && Stamps(stamps, s.state)
    ensures var pending := Pending(s.log, s.state.pushed);
            Follows(w, WireRun(a, key, keys, w, WirePush(i, ivs, |pending|)), i, s,
                    AfterPush(s, projectId, a, ivs, stamps), PushWrites(s.state, pending))
  {
    hide WireNext, WireRun, WireLine, Pending, LastId, EncryptEvent;
    var pending := Pending(s.log, s.state.pushed);
    var n := |pending|;
    var r := AsReplica(s);
    var wire := Wire(a, s.state.key, ivs, pending);
    WireIsLineByLine(a, s.state.key, ivs, pending);
    var lines, mark := LinesOut(i, ivs, 0, n), Plainly([PushMark(i)]);
    var crash, begin := WireStep(Crash(i), ""), WireStep(PushBegin(i), "");
    assert WirePush(i, ivs, n) == [crash] + ([begin] + (lines + mark));
    OneThen(a, key, keys, w, crash, [begin] + (lines + mark));
    QuietStep(a, key, keys, w, Crash(i), "", r);
    assert WithReplica(w, i, r) == w;
    var op := PushOp(r.remote, pending, 0);
    OneThen(a, key, keys, w, begin, lines + mark);
    QuietStep(a, key, keys, w, PushBegin(i), "", r.(push := Some(op)));
    var w2 := WithReplica(w, i, r.(push := Some(op)));
    LinesGoOutSealed(a, key, keys, w2, i, ivs, n, wire, mark);
    assert wire[0..] == wire;
    var w3 := if n == 0 then w2
              else World(w2.replicas[i := r.(push := Some(op.(sent := n)))],
                         w2.relays[r.remote := Lines(w2, r.remote) + wire]);
    MarkEndsPush(a, key, keys, w, w3, i, r, op.(sent := n), mark);
    var v := WireRun(a, key, keys, w, WirePush(i, ivs, n));
    var after := AfterPush(s, projectId, a, ivs, stamps);
    var notes := PushWrites(s.state, pending);
    assert after.log[..|after.log| - notes] == s.log && after.log[|after.log| - notes..] == stamps[..notes];
    assert n == 0 ==> s.lines + wire == s.lines;
  }

  lemma WireIsLineByLine(a: Aead, key: Option<Key>, ivs: nat -> string, events: Log)
    ensures |Wire(a, key, ivs, events)| == |events|
    ensures forall k :: 0 <= k < |events| ==> Wire(a, key, ivs, events)[k] == WireLine(a, key, ivs(k), events[k])
  {
    hide EncryptEvent;
  }

  lemma MarkEndsPush(a: Aead, key: Key, keys: Keys, w: World, w3: World, i: nat, r: Replica, op: PushOp,
      mark: seq<WireStep>)
    requires |keys| == |w.replicas| == |w3.replicas| && i < |w.replicas| && mark == Plainly([PushMark(i)])
    requires op.sent == |op.batch| && w3.replicas == w.replicas[i := r.(push := Some(op))]
    ensures WireRun(a, key, keys, w3, mark) ==
            World(w.replicas[i := r.(push := None, pushed := LastId(op.batch, r.pushed))], w3.relays)
  {
    hide WireNext, LastId;
    var s := WireStep(PushMark(i), "");
    assert mark == [s] + [];
    OneThen(a, key, keys, w3, s, []);
    QuietStep(a, key, keys, w3, PushMark(i), "", r.(push := None, pushed := LastId(op.batch, r.pushed)));
    assert w3.replicas[i := r.(push := None, pushed := LastId(op.batch, r.pushed))] ==
           w.replicas[i := r.(push := None, pushed := LastId(op.batch, r.pushed))];
  }

  /**
   * A pull of the service, keyed or not, is a whole pull over the wire followed by bookkeeping
   * notes; one it cannot read leaves the replica as it is.
   */
  lemma PullIsWirePull(s: Site, a: Aead, stamps: Log, key: Key, keys: Keys, w: World, i: nat)
    requires Stands(s, w, keys, i) && Stamps(stamps, s.state)
    ensures var batch := ReadSince(s.lines, s.state.pulled); var plain := Unwire(a, s.state.key, batch);
            var v := WireRun(a, key, keys, w, WirePull(i));
            if plain.None? then v == w
            else Follows(w, v, i, s, AfterPull(s, plain.value, stamps), PullWrites(s.state, batch))
  {
    hide WireNext, WireRun, ReadSince, Unwire, InsertNew, LastId;
    var batch := ReadSince(s.lines, s.state.pulled);
    var plain := Unwire(a, s.state.key, batch);
    var r := AsReplica(s);
    var crash, begin := WireStep(Crash(i), ""), WireStep(PullBegin(i), "");
    var insert, mark := WireStep(PullInsert(i), ""), WireStep(PullMark(i), "");
    assert WirePull(i) == [crash] + ([begin] + ([insert] + ([mark] + [])));
    OneThen(a, key, keys, w, crash, [begin] + ([insert] + ([mark] + [])));
    QuietStep(a, key, keys, w, Crash(i), "", r);
    assert WithReplica(w, i, r) == w;
    OneThen(a, key, keys, w, begin, [insert] + ([mark] + []));
    WireBeginStep(a, key, keys, w, begin);
    if plain.None? {
      QuietStep(a, key, keys, w, PullInsert(i), "", r);
      QuietStep(a, key, keys, w, PullMark(i), "", r);
      OneThen(a, key, keys, w, insert, [mark] + []);
      OneThen(a, key, keys, w, mark, []);
      NoMoreSteps(a, key, keys, w);
    } else {
      ReadablePull(s, a, key, keys, w, i, plain.value);
      var after := AfterPull(s, plain.value, stamps);
      var notes := PullWrites(s.state, batch);
      assert after.log[..|after.log| - notes] == InsertNew(s.log, plain.value);
      assert after.log[|after.log| - notes..] == stamps[..notes];
      UnwireKeepsIds(a, s.state.key, batch);
      SameLastId(batch, plain.value, s.state.pulled);
    }
  }

  lemma NoMoreSteps(a: Aead, key: Key, keys: Keys, w: World)
    requires |keys| == |w.replicas|
    ensures WireRun(a, key, keys, w, []) == w
  {
  }

  lemma UnwireKeepsIds(a: Aead, key: Option<Key>, batch: Log)
    requires Unwire(a, key, batch).Some?
    ensures |Unwire(a, key, batch).value| == |batch|
    ensures forall k :: 0 <= k < |batch| ==> Unwire(a, key, batch).value[k].id == batch[k].id
  {
    if key.Some? { DecryptAllPointwise(a, key.value, batch); }
  }

  lemma SameLastId(batch: Log, plain: Log, otherwise: Option<Id>)
    requires |plain| == |batch| && forall k :: 0 <= k < |batch| ==> plain[k].id == batch[k].id
    ensures LastId(plain, otherwise) == LastId(batch, otherwise)
  {
  }

  lemma ReadablePull(s: Site, a: Aead, key: Key, keys: Keys, w: World, i: nat, plain: Log)
    requires Stands(s, w, keys, i) && Unwire(a, s.state.key, ReadSince(s.lines, s.state.pulled)) == Some(plain)
    ensures var r := AsReplica(s); var op := PullOp(r.remote, StartAfter(s.lines, r.pulled), plain, false);
            var w1 := WithReplica(w, i, r.(pull := Some(op)));
            && |w1.replicas| == |w.replicas|
            && WireNext(a, key, keys, w, WireStep(PullBegin(i), "")) == w1
            && WireRun(a, key, keys, w1, [WireStep(PullInsert(i), "")] + ([WireStep(PullMark(i), "")] + [])) ==
               WithReplica(w, i, r.(log := InsertNew(r.log, plain), pulled := LastId(plain, r.pulled)))
  {
    hide WireNext, WireRun, ReadSince, Unwire, InsertNew, LastId;
    var r := AsReplica(s);
    var op := PullOp(r.remote, StartAfter(s.lines, r.pulled), plain, false);
    var begin, insert, mark := WireStep(PullBegin(i), ""), WireStep(PullInsert(i), ""), WireStep(PullMark(i), "");
    WireBeginStep(a, key, keys, w, begin);
    var w1 := WithReplica(w, i, r.(pull := Some(op)));
    var r2 := r.(log := InsertNew(r.log, plain), pull := Some(op.(inserted := true)));
    var w2 := WithReplica(w, i, r2);
    OneThen(a, key, keys, w1, insert, [mark] + []);
    QuietStep(a, key, keys, w1, PullInsert(i), "", r2);
    assert WithReplica(w1, i, r2) == w2;
    OneThen(a, key, keys, w2, mark, []);
    var r3 := r.(log := InsertNew(r.log, plain), pulled := LastId(plain, r.pulled));
    QuietStep(a, key, keys, w2, PullMark(i), "", r3);
    assert WithReplica(w2, i, r3) == WithReplica(w, i, r3);
    NoMoreSteps(a, key, keys, WithReplica(w, i, r3));
  }

  // --- over all runs ------------------------------------------------------------------------------------

  /** Sealed, and closed to every other key. */
  ghost predicate OnlyFor(a: Aead, key: Key, line: Event) {
    line.payload.Sealed? && forall other :: other != key ==> DecryptEvent(a, other, line).None?
  }

  ghost predicate AllKeyed(keys: Keys, key: Key) {
    forall k :: k in keys ==> k == Some(key)
  }

  ghost predicate NothingInClear(a: Aead, key: Key, w: World) {
    forall relay, line :: line in Lines(w, relay) ==> OnlyFor(a, key, line)
  }

  lemma StepStaysSealed(a: Aead, key: Key, keys: Keys, w: World, s: WireStep)
    requires Sound(a) && |keys| == |w.replicas| && AllKeyed(keys, key) && NothingInClear(a, key, w)
    ensures NothingInClear(a, key, WireNext(a, key, keys, w, s))
  {
    hide WireNext, OnlyFor, Sound;
    var i := s.step.i;
    if s.step.PushLine? && i < |w.replicas| && w.replicas[i].push.Some? &&
       w.replicas[i].push.value.sent < |w.replicas[i].push.value.batch| {
      var op := w.replicas[i].push.value;
      var e := op.batch[op.sent];
      WireLineStep(a, key, keys, w, s);
      assert keys[i] in keys;
      var line := EncryptEvent(a, key, s.iv, e);
      SealedIsOnlyFor(a, key, s.iv, e);
      forall relay, x | x in Lines(WireNext(a, key, keys, w, s), relay) ensures OnlyFor(a, key, x) {
        assert x in Lines(w, relay) || x == line;
      }
    } else {
      OtherStepsSendNothing(a, key, keys, w, s);
      assert forall relay :: Lines(WireNext(a, key, keys, w, s), relay) == Lines(w, relay);
    }
  }

  lemma SealedIsOnlyFor(a: Aead, key: Key, iv: string, e: Event)
    requires Sound(a)
    ensures OnlyFor(a, key, EncryptEvent(a, key, iv, e))
  {
    SealedLine(a, key, iv, e);
  }

  lemma OtherStepsSendNothing(a: Aead, key: Key, keys: Keys, w: World, s: WireStep)
    requires |keys| == |w.replicas|
    requires !(s.step.PushLine? && s.step.i < |w.replicas| && w.replicas[s.step.i].push.Some? &&
               w.replicas[s.step.i].push.value.sent < |w.replicas[s.step.i].push.value.batch|)
    ensures WireNext(a, key, keys, w, s).relays == w.relays
  {
    hide MayAppend, InWorld, Pending, InsertNew, ReadSince, Unwire, EncryptEvent;
  }

  /** When every replica holds the key, no run of whatever steps puts anything on a relay in the clear. */
  lemma {:induction false} NothingLeavesInClear(a: Aead, key: Key, keys: Keys, w: World, steps: seq<WireStep>)
    requires Sound(a) && |keys| == |w.replicas| && AllKeyed(keys, key) && NothingInClear(a, key, w)
    ensures NothingInClear(a, key, WireRun(a, key, keys, w, steps))
    decreases steps
  {
    hide WireNext, Sound, NothingInClear;
    if steps != [] {
      WireNextKeepsSize(a, key, keys, w, steps[0]);
      StepStaysSealed(a, key, keys, w, steps[0]);
      NothingLeavesInClear(a, key, keys, WireNext(a, key, keys, w, steps[0]), steps[1..]);
    }
  }
}
