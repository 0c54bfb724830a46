/** Encrypted sync does on every replica what plaintext sync does. */
module EncryptedRuns {
  import opened Events
  import opened EventLog
  import opened Encryption
  import opened SyncRuns

  /** Which replicas hold the project key; the others sync in the clear. */
  type Keys = seq<Option<Key>>

  ghost predicate OneKey(keys: Keys, key: Key) {
    forall k :: k in keys ==> k == None || k == Some(key)
  }

  datatype WireStep = WireStep(step: Step, iv: string)

  /** What a holder of the key reads on a relay line. */
  function Open(a: Aead, key: Key, line: Event): Event {
    DecryptEvent(a, key, line).GetOr(line)
  }

  function OpenAll(a: Aead, key: Key, lines: Log): Log {
    seq(|lines|, i requires 0 <= i < |lines| => Open(a, key, lines[i]))
  }

  /** The same world with every relay line read in the clear. */
  function Clear(a: Aead, key: Key, w: World): World {
    w.(relays := map relay | relay in w.relays :: OpenAll(a, key, w.relays[relay]))
  }

  /** Only real payloads are appended; an envelope is never mistaken for one. */
  predicate PlainAppend(step: Step) {
    step.Append? || step.Note? ==> !step.event.payload.Sealed?
  }

  /** One step over the wire: lines are sealed on the way out and opened, all or none, on the way in. */
  ghost function WireNext(a: Aead, key: Key, keys: Keys, w: World, s: WireStep): World
    requires |keys| == |w.replicas|
  {
    if s.step.i >= |w.replicas| || !PlainAppend(s.step) then w
    else
      var i, r := s.step.i, w.replicas[s.step.i];
      match s.step
      case PushLine(_) =>
        if r.push.Some? && r.push.value.sent < |r.push.value.batch| then
          var op := r.push.value;
          var e := op.batch[op.sent];
          var line := if keys[i].Some? then EncryptEvent(a, keys[i].value, s.iv, e) else e;
          WithReplica(w, i, r.(push := Some(op.(sent := op.sent + 1)))).(relays :=
            w.relays[op.relay := Lines(w, op.relay) + [line]])
        else w
      case PullBegin(_) =>
        var slice := SliceOf(w, r);
        var plain := Unwire(a, keys[i], slice.batch);
        if r.pull.None? && plain.Some?
        then WithReplica(w, i, r.(pull := Some(slice.(batch := plain.value)))) else w
      case _ => w.(replicas := Next(Clear(a, key, w), s.step).replicas)
  }

  ghost function WireRun(a: Aead, key: Key, keys: Keys, w: World, steps: seq<WireStep>): World
    requires |keys| == |w.replicas|
    decreases steps
  {
    if steps == [] then w
    else
      WireNextKeepsSize(a, key, keys, w, steps[0]);
      WireRun(a, key, keys, WireNext(a, key, keys, w, steps[0]), steps[1..])
  }

  lemma WireNextKeepsSize(a: Aead, key: Key, keys: Keys, w: World, s: WireStep)
    requires |keys| == |w.replicas|
    ensures |WireNext(a, key, keys, w, s).replicas| == |w.replicas|
  {
    hide MayAppend;
  }

  /** Every sealed line opens under the project key, and no log or batch holds an envelope. */
  ghost predicate Readable(a: Aead, key: Key, w: World) {
    && (forall relay, line :: line in Lines(w, relay) ==> ReadableLine(a, key, line))
    && (forall i :: 0 <= i < |w.replicas| ==> NoEnvelopes(w.replicas[i]))
  }

  predicate ReadableLine(a: Aead, key: Key, line: Event) {
    DecryptEvent(a, key, line).Some? && !Open(a, key, line).payload.Sealed?
  }

  ghost predicate NoEnvelopes(r: Replica) {
    && (forall e :: e in r.log ==> !e.payload.Sealed?)
    && (r.push.Some? ==> forall e :: e in r.push.value.batch ==> !e.payload.Sealed?)
    && (r.pull.Some? ==> forall e :: e in r.pull.value.batch ==> !e.payload.Sealed?)
  }

  // --- reading commutes with opening --------------------------------------------------------

  lemma ClearLines(a: Aead, key: Key, w: World, relay: Id)
    ensures Lines(Clear(a, key, w), relay) == OpenAll(a, key, Lines(w, relay))
  {
  }

  lemma OpenKeepsIds(a: Aead, key: Key, lines: Log)
    ensures |OpenAll(a, key, lines)| == |lines|
    ensures forall i :: 0 <= i < |lines| ==> OpenAll(a, key, lines)[i].id == lines[i].id
  {
    var clear := OpenAll(a, key, lines);
    forall i | 0 <= i < |lines| ensures clear[i].id == lines[i].id {
      assert clear[i] == Open(a, key, lines[i]);
    }
  }

  lemma SameIdsSamePosition(p: Log, q: Log, id: Id)
    requires |p| == |q| && forall i :: 0 <= i < |p| ==> p[i].id == q[i].id
    ensures Position(p, id) == Position(q, id) && (HasId(p, id) <==> HasId(q, id))
  {
    var x, y := Position(p, id), Position(q, id);
    assert x < |p| ==> q[x].id == id;
    assert y < |q| ==> p[y].id == id;
  }

  lemma OpenSuffix(a: Aead, key: Key, lines: Log, start: nat)
    requires start <= |lines|
    ensures |OpenAll(a, key, lines)| == |lines| && OpenAll(a, key, lines)[start..] == OpenAll(a, key, lines[start..])
  {
    hide Open;
  }

  lemma SameIdsSameStart(p: Log, q: Log, since: Option<Id>)
    requires |p| == |q| && forall i :: 0 <= i < |p| ==> p[i].id == q[i].id
    ensures StartAfter(p, since) == StartAfter(q, since)
  {
    hide ReadSince, HasId;
    if since.Some? { SameIdsSamePosition(p, q, since.value); }
  }

  lemma ReadingCommutes(a: Aead, key: Key, lines: Log, since: Option<Id>)
    ensures StartAfter(OpenAll(a, key, lines), since) == StartAfter(lines, since)
    ensures ReadSince(OpenAll(a, key, lines), since) == OpenAll(a, key, ReadSince(lines, since))
  {
    hide OpenAll, ReadSince, HasId;
    OpenKeepsIds(a, key, lines);
    SameIdsSameStart(lines, OpenAll(a, key, lines), since);
    OpenSuffix(a, key, lines, StartAfter(lines, since));
  }

  lemma UnwireOpens(a: Aead, key: Key, mine: Option<Key>, batch: Log)
    requires mine == None || mine == Some(key)
    requires forall line :: line in batch ==> DecryptEvent(a, key, line).Some?
    requires Unwire(a, mine, batch).Some?
    ensures Unwire(a, mine, batch) == Some(OpenAll(a, key, batch))
  {
    if mine.Some? {
      DecryptAllPointwise(a, key, batch);
      assert DecryptAll(a, key, batch).value == OpenAll(a, key, batch);
    } else {
      assert forall i :: 0 <= i < |batch| ==> batch[i] in batch && !batch[i].payload.Sealed?;
      assert OpenAll(a, key, batch) == batch;
    }
  }

  /** A key holder can always read a readable batch; a keyless replica exactly when no line is sealed. */
  lemma WhoCanRead(a: Aead, key: Key, mine: Option<Key>, batch: Log)
    requires mine == None || mine == Some(key)
    requires forall line :: line in batch ==> DecryptEvent(a, key, line).Some?
    ensures Unwire(a, mine, batch).None? <==> mine.None? && AnySealed(batch)
  {
    if mine.Some? { DecryptAllPointwise(a, key, batch); }
  }

  // --- one step -----------------------------------------------------------------------------

  function WireLine(a: Aead, key: Option<Key>, iv: string, e: Event): Event {
    if key.Some? then EncryptEvent(a, key.value, iv, e) else e
  }

  lemma LineOpens(a: Aead, key: Key, other: Option<Key>, iv: string, e: Event)
    requires Sound(a) && !e.payload.Sealed? && (other.Some? ==> other.value == key)
    ensures Open(a, key, WireLine(a, other, iv, e)) == e && ReadableLine(a, key, WireLine(a, other, iv, e))
  {
    DecryptUndoesEncrypt(a, key, iv, e);
  }

  lemma OpenOneMore(a: Aead, key: Key, lines: Log, line: Event)
    ensures OpenAll(a, key, lines + [line]) == OpenAll(a, key, lines) + [Open(a, key, line)]
  {
    hide Open;
  }

  /** A line on the wire changes one relay and how much was sent. */
  lemma WireLineStep(a: Aead, key: Key, keys: Keys, w: World, s: WireStep)
    requires |keys| == |w.replicas| && s.step.PushLine? && s.step.i < |w.replicas|
    requires w.replicas[s.step.i].push.Some? &&
             w.replicas[s.step.i].push.value.sent < |w.replicas[s.step.i].push.value.batch|
    ensures var i := s.step.i; var r, op := w.replicas[i], w.replicas[i].push.value;
            var line := WireLine(a, keys[i], s.iv, op.batch[op.sent]);
            WireNext(a, key, keys, w, s) ==
            WithReplica(w, i, r.(push := Some(op.(sent := op.sent + 1))))
              .(relays := w.relays[op.relay := Lines(w, op.relay) + [line]])
  {
    hide MayAppend, InWorld, Pending, InsertNew, ReadSince, Unwire, EncryptEvent;
  }

  lemma PlainLineStep(w: World, step: Step)
    requires step.PushLine? && step.i < |w.replicas|
    requires w.replicas[step.i].push.Some? && w.replicas[step.i].push.value.sent < |w.replicas[step.i].push.value.batch|
    ensures var i := step.i; var r, op := w.replicas[i], w.replicas[i].push.value;
            Next(w, step) ==
            WithReplica(w, i, r.(push := Some(op.(sent := op.sent + 1))))
              .(relays := w.relays[op.relay := Lines(w, op.relay) + [op.batch[op.sent]]])
  {
    hide MayAppend, InWorld, Pending, InsertNew, ReadSince;
  }

  lemma NothingPushed(a: Aead, key: Key, keys: Keys, w: World, s: WireStep)
    requires |keys| == |w.replicas| && s.step.PushLine?
    requires s.step.i >= |w.replicas| || w.replicas[s.step.i].push.None? ||
             w.replicas[s.step.i].push.value.sent >= |w.replicas[s.step.i].push.value.batch|
    ensures WireNext(a, key, keys, w, s) == w && Next(Clear(a, key, w), s.step) == Clear(a, key, w)
  {
    hide MayAppend, InWorld, Pending, InsertNew, ReadSince, OpenAll;
  }

  /** Opening a grown relay line by line. */
  lemma ClearGrows(a: Aead, key: Key, w: World, relay: Id, line: Event, replicas: seq<Replica>)
    ensures Clear(a, key, World(replicas, w.relays[relay := Lines(w, relay) + [line]])) ==
            World(replicas, Clear(a, key, w).relays[relay := Lines(Clear(a, key, w), relay) + [Open(a, key, line)]])
  {
    hide Open, OpenAll;
    OpenOneMore(a, key, Lines(w, relay), line);
    ClearLines(a, key, w, relay);
  }

  lemma ReadableGrows(a: Aead, key: Key, w: World, i: nat, r: Replica, relay: Id, line: Event)
    requires Readable(a, key, w) && i < |w.replicas| && NoEnvelopes(r) && ReadableLine(a, key, line)
    ensures Readable(a, key, World(w.replicas[i := r], w.relays[relay := Lines(w, relay) + [line]]))
  {
    hide ReadableLine;
    var w' := World(w.replicas[i := r], w.relays[relay := Lines(w, relay) + [line]]);
    forall other, x | x in Lines(w', other) ensures ReadableLine(a, key, x) {
      assert x in Lines(w, other) || x == line;
    }
    forall k | 0 <= k < |w'.replicas| ensures NoEnvelopes(w'.replicas[k]) {
      assert k != i ==> NoEnvelopes(w.replicas[k]);
    }
  }

  lemma SentStaysPlain(r: Replica)
    requires NoEnvelopes(r) && r.push.Some? && r.push.value.sent < |r.push.value.batch|
    ensures NoEnvelopes(r.(push := Some(r.push.value.(sent := r.push.value.sent + 1))))
    ensures !r.push.value.batch[r.push.value.sent].payload.Sealed?
  {
  }

  lemma PushLineRefines(a: Aead, key: Key, keys: Keys, w: World, s: WireStep)
    requires Sound(a) && |keys| == |w.replicas| && OneKey(keys, key) && Readable(a, key, w) && s.step.PushLine?
    ensures Clear(a, key, WireNext(a, key, keys, w, s)) == Next(Clear(a, key, w), s.step)
    ensures Readable(a, key, WireNext(a, key, keys, w, s))
  {
    hide WireNext, Next, Open, ReadableLine, WireLine, OpenAll, NoEnvelopes, Lines;
    var i := s.step.i;
    if i < |w.replicas| && w.replicas[i].push.Some? &&
      w.replicas[i].push.value.sent < |w.replicas[i].push.value.batch| {
      var r, op := w.replicas[i], w.replicas[i].push.value;
      var e := op.batch[op.sent];
      assert keys[i] in keys && NoEnvelopes(r);
      SentStaysPlain(r);
      var line := WireLine(a, keys[i], s.iv, e);
      LineOpens(a, key, keys[i], s.iv, e);
      WireLineStep(a, key, keys, w, s);
      PlainLineStep(Clear(a, key, w), s.step);
      var r' := r.(push := Some(op.(sent := op.sent + 1)));
      ClearGrows(a, key, w, op.relay, line, w.replicas[i := r']);
      ReadableGrows(a, key, w, i, r', op.relay, line);
    } else {
      NothingPushed(a, key, keys, w, s);
    }
  }

  /** Beginning a pull over the wire changes one replica, and only when the slice can be read. */
  lemma WireBeginStep(a: Aead, key: Key, keys: Keys, w: World, s: WireStep)
    requires |keys| == |w.replicas| && s.step.PullBegin? && s.step.i < |w.replicas|
    ensures var i := s.step.i; var r := w.replicas[i]; var slice := SliceOf(w, r);
            var plain := Unwire(a, keys[i], slice.batch);
            WireNext(a, key, keys, w, s) ==
            if r.pull.None? && plain.Some?
            then WithReplica(w, i, r.(pull := Some(slice.(batch := plain.value)))) else w
  {
    hide MayAppend, InWorld, Pending, InsertNew, ReadSince, Unwire, EncryptEvent;
  }

  lemma PlainBeginStep(w: World, step: Step)
    requires step.PullBegin? && step.i < |w.replicas| && w.replicas[step.i].pull.None?
    ensures var i := step.i; var r := w.replicas[i]; Next(w, step) == WithReplica(w, i, r.(pull := Some(SliceOf(w, r))))
  {
    hide MayAppend, InWorld, Pending, InsertNew, ReadSince;
  }

  lemma ReadSliceIsPlain(a: Aead, key: Key, w: World, other: Option<Key>, relay: Id, since: Option<Id>)
    requires Readable(a, key, w) && (other.Some? ==> other.value == key)
    requires Unwire(a, other, ReadSince(Lines(w, relay), since)).Some?
    ensures var lines := Lines(w, relay); var plain := Unwire(a, other, ReadSince(lines, since)).value;
            var clear := OpenAll(a, key, lines);
            && plain == ReadSince(clear, since) && StartAfter(lines, since) == StartAfter(clear, since)
            && forall e :: e in plain ==> !e.payload.Sealed?
  {
    hide MayAppend, InWorld, DecryptAll, Lines, HasId;
    var lines := Lines(w, relay);
    var batch := ReadSince(lines, since);
    assert forall line :: line in batch ==> line in lines && ReadableLine(a, key, line);
    UnwireOpens(a, key, other, batch);
    ReadingCommutes(a, key, lines, since);
    var clear := OpenAll(a, key, batch);
    forall e | e in clear ensures !e.payload.Sealed? {
      var x :| 0 <= x < |clear| && clear[x] == e;
      assert batch[x] in lines;
    }
  }

  lemma ReadableAfterBegin(a: Aead, key: Key, w: World, i: nat, r: Replica)
    requires Readable(a, key, w) && i < |w.replicas| && NoEnvelopes(r)
    ensures Readable(a, key, WithReplica(w, i, r)) &&
            Clear(a, key, WithReplica(w, i, r)) == WithReplica(Clear(a, key, w), i, r)
  {
    hide ReadableLine, OpenAll;
    var after := WithReplica(w, i, r).replicas;
    forall k | 0 <= k < |after| ensures NoEnvelopes(after[k]) {
      assert k != i ==> NoEnvelopes(w.replicas[k]);
    }
    assert forall relay :: Lines(WithReplica(w, i, r), relay) == Lines(w, relay);
  }

  lemma PulledStaysPlain(r: Replica, op: PullOp)
    requires NoEnvelopes(r) && forall e :: e in op.batch ==> !e.payload.Sealed?
    ensures NoEnvelopes(r.(pull := Some(op)))
  {
  }

  lemma PullBeginRefines(a: Aead, key: Key, keys: Keys, w: World, s: WireStep)
    requires |keys| == |w.replicas| && OneKey(keys, key) && Readable(a, key, w) && s.step.PullBegin?
    ensures WireNext(a, key, keys, w, s) == w ||
            Clear(a, key, WireNext(a, key, keys, w, s)) == Next(Clear(a, key, w), s.step)
    ensures Readable(a, key, WireNext(a, key, keys, w, s))
  {
    hide WireNext, Next, ReadableLine, OpenAll, NoEnvelopes, Lines, ReadSince, Unwire;
    var i := s.step.i;
    if i < |w.replicas| {
      var r := w.replicas[i];
      var lines := Lines(w, r.remote);
      assert keys[i] in keys && NoEnvelopes(r);
      WireBeginStep(a, key, keys, w, s);
      var plain := Unwire(a, keys[i], ReadSince(lines, r.pulled));
      if r.pull.None? && plain.Some? {
        ReadSliceIsPlain(a, key, w, keys[i], r.remote, r.pulled);
        ClearLines(a, key, w, r.remote);
        PlainBeginStep(Clear(a, key, w), s.step);
        var op := PullOp(r.remote, StartAfter(lines, r.pulled), plain.value, false);
        PulledStaysPlain(r, op);
        ReadableAfterBegin(a, key, w, i, r.(pull := Some(op)));
      }
    } else {
      OutOfRange(a, key, keys, w, s);
    }
  }

  lemma OutOfRange(a: Aead, key: Key, keys: Keys, w: World, s: WireStep)
    requires |keys| == |w.replicas| && s.step.i >= |w.replicas|
    ensures WireNext(a, key, keys, w, s) == w
  {
  }

  lemma {:induction false} InsertFrom(log: Log, batch: Log, e: Event)
    requires e in InsertNew(log, batch)
    ensures e in log || e in batch
    decreases |batch|
  {
    if batch != [] {
      if HasId(log, batch[0].id) {
        InsertFrom(log, batch[1..], e);
      } else {
        InsertFrom(log + [batch[0]], batch[1..], e);
      }
    }
  }

  lemma OtherStepRefines(a: Aead, key: Key, keys: Keys, w: World, s: WireStep)
    requires |keys| == |w.replicas| && Readable(a, key, w) && PlainAppend(s.step)
    requires !s.step.PushLine? && !s.step.PullBegin?
    ensures Clear(a, key, WireNext(a, key, keys, w, s)) == Next(Clear(a, key, w), s.step)
    ensures Readable(a, key, WireNext(a, key, keys, w, s))
  {
    hide MayAppend, InWorld, DecryptEvent, ReadableLine;
    var w' := WireNext(a, key, keys, w, s);
    assert w'.relays == w.relays;
    forall k | 0 <= k < |w'.replicas| ensures NoEnvelopes(w'.replicas[k]) {
      assert NoEnvelopes(w.replicas[k]);
      var r := w.replicas[k];
      if k == s.step.i && s.step.PushBegin? {
        forall e | e in Pending(r.log, r.pushed) ensures !e.payload.Sealed? {
          ShareableFrom(ReadSince(r.log, r.pushed), e);
        }
      } else if k == s.step.i && s.step.PullInsert? && r.pull.Some? {
        forall e | e in InsertNew(r.log, r.pull.value.batch) ensures !e.payload.Sealed? {
          InsertFrom(r.log, r.pull.value.batch, e);
        }
      }
    }
    assert forall relay :: Lines(w', relay) == Lines(w, relay);
  }

  // --- whole runs -----------------------------------------------------------------------------

  /** The plaintext run a wire run stands for: the same steps, without the pulls a keyless replica refused. */
  ghost function PlainRun(a: Aead, key: Key, keys: Keys, w: World, steps: seq<WireStep>): seq<Step>
    requires |keys| == |w.replicas|
    decreases steps
  {
    if steps == [] then []
    else
      WireNextKeepsSize(a, key, keys, w, steps[0]);
      var w' := WireNext(a, key, keys, w, steps[0]);
      (if w' == w then [] else [steps[0].step]) + PlainRun(a, key, keys, w', steps[1..])
  }

  /**
   * Every run over the wire, keyed and keyless replicas mixed, is a plaintext run: same
   * replica logs and watermarks, and the relay says the same thing once opened.
   */
  lemma {:induction false} EncryptedRunRefines(a: Aead, key: Key, keys: Keys, w: World, steps: seq<WireStep>)
    requires Sound(a) && |keys| == |w.replicas| && OneKey(keys, key) && Readable(a, key, w)
    ensures Clear(a, key, WireRun(a, key, keys, w, steps)) == Run(Clear(a, key, w), PlainRun(a, key, keys, w, steps))
    ensures WireRun(a, key, keys, w, steps).replicas == Run(Clear(a, key, w), PlainRun(a, key, keys, w, steps)).replicas
    ensures Readable(a, key, WireRun(a, key, keys, w, steps))
    decreases steps
  {
    hide Readable, Next, WireNext, OpenAll, OneKey, Sound;
    if steps != [] {
      var s := steps[0];
      WireNextKeepsSize(a, key, keys, w, s);
      var w' := WireNext(a, key, keys, w, s);
      if w' != w {
        OneWireStep(a, key, keys, w, s);
        var plain := PlainRun(a, key, keys, w, steps);
        assert plain[0] == s.step && plain[1..] == PlainRun(a, key, keys, w', steps[1..]);
      } else {
        assert PlainRun(a, key, keys, w, steps) == PlainRun(a, key, keys, w', steps[1..]);
      }
      EncryptedRunRefines(a, key, keys, w', steps[1..]);
    }
  }

  lemma OneWireStep(a: Aead, key: Key, keys: Keys, w: World, s: WireStep)
    requires Sound(a) && |keys| == |w.replicas| && OneKey(keys, key) && Readable(a, key, w)
    requires WireNext(a, key, keys, w, s) != w
    ensures Clear(a, key, WireNext(a, key, keys, w, s)) == Next(Clear(a, key, w), s.step)
    ensures Readable(a, key, WireNext(a, key, keys, w, s))
  {
    hide Next, Readable, Sound;
    match s.step
    case PushLine(_) => PushLineRefines(a, key, keys, w, s);
    case PullBegin(_) => PullBeginRefines(a, key, keys, w, s);
    case _ => OtherStepRefines(a, key, keys, w, s);
  }

  /** No mark of the run is late and no bind blind, by what the lines say once opened. */
  ghost predicate WireCareful(a: Aead, key: Key, keys: Keys, w: World, steps: seq<WireStep>)
    requires |keys| == |w.replicas|
    decreases steps
  {
    if steps == [] then true
    else
      WireNextKeepsSize(a, key, keys, w, steps[0]);
      !Careless(Clear(a, key, w), steps[0].step) &&
      WireCareful(a, key, keys, WireNext(a, key, keys, w, steps[0]), steps[1..])
  }

  lemma {:induction false} PlainRunIsCareful(a: Aead, key: Key, keys: Keys, w: World, steps: seq<WireStep>)
    requires Sound(a) && |keys| == |w.replicas| && OneKey(keys, key) && Readable(a, key, w)
    requires WireCareful(a, key, keys, w, steps)
    ensures Careful(Clear(a, key, w), PlainRun(a, key, keys, w, steps))
    decreases steps
  {
    hide Readable, Next, WireNext, OpenAll, OneKey, Sound;
    if steps != [] {
      var s := steps[0];
      WireNextKeepsSize(a, key, keys, w, s);
      var w' := WireNext(a, key, keys, w, s);
      if w' != w {
        OneWireStep(a, key, keys, w, s);
        var plain := PlainRun(a, key, keys, w, steps);
        assert plain[0] == s.step && plain[1..] == PlainRun(a, key, keys, w', steps[1..]);
      } else {
        assert PlainRun(a, key, keys, w, steps) == PlainRun(a, key, keys, w', steps[1..]);
      }
      PlainRunIsCareful(a, key, keys, w', steps[1..]);
    }
  }

  /** So the sync promise holds over the wire too: on what the relay says once opened. */
  lemma EncryptedSyncSafety(a: Aead, key: Key, keys: Keys, w: World, steps: seq<WireStep>)
    requires Sound(a) && |keys| == |w.replicas| && OneKey(keys, key) && Fresh(w)
    requires WireCareful(a, key, keys, w, steps)
    ensures Safe(Clear(a, key, WireRun(a, key, keys, w, steps)))
  {
    hide Safe, Run, Careful, WireCareful;
    assert forall i :: 0 <= i < |w.replicas| ==> w.replicas[i] in w.replicas;
    EncryptedRunRefines(a, key, keys, w, steps);
    PlainRunIsCareful(a, key, keys, w, steps);
    assert Clear(a, key, w).relays == map[];
    SyncSafety(Clear(a, key, w), PlainRun(a, key, keys, w, steps));
  }
}
