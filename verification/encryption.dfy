/** End-to-end encryption of event payloads, over an abstract authenticated cipher. */
module Encryption {
  import opened Events

  type Key = string

  /** `seal(key, iv, aad, payload)` gives ciphertext and tag; `open(key, iv, aad, ct, tag)` undoes it or refuses. */
  datatype Aead = Aead(
    keyId: Key -> string,
    seal: (Key, string, string, Payload) -> (string, string),
    open: (Key, string, string, string, string) -> Option<Payload>)

  /** What the cipher promises: it opens what it sealed, and nothing under another key or for another id. */
  ghost predicate Sound(a: Aead) {
    && (forall k, iv, aad, p :: a.open(k, iv, aad, a.seal(k, iv, aad, p).0, a.seal(k, iv, aad, p).1) == Some(p))
    && (forall k, iv, aad, p, k', aad' :: k != k' || aad != aad' ==>
          a.open(k', iv, aad', a.seal(k, iv, aad, p).0, a.seal(k, iv, aad, p).1) == None)
  }

  /** The event id is authenticated along with the payload; everything else stays readable. */
  function EncryptEvent(a: Aead, key: Key, iv: string, e: Event): Event {
    var sealed := a.seal(key, iv, e.id, e.payload);
    e.(payload := Sealed(Envelope(a.keyId(key), iv, sealed.0, sealed.1)))
  }

  /** Plain payloads pass through; a foreign key id, a foreign key or a foreign event id refuses. */
  function DecryptEvent(a: Aead, key: Key, e: Event): Option<Event> {
    match e.payload
    case Sealed(env) =>
      if env.kid != a.keyId(key) then None
      else
        var plain := a.open(key, env.iv, e.id, env.ct, env.tag);
        if plain.None? then None else Some(e.(payload := plain.value))
    case _ => Some(e)
  }

  /** A batch is decrypted as a whole or not at all. */
  function DecryptAll(a: Aead, key: Key, events: Log): Option<Log> {
    if events == [] then Some([])
    else
      var head := DecryptEvent(a, key, events[0]);
      var tail := DecryptAll(a, key, events[1..]);
      if head.None? || tail.None? then None else Some([head.value] + tail.value)
  }

  function EncryptAll(a: Aead, key: Key, ivs: nat -> string, events: Log): Log {
    seq(|events|, i requires 0 <= i < |events| => EncryptEvent(a, key, ivs(i), events[i]))
  }

  predicate AnySealed(events: Log) {
    exists e :: e in events && e.payload.Sealed?
  }

  /** What a replica makes of a pulled batch: nothing, when it cannot read all of it. */
  function Unwire(a: Aead, key: Option<Key>, events: Log): Option<Log> {
    if key.Some? then DecryptAll(a, key.value, events)
    else if AnySealed(events) then None
    else Some(events)
  }

  lemma DecryptUndoesEncrypt(a: Aead, key: Key, iv: string, e: Event)
    requires Sound(a)
    ensures DecryptEvent(a, key, EncryptEvent(a, key, iv, e)) == Some(e)
  {
  }

  /** Another key never opens an event, nor does the right key once the event id was changed. */
  lemma OnlyTheRightKeyAndId(a: Aead, key: Key, key': Key, iv: string, e: Event, id': Id)
    requires Sound(a)
    ensures DecryptEvent(a, key', EncryptEvent(a, key, iv, e).(id := id')) ==
            if key' == key && id' == e.id then Some(e) else None
  {
    var wire := EncryptEvent(a, key, iv, e).(id := id');
    var env := wire.payload.envelope;
    if key' != key || id' != e.id {
      assert a.open(key', iv, id', a.seal(key, iv, e.id, e.payload).0, a.seal(key, iv, e.id, e.payload).1) == None;
    }
  }

  /** Decryption succeeds on a batch exactly when it succeeds on each event, in place and with ids kept. */
  lemma {:induction false} DecryptAllPointwise(a: Aead, key: Key, events: Log)
    ensures DecryptAll(a, key, events).Some? <==>
            forall i :: 0 <= i < |events| ==> DecryptEvent(a, key, events[i]).Some?
    ensures DecryptAll(a, key, events).Some? ==>
              && |DecryptAll(a, key, events).value| == |events|
              && forall i :: 0 <= i < |events| ==>
                   && Some(DecryptAll(a, key, events).value[i]) == DecryptEvent(a, key, events[i])
                   && DecryptAll(a, key, events).value[i].id == events[i].id
  {
    if events != [] {
      DecryptAllPointwise(a, key, events[1..]);
      assert forall i :: 1 <= i < |events| ==> events[i] == events[1..][i - 1];
    }
  }

  lemma BatchRoundTrip(a: Aead, key: Key, ivs: nat -> string, events: Log)
    requires Sound(a)
    ensures DecryptAll(a, key, EncryptAll(a, key, ivs, events)) == Some(events)
  {
    var wire := EncryptAll(a, key, ivs, events);
    DecryptAllPointwise(a, key, wire);
    forall i | 0 <= i < |wire| ensures DecryptEvent(a, key, wire[i]) == Some(events[i]) {
      DecryptUndoesEncrypt(a, key, ivs(i), events[i]);
    }
    assert DecryptAll(a, key, wire).value == events;
  }

  /** A line as it lies on a relay: in the clear, or sealed by some key and filed under some id. */
  datatype RelayLine = InClear(event: Event) | UnderKey(key: Key, iv: string, event: Event, id: Id)

  function OnWire(a: Aead, line: RelayLine): Event {
    match line
    case InClear(e) => e
    case UnderKey(key, iv, e, id) => EncryptEvent(a, key, iv, e).(id := id)
  }

  function AllOnWire(a: Aead, lines: seq<RelayLine>): Log {
    seq(|lines|, i requires 0 <= i < |lines| => OnWire(a, lines[i]))
  }

  predicate OpensUnder(key: Key, line: RelayLine) {
    line.UnderKey? ==> line.key == key && line.id == line.event.id
  }

  /**
   * A batch of clear lines and of lines sealed by any keys opens exactly when every sealed one
   * was sealed by this key and still carries its own id; it then yields the events as they were.
   */
  lemma BatchOpensExactly(a: Aead, key: Key, lines: seq<RelayLine>)
    requires Sound(a) && forall line :: line in lines && line.InClear? ==> !line.event.payload.Sealed?
    ensures DecryptAll(a, key, AllOnWire(a, lines)).Some? <==> forall line :: line in lines ==> OpensUnder(key, line)
    ensures DecryptAll(a, key, AllOnWire(a, lines)).Some? ==>
              DecryptAll(a, key, AllOnWire(a, lines)).value ==
              seq(|lines|, i requires 0 <= i < |lines| => lines[i].event)
  {
    hide EncryptEvent, DecryptEvent, Sound, OpensUnder;
    var wire := AllOnWire(a, lines);
    DecryptAllPointwise(a, key, wire);
    forall i | 0 <= i < |lines|
      ensures DecryptEvent(a, key, wire[i]) == if OpensUnder(key, lines[i]) then Some(lines[i].event) else None
    {
      assert lines[i] in lines && wire[i] == OnWire(a, lines[i]);
      LineOpensExactly(a, key, lines[i]);
    }
    assert forall line :: line in lines ==> exists i :: 0 <= i < |lines| && lines[i] == line;
  }

  lemma LineOpensExactly(a: Aead, key: Key, line: RelayLine)
    requires Sound(a) && (line.InClear? ==> !line.event.payload.Sealed?)
    ensures DecryptEvent(a, key, OnWire(a, line)) == if OpensUnder(key, line) then Some(line.event) else None
  {
    if line.UnderKey? { OnlyTheRightKeyAndId(a, line.key, key, line.iv, line.event, line.id); }
  }
}
