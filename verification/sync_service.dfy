/** Push and pull on stored state, step by step. */
module SyncService {
  import opened Events
  import opened EventLog
  import opened Encryption
  import opened SyncRuns

  datatype SyncStatus = Idle | Syncing | Conflicted | Offline

  datatype SyncState = SyncState(
    remote: Option<Id>, syncEnabled: bool, transport: bool, pushed: Option<Id>, pulled: Option<Id>,
    status: SyncStatus, key: Option<Key>)

  /** A store next to the relay file it syncs with. */
  datatype Site = Site(log: Log, state: SyncState, lines: Log)

  /** Bookkeeping events about to be minted, one per write of the sync state. */
  ghost predicate Stamps(stamps: Log, state: SyncState) {
    && |stamps| == 4
    && (forall s :: s in stamps ==> Bookkeeping(s) && state.pushed != Some(s.id))
  }

  function Wire(a: Aead, key: Option<Key>, ivs: nat -> string, events: Log): Log {
    if key.Some? then EncryptAll(a, key.value, ivs, events) else events
  }

  lemma WireKeepsIds(a: Aead, key: Option<Key>, ivs: nat -> string, events: Log)
    ensures |Wire(a, key, ivs, events)| == |events|
    ensures forall i :: 0 <= i < |events| ==> Wire(a, key, ivs, events)[i].id == events[i].id
  {
    if key.Some? {
      var wire := EncryptAll(a, key.value, ivs, events);
      forall i | 0 <= i < |events| ensures wire[i].id == events[i].id {
        assert wire[i] == EncryptEvent(a, key.value, ivs(i), events[i]);
      }
    }
  }

  /** How often a push rewrites the sync state: not at all when bound, idle and with nothing to send. */
  function PushWrites(state: SyncState, pending: Log): nat {
    (if state.remote.None? then 1 else 0) +
    (if pending == [] then (if state.status.Idle? then 0 else 1)
     else (if state.status.Syncing? then 0 else 1) + 2)
  }

  function PullWrites(state: SyncState, batch: Log): nat {
    (if batch == [] then 0 else 1) + (if state.status.Idle? then 0 else 1)
  }

  /** The site after a push that was not interrupted. */
  function AfterPush(s: Site, projectId: Id, a: Aead, ivs: nat -> string, stamps: Log): Site
    requires |stamps| == 4
  {
    var pending := Pending(s.log, s.state.pushed);
    Site(
      s.log + stamps[..PushWrites(s.state, pending)],
      s.state.(remote := Some(s.state.remote.GetOr(projectId)),
               syncEnabled := s.state.syncEnabled || s.state.remote.None?,
               pushed := LastId(pending, s.state.pushed),
               status := Idle),
      s.lines + Wire(a, s.state.key, ivs, pending))
  }

  /** The site after a pull whose batch could be read. */
  function AfterPull(s: Site, plain: Log, stamps: Log): Site
    requires |stamps| == 4
  {
    var batch := ReadSince(s.lines, s.state.pulled);
    Site(
      InsertNew(s.log, plain) + stamps[..PullWrites(s.state, batch)],
      s.state.(pulled := LastId(batch, s.state.pulled), status := Idle),
      s.lines)
  }

  datatype PullOutcome = Unbound | Unreadable | Pulled(total: nat, inserted: nat)

  // --- the relay file -------------------------------------------------------------------

  class FileRelay {
    var lines: Log

    /** Append the batch, one line at a time. */
    method Push(events: Log) returns (accepted: seq<Id>)
      modifies this
      ensures lines == old(lines) + events
      ensures |accepted| == |events| && forall i :: 0 <= i < |events| ==> accepted[i] == events[i].id
    {
      accepted := [];
      for i := 0 to |events|
        invariant lines == old(lines) + events[..i]
        invariant |accepted| == i && forall j :: 0 <= j < i ==> accepted[j] == events[j].id
      {
        lines := lines + [events[i]];
        accepted := accepted + [events[i].id];
        assert events[..i + 1] == events[..i] + [events[i]];
      }
      assert events[..|events|] == events;
    }

    /** The lines after the first occurrence of the cursor; all of them when it is absent. */
    method Pull(since: Option<Id>) returns (events: Log)
      ensures events == ReadSince(lines, since)
    {
      var sliceStart := 0;
      if since.Some? {
        var i := 0;
        while i < |lines| && lines[i].id != since.value
          invariant 0 <= i <= |lines|
          invariant forall j :: 0 <= j < i ==> lines[j].id != since.value
        {
          i := i + 1;
        }
        if i < |lines| {
          sliceStart := i + 1;
        } else {
          assert !HasId(lines, since.value);
        }
      }
      events := if sliceStart > 0 then lines[sliceStart..] else lines;
    }
  }

  // --- the service --------------------------------------------------------------------------

  class SyncStore {
    const projectId: Id
    var log: Log
    var state: SyncState

    constructor (projectId: Id, log: Log, state: SyncState)
      ensures this.projectId == projectId && this.log == log && this.state == state
    {
      this.projectId := projectId;
      this.log := log;
      this.state := state;
    }

    ghost function At(relay: FileRelay): Site
      reads this, relay
    {
      Site(log, state, relay.lines)
    }

    /** Every write of the sync state leaves a bookkeeping event behind. */
    method WriteState(next: SyncState, stamp: Event)
      modifies this
      ensures state == next && log == old(log) + [stamp]
    {
      state := next;
      log := log + [stamp];
    }

    method BuildPushPayload() returns (pending: Log)
      ensures pending == Pending(log, state.pushed)
    {
      var since := ReadSince(log, state.pushed);
      pending := [];
      for i := 0 to |since|
        invariant pending == Shareable(since[..i])
      {
        assert since[..i + 1][..i] == since[..i];
        if !Bookkeeping(since[i]) { pending := pending + [since[i]]; }
      }
      assert since[..|since|] == since;
    }

    method InsertExternalEvents(batch: Log) returns (inserted: nat)
      modifies this`log
      ensures log == InsertNew(old(log), batch)
      ensures inserted == |log| - |old(log)|
    {
      inserted := 0;
      assert batch[0..] == batch;
      for i := 0 to |batch|
        invariant InsertNew(log, batch[i..]) == InsertNew(old(log), batch)
        invariant |log| == |old(log)| + inserted
      {
        assert batch[i..][0] == batch[i] && batch[i..][1..] == batch[i + 1..];
        if !HasId(log, batch[i].id) {
          log := log + [batch[i]];
          inserted := inserted + 1;
        }
      }
    }

    method PushProject(relay: FileRelay, a: Aead, ivs: nat -> string, stamps: Log) returns (accepted: seq<Id>)
      requires Stamps(stamps, state)
      modifies this, relay
      ensures At(relay) == AfterPush(old(At(relay)), projectId, a, ivs, stamps)
      ensures |accepted| == |Pending(old(log), old(state).pushed)|
    {
      hide Pending, Wire, ReadSince, LastId;
      var n := 0;
      ghost var sent := Pending(log, state.pushed);
      ghost var before := At(relay);
      if state.remote.None? {
        PendingIgnoresStamp(log, state.pushed, stamps[0]);
        WriteState(state.(remote := Some(projectId), syncEnabled := true), stamps[0]);
        n := 1;
      }
      assert log == old(log) + stamps[..n];
      var pending := BuildPushPayload();
      assert pending == sent;
      WireKeepsIds(a, state.key, ivs, pending);
      if pending == [] {
        accepted := [];
        if !state.status.Idle? {
          WriteState(state.(status := Idle), stamps[n]);
          n := n + 1;
        }
        NothingOnTheWire(a, state.key, ivs, state.pushed);
        assert relay.lines == before.lines + [];
      } else {
        if !state.status.Syncing? {
          WriteState(state.(status := Syncing), stamps[n]);
          n := n + 1;
        }
        assert log == old(log) + stamps[..n];
        var wire := Wire(a, state.key, ivs, pending);
        accepted := relay.Push(wire);
        assert accepted[|accepted| - 1] == pending[|pending| - 1].id;
        LastOfPending(pending, state.pushed);
        WriteState(state.(pushed := Some(accepted[|accepted| - 1])), stamps[n]);
        WriteState(state.(status := Idle), stamps[n + 1]);
        n := n + 2;
      }
      assert log == old(log) + stamps[..n];
    }

    method PullProject(relay: FileRelay, a: Aead, stamps: Log) returns (r: PullOutcome)
      requires Stamps(stamps, state)
      modifies this
      ensures r.Unbound? <==> old(state).remote.None?
      ensures var batch := ReadSince(relay.lines, old(state).pulled);
              r.Unreadable? <==> old(state).remote.Some? && Unwire(a, old(state).key, batch).None?
      ensures !r.Pulled? ==> At(relay) == old(At(relay))
      ensures var batch := ReadSince(relay.lines, old(state).pulled);
              r.Pulled? ==>
                && At(relay) == AfterPull(old(At(relay)), Unwire(a, old(state).key, batch).value, stamps)
                && r.total == |batch|
                && r.inserted == |InsertNew(old(log), Unwire(a, old(state).key, batch).value)| - |old(log)|
    {
      hide InsertNew, ReadSince, Unwire;
      if state.remote.None? { return Unbound; }
      var batch := relay.Pull(state.pulled);
      var inserted, n := 0, 0;
      var wasIdle := state.status.Idle?;
      if batch != [] {
        var plain := Unwire(a, state.key, batch);
        if plain.None? { return Unreadable; }
        inserted := InsertExternalEvents(plain.value);
        WriteState(state.(pulled := Some(batch[|batch| - 1].id)), stamps[0]);
        n := 1;
      } else {
        EmptyBatch(log, a, state.key);
      }
      assert log == InsertNew(old(log), Unwire(a, old(state).key, batch).value) + stamps[..n];
      if !wasIdle {
        WriteState(state.(status := Idle), stamps[n]);
        n := n + 1;
      }
      r := Pulled(|batch|, inserted);
      assert log == InsertNew(old(log), Unwire(a, old(state).key, batch).value) + stamps[..n];
    }
  }

  lemma EmptyBatch(log: Log, a: Aead, key: Option<Key>)
    ensures Unwire(a, key, []) == Some([]) && InsertNew(log, []) == log
  {
  }

  lemma NothingOnTheWire(a: Aead, key: Option<Key>, ivs: nat -> string, otherwise: Option<Id>)
    ensures Wire(a, key, ivs, []) == [] && LastId([], otherwise) == otherwise
  {
  }

  lemma LastOfPending(pending: Log, otherwise: Option<Id>)
    requires pending != []
    ensures LastId(pending, otherwise) == Some(pending[|pending| - 1].id)
  {
  }

  lemma PendingIgnoresStamp(log: Log, pushed: Option<Id>, stamp: Event)
    requires Bookkeeping(stamp) && pushed != Some(stamp.id)
    ensures Pending(log + [stamp], pushed) == Pending(log, pushed)
  {
    hide ReadSince;
    ReadOneMore(log, pushed, stamp);
    var tail := ReadSince(log, pushed);
    assert (tail + [stamp])[..|tail|] == tail;
  }

  lemma ReadOneMore(log: Log, pushed: Option<Id>, stamp: Event)
    requires pushed != Some(stamp.id)
    ensures ReadSince(log + [stamp], pushed) == ReadSince(log, pushed) + [stamp]
  {
    hide Position;
    if pushed.Some? && HasId(log, pushed.value) { PositionKeptByAppend(log, [stamp], pushed.value); }
    assert pushed.Some? && !HasId(log, pushed.value) ==> !HasId(log + [stamp], pushed.value);
  }

  // --- services and runs agree --------------------------------------------------------------

  /** The sync part of a bound site, as a replica of the run model. */
  function AsReplica(s: Site): Replica
    requires s.state.remote.Some?
  {
    Replica(s.log, s.state.remote.value, s.state.pushed, s.state.pulled, None, None)
  }

  /** A plaintext push of the service is a whole push of the run model followed by bookkeeping notes. */
  lemma ServicePushIsWholePush(s: Site, projectId: Id, a: Aead, ivs: nat -> string, stamps: Log)
    requires s.state.remote.Some? && s.state.key.None? && Stamps(stamps, s.state)
    ensures var after := AfterPush(s, projectId, a, ivs, stamps);
            var r := AsReplica(s); var pending := Pending(r.log, r.pushed);
            && after.state.remote.Some?
            && AsReplica(after) == r.(log := r.log + stamps[..PushWrites(s.state, pending)],
                 pushed := LastId(pending, r.pushed))
            && after.lines == s.lines + pending
            && Shareable(after.log) == Shareable(s.log)
  {
    var pending := Pending(s.log, s.state.pushed);
    NotesAreNotShareable(s.log, stamps[..PushWrites(s.state, pending)]);
  }

  /** A plaintext pull of the service is a whole pull of the run model followed by bookkeeping notes. */
  lemma ServicePullIsWholePull(s: Site, a: Aead, stamps: Log)
    requires s.state.remote.Some? && s.state.key.None? && Stamps(stamps, s.state)
    requires !AnySealed(ReadSince(s.lines, s.state.pulled))
    ensures var batch := ReadSince(s.lines, s.state.pulled); var r := AsReplica(s);
            Unwire(a, s.state.key, batch).Some? &&
            var after := AfterPull(s, Unwire(a, s.state.key, batch).value, stamps);
            && after.state.remote.Some?
            && AsReplica(after) == r.(log := InsertNew(r.log, batch) + stamps[..PullWrites(s.state, batch)],
                 pulled := LastId(batch, r.pulled))
            && after.lines == s.lines
            && Shareable(after.log) == Shareable(InsertNew(r.log, batch))
  {
    hide InsertNew, ReadSince;
    var batch := ReadSince(s.lines, s.state.pulled);
    NotesAreNotShareable(InsertNew(s.log, batch), stamps[..PullWrites(s.state, batch)]);
  }

  lemma {:induction false} NotesAreNotShareable(log: Log, notes: Log)
    requires forall n :: n in notes ==> Bookkeeping(n)
    ensures Shareable(log + notes) == Shareable(log)
  {
    if notes == [] {
      assert log + notes == log;
    } else {
      assert (log + notes)[..|log + notes| - 1] == log + notes[..|notes| - 1];
      NotesAreNotShareable(log, notes[..|notes| - 1]);
    }
  }
}
