/** The event table: unique ids, append order, reads after a watermark, insert-or-ignore. */
module EventLog {
  import opened Events

  predicate HasId(log: Log, id: Id) {
    exists e :: e in log && e.id == id
  }

  /** First position of an id, or the length of the log. */
  function Position(log: Log, id: Id): (p: nat)
    ensures p <= |log|
    ensures p < |log| ==> log[p].id == id
    ensures forall j :: 0 <= j < p ==> log[j].id != id
    ensures p == |log| <==> !HasId(log, id)
  {
    if log == [] then 0
    else if log[0].id == id then assert log[0] in log; 0
    else
      var p := 1 + Position(log[1..], id);
      assert log == [log[0]] + log[1..];
      p
  }

  lemma PositionOf(log: Log, i: nat)
    requires i < |log| && UniqueIds(log)
    ensures Position(log, log[i].id) == i
  {
    assert log[i] in log;
  }

  /** An absent or unknown watermark reads the whole log. */
  function ReadSince(log: Log, since: Option<Id>): Log {
    if since.None? || !HasId(log, since.value) then log
    else log[Position(log, since.value) + 1..]
  }

  /** Where a read after `since` starts. */
  function StartAfter(log: Log, since: Option<Id>): (s: nat)
    ensures s <= |log| && ReadSince(log, since) == log[s..]
  {
    if since.None? || !HasId(log, since.value) then 0 else Position(log, since.value) + 1
  }

  lemma FoundStartsAfter(log: Log, id: Id)
    requires HasId(log, id)
    ensures Position(log, id) < |log| && log[Position(log, id)].id == id
    ensures StartAfter(log, Some(id)) == Position(log, id) + 1
  {
  }

  ghost predicate FirstNamed(log: Log, since: Option<Id>, p: nat) {
    p < |log| && Some(log[p].id) == since && forall j :: 0 <= j < p ==> Some(log[j].id) != since
  }

  /** A read goes on after the first row with the watermark's id; without such a row it begins at the first. */
  lemma ReadIsTold(log: Log, since: Option<Id>)
    ensures (forall e :: e in log ==> Some(e.id) != since) ==> ReadSince(log, since) == log
    ensures forall p: nat :: FirstNamed(log, since, p) ==> ReadSince(log, since) == log[p + 1..]
  {
    forall p: nat | FirstNamed(log, since, p)
      ensures HasId(log, since.value) && Position(log, since.value) == p
    {
      assert log[p] in log;
    }
  }

  /** Unknown events go to the tail in arrival order; known ids are ignored. */
  function InsertNew(log: Log, batch: Log): Log
    decreases |batch|
  {
    if batch == [] then log
    else if HasId(log, batch[0].id) then InsertNew(log, batch[1..])
    else InsertNew(log + [batch[0]], batch[1..])
  }

  /** Appending never moves a known id. */
  lemma PositionKeptByAppend(log: Log, more: Log, id: Id)
    requires HasId(log, id)
    ensures HasId(log + more, id) && Position(log + more, id) == Position(log, id)
  {
    var p := Position(log, id);
    assert (log + more)[p] == log[p];
    assert (log + more)[p] in log + more;
    var q := Position(log + more, id);
    assert forall j :: 0 <= j < p ==> (log + more)[j] == log[j];
  }

  // --- laws of insert-or-ignore ------------------------------------------------------------

  /** Equal ids mean equal events. */
  ghost predicate Agree(a: Log, b: Log) {
    forall e, f :: e in a && f in b && e.id == f.id ==> e == f
  }

  lemma {:induction false} InsertKeepsPrefix(log: Log, batch: Log)
    ensures |log| <= |InsertNew(log, batch)| && InsertNew(log, batch)[..|log|] == log
    decreases |batch|
  {
    if batch == [] {
    } else if HasId(log, batch[0].id) {
      InsertKeepsPrefix(log, batch[1..]);
    } else {
      InsertKeepsPrefix(log + [batch[0]], batch[1..]);
      assert InsertNew(log, batch)[..|log|] == InsertNew(log, batch)[..|log| + 1][..|log|];
    }
  }

  lemma {:induction false} InsertKeepsUnique(log: Log, batch: Log)
    requires UniqueIds(log)
    ensures UniqueIds(InsertNew(log, batch))
    decreases |batch|
  {
    if batch == [] {
    } else if HasId(log, batch[0].id) {
      InsertKeepsUnique(log, batch[1..]);
    } else {
      assert forall e :: e in log ==> e.id != batch[0].id;
      InsertKeepsUnique(log + [batch[0]], batch[1..]);
    }
  }

  /** Nothing is invented and, when ids agree, nothing is lost. */
  lemma {:induction false} InsertMembers(log: Log, batch: Log)
    requires Agree(log, batch) && Agree(batch, batch)
    ensures forall e :: e in InsertNew(log, batch) <==> e in log || e in batch
    decreases |batch|
  {
    if batch != [] {
      assert batch == [batch[0]] + batch[1..];
      if HasId(log, batch[0].id) {
        assert batch[0] in log;
        InsertMembers(log, batch[1..]);
      } else {
        InsertMembers(log + [batch[0]], batch[1..]);
      }
    }
  }

  /** Every supersede and retract comes after the consolidation it aims at. */
  ghost predicate CausallyClosed(log: Log) {
    forall j, m :: 0 <= j < |log| && Targets(log[j], m) ==> BornBefore(log, j, m)
  }

  ghost predicate BornBefore(log: Log, j: nat, m: Id)
    requires j <= |log|
  {
    exists i :: 0 <= i < j && Consolidates(log[i], m)
  }

  ghost predicate BornIn(log: Log, m: Id) {
    exists e :: e in log && Consolidates(e, m)
  }

  lemma AppendKeepsClosed(log: Log, e: Event)
    requires CausallyClosed(log)
    requires forall m :: Targets(e, m) ==> BornIn(log, m)
    ensures CausallyClosed(log + [e])
  {
    var longer := log + [e];
    forall j, m | 0 <= j < |longer| && Targets(longer[j], m) ensures BornBefore(longer, j, m) {
      if j < |log| {
        assert BornBefore(log, j, m);
        var i :| 0 <= i < j && Consolidates(log[i], m);
        assert longer[i] == log[i];
      } else {
        var b :| b in log && Consolidates(b, m);
        var i :| 0 <= i < |log| && log[i] == b;
        assert longer[i] == b;
      }
    }
  }

  lemma {:induction false} InsertKeepsClosed(log: Log, batch: Log)
    requires CausallyClosed(log) && Agree(log, batch) && Agree(batch, batch)
    requires forall x, m :: 0 <= x < |batch| && Targets(batch[x], m) ==> BornIn(log, m) || BornBefore(batch, x, m)
    ensures CausallyClosed(InsertNew(log, batch))
    decreases |batch|
  {
    if batch != [] {
      var rest := batch[1..];
      assert batch == [batch[0]] + rest;
      var grown := if HasId(log, batch[0].id) then log else log + [batch[0]];
      assert batch[0] in grown by {
        if HasId(log, batch[0].id) { assert batch[0] in log; }
      }
      forall m | Targets(batch[0], m) ensures BornIn(log, m) {
        assert !BornBefore(batch, 0, m);
      }
      AppendKeepsClosed(log, batch[0]);
      forall x, m | 0 <= x < |rest| && Targets(rest[x], m) ensures BornIn(grown, m) || BornBefore(rest, x, m) {
        assert Targets(batch[x + 1], m);
        if BornIn(log, m) {
          var b :| b in log && Consolidates(b, m);
          assert b in grown;
        } else {
          var i :| 0 <= i < x + 1 && Consolidates(batch[i], m);
          if i > 0 { assert rest[i - 1] == batch[i]; }
        }
      }
      InsertKeepsClosed(grown, rest);
    }
  }
}
