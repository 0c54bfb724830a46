/** Provenance lanes and the composite keys that carry them. */
module Lanes {
  import opened Events
  import opened Text

  const SELF_LANE: string := "self"

  function LaneKey(lane: string, id: Id): string {
    if lane == SELF_LANE then id else lane + [NUL] + id
  }

  function ParseLaneKey(key: string): (string, Id) {
    var sep := IndexOf(key, NUL);
    if sep == |key| then (SELF_LANE, key) else (key[..sep], key[sep + 1..])
  }

  predicate IsSelfKey(key: string) {
    NUL !in key
  }

  /**
   * A stamped source is authoritative. Without one the event is the store's own,
   * unless a union log says it came from another project.
   */
  function LaneOf(e: Event, selfId: Option<Id>, isUnion: bool): string {
    if e.source.Some? then
      if e.source == selfId then SELF_LANE else e.source.value
    else if !isUnion || Some(e.projectId) == selfId then SELF_LANE
    else e.projectId
  }

  /** Parsing undoes keying exactly when the part before the separator holds none. */
  lemma ParseUndoesKey(lane: string, id: Id)
    ensures ParseLaneKey(LaneKey(lane, id)) == (lane, id) <==>
            NUL !in (if lane == SELF_LANE then id else lane)
  {
    var key := LaneKey(lane, id);
    var sep := IndexOf(key, NUL);
    if lane == SELF_LANE {
      assert sep < |key| ==> |key[sep + 1..]| < |id|;
    } else if NUL !in lane {
      IndexOfJoint(lane, NUL, id);
      assert key[..|lane|] == lane && key[|lane| + 1..] == id;
    } else {
      var k :| 0 <= k < |lane| && lane[k] == NUL;
      assert key[k] == NUL;
      assert sep <= k by {
        assert forall j :: 0 <= j < sep ==> key[j] == key[..sep][j];
      }
      assert |key[..sep]| < |lane|;
    }
  }

  // --- insertion-ordered string maps ---------------------------------------------

  function Get<V>(entries: seq<(string, V)>, key: string): Option<V> {
    if entries == [] then None
    else if entries[0].0 == key then Some(entries[0].1)
    else Get(entries[1..], key)
  }

  /** Overwriting keeps the place of a key; a new key goes last. */
  function Put<V>(entries: seq<(string, V)>, key: string, value: V): seq<(string, V)> {
    if entries == [] then [(key, value)]
    else if entries[0].0 == key then [(key, value)] + entries[1..]
    else [entries[0]] + Put(entries[1..], key, value)
  }

  function SelfEntries<V>(entries: seq<(string, V)>): seq<(string, V)> {
    if entries == [] then []
    else if IsSelfKey(entries[0].0) then [entries[0]] + SelfEntries(entries[1..])
    else SelfEntries(entries[1..])
  }

  lemma {:induction false} GetSelf<V>(entries: seq<(string, V)>, key: string)
    requires IsSelfKey(key)
    ensures Get(SelfEntries(entries), key) == Get(entries, key)
  {
    if entries != [] { GetSelf(entries[1..], key); }
  }

  lemma {:induction false} PutSelf<V>(entries: seq<(string, V)>, key: string, value: V)
    ensures SelfEntries(Put(entries, key, value)) ==
            if IsSelfKey(key) then Put(SelfEntries(entries), key, value) else SelfEntries(entries)
  {
    if entries != [] && entries[0].0 != key {
      PutSelf(entries[1..], key, value);
      var rest := Put(entries[1..], key, value);
      assert Put(entries, key, value)[1..] == rest;
    } else if entries != [] {
      assert Put(entries, key, value)[1..] == entries[1..];
    }
  }
}
