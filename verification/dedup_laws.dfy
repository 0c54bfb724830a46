/** The dedup pass read off the records, without its keys and its sorting. */
module DedupLaws {
  import opened Events
  import opened Text
  import opened Dedup

  ghost predicate SameText(s: string, t: string) {
    exists c, d :: IsCore(c, s) && IsCore(d, t) && SameLetters(c, d)
  }

  /** Both open, and one lane drew the same from the same observations twice. */
  ghost predicate Rivals(a: MemoryRecord, b: MemoryRecord) {
    && a.invalidAt.None? && b.invalidAt.None?
    && a.memory.sources != [] && multiset(a.memory.sources) == multiset(b.memory.sources)
    && a.source.GetOr("self") == b.source.GetOr("self")
    && a.memory.kind == b.memory.kind
    && SameText(a.memory.text, b.memory.text)
  }

  ghost predicate Precedes(a: Memory, b: Memory) {
    Less(a.createdAt, b.createdAt) || (a.createdAt == b.createdAt && Less(a.id, b.id))
  }

  /** `w` is the earliest of the rivals of `m`, which may be `m` itself. */
  ghost predicate IsEarliest(memories: Memories, m: Id, w: Id)
    requires m in memories
  {
    && w in memories && Rivals(memories[m], memories[w])
    && forall x :: x in memories && x != w && Rivals(memories[m], memories[x]) ==>
         Precedes(memories[w].memory, memories[x].memory)
  }

  ghost predicate AllClean(memories: Memories) {
    forall m :: m in memories ==> CleanRecord(memories[m])
  }

  lemma RivalsShareAKey(memories: Memories, m: Id, x: Id)
    requires m in memories && x in memories && AllClean(memories) && Competes(memories[m])
    ensures InGroup(memories, DedupKey(memories[m]), x) <==> Rivals(memories[m], memories[x])
  {
    hide DedupKey, IsCore, SameLetters, Normalized, CleanRecord;
    var a, b := memories[m], memories[x];
    NormalizedExactly(a.memory.text, b.memory.text);
    if b.memory.sources != [] {
      DedupKeyExact(a, b);
    } else {
      assert |multiset(a.memory.sources)| == |a.memory.sources|;
    }
  }

  lemma BeforeIsPrecedes(a: MemoryRecord, b: MemoryRecord)
    ensures Before(a, b) <==> Precedes(a.memory, b.memory)
  {
    LessIsOrder();
  }

  /**
   * Records are never dropped. A closed one and one without sources stay as they are; of the others
   * the earliest of each set of rivals stays as it is, and the rest are closed at its creation time
   * and name it.
   */
  lemma DedupeIsTold(memories: Memories, m: Id) returns (w: Id)
    requires WellKeyed(memories) && AllClean(memories) && m in memories
    ensures Dedupe(memories).Keys == memories.Keys
    ensures memories[m].invalidAt.Some? || memories[m].memory.sources == [] ==> Dedupe(memories)[m] == memories[m]
    ensures memories[m].invalidAt.None? && memories[m].memory.sources != [] ==>
              && IsEarliest(memories, m, w)
              && Dedupe(memories)[m] ==
                 if w == m then memories[m]
                 else memories[m].(invalidAt := Some(memories[w].memory.createdAt), dedupedBy := Some(w))
  {
    hide DedupKey, Less, Before, Rivals, Precedes, AllClean;
    w := m;
    if Competes(memories[m]) {
      var key := DedupKey(memories[m]);
      w := Winner(memories, m);
      forall x | x in memories
        ensures InGroup(memories, key, x) <==> Rivals(memories[m], memories[x])
        ensures Before(memories[w], memories[x]) <==> Precedes(memories[w].memory, memories[x].memory)
        ensures x != w ==> Before(memories[w], memories[x]) || Before(memories[x], memories[w])
      {
        RivalsShareAKey(memories, m, x);
        BeforeIsPrecedes(memories[w], memories[x]);
        BeforeDecides(memories[w], memories[x]);
      }
    }
  }
}
