/** Collapsing duplicate memories to one deterministic winner per group. */
module Dedup {
  import opened Events
  import opened Lanes
  import opened Sorting
  import opened Text

  /** A memory with its validity window; `source` is the lane of a foreign writer. */
  datatype MemoryRecord = MemoryRecord(
    memory: Memory, source: Option<Id>, invalidAt: Option<Time>, supersededBy: Option<Id>,
    dedupedBy: Option<Id>, retractedAt: Option<Time>, retractedBy: Option<string>)
  {
    function Lane(): string {
      source.GetOr(SELF_LANE)
    }
  }

  function FreshRecord(memory: Memory, lane: string): MemoryRecord {
    MemoryRecord(memory, if lane == SELF_LANE then None else Some(lane), None, None, None, None, None)
  }

  type Memories = map<Id, MemoryRecord>

  predicate WellKeyed(memories: Memories) {
    forall m :: m in memories ==> memories[m].memory.id == m
  }

  // --- the key ---------------------------------------------------------------------

  function KindName(kind: MemoryKind): string {
    match kind
    case Decision => "decision"
    case Rationale => "rationale"
    case Progress => "progress"
  }

  function SourcesText(sources: seq<Id>): string {
    Join(SortBy(sources, Less), [COMMA])
  }

  function KeyTail(m: Memory): string {
    KindName(m.kind) + [NEWLINE] + Normalized(m.text)
  }

  function DedupKey(r: MemoryRecord): string {
    r.Lane() + [NEWLINE] + (SourcesText(r.memory.sources) + [NEWLINE] + KeyTail(r.memory))
  }

  /** What store and observation ids never hold. */
  predicate CleanRecord(r: MemoryRecord) {
    && NEWLINE !in r.Lane()
    && forall o :: o in r.memory.sources ==> COMMA !in o && NEWLINE !in o
  }

  /** Two clean records share a key exactly when all four parts agree. */
  lemma DedupKeyExact(a: MemoryRecord, b: MemoryRecord)
    requires CleanRecord(a) && CleanRecord(b)
    requires a.memory.sources != [] && b.memory.sources != []
    ensures DedupKey(a) == DedupKey(b) <==>
            && a.Lane() == b.Lane()
            && multiset(a.memory.sources) == multiset(b.memory.sources)
            && a.memory.kind == b.memory.kind
            && Normalized(a.memory.text) == Normalized(b.memory.text)
  {
    hide Normalized, SourcesText, KeyTail, KindName;
    var s, t := a.memory.sources, b.memory.sources;
    SourcesTextExact(s, t);
    KeyTailExact(a.memory, b.memory);
    if DedupKey(a) == DedupKey(b) {
      FieldsComeApart(a.Lane(), SourcesText(s) + [NEWLINE] + KeyTail(a.memory),
                      b.Lane(), SourcesText(t) + [NEWLINE] + KeyTail(b.memory), NEWLINE);
      FieldsComeApart(SourcesText(s), KeyTail(a.memory), SourcesText(t), KeyTail(b.memory), NEWLINE);
    }
  }

  lemma KeyTailExact(a: Memory, b: Memory)
    ensures KeyTail(a) == KeyTail(b) <==> a.kind == b.kind && Normalized(a.text) == Normalized(b.text)
  {
    hide Normalized;
    if KeyTail(a) == KeyTail(b) {
      FieldsComeApart(KindName(a.kind), Normalized(a.text), KindName(b.kind), Normalized(b.text), NEWLINE);
      if a.kind != b.kind { KindNamesDiffer(a.kind, b.kind); }
    }
  }

  lemma SourcesTextExact(s: seq<Id>, t: seq<Id>)
    requires s != [] && t != []
    requires forall o :: o in s || o in t ==> COMMA !in o && NEWLINE !in o
    ensures SourcesText(s) == SourcesText(t) <==> multiset(s) == multiset(t)
    ensures NEWLINE !in SourcesText(s) && NEWLINE !in SourcesText(t)
  {
    StringSortDecides(s, t);
    SortMembers(s, Less);
    SortMembers(t, Less);
    SortKeeps(s, Less);
    SortKeeps(t, Less);
    JoinHolds(SortBy(s, Less), COMMA, NEWLINE);
    JoinHolds(SortBy(t, Less), COMMA, NEWLINE);
    if SourcesText(s) == SourcesText(t) { JoinInjective(SortBy(s, Less), SortBy(t, Less), COMMA); }
  }

  lemma KindNamesDiffer(a: MemoryKind, b: MemoryKind)
    requires a != b
    ensures KindName(a) != KindName(b)
  {
    assert KindName(a)[0] != KindName(b)[0];
  }

  // --- who wins -------------------------------------------------------------------------

  /** `(createdAt, id)` ascending. */
  predicate Before(a: MemoryRecord, b: MemoryRecord) {
    if a.memory.createdAt != b.memory.createdAt then Less(a.memory.createdAt, b.memory.createdAt)
    else Less(a.memory.id, b.memory.id)
  }

  lemma BeforeNegTransitive(a: MemoryRecord, b: MemoryRecord, c: MemoryRecord)
    requires !Before(a, b) && !Before(b, c)
    ensures !Before(a, c)
  {
    LessIsOrder();
    assert !Less(a.memory.createdAt, b.memory.createdAt) && !Less(b.memory.createdAt, c.memory.createdAt);
    assert !Less(a.memory.createdAt, c.memory.createdAt);
    if a.memory.createdAt == c.memory.createdAt && a.memory.createdAt != b.memory.createdAt {
      LessTotal(a.memory.createdAt, b.memory.createdAt);
    }
  }

  lemma BeforeDecides(a: MemoryRecord, b: MemoryRecord)
    ensures !(Before(a, b) && Before(b, a))
    ensures a.memory.id != b.memory.id ==> Before(a, b) || Before(b, a)
  {
    LessIsOrder();
  }

  lemma BeforeIsOrder()
    ensures StrictWeakOrder(Before)
  {
    forall a: MemoryRecord, b: MemoryRecord ensures Before(a, b) ==> !Before(b, a) { BeforeDecides(a, b); }
    forall a: MemoryRecord, b: MemoryRecord, c: MemoryRecord | !Before(a, b) && !Before(b, c) ensures !Before(a, c) {
      BeforeNegTransitive(a, b, c);
    }
  }

  /** Open, and distilled from something. */
  predicate Competes(r: MemoryRecord) {
    r.invalidAt.None? && r.memory.sources != []
  }

  predicate InGroup(memories: Memories, key: string, m: Id) {
    m in memories && Competes(memories[m]) && DedupKey(memories[m]) == key
  }

  ghost predicate IsWinner(memories: Memories, key: string, w: Id) {
    && InGroup(memories, key, w)
    && forall m :: InGroup(memories, key, m) ==> !Before(memories[m], memories[w])
  }

  ghost predicate LeastOf(memories: Memories, pool: set<Id>, w: Id) {
    w in pool && pool <= memories.Keys && forall m :: m in pool ==> !Before(memories[m], memories[w])
  }

  lemma {:induction false} WinnerExists(memories: Memories, key: string, pool: set<Id>)
    requires pool != {} && forall m :: m in pool ==> InGroup(memories, key, m)
    ensures exists w :: LeastOf(memories, pool, w)
    decreases |pool|
  {
    var p :| p in pool;
    if pool == {p} {
      BeforeDecides(memories[p], memories[p]);
      assert LeastOf(memories, pool, p);
    } else {
      var rest := pool - {p};
      WinnerExists(memories, key, rest);
      var w :| LeastOf(memories, rest, w);
      var best := if Before(memories[p], memories[w]) then p else w;
      forall m | m in pool ensures !Before(memories[m], memories[best]) {
        BeforeDecides(memories[p], memories[w]);
        if m == p { BeforeDecides(memories[p], memories[p]); }
        else if best == p { BeforeNegTransitive(memories[m], memories[w], memories[p]); }
      }
      assert LeastOf(memories, pool, best);
    }
  }

  lemma WinnerIsUnique(memories: Memories, key: string, v: Id, w: Id)
    requires WellKeyed(memories)
    requires IsWinner(memories, key, v) && IsWinner(memories, key, w)
    ensures v == w
  {
    BeforeDecides(memories[v], memories[w]);
  }

  ghost function Winner(memories: Memories, m: Id): (w: Id)
    requires m in memories && Competes(memories[m])
    ensures IsWinner(memories, DedupKey(memories[m]), w)
  {
    var key := DedupKey(memories[m]);
    var pool := set x | x in memories && InGroup(memories, key, x);
    assert m in pool;
    WinnerExists(memories, key, pool);
    var w :| LeastOf(memories, pool, w);
    w
  }

  /** A loser keeps its data and points at the winner; everything else is untouched. */
  function Demoted(loser: MemoryRecord, winner: MemoryRecord): MemoryRecord {
    loser.(invalidAt := Some(winner.memory.createdAt), dedupedBy := Some(winner.memory.id))
  }

  ghost function Settled(memories: Memories, m: Id): MemoryRecord
    requires m in memories
  {
    if Competes(memories[m]) && Winner(memories, m) != m
    then Demoted(memories[m], memories[Winner(memories, m)])
    else memories[m]
  }

  ghost function Dedupe(memories: Memories): Memories {
    map m | m in memories :: Settled(memories, m)
  }

  function Valid(memories: Memories): set<Id> {
    set m | m in memories && memories[m].invalidAt.None?
  }

  /** What a store takes for true itself: valid, and in its own lane. */
  function OwnValid(memories: Memories): set<Id> {
    set m | m in memories && memories[m].invalidAt.None? && memories[m].source.None?
  }

  // --- what the pass guarantees ----------------------------------------------------------

  /** Of each group of competing memories exactly the least stays valid. */
  lemma GroupKeepsItsLeast(memories: Memories, m: Id)
    requires WellKeyed(memories) && m in memories
    ensures m in Valid(Dedupe(memories)) <==>
            && memories[m].invalidAt.None?
            && (Competes(memories[m]) ==>
                  forall x :: InGroup(memories, DedupKey(memories[m]), x) && x != m ==>
                    Before(memories[m], memories[x]))
  {
    hide DedupKey, Less, Before;
    if Competes(memories[m]) {
      var key := DedupKey(memories[m]);
      var w := Winner(memories, m);
      assert m in Valid(Dedupe(memories)) <==> w == m;
      forall x | InGroup(memories, key, x) && x != m && w == m ensures Before(memories[m], memories[x]) {
        BeforeDecides(memories[m], memories[x]);
      }
      if w != m { BeforeDecides(memories[m], memories[w]); }
    }
  }

  /** A competing memory that does not stay valid names the winner of its group, which does. */
  lemma LoserNamesWinner(memories: Memories, m: Id)
    requires WellKeyed(memories) && m in memories
    requires Competes(memories[m]) && m !in Valid(Dedupe(memories))
    ensures var w := Winner(memories, m);
            && IsWinner(memories, DedupKey(memories[m]), w)
            && w in Valid(Dedupe(memories))
            && Dedupe(memories)[m] == Demoted(memories[m], memories[w])
  {
    hide DedupKey, Less, Before;
    var w := Winner(memories, m);
    WinnerIsUnique(memories, DedupKey(memories[m]), Winner(memories, w), w);
  }

  /** Running the pass twice changes nothing. */
  lemma DedupeIsIdempotent(memories: Memories)
    requires WellKeyed(memories)
    ensures Dedupe(Dedupe(memories)) == Dedupe(memories)
  {
    var once := Dedupe(memories);
    forall m | m in once ensures Settled(once, m) == once[m] {
      if Competes(once[m]) {
        var key := DedupKey(once[m]);
        var w := Winner(once, m);
        assert InGroup(memories, key, w) && InGroup(memories, key, m);
        WinnerIsUnique(memories, key, Winner(memories, w), Winner(memories, m));
      }
    }
  }

  // --- the loops of the source -------------------------------------------------------------

  /** `order` is a listing of the keys of `memories`, in whatever order the map yields them. */
  ghost predicate Lists(order: seq<Id>, memories: Memories) {
    && (forall m :: m in order <==> m in memories)
    && NoRepeats(order)
  }

  /** One of the orders a map may yield its keys in. */
  method ListKeys(memories: Memories) returns (order: seq<Id>)
    ensures Lists(order, memories)
  {
    hide NoRepeats;
    order := [];
    var rest := memories.Keys;
    NoneRepeats<Id>();
    while rest != {}
      invariant rest <= memories.Keys
      invariant forall m :: m in order <==> m in memories.Keys - rest
      invariant NoRepeats(order)
    {
      var m :| m in rest;
      assert m !in order;
      NoRepeatsGrows(order, m);
      assert forall x :: x in order + [m] <==> x in order || x == m;
      order := order + [m];
      rest := rest - {m};
    }
  }

  ghost predicate Grouped(memories: Memories, seen: seq<Id>, groups: map<string, seq<MemoryRecord>>) {
    && (forall k, r :: k in groups && r in groups[k] ==>
          r.memory.id in seen && InGroup(memories, k, r.memory.id) && memories[r.memory.id] == r)
    && (forall m :: m in seen && m in memories && Competes(memories[m]) ==>
          DedupKey(memories[m]) in groups && memories[m] in groups[DedupKey(memories[m])])
    && (forall k :: k in groups ==> groups[k] != [] && NoRepeats(groups[k]))
  }

  /** Group by key, sort each group, mark all but its head. The listing order cannot show. */
  method DedupeMemoriesBySource(memories: Memories, order: seq<Id>) returns (out: Memories)
    requires WellKeyed(memories) && Lists(order, memories)
    ensures out == Dedupe(memories)
  {
    hide DedupKey, Settled, Grouped, Lists, Competes;
    var groups := GroupByKey(memories, order);
    GroupsCover(memories, order, groups);
    OthersStay(memories);
    out := memories;
    var todo := groups.Keys;
    while todo != {}
      invariant todo <= groups.Keys
      invariant out.Keys == memories.Keys
      invariant forall m :: m in memories ==>
                  out[m] == if Competes(memories[m]) && DedupKey(memories[m]) !in todo
                            then Settled(memories, m) else memories[m]
    {
      var key :| key in todo;
      out := MarkLosers(memories, order, groups, key, out);
      todo := todo - {key};
    }
    assert forall m :: m in memories ==> out[m] == Settled(memories, m);
  }

  lemma GroupsCover(memories: Memories, order: seq<Id>, groups: map<string, seq<MemoryRecord>>)
    requires Lists(order, memories) && Grouped(memories, order, groups)
    ensures forall m :: m in memories && Competes(memories[m]) ==> DedupKey(memories[m]) in groups
  {
    hide DedupKey, NoRepeats;
  }

  lemma OthersStay(memories: Memories)
    ensures forall m :: m in memories && !Competes(memories[m]) ==> Settled(memories, m) == memories[m]
  {
  }

  lemma NotYetSeen(order: seq<Id>, i: nat)
    requires i < |order| && NoRepeats(order)
    ensures order[i] !in order[..i]
  {
  }

  /** What one sort of a group delivers. */
  lemma HeadOfGroup(s: seq<MemoryRecord>)
    requires s != [] && NoRepeats(s)
    ensures var t := SortBy(s, Before);
            |t| == |s| && (forall x :: x in t <==> x in s) && t[0] !in t[1..] &&
              (forall x :: x in s ==> !Before(x, t[0]))
  {
    BeforeIsOrder();
    SortHeadIsLeast(s, Before);
    SortNoRepeats(s, Before);
    SortMembers(s, Before);
  }

  method GroupByKey(memories: Memories, order: seq<Id>) returns (groups: map<string, seq<MemoryRecord>>)
    requires WellKeyed(memories) && Lists(order, memories)
    ensures Grouped(memories, order, groups)
  {
    hide DedupKey, NoRepeats, Grouped;
    groups := map[];
    NothingGrouped(memories);
    for i := 0 to |order|
      invariant Grouped(memories, order[..i], groups)
    {
      var r := memories[order[i]];
      assert order[..i + 1] == order[..i] + [order[i]];
      NotYetSeen(order, i);
      GroupOneMore(memories, order[..i], groups, order[i]);
      if Competes(r) {
        var key := DedupKey(r);
        groups := groups[key := (if key in groups then groups[key] else []) + [r]];
      }
    }
    assert order[..|order|] == order;
  }

  lemma NothingGrouped(memories: Memories)
    ensures Grouped(memories, [], map[])
  {
  }

  lemma GroupOneMore(memories: Memories, seen: seq<Id>, groups: map<string, seq<MemoryRecord>>, m: Id)
    requires WellKeyed(memories) && Grouped(memories, seen, groups) && m in memories && m !in seen
    ensures var r := memories[m]; var key := DedupKey(r);
            Grouped(memories, seen + [m],
              if Competes(r) then groups[key := (if key in groups then groups[key] else []) + [r]] else groups)
  {
    hide DedupKey, NoRepeats;
    assert forall x :: x in seen + [m] <==> x in seen || x == m;
    var r := memories[m];
    if Competes(r) {
      var key := DedupKey(r);
      var bucket := if key in groups then groups[key] else [];
      assert r !in bucket;
      NoneRepeats<MemoryRecord>();
      NoRepeatsGrows(bucket, r);
      assert forall x :: x in bucket + [r] <==> x in bucket || x == r;
    }
  }

  lemma NoneRepeats<T>()
    ensures NoRepeats<T>([])
  {
  }

  lemma GroupMembers(memories: Memories, order: seq<Id>, groups: map<string, seq<MemoryRecord>>, key: string)
    requires WellKeyed(memories) && Lists(order, memories) && Grouped(memories, order, groups) && key in groups
    ensures forall m :: m in memories ==> (memories[m] in groups[key] <==> InGroup(memories, key, m))
    ensures forall r :: r in groups[key] ==> r.memory.id in memories && memories[r.memory.id] == r
  {
    hide DedupKey, Less, Before, NoRepeats;
  }

  /** Within a group the winner stays as it is and everyone else is demoted to it. */
  lemma GroupSettles(memories: Memories, key: string, m: Id, w: Id)
    requires WellKeyed(memories) && InGroup(memories, key, m) && IsWinner(memories, key, w)
    ensures w in memories && Settled(memories, m) == if m == w then memories[m] else Demoted(memories[m], memories[w])
  {
    hide DedupKey, Less, Before;
    WinnerIsUnique(memories, key, Winner(memories, m), w);
  }

  lemma HeadWins(memories: Memories, key: string, group: seq<MemoryRecord>, w: MemoryRecord)
    requires WellKeyed(memories) && w in group && forall r :: r in group ==> !Before(r, w)
    requires forall m :: m in memories ==> (memories[m] in group <==> InGroup(memories, key, m))
    requires w.memory.id in memories && memories[w.memory.id] == w
    ensures IsWinner(memories, key, w.memory.id)
  {
    hide DedupKey, Less, Before;
  }

  method MarkLosers(memories: Memories, ghost order: seq<Id>, groups: map<string, seq<MemoryRecord>>, key: string,
      before: Memories)
    returns (out: Memories)
    requires WellKeyed(memories) && Lists(order, memories) && Grouped(memories, order, groups) && key in groups
    requires before.Keys == memories.Keys
    requires forall m :: InGroup(memories, key, m) ==> before[m] == memories[m]
    ensures out.Keys == memories.Keys
    ensures forall m :: m in memories ==>
              out[m] == if InGroup(memories, key, m) then Settled(memories, m) else before[m]
  {
    hide DedupKey, Before, SortBy, NoRepeats, Settled, Lists, Competes, IsWinner, Demoted, IdsOf;
    GroupMembers(memories, order, groups, key);
    hide Grouped, InGroup;
    var members := SortBy(groups[key], Before);
    HeadOfGroup(groups[key]);
    var winner := members[0];
    HeadWins(memories, key, groups[key], winner);
    RestOfGroup(memories, before, key, groups[key], members);
    out := DemoteAll(before, members[1..], winner);
    forall m | InGroup(memories, key, m) ensures m in memories && out[m] == Settled(memories, m) {
      GroupSettles(memories, key, m, winner.memory.id);
    }
  }

  /** Every loser in turn points at the winner. */
  method DemoteAll(before: Memories, losers: seq<MemoryRecord>, winner: MemoryRecord) returns (out: Memories)
    requires forall r :: r in losers ==> r.memory.id in before && before[r.memory.id] == r
    ensures out.Keys == before.Keys
    ensures forall m :: m in before ==> out[m] == if m in IdsOf(losers) then Demoted(before[m], winner) else before[m]
  {
    hide IdsOf, Demoted;
    out := before;
    for i := 0 to |losers|
      invariant out.Keys == before.Keys
      invariant forall m :: m in before ==> out[m] == if m in IdsOf(losers[..i]) then Demoted(before[m], winner)
                else before[m]
    {
      var loser := losers[i];
      assert losers[..i + 1] == losers[..i] + [loser];
      OneMoreId(losers[..i], loser);
      out := out[loser.memory.id := Demoted(loser, winner)];
    }
    assert losers[..|losers|] == losers;
  }

  function IdsOf(records: seq<MemoryRecord>): (ids: set<Id>)
    ensures records == [] ==> ids == {}
  {
    set r | r in records :: r.memory.id
  }

  lemma OneMoreId(records: seq<MemoryRecord>, r: MemoryRecord)
    ensures IdsOf(records + [r]) == IdsOf(records) + {r.memory.id}
  {
    assert forall x :: x in records + [r] <==> x in records || x == r;
  }

  /** The tail of a sorted group is the group without its head. */
  lemma RestOfGroup(memories: Memories, before: Memories, key: string, group: seq<MemoryRecord>,
      members: seq<MemoryRecord>)
    requires members != [] && members[0] !in members[1..] && (forall r :: r in members <==> r in group)
    requires forall r :: r in group ==> r.memory.id in memories && memories[r.memory.id] == r
    requires forall m :: m in memories ==> (memories[m] in group <==> InGroup(memories, key, m))
    requires WellKeyed(memories) && before.Keys == memories.Keys
    requires forall m :: InGroup(memories, key, m) ==> before[m] == memories[m]
    ensures forall m :: m in IdsOf(members[1..]) <==> InGroup(memories, key, m) && m != members[0].memory.id
    ensures forall r :: r in members[1..] ==> r.memory.id in before && before[r.memory.id] == r
    ensures InGroup(memories, key, members[0].memory.id)
  {
    hide Competes, DedupKey;
    assert members == [members[0]] + members[1..];
    assert members[0] in members;
    forall r | r in members[1..]
      ensures r in members && InGroup(memories, key, r.memory.id) && before[r.memory.id] == r &&
              r.memory.id != members[0].memory.id
    {
    }
    forall m | InGroup(memories, key, m) && m != members[0].memory.id ensures memories[m] in members[1..] {
      assert memories[m] in members;
    }
  }

}
