/** The reduced state, read off the log. */
module ReplayLaws {
  import opened Events
  import opened Lanes
  import opened Dedup
  import opened Projector
  import opened Convergence
  import opened Sorting
  import opened Text

  // --- last and first --------------------------------------------------------------------------------

  /** The last place from `from` on whose event is one of those asked for. */
  function Last(log: Log, from: nat, asked: Event -> bool): (p: Option<nat>)
    ensures p.Some? ==> from <= p.value < |log| && asked(log[p.value])
  {
    if |log| <= from then None
    else if asked(log[|log| - 1]) then Some(|log| - 1)
    else Last(log[..|log| - 1], from, asked)
  }

  /** The first such place. */
  function First(log: Log, from: nat, asked: Event -> bool): (p: Option<nat>)
    ensures p.Some? ==> from <= p.value < |log| && asked(log[p.value])
  {
    if |log| <= from then None
    else
      var p := First(log[..|log| - 1], from, asked);
      if p.Some? then p else if asked(log[|log| - 1]) then Some(|log| - 1) else None
  }

  lemma {:induction false} LastIsLast(log: Log, from: nat, asked: Event -> bool)
    ensures var p := Last(log, from, asked);
            forall q :: (if p.Some? then p.value < q else from <= q) && q < |log| ==> !asked(log[q])
  {
    if |log| > from && !asked(log[|log| - 1]) {
      var before := log[..|log| - 1];
      LastIsLast(before, from, asked);
      assert forall q :: 0 <= q < |before| ==> before[q] == log[q];
    }
  }

  lemma {:induction false} FirstIsFirst(log: Log, from: nat, asked: Event -> bool)
    ensures var p := First(log, from, asked);
            forall q :: from <= q < (if p.Some? then p.value else |log|) ==> !asked(log[q])
  {
    if |log| > from {
      var before := log[..|log| - 1];
      FirstIsFirst(before, from, asked);
      assert forall q :: 0 <= q < |before| ==> before[q] == log[q];
    }
  }

  lemma LastStep(log: Log, from: nat, asked: Event -> bool)
    requires from < |log|
    ensures Last(log, from, asked) ==
            if asked(log[|log| - 1]) then Some(|log| - 1) else Last(log[..|log| - 1], from, asked)
  {
  }

  lemma FirstStep(log: Log, from: nat, asked: Event -> bool)
    requires from < |log|
    ensures var before := First(log[..|log| - 1], from, asked);
            First(log, from, asked) ==
            if before.Some? then before else if asked(log[|log| - 1]) then Some(|log| - 1) else None
  {
  }

  lemma StateStep(log: Log, c: Context)
    requires log != [] && Replay(log, c).Reduced?
    ensures var n := |log| - 1; var e := log[n]; var lane := EventLane(e, c);
            Replay(log[..n], c).Reduced? &&
            var s, t := Replay(log[..n], c).state, Replay(log, c).state;
            && t.tasks == NextTasks(s.tasks, e, lane)
            && t.handoffs == NextHandoffs(s.handoffs, e, lane)
            && t.sessions == NextSessions(s.sessions, e, lane)
            && t.observations == NextObservations(s.observations, e)
            && t.members == NextMembers(s.members, e, c)
            && t.project == NextProject(s.project, e, c)
  {
    hide NextTasks, NextHandoffs, NextSessions, NextObservations, NextMembers, NextProject, NextMemories, EventLane;
  }

  // --- memories ------------------------------------------------------------------------------------------

  function Bears(m: Id): Event -> bool {
    (e: Event) => e.payload.MemoryConsolidated? && e.payload.memory.id == m
  }

  function Replaces(m: Id): Event -> bool {
    (e: Event) => e.payload.MemorySuperseded? && e.payload.supersedes == m
  }

  /** A retract of `m` that counts: from the lane it was born in, or stamped `owner`. */
  function Withdraws(m: Id, lane: string, c: Context): Event -> bool {
    (e: Event) => e.payload.MemoryRetracted? && e.payload.retracts == m &&
                  (EventLane(e, c) == lane || e.payload.byOwner)
  }

  function WithdrawsSigned(m: Id, lane: string, c: Context): Event -> bool {
    (e: Event) => Withdraws(m, lane, c)(e) && e.writer.Some?
  }

  /** What the events after the birth at `p` leave of `m`: successor, tombstone, its writer, and when it closed. */
  ghost predicate MemoryTold(r: MemoryRecord, log: Log, c: Context, m: Id, p: nat) {
    && p < |log| && log[p].payload.MemoryConsolidated?
    && r.memory == log[p].payload.memory
    && var lane := EventLane(log[p], c);
       var replaced, withdrawn := Last(log, p + 1, Replaces(m)), Last(log, p + 1, Withdraws(m, lane, c));
       var first := First(log, p + 1, Withdraws(m, lane, c));
       var signed := Last(log, p + 1, WithdrawsSigned(m, lane, c));
       && r.source == (if lane == SELF_LANE then None else Some(lane))
       && r.supersededBy == (if replaced.None? then None else Some(log[replaced.value].payload.supersededBy))
       && r.retractedAt == (if withdrawn.None? then None else Some(log[withdrawn.value].createdAt))
       && r.retractedBy == (if signed.None? then None else log[signed.value].writer)
       && r.invalidAt == (if replaced.Some? then Some(log[replaced.value].createdAt)
                          else if first.Some? then Some(log[first.value].createdAt) else None)
  }

  /** What one event makes of a record it does not create. */
  function Marked(r: MemoryRecord, e: Event, m: Id, c: Context): MemoryRecord {
    if Replaces(m)(e) then r.(invalidAt := Some(e.createdAt), supersededBy := Some(e.payload.supersededBy))
    else if Withdraws(m, r.Lane(), c)(e) then
      r.(invalidAt := if r.invalidAt.Some? then r.invalidAt else Some(e.createdAt), retractedAt := Some(e.createdAt),
         retractedBy := if e.writer.Some? then e.writer else r.retractedBy)
    else r
  }

  lemma NextRecord(memories: Memories, e: Event, m: Id, c: Context)
    ensures var next := NextMemories(memories, e, EventLane(e, c));
            && (m in next <==> m in memories || Bears(m)(e))
            && (Bears(m)(e) ==> next[m] == FreshRecord(e.payload.memory, EventLane(e, c)))
            && (m in memories && !Bears(m)(e) ==> next[m] == Marked(memories[m], e, m, c))
  {
    hide EventLane;
  }

  lemma MemoryBornTold(log: Log, c: Context, m: Id)
    requires log != [] && Bears(m)(log[|log| - 1])
    ensures var e := log[|log| - 1]; MemoryTold(FreshRecord(e.payload.memory, EventLane(e, c)), log, c, m, |log| - 1)
  {
    hide EventLane;
  }

  lemma MemoryStepTold(r: MemoryRecord, log: Log, c: Context, m: Id, p: nat)
    requires log != [] && MemoryTold(r, log[..|log| - 1], c, m, p)
    ensures MemoryTold(Marked(r, log[|log| - 1], m, c), log, c, m, p)
  {
    hide EventLane, Last, First;
    var lane := EventLane(log[p], c);
    assert log[..|log| - 1][p] == log[p];
    assert r.Lane() == lane;
    LastStep(log, p + 1, Replaces(m));
    LastStep(log, p + 1, Withdraws(m, lane, c));
    LastStep(log, p + 1, WithdrawsSigned(m, lane, c));
    FirstStep(log, p + 1, Withdraws(m, lane, c));
  }

  lemma {:induction false} RecordIsReadOff(log: Log, c: Context, m: Id)
    ensures var records := Records(log, c.selfId, c.isUnion); var p := Last(log, 0, Bears(m));
            && (m in records <==> p.Some?)
            && (m in records ==> MemoryTold(records[m], log, c, m, p.value))
  {
    hide LaneOf, MemoryTold, NextMemories, Marked;
    if log != [] {
      var n := |log| - 1;
      RecordIsReadOff(log[..n], c, m);
      var before := Records(log[..n], c.selfId, c.isUnion);
      NextRecord(before, log[n], m, c);
      if Bears(m)(log[n]) {
        MemoryBornTold(log, c, m);
      } else if m in before {
        MemoryStepTold(before[m], log, c, m, Last(log[..n], 0, Bears(m)).value);
      }
    }
  }

  /** Closed by its duplicate: the record points at a memory of the state, and closes when that one was created. */
  ghost predicate ClosedByDedup(r: MemoryRecord, memories: Memories) {
    r.dedupedBy.Some? && r.dedupedBy.value in memories &&
    r.invalidAt == Some(memories[r.dedupedBy.value].memory.createdAt)
  }

  /**
   * Every memory of the reduced state, read off the log: a memory is there if it was ever
   * consolidated; what closed it, when, and who withdrew it is what the last (or, for the time of a
   * withdrawal, the first) event aimed at it after its birth says; only what no event closed
   * can be closed by dedup.
   */
  lemma MemoryIsReadOff(log: Log, self: Option<Id>, m: Id)
    requires Reduce(log, self).Reduced?
    ensures var c := Prescan(log, self); var memories := Reduce(log, self).state.memories;
            var p := Last(log, 0, Bears(m));
            && (m in memories <==> p.Some?)
            && (m in memories ==>
                  var r := memories[m];
                  if r.dedupedBy.None? then MemoryTold(r, log, c, m, p.value)
                  else MemoryTold(r.(invalidAt := None), log, c, m, p.value) && ClosedByDedup(r, memories))
  {
    hide Replay, Records, DedupKey, Before, MemoryTold, LaneOf;
    var c := Prescan(log, self);
    ReplayKeepsRecords(log, c);
    RecordIsReadOff(log, c, m);
    RecordsStartUndeduped(log, c.selfId, c.isUnion);
    RecordsAreWellKeyed(log, c);
    var records := Records(log, c.selfId, c.isUnion);
    if m in records && Competes(records[m]) && Winner(records, m) != m {
      var demoted := Demoted(records[m], records[Winner(records, m)]);
      UndoneByDedup(records[m], records[Winner(records, m)], log, c, m, Last(log, 0, Bears(m)).value);
    }
  }

  lemma UndoneByDedup(r: MemoryRecord, winner: MemoryRecord, log: Log, c: Context, m: Id, p: nat)
    requires MemoryTold(r, log, c, m, p) && r.invalidAt.None?
    ensures MemoryTold(Demoted(r, winner).(invalidAt := None), log, c, m, p)
  {
  }

  // --- tasks -----------------------------------------------------------------------------------------------

  predicate OnKey(e: Event, key: string, c: Context) {
    LaneKey(EventLane(e, c), e.scopeId) == key
  }

  function Creates(key: string, c: Context): Event -> bool {
    (e: Event) => e.payload.TaskCreated? && OnKey(e, key, c)
  }

  function Retitles(key: string, c: Context): Event -> bool {
    (e: Event) => e.payload.TaskUpdated? && OnKey(e, key, c) && e.payload.taskPatch.title.Some?
  }

  function Restates(key: string, c: Context): Event -> bool {
    (e: Event) => e.payload.TaskUpdated? && OnKey(e, key, c) && e.payload.taskPatch.status.Some?
  }

  function HandsOff(key: string, c: Context): Event -> bool {
    (e: Event) => e.payload.TaskUpdated? && OnKey(e, key, c) && e.payload.taskPatch.latestHandoffId.Some?
  }

  const APPENDABLE: set<string> := {"acceptanceCriteria", "openQuestions", "riskNotes"}

  function Touches(key: string, c: Context): Event -> bool {
    (e: Event) => OnKey(e, key, c) &&
         (e.payload.TaskUpdated? ||
          (e.payload.TaskItemAppended? && e.payload.item.Some? && e.payload.field in APPENDABLE))
  }

  /** The texts appended to one list of a task from `from` on, in log order. */
  function Items(log: Log, from: nat, key: string, field: string, c: Context): seq<string> {
    if |log| <= from then []
    else
      var e := log[|log| - 1];
      Items(log[..|log| - 1], from, key, field, c) +
      if e.payload.TaskItemAppended? && OnKey(e, key, c) && e.payload.field == field && e.payload.item.Some?
      then [e.payload.item.value] else []
  }

  function TouchTime(e: Event): Time {
    if e.payload.TaskUpdated? then e.payload.taskPatch.updatedAt.GetOr(e.createdAt) else e.createdAt
  }

  ghost predicate TaskTold(t: Task, log: Log, c: Context, key: string, p: nat) {
    FieldsTold(t, log, c, key, p) && ListsTold(t, log, c, key, p)
  }

  ghost predicate FieldsTold(t: Task, log: Log, c: Context, key: string, p: nat) {
    && p < |log| && log[p].payload.TaskCreated?
    && var made := log[p].payload.task;
       var titled, stated := Last(log, p + 1, Retitles(key, c)), Last(log, p + 1, Restates(key, c));
       var handed, touched := Last(log, p + 1, HandsOff(key, c)), Last(log, p + 1, Touches(key, c));
       && t.id == made.id && t.priority == made.priority
       && t.title == (if titled.None? then made.title else log[titled.value].payload.taskPatch.title.value)
       && t.status == (if stated.None? then made.status else log[stated.value].payload.taskPatch.status.value)
       && t.latestHandoffId ==
          (if handed.None? then made.latestHandoffId else log[handed.value].payload.taskPatch.latestHandoffId)
       && t.updatedAt == (if touched.None? then made.updatedAt else TouchTime(log[touched.value]))
  }

  ghost predicate ListsTold(t: Task, log: Log, c: Context, key: string, p: nat) {
    && p < |log| && log[p].payload.TaskCreated?
    && var made := log[p].payload.task;
       && t.acceptanceCriteria == made.acceptanceCriteria + Items(log, p + 1, key, "acceptanceCriteria", c)
       && t.openQuestions == made.openQuestions + Items(log, p + 1, key, "openQuestions", c)
       && t.riskNotes == made.riskNotes + Items(log, p + 1, key, "riskNotes", c)
  }

  lemma {:induction false} GetAfterPut<V>(entries: seq<(string, V)>, key: string, value: V, other: string)
    ensures Get(Put(entries, key, value), other) == if other == key then Some(value) else Get(entries, other)
  {
    if entries != [] && entries[0].0 != key { GetAfterPut(entries[1..], key, value, other); }
  }

  lemma FieldsDiffer()
    ensures "acceptanceCriteria" != "openQuestions" && "openQuestions" != "riskNotes"
    ensures "acceptanceCriteria" != "riskNotes"
  {
  }

  /** What one event does to a task it does not create. */
  function TaskAfter(t: Task, e: Event, key: string, c: Context): Task {
    if !OnKey(e, key, c) then t
    else
      match e.payload
      case TaskUpdated(patch) => PatchedTask(t, patch, e.createdAt)
      case TaskItemAppended(field, item) => AppendedTask(t, field, item, e.createdAt)
      case _ => t
  }

  lemma FieldsStepTold(t: Task, log: Log, c: Context, key: string, p: nat)
    requires log != [] && FieldsTold(t, log[..|log| - 1], c, key, p)
    ensures FieldsTold(TaskAfter(t, log[|log| - 1], key, c), log, c, key, p)
  {
    hide OnKey, Last;
    assert log[..|log| - 1][p] == log[p];
    LastStep(log, p + 1, Retitles(key, c));
    LastStep(log, p + 1, Restates(key, c));
    LastStep(log, p + 1, HandsOff(key, c));
    LastStep(log, p + 1, Touches(key, c));
  }

  lemma ListsStepTold(t: Task, log: Log, c: Context, key: string, p: nat)
    requires log != [] && ListsTold(t, log[..|log| - 1], c, key, p)
    ensures ListsTold(TaskAfter(t, log[|log| - 1], key, c), log, c, key, p)
  {
    hide OnKey;
    FieldsDiffer();
    assert log[..|log| - 1][p] == log[p];
  }

  lemma TaskStepTold(t: Task, log: Log, c: Context, key: string, p: nat)
    requires log != [] && TaskTold(t, log[..|log| - 1], c, key, p)
    ensures TaskTold(TaskAfter(t, log[|log| - 1], key, c), log, c, key, p)
  {
    hide FieldsTold, ListsTold, TaskAfter;
    FieldsStepTold(t, log, c, key, p);
    ListsStepTold(t, log, c, key, p);
  }

  lemma TaskBornTold(log: Log, c: Context, key: string)
    requires log != [] && Creates(key, c)(log[|log| - 1])
    ensures TaskTold(log[|log| - 1].payload.task, log, c, key, |log| - 1)
  {
    hide OnKey;
  }

  /** Every task under a key, read off the log. */
  lemma {:induction false} TaskIsReadOff(log: Log, c: Context, key: string)
    requires Replay(log, c).Reduced?
    ensures var t := Get(Replay(log, c).state.tasks, key); var p := Last(log, 0, Creates(key, c));
            && (t.Some? <==> p.Some?)
            && (t.Some? ==> TaskTold(t.value, log, c, key, p.value))
  {
    hide Replay, TaskTold, TaskAfter, OnKey, EventLane, LaneKey, NextTasks;
    if log == [] {
      NothingReplayed(c);
    } else {
      var n := |log| - 1;
      StateStep(log, c);
      TaskIsReadOff(log[..n], c, key);
      NextTaskUnder(Replay(log[..n], c).state.tasks, log[n], key, c);
      var before := Get(Replay(log[..n], c).state.tasks, key);
      if Creates(key, c)(log[n]) {
        TaskBornTold(log, c, key);
      } else if before.Some? {
        TaskStepTold(before.value, log, c, key, Last(log[..n], 0, Creates(key, c)).value);
      }
    }
  }

  lemma NothingReplayed(c: Context)
    ensures Replay([], c) == Reduced(EMPTY)
  {
  }

  lemma NextTaskUnder(tasks: seq<(string, Task)>, e: Event, key: string, c: Context)
    ensures var before := Get(tasks, key);
            Get(NextTasks(tasks, e, EventLane(e, c)), key) ==
            if Creates(key, c)(e) then Some(e.payload.task)
            else if before.None? then before else Some(TaskAfter(before.value, e, key, c))
  {
    hide PatchedTask, AppendedTask, EventLane, Get, Put;
    var lane := EventLane(e, c);
    var mine := LaneKey(lane, e.scopeId);
    match e.payload
    case TaskCreated(task) => GetAfterPut(tasks, mine, task, key);
    case TaskUpdated(patch) =>
      if Get(tasks, mine).Some? {
        GetAfterPut(tasks, mine, PatchedTask(Get(tasks, mine).value, patch, e.createdAt), key);
      }
    case TaskItemAppended(field, item) =>
      if Get(tasks, mine).Some? {
        GetAfterPut(tasks, mine, AppendedTask(Get(tasks, mine).value, field, item, e.createdAt), key);
      }
    case _ =>
  }

  // --- which tasks are active ------------------------------------------------------------------------------

  function Keys<V>(entries: seq<(string, V)>): seq<string> {
    seq(|entries|, i requires 0 <= i < |entries| => entries[i].0)
  }

  lemma {:induction false} PutKeepsKeys<V>(entries: seq<(string, V)>, key: string, value: V)
    ensures Keys(Put(entries, key, value)) == if Get(entries, key).Some? then Keys(entries) else Keys(entries) + [key]
  {
    if entries != [] {
      assert Keys(entries) == [entries[0].0] + Keys(entries[1..]);
      if entries[0].0 != key {
        PutKeepsKeys(entries[1..], key, value);
        var rest := Put(entries[1..], key, value);
        assert Keys([entries[0]] + rest) == [entries[0].0] + Keys(rest);
      }
    }
  }

  lemma {:induction false} KeyIsThere<V>(entries: seq<(string, V)>, key: string)
    ensures Get(entries, key).Some? <==> key in Keys(entries)
  {
    if entries != [] {
      assert Keys(entries) == [entries[0].0] + Keys(entries[1..]);
      KeyIsThere(entries[1..], key);
    }
  }

  lemma {:induction false} LastOrNone(log: Log, from: nat, asked: Event -> bool)
    ensures Last(log, from, asked).Some? <==> First(log, from, asked).Some?
  {
    if |log| > from { LastOrNone(log[..|log| - 1], from, asked); }
  }

  /** Each key was created, and the earlier one of two was created first. */
  ghost predicate InOrder(keys: seq<string>, log: Log, c: Context) {
    && (forall i :: 0 <= i < |keys| ==> First(log, 0, Creates(keys[i], c)).Some?)
    && (forall i, j :: 0 <= i < j < |keys| ==>
          First(log, 0, Creates(keys[i], c)).value < First(log, 0, Creates(keys[j], c)).value)
  }

  lemma OrderStays(keys: seq<string>, log: Log, c: Context)
    requires log != [] && InOrder(keys, log[..|log| - 1], c)
    ensures InOrder(keys, log, c)
  {
    hide Creates;
    forall i | 0 <= i < |keys|
      ensures First(log, 0, Creates(keys[i], c)) == First(log[..|log| - 1], 0, Creates(keys[i], c))
    {
      FirstStep(log, 0, Creates(keys[i], c));
    }
  }

  lemma OneMoreKey(keys: seq<string>, log: Log, c: Context, key: string)
    requires log != [] && InOrder(keys, log[..|log| - 1], c)
    requires Creates(key, c)(log[|log| - 1]) && First(log[..|log| - 1], 0, Creates(key, c)).None?
    ensures InOrder(keys + [key], log, c)
  {
    hide Creates, First;
    var before := log[..|log| - 1];
    OrderStays(keys, log, c);
    FirstStep(log, 0, Creates(key, c));
    forall i | 0 <= i < |keys|
      ensures First(log, 0, Creates(keys[i], c)) == First(before, 0, Creates(keys[i], c))
    {
      FirstStep(log, 0, Creates(keys[i], c));
    }
  }

  /** Tasks are listed in the order in which their keys were first created. */
  lemma {:induction false} TasksAreInOrder(log: Log, c: Context)
    requires Replay(log, c).Reduced?
    ensures InOrder(Keys(Replay(log, c).state.tasks), log, c)
  {
    hide Replay, InOrder, OnKey, EventLane, LaneKey, Keys, Put, Get, PatchedTask, AppendedTask, TaskTold;
    if log == [] {
      NothingReplayed(c);
      NoKeys(c);
    } else {
      var n := |log| - 1;
      var e := log[n];
      StateStep(log, c);
      TasksAreInOrder(log[..n], c);
      var tasks := Replay(log[..n], c).state.tasks;
      var key := LaneKey(EventLane(e, c), e.scopeId);
      OrderStays(Keys(tasks), log, c);
      match e.payload {
        case TaskCreated(task) =>
          PutKeepsKeys(tasks, key, task);
          TaskIsReadOff(log[..n], c, key);
          LastOrNone(log[..n], 0, Creates(key, c));
          CreatesItsKey(e, c);
          if Get(tasks, key).None? { OneMoreKey(Keys(tasks), log, c, key); }
        case TaskUpdated(patch) =>
          if Get(tasks, key).Some? { PutKeepsKeys(tasks, key, PatchedTask(Get(tasks, key).value, patch, e.createdAt)); }
        case TaskItemAppended(field, item) =>
          if Get(tasks, key).Some? {
            PutKeepsKeys(tasks, key, AppendedTask(Get(tasks, key).value, field, item, e.createdAt));
          }
        case _ =>
      }
    }
  }

  lemma CreatesItsKey(e: Event, c: Context)
    requires e.payload.TaskCreated?
    ensures Creates(LaneKey(EventLane(e, c), e.scopeId), c)(e)
  {
  }

  lemma NoKeys(c: Context)
    ensures InOrder(Keys(EMPTY.tasks), [], c)
  {
  }

  /** The id a task was last created with, and the status it was last given. */
  function IdOn(log: Log, key: string, c: Context): Option<Id> {
    var p := Last(log, 0, Creates(key, c));
    if p.None? then None else Some(log[p.value].payload.task.id)
  }

  function StatusOn(log: Log, key: string, c: Context): Option<TaskStatus> {
    var p := Last(log, 0, Creates(key, c));
    if p.None? then None
    else
      var q := Last(log, p.value + 1, Restates(key, c));
      if q.None? then Some(log[p.value].payload.task.status) else log[q.value].payload.taskPatch.status
  }

  /** The store's own tasks that are neither done nor cancelled, in the order they were first created. */
  ghost predicate ActiveTold(ids: seq<Id>, keys: seq<string>, log: Log, c: Context) {
    && |ids| == |keys| && InOrder(keys, log, c)
    && (forall i :: 0 <= i < |keys| ==> IdOn(log, keys[i], c) == Some(ids[i]))
    && (forall key :: key in keys <==>
          NUL !in key && StatusOn(log, key, c).Some? && StatusOn(log, key, c) != Some(Done) &&
          StatusOn(log, key, c) != Some(Cancelled))
  }

  predicate StaysActive(entry: (string, Task)) {
    NUL !in entry.0 && entry.1.status != Done && entry.1.status != Cancelled
  }

  function OpenKeys(tasks: seq<(string, Task)>): seq<string> {
    if tasks == [] then []
    else
      var n := |tasks| - 1;
      var rest := OpenKeys(tasks[..n]);
      if StaysActive(tasks[n]) then rest + [tasks[n].0] else rest
  }

  lemma {:induction false} OpenJoins(a: seq<(string, Task)>, b: seq<(string, Task)>)
    ensures OpenSelfTasks(a + b) == OpenSelfTasks(a) + OpenSelfTasks(b)
  {
    if a == [] {
      assert a + b == b;
    } else {
      assert (a + b)[1..] == a[1..] + b;
      OpenJoins(a[1..], b);
    }
  }

  lemma OpenOne(entry: (string, Task))
    ensures OpenSelfTasks([entry]) ==
            if StaysActive(entry) then [entry.1] else []
  {
    assert [entry][1..] == [];
    assert OpenSelfTasks([entry][1..]) == [];
  }

  ghost predicate Listed(tasks: seq<(string, Task)>, key: string, task: Task) {
    exists a :: 0 <= a < |tasks| && tasks[a] == (key, task)
  }

  /** The open tasks, key by key. */
  ghost predicate OpenMatch(tasks: seq<(string, Task)>, open: seq<Task>, keys: seq<string>) {
    && |open| == |keys|
    && (forall i :: 0 <= i < |keys| ==> Listed(tasks, keys[i], open[i]) && StaysActive((keys[i], open[i])))
    && (forall a :: 0 <= a < |tasks| && StaysActive(tasks[a]) ==> tasks[a].0 in keys)
  }

  lemma OneMoreOpen(tasks: seq<(string, Task)>, open: seq<Task>, keys: seq<string>, entry: (string, Task))
    requires OpenMatch(tasks, open, keys)
    ensures OpenMatch(tasks + [entry], if StaysActive(entry) then open + [entry.1] else open,
                      if StaysActive(entry) then keys + [entry.0] else keys)
  {
    hide StaysActive;
    var longer := tasks + [entry];
    forall key, task | Listed(tasks, key, task) ensures Listed(longer, key, task) {
      var a :| 0 <= a < |tasks| && tasks[a] == (key, task);
      assert longer[a] == (key, task);
    }
    assert longer[|tasks|] == (entry.0, entry.1);
    assert Listed(longer, entry.0, entry.1);
    assert entry == (entry.0, entry.1);
  }

  lemma {:induction false} OpenKeysMatch(tasks: seq<(string, Task)>)
    ensures OpenMatch(tasks, OpenSelfTasks(tasks), OpenKeys(tasks))
  {
    hide OpenMatch, OpenSelfTasks;
    if tasks == [] {
      NothingOpen();
    } else {
      var n := |tasks| - 1;
      OpenKeysMatch(tasks[..n]);
      OpenJoins(tasks[..n], [tasks[n]]);
      OpenOne(tasks[n]);
      assert tasks == tasks[..n] + [tasks[n]];
      OneMoreOpen(tasks[..n], OpenSelfTasks(tasks[..n]), OpenKeys(tasks[..n]), tasks[n]);
      assert OpenSelfTasks(tasks[..n]) + [] == OpenSelfTasks(tasks[..n]);
    }
  }

  lemma NothingOpen()
    ensures OpenMatch([], OpenSelfTasks([]), OpenKeys([]))
  {
  }

  lemma {:induction false} OpenKeysAreKeys(tasks: seq<(string, Task)>)
    ensures forall key :: key in OpenKeys(tasks) ==> key in Keys(tasks)
  {
    if tasks != [] {
      var n := |tasks| - 1;
      OpenKeysAreKeys(tasks[..n]);
      assert Keys(tasks) == Keys(tasks[..n]) + [tasks[n].0];
    }
  }

  lemma PrefixInOrder(keys: seq<string>, n: nat, log: Log, c: Context)
    requires n <= |keys| && InOrder(keys, log, c)
    ensures InOrder(keys[..n], log, c)
  {
    hide Creates, First;
  }

  lemma OneMoreInOrder(keys: seq<string>, last: string, log: Log, c: Context)
    requires InOrder(keys, log, c) && First(log, 0, Creates(last, c)).Some?
    requires forall key :: key in keys ==>
               First(log, 0, Creates(key, c)).Some? &&
               First(log, 0, Creates(key, c)).value < First(log, 0, Creates(last, c)).value
    ensures InOrder(keys + [last], log, c)
  {
    hide Creates, First;
  }

  /** The keys of the open tasks keep the order of all keys. */
  lemma {:induction false} OpenKeysInOrder(tasks: seq<(string, Task)>, log: Log, c: Context)
    requires InOrder(Keys(tasks), log, c)
    ensures InOrder(OpenKeys(tasks), log, c)
  {
    hide Creates, First, StaysActive;
    if tasks != [] {
      var n := |tasks| - 1;
      var keys := Keys(tasks);
      assert Keys(tasks[..n]) == keys[..n];
      PrefixInOrder(keys, n, log, c);
      OpenKeysInOrder(tasks[..n], log, c);
      OpenKeysAreKeys(tasks[..n]);
      forall key | key in OpenKeys(tasks[..n])
        ensures First(log, 0, Creates(key, c)).Some?
        ensures First(log, 0, Creates(key, c)).value < First(log, 0, Creates(keys[n], c)).value
      {
        var a :| 0 <= a < n && keys[..n][a] == key;
        assert keys[a] == key;
      }
      OneMoreInOrder(OpenKeys(tasks[..n]), keys[n], log, c);
    }
  }

  lemma EntryIsGot(tasks: seq<(string, Task)>, log: Log, c: Context, key: string, task: Task)
    requires InOrder(Keys(tasks), log, c) && Listed(tasks, key, task)
    ensures Get(tasks, key) == Some(task)
  {
    hide InOrder;
    KeysAreDistinct(tasks, log, c);
    var a :| 0 <= a < |tasks| && tasks[a] == (key, task);
    GetAt(tasks, a);
  }

  lemma KeysAreDistinct(tasks: seq<(string, Task)>, log: Log, c: Context)
    requires InOrder(Keys(tasks), log, c)
    ensures forall i, j :: 0 <= i < j < |tasks| ==> tasks[i].0 != tasks[j].0
  {
    hide Creates, First;
    forall i, j | 0 <= i < j < |tasks| ensures tasks[i].0 != tasks[j].0 {
      assert Keys(tasks)[i] == tasks[i].0 && Keys(tasks)[j] == tasks[j].0;
    }
  }

  lemma {:induction false} GetAt(tasks: seq<(string, Task)>, a: nat)
    requires a < |tasks| && forall i, j :: 0 <= i < j < |tasks| ==> tasks[i].0 != tasks[j].0
    ensures Get(tasks, tasks[a].0) == Some(tasks[a].1)
  {
    if a > 0 { GetAt(tasks[1..], a - 1); }
  }

  lemma {:induction false} GotIsListed(tasks: seq<(string, Task)>, key: string)
    requires Get(tasks, key).Some?
    ensures Listed(tasks, key, Get(tasks, key).value)
  {
    if tasks[0].0 == key {
      assert tasks[0] == (key, tasks[0].1);
    } else {
      GotIsListed(tasks[1..], key);
      var a :| 0 <= a < |tasks[1..]| && tasks[1..][a] == (key, Get(tasks, key).value);
      assert tasks[a + 1] == (key, Get(tasks, key).value);
    }
  }

  lemma ListedIsThere(tasks: seq<(string, Task)>, key: string, task: Task)
    requires Listed(tasks, key, task)
    ensures exists a :: 0 <= a < |tasks| && tasks[a] == (key, task)
  {
  }

  lemma StatusIsTold(log: Log, c: Context, key: string)
    requires Replay(log, c).Reduced?
    ensures var t := Get(Replay(log, c).state.tasks, key);
            && StatusOn(log, key, c) == (if t.None? then None else Some(t.value.status))
            && IdOn(log, key, c) == (if t.None? then None else Some(t.value.id))
  {
    hide Replay, Retitles, HandsOff, Touches, ListsTold, Last, OnKey;
    TaskIsReadOff(log, c, key);
  }

  /** The active list of the reduced project, read off the log. */
  lemma ActiveTasksAreReadOff(log: Log, self: Option<Id>)
    requires Reduce(log, self).Reduced? && Reduce(log, self).state.project.Some?
    ensures exists keys ::
              ActiveTold(Reduce(log, self).state.project.value.activeTaskIds, keys, log, Prescan(log, self))
  {
    hide Replay, InOrder, StatusOn, IdOn, OpenSelfTasks, OpenKeys, Get, Dedupe, Prescan, Listed;
    var c := Prescan(log, self);
    var tasks := Replay(log, c).state.tasks;
    var open, keys := OpenSelfTasks(tasks), OpenKeys(tasks);
    TasksAreInOrder(log, c);
    OpenKeysMatch(tasks);
    OpenKeysInOrder(tasks, log, c);
    forall i | 0 <= i < |keys|
      ensures IdOn(log, keys[i], c) == Some(open[i].id) && StatusOn(log, keys[i], c) == Some(open[i].status)
    {
      assert StaysActive((keys[i], open[i]));
      EntryIsGot(tasks, log, c, keys[i], open[i]);
      StatusIsTold(log, c, keys[i]);
    }
    forall key | NUL !in key && StatusOn(log, key, c).Some? && StatusOn(log, key, c) != Some(Done) &&
        StatusOn(log, key, c) != Some(Cancelled)
      ensures key in keys
    {
      StatusIsTold(log, c, key);
      GotIsListed(tasks, key);
      var t := Get(tasks, key).value;
      ListedIsThere(tasks, key, t);
    }
    assert ActiveTold(TaskIds(open), keys, log, c);
  }

  /** The startup index shows the open tasks updated last, newest first, and at most twenty. */
  ghost predicate NewestShown(top: seq<TopTask>, ranked: seq<Task>) {
    && |top| == (if |ranked| <= 20 then |ranked| else 20)
    && (forall i, j :: 0 <= i < j < |ranked| ==> !Less(ranked[i].updatedAt, ranked[j].updatedAt))
    && (forall i :: 0 <= i < |top| ==>
          var t := ranked[i]; top[i] == TopTask(t.id, t.title, t.status, t.priority, t.latestHandoffId))
  }

  lemma TopTasksAreNewest(s: ProjectState)
    ensures exists ranked ::
              multiset(ranked) == multiset(OpenSelfTasks(s.tasks)) && NewestShown(TopTasks(s), ranked)
  {
    hide OpenSelfTasks, SortBy, Less;
    var open := OpenSelfTasks(s.tasks);
    NewerTaskIsOrder();
    SortKeeps(open, NewerTask);
    SortSorts(open, NewerTask);
    assert NewestShown(TopTasks(s), SortBy(open, NewerTask));
  }

  lemma NewerTaskIsOrder()
    ensures StrictWeakOrder(NewerTask)
  {
    LessIsOrder();
  }

  // --- sessions, handoffs, observations --------------------------------------------------------------------

  function Starts(key: string, c: Context): Event -> bool {
    (e: Event) => e.payload.SessionStarted? && LaneKey(EventLane(e, c), e.payload.session.id) == key
  }

  function Ends(key: string, c: Context): Event -> bool {
    (e: Event) => (e.payload.SessionCompleted? || e.payload.SessionAbandoned?) && OnKey(e, key, c)
  }

  function Moves(key: string, c: Context): Event -> bool {
    (e: Event) => Ends(key, c)(e) || ((e.payload.SessionPaused? || e.payload.SessionResumed?) && OnKey(e, key, c))
  }

  function Beats(key: string, c: Context): Event -> bool {
    (e: Event) => e.payload.SessionHeartbeat? && LaneKey(EventLane(e, c), e.payload.sessionId) == key
  }

  function Sees(key: string, c: Context): Event -> bool {
    (e: Event) => Moves(key, c)(e) || Beats(key, c)(e)
  }

  function SeenTime(e: Event): Time {
    if e.payload.SessionHeartbeat? then e.payload.at else e.createdAt
  }

  ghost predicate SessionTold(s: Session, log: Log, c: Context, key: string, p: nat) {
    && p < |log| && log[p].payload.SessionStarted?
    && var made := log[p].payload.session;
       var ended, moved := Last(log, p + 1, Ends(key, c)), Last(log, p + 1, Moves(key, c));
       var seen := Last(log, p + 1, Sees(key, c));
       && s.id == made.id
       && s.endedAt == (if ended.None? then made.endedAt else Some(log[ended.value].createdAt))
       && s.lastSeenAt == (if seen.None? then made.lastSeenAt else SeenTime(log[seen.value]))
       && s.updatedAt == (if seen.None? then made.updatedAt else SeenTime(log[seen.value]))
       && (moved.None? ==> s.status == made.status)
       && (moved.Some? ==>
             var e := log[moved.value].payload;
             && (e.SessionCompleted? ==> s.status == Completed) && (e.SessionAbandoned? ==> s.status == Abandoned)
             && (e.SessionPaused? ==> s.status == Paused) && (e.SessionResumed? ==> s.status == Active))
  }

  /** What one event does to a session it does not start. */
  function SessionAfter(s: Session, e: Event, key: string, c: Context): Session {
    if Ends(key, c)(e) then
      s.(status := if e.payload.SessionCompleted? then Completed else Abandoned, endedAt := Some(e.createdAt),
         lastSeenAt := e.createdAt, updatedAt := e.createdAt)
    else if Moves(key, c)(e) then
      s.(status := if e.payload.SessionPaused? then Paused else Active, lastSeenAt := e.createdAt,
         updatedAt := e.createdAt)
    else if Beats(key, c)(e) then s.(lastSeenAt := e.payload.at, updatedAt := e.payload.at)
    else s
  }

  lemma NextSessionUnder(sessions: map<string, Session>, e: Event, key: string, c: Context)
    ensures var next := NextSessions(sessions, e, EventLane(e, c));
            && (key in next <==> key in sessions || Starts(key, c)(e))
            && (Starts(key, c)(e) ==> next[key] == e.payload.session)
            && (key in sessions && !Starts(key, c)(e) ==> next[key] == SessionAfter(sessions[key], e, key, c))
  {
    hide EventLane, LaneKey;
  }

  lemma SessionStepTold(s: Session, log: Log, c: Context, key: string, p: nat)
    requires log != [] && SessionTold(s, log[..|log| - 1], c, key, p)
    ensures SessionTold(SessionAfter(s, log[|log| - 1], key, c), log, c, key, p)
  {
    hide OnKey, EventLane, LaneKey, Last;
    assert log[..|log| - 1][p] == log[p];
    LastStep(log, p + 1, Ends(key, c));
    LastStep(log, p + 1, Moves(key, c));
    LastStep(log, p + 1, Sees(key, c));
  }

  lemma SessionBornTold(log: Log, c: Context, key: string)
    requires log != [] && Starts(key, c)(log[|log| - 1])
    ensures SessionTold(log[|log| - 1].payload.session, log, c, key, |log| - 1)
  {
    hide OnKey, EventLane, LaneKey;
  }

  /** Every session under a key, read off the log. */
  lemma {:induction false} SessionIsReadOff(log: Log, c: Context, key: string)
    requires Replay(log, c).Reduced?
    ensures var sessions := Replay(log, c).state.sessions; var p := Last(log, 0, Starts(key, c));
            && (key in sessions <==> p.Some?)
            && (key in sessions ==> SessionTold(sessions[key], log, c, key, p.value))
  {
    hide Replay, SessionTold, SessionAfter, Starts, EventLane, NextSessions;
    if log == [] {
      NothingReplayed(c);
    } else {
      var n := |log| - 1;
      StateStep(log, c);
      SessionIsReadOff(log[..n], c, key);
      var before := Replay(log[..n], c).state.sessions;
      NextSessionUnder(before, log[n], key, c);
      if Starts(key, c)(log[n]) {
        SessionBornTold(log, c, key);
      } else if key in before {
        SessionStepTold(before[key], log, c, key, Last(log[..n], 0, Starts(key, c)).value);
      }
    }
  }

  function HandsOver(key: string, c: Context): Event -> bool {
    (e: Event) => e.payload.HandoffCreated? && LaneKey(EventLane(e, c), e.payload.handoff.id) == key
  }

  function Sights(o: Id): Event -> bool {
    (e: Event) => e.payload.ObservationCaptured? && e.payload.observation.id == o
  }

  function Names(id: Id): Event -> bool {
    (e: Event) => e.payload.ProjectCreated? && e.payload.project.id == id
  }

  /** Handoffs, observations and the roster of members: the last event that carries the key. */
  lemma {:induction false} EntriesAreReadOff(log: Log, c: Context, key: string)
    requires Replay(log, c).Reduced?
    ensures var s := Replay(log, c).state;
            var h, o, m := Last(log, 0, HandsOver(key, c)), Last(log, 0, Sights(key)), Last(log, 0, Names(key));
            && (key in s.handoffs <==> h.Some?) && (h.Some? ==> s.handoffs[key] == log[h.value].payload.handoff)
            && (key in s.observations <==> o.Some?)
            && (o.Some? ==> s.observations[key] == log[o.value].payload.observation)
            && (key in s.members <==> m.Some?)
            && (m.Some? ==>
                  s.members[key] == MemberProject(key, log[m.value].payload.project.title, Some(key) == c.selfId))
  {
    hide Replay, EventLane, LaneKey;
    if log == [] {
      NothingReplayed(c);
    } else {
      var n := |log| - 1;
      StateStep(log, c);
      EntriesAreReadOff(log[..n], c, key);
    }
  }

  // --- the project ---------------------------------------------------------------------------------------------

  /** A genesis the store takes as its own: in a union with a known self, only that of the self. */
  function Founds(c: Context): Event -> bool {
    (e: Event) => e.payload.ProjectCreated? && (Some(e.payload.project.id) == c.selfId || !c.isUnion || !c.explicitSelf)
  }

  function Renames(): Event -> bool {
    (e: Event) => e.payload.ProjectUpdated? && e.payload.patch.id.Some?
  }

  function RetitlesProject(): Event -> bool {
    (e: Event) => e.payload.ProjectUpdated? && e.payload.patch.title.Some?
  }

  function Resummarises(): Event -> bool {
    (e: Event) => e.payload.ProjectUpdated? && e.payload.patch.summary.Some?
  }

  ghost predicate ProjectTold(p: Project, log: Log, c: Context, at: nat) {
    && at < |log| && log[at].payload.ProjectCreated?
    && var made := log[at].payload.project;
       var renamed, titled := Last(log, at + 1, Renames()), Last(log, at + 1, RetitlesProject());
       var summed := Last(log, at + 1, Resummarises());
       && p.id == (if renamed.None? then made.id else log[renamed.value].payload.patch.id.value)
       && p.title == (if titled.None? then made.title else log[titled.value].payload.patch.title.value)
       && p.summary == (if summed.None? then made.summary else log[summed.value].payload.patch.summary.value)
  }

  lemma ProjectStepTold(p: Project, log: Log, c: Context, at: nat)
    requires log != [] && ProjectTold(p, log[..|log| - 1], c, at)
    ensures var e := log[|log| - 1];
            ProjectTold(if e.payload.ProjectUpdated? then Patched(p, e.payload.patch) else p, log, c, at)
  {
    hide Last;
    assert log[..|log| - 1][at] == log[at];
    LastStep(log, at + 1, Renames());
    LastStep(log, at + 1, RetitlesProject());
    LastStep(log, at + 1, Resummarises());
  }

  /** The project of the reduced state, its list of active tasks aside, read off the log. */
  lemma {:induction false} ProjectIsReadOff(log: Log, c: Context)
    requires Replay(log, c).Reduced?
    ensures var project := Replay(log, c).state.project; var at := Last(log, 0, Founds(c));
            && (project.Some? <==> at.Some?)
            && (project.Some? ==> ProjectTold(project.value, log, c, at.value))
  {
    hide Replay, ProjectTold, Patched;
    if log == [] {
      NothingReplayed(c);
    } else {
      var n := |log| - 1;
      StateStep(log, c);
      ProjectIsReadOff(log[..n], c);
      if Founds(c)(log[n]) {
        FoundedTold(log, c);
      } else if Replay(log[..n], c).state.project.Some? {
        ProjectStepTold(Replay(log[..n], c).state.project.value, log, c, Last(log[..n], 0, Founds(c)).value);
      }
    }
  }

  lemma FoundedTold(log: Log, c: Context)
    requires log != [] && log[|log| - 1].payload.ProjectCreated?
    ensures ProjectTold(log[|log| - 1].payload.project, log, c, |log| - 1)
  {
  }

  /** Dedup and the active list aside, the reduced state is the replayed one. */
  lemma ReducedIsReplayed(log: Log, self: Option<Id>)
    requires Reduce(log, self).Reduced?
    ensures var s, t := Reduce(log, self).state, Replay(log, Prescan(log, self));
            && t.Reduced? && s.tasks == t.state.tasks && s.sessions == t.state.sessions
            && s.handoffs == t.state.handoffs && s.observations == t.state.observations && s.members == t.state.members
            && (s.project.Some? <==> t.state.project.Some?)
            && (s.project.Some? ==>
                  s.project.value.(activeTaskIds := []) == t.state.project.value.(activeTaskIds := []))
  {
    hide Replay, Dedupe, OpenSelfTasks;
  }

  /** The store's own events: those it stamped, and unstamped ones unless a union log names another project. */
  lemma OwnLaneExactly(e: Event, self: Id, isUnion: bool)
    requires e.source != Some(SELF_LANE) && e.projectId != SELF_LANE
    ensures LaneOf(e, Some(self), isUnion) == SELF_LANE <==>
            if e.source.Some? then e.source.value == self else !isUnion || e.projectId == self
    ensures LaneOf(e, Some(self), isUnion) != SELF_LANE ==> LaneOf(e, Some(self), isUnion) == Origin(e)
  {
  }
}
