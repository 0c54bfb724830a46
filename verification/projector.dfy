/** Replay of the log into project state. */
module Projector {
  import opened Events
  import opened Sorting
  import opened Text
  import opened Dedup
  import opened Lanes

  datatype MemberProject = MemberProject(id: Id, title: string, isSelf: bool)

  /** Task order is kept: it is the order in which the index lists them. */
  datatype ProjectState = ProjectState(
    project: Option<Project>, members: map<Id, MemberProject>, tasks: seq<(string, Task)>,
    handoffs: map<string, Handoff>, sessions: map<string, Session>,
    observations: map<Id, Observation>, memories: map<Id, MemoryRecord>)

  datatype Outcome = Reduced(state: ProjectState) | Divergent(kept: Id, incoming: Id)

  /** What the prescan of the genesis events settles before the replay. */
  datatype Context = Context(selfId: Option<Id>, explicitSelf: bool, isUnion: bool)

  const EMPTY: ProjectState := ProjectState(None, map[], [], map[], map[], map[], map[])

  // --- prescan ---------------------------------------------------------------

  function GenesisIds(events: Log): set<Id> {
    set e | e in events && e.payload.ProjectCreated? :: e.payload.project.id
  }

  function FirstGenesis(events: Log): (id: Option<Id>)
    ensures id.None? <==> GenesisIds(events) == {}
    ensures id.Some? ==> id.value in GenesisIds(events)
  {
    if events == [] then None
    else
      assert events == [events[0]] + events[1..];
      if events[0].payload.ProjectCreated? then
        assert events[0] in events;
        assert events[0].payload.project.id in GenesisIds(events);
        Some(events[0].payload.project.id)
      else
        assert GenesisIds(events) == GenesisIds(events[1..]);
        FirstGenesis(events[1..])
  }

  function Prescan(events: Log, selfProjectId: Option<Id>): Context {
    Context(
      if selfProjectId.Some? then selfProjectId else FirstGenesis(events),
      selfProjectId.Some?,
      |GenesisIds(events)| > 1)
  }

  function EventLane(e: Event, c: Context): string {
    LaneOf(e, c.selfId, c.isUnion)
  }

  // --- one event, one part of the state at a time ------------------------------

  /** A non-self genesis of a union is a provenance label, not an identity. */
  predicate SkipsGenesis(incoming: Id, c: Context) {
    c.explicitSelf && c.isUnion && Some(incoming) != c.selfId
  }

  function NextProject(project: Option<Project>, e: Event, c: Context): Option<Project> {
    match e.payload
    case ProjectCreated(incoming) => if SkipsGenesis(incoming.id, c) then project else Some(incoming)
    case ProjectUpdated(patch) => if project.Some? then Some(Patched(project.value, patch)) else None
    case _ => project
  }

  function Patched(project: Project, patch: ProjectPatch): Project {
    project.(id := patch.id.GetOr(project.id),
             title := patch.title.GetOr(project.title),
             summary := patch.summary.GetOr(project.summary))
  }

  function NextMembers(members: map<Id, MemberProject>, e: Event, c: Context): map<Id, MemberProject> {
    match e.payload
    case ProjectCreated(incoming) =>
      members[incoming.id := MemberProject(incoming.id, incoming.title, Some(incoming.id) == c.selfId)]
    case _ => members
  }

  function PatchedTask(task: Task, patch: TaskPatch, at: Time): Task {
    task.(title := patch.title.GetOr(task.title),
          status := patch.status.GetOr(task.status),
          latestHandoffId := if patch.latestHandoffId.Some? then patch.latestHandoffId else task.latestHandoffId,
          updatedAt := patch.updatedAt.GetOr(at))
  }

  /** The closed allowlist of appendable fields; anything else is ignored. */
  function AppendedTask(task: Task, field: string, item: Option<string>, at: Time): Task {
    if item.None? then task
    else if field == "acceptanceCriteria" then
      task.(acceptanceCriteria := task.acceptanceCriteria + [item.value], updatedAt := at)
    else if field == "openQuestions" then
      task.(openQuestions := task.openQuestions + [item.value], updatedAt := at)
    else if field == "riskNotes" then
      task.(riskNotes := task.riskNotes + [item.value], updatedAt := at)
    else task
  }

  function NextTasks(tasks: seq<(string, Task)>, e: Event, lane: string): seq<(string, Task)> {
    var key := LaneKey(lane, e.scopeId);
    match e.payload
    case TaskCreated(task) => Put(tasks, key, task)
    case TaskUpdated(patch) =>
      var known := Get(tasks, key);
      if known.None? then tasks else Put(tasks, key, PatchedTask(known.value, patch, e.createdAt))
    case TaskItemAppended(field, item) =>
      var known := Get(tasks, key);
      if known.None? then tasks else Put(tasks, key, AppendedTask(known.value, field, item, e.createdAt))
    case _ => tasks
  }

  function NextHandoffs(handoffs: map<string, Handoff>, e: Event, lane: string): map<string, Handoff> {
    match e.payload
    case HandoffCreated(handoff) => handoffs[LaneKey(lane, handoff.id) := handoff]
    case _ => handoffs
  }

  function NextSessions(sessions: map<string, Session>, e: Event, lane: string): map<string, Session> {
    var key := LaneKey(lane, e.scopeId);
    match e.payload
    case SessionStarted(session) => sessions[LaneKey(lane, session.id) := session]
    case SessionCompleted =>
      if key !in sessions then sessions
      else sessions[key := Session(sessions[key].id, Completed, Some(e.createdAt), e.createdAt, e.createdAt)]
    case SessionAbandoned =>
      if key !in sessions then sessions
      else sessions[key := Session(sessions[key].id, Abandoned, Some(e.createdAt), e.createdAt, e.createdAt)]
    case SessionPaused =>
      if key !in sessions then sessions
      else sessions[key := sessions[key].(status := Paused, lastSeenAt := e.createdAt, updatedAt := e.createdAt)]
    case SessionResumed =>
      if key !in sessions then sessions
      else sessions[key := sessions[key].(status := Active, lastSeenAt := e.createdAt, updatedAt := e.createdAt)]
    case SessionHeartbeat(sessionId, at) =>
      var beat := LaneKey(lane, sessionId);
      if beat !in sessions then sessions
      else sessions[beat := sessions[beat].(lastSeenAt := at, updatedAt := at)]
    case _ => sessions
  }

  function NextObservations(observations: map<Id, Observation>, e: Event): map<Id, Observation> {
    match e.payload
    case ObservationCaptured(o) => observations[o.id := o]
    case _ => observations
  }

  /**
   * Supersede and retract close the validity window of a known memory. A retract
   * counts only inside the lane of its target, or when the event is stamped `owner`.
   */
  function NextMemories(memories: map<Id, MemoryRecord>, e: Event, lane: string): map<Id, MemoryRecord> {
    match e.payload
    case MemoryConsolidated(memory) => memories[memory.id := FreshRecord(memory, lane)]
    case MemorySuperseded(target, newer) =>
      if target !in memories then memories
      else memories[target := memories[target].(invalidAt := Some(e.createdAt), supersededBy := Some(newer))]
    case MemoryRetracted(target, byOwner) =>
      if target !in memories || (lane != memories[target].Lane() && !byOwner) then memories
      else
        var known := memories[target];
        memories[target := known.(
          invalidAt := if known.invalidAt.Some? then known.invalidAt else Some(e.createdAt),
          retractedAt := Some(e.createdAt),
          retractedBy := if e.writer.Some? then e.writer else known.retractedBy)]
    case _ => memories
  }

  /** The identity clash that stops a replay. */
  predicate Clashes(project: Option<Project>, e: Event, c: Context) {
    && e.payload.ProjectCreated?
    && !SkipsGenesis(e.payload.project.id, c)
    && project.Some?
    && project.value.id != e.payload.project.id
  }

  function Apply(s: ProjectState, e: Event, c: Context): Outcome {
    if Clashes(s.project, e, c) then Divergent(s.project.value.id, e.payload.project.id)
    else
      var lane := EventLane(e, c);
      Reduced(ProjectState(
        NextProject(s.project, e, c), NextMembers(s.members, e, c), NextTasks(s.tasks, e, lane),
        NextHandoffs(s.handoffs, e, lane), NextSessions(s.sessions, e, lane),
        NextObservations(s.observations, e), NextMemories(s.memories, e, lane)))
  }

  function Replay(events: Log, c: Context): Outcome {
    if events == [] then Reduced(EMPTY)
    else
      var before := Replay(events[..|events| - 1], c);
      if before.Divergent? then before else Apply(before.state, events[|events| - 1], c)
  }

  // --- closing pass --------------------------------------------------------------

  predicate IsOpenTask(task: Task) {
    !task.status.Done? && !task.status.Cancelled?
  }

  function OpenSelfTasks(tasks: seq<(string, Task)>): seq<Task> {
    if tasks == [] then []
    else if IsSelfKey(tasks[0].0) && IsOpenTask(tasks[0].1) then [tasks[0].1] + OpenSelfTasks(tasks[1..])
    else OpenSelfTasks(tasks[1..])
  }

  function TaskIds(tasks: seq<Task>): seq<Id> {
    seq(|tasks|, i requires 0 <= i < |tasks| => tasks[i].id)
  }

  ghost function Finish(s: ProjectState): ProjectState {
    s.(memories := Dedupe(s.memories),
       project := if s.project.None? then None
                  else Some(s.project.value.(activeTaskIds := TaskIds(OpenSelfTasks(s.tasks)))))
  }

  ghost function Reduce(events: Log, selfProjectId: Option<Id>): Outcome {
    var replayed := Replay(events, Prescan(events, selfProjectId));
    if replayed.Divergent? then replayed else Reduced(Finish(replayed.state))
  }

  // --- the startup index -----------------------------------------------------------

  const MAX_TOP_TASKS: nat := 20

  datatype TopTask = TopTask(id: Id, title: string, status: TaskStatus, priority: string, latestHandoffId: Option<Id>)

  predicate NewerTask(a: Task, b: Task) {
    Less(b.updatedAt, a.updatedAt)
  }

  function Take<T>(s: seq<T>, n: nat): seq<T> {
    if |s| <= n then s else s[..n]
  }

  function TopTasks(s: ProjectState): seq<TopTask> {
    var ranked := Take(SortBy(OpenSelfTasks(s.tasks), NewerTask), MAX_TOP_TASKS);
    seq(|ranked|, i requires 0 <= i < |ranked| =>
      TopTask(ranked[i].id, ranked[i].title, ranked[i].status, ranked[i].priority, ranked[i].latestHandoffId))
  }

  // --- the loops of the source ---------------------------------------------------

  /** One pass over the genesis events, before anything is replayed. */
  method PrescanGenesis(events: Log, selfProjectId: Option<Id>) returns (c: Context)
    ensures c == Prescan(events, selfProjectId)
  {
    hide GenesisIds, FirstGenesis;
    NoGenesisYet();
    var genesisIds: set<Id> := {};
    var firstGenesisId: Option<Id> := None;
    for i := 0 to |events|
      invariant genesisIds == GenesisIds(events[..i])
      invariant firstGenesisId == FirstGenesis(events[..i])
    {
      assert events[..i + 1] == events[..i] + [events[i]];
      GenesisOfLonger(events[..i], events[i]);
      if events[i].payload.ProjectCreated? {
        var id := events[i].payload.project.id;
        if firstGenesisId.None? { firstGenesisId := Some(id); }
        genesisIds := genesisIds + {id};
      }
    }
    assert events[..|events|] == events;
    c := Context(
      if selfProjectId.Some? then selfProjectId else firstGenesisId, selfProjectId.Some?, |genesisIds| > 1);
  }

  lemma GenesisIdsOfLonger(log: Log, e: Event)
    ensures GenesisIds(log + [e]) == GenesisIds(log) + if e.payload.ProjectCreated? then {e.payload.project.id} else {}
  {
    assert forall f :: f in log + [e] <==> f in log || f == e;
    if e.payload.ProjectCreated? { assert e in log + [e]; }
  }

  lemma {:induction false} GenesisOfLonger(log: Log, e: Event)
    ensures GenesisIds(log + [e]) ==
            GenesisIds(log) + if e.payload.ProjectCreated? then {e.payload.project.id} else {}
    ensures FirstGenesis(log + [e]) ==
            if FirstGenesis(log).Some? then FirstGenesis(log)
            else if e.payload.ProjectCreated? then Some(e.payload.project.id) else None
  {
    hide GenesisIds;
    var longer := log + [e];
    GenesisIdsOfLonger(log, e);
    if log == [] {
      assert longer == [e] && longer[1..] == [];
    } else {
      assert longer[1..] == log[1..] + [e];
      GenesisOfLonger(log[1..], e);
    }
  }

  lemma NoGenesisYet()
    ensures GenesisIds([]) == {} && FirstGenesis([]) == None
  {
  }

  /**
   * The reducer as written: the prescan, a replay loop that patches the state
   * maps, then the dedup pass over the records in whatever order the map lists them.
   */
  method ReduceProjectState(events: Log, selfProjectId: Option<Id>) returns (r: Outcome)
    ensures r == Reduce(events, selfProjectId)
  {
    hide Apply, Dedupe, OpenSelfTasks, TaskIds, Prescan;
    var c := PrescanGenesis(events, selfProjectId);
    var state := EMPTY;
    for i := 0 to |events|
      invariant Replay(events[..i], c) == Reduced(state)
    {
      assert events[..i + 1][..i] == events[..i];
      var step := Apply(state, events[i], c);
      if step.Divergent? {
        DivergenceStays(events, c, i + 1);
        return step;
      }
      state := step.state;
    }
    assert events[..|events|] == events;
    RecordsSitUnderTheirIds(events, c);
    var order := ListKeys(state.memories);
    var memories := DedupeMemoriesBySource(state.memories, order);
    state := state.(memories := memories);
    if state.project.Some? {
      var active := TaskIds(OpenSelfTasks(state.tasks));
      state := state.(project := Some(state.project.value.(activeTaskIds := active)));
    }
    r := Reduced(state);
  }

  /** A replay that stopped stays stopped on every longer log. */
  lemma {:induction false} DivergenceStays(events: Log, c: Context, n: nat)
    requires n <= |events| && Replay(events[..n], c).Divergent?
    ensures Replay(events, c) == Replay(events[..n], c)
    decreases |events| - n
  {
    hide Apply;
    if n == |events| {
      assert events[..n] == events;
    } else {
      assert events[..n + 1][..n] == events[..n];
      DivergenceStays(events, c, n + 1);
    }
  }

  lemma {:induction false} RecordsSitUnderTheirIds(events: Log, c: Context)
    requires Replay(events, c).Reduced?
    ensures WellKeyed(Replay(events, c).state.memories)
  {
    if events != [] {
      RecordsSitUnderTheirIds(events[..|events| - 1], c);
    }
  }
}
