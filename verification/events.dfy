/** The event vocabulary of the append-only log. */
module Events {

  type Id = string
  type Time = string

  datatype Option<+T> = None | Some(value: T) {
    function GetOr(default: T): T {
      if Some? then value else default
    }
  }

  datatype TaskStatus = Todo | InProgress | Blocked | HandoffReady | Done | Cancelled
  datatype SessionStatus = Active | Paused | Completed | Abandoned
  datatype MemoryKind = Decision | Rationale | Progress

  datatype Project = Project(id: Id, title: string, summary: string, activeTaskIds: seq<Id>)

  /** A partial project: an absent field is left alone. */
  datatype ProjectPatch = ProjectPatch(id: Option<Id>, title: Option<string>, summary: Option<string>)

  datatype Task = Task(
    id: Id, title: string, status: TaskStatus, priority: string, latestHandoffId: Option<Id>,
    acceptanceCriteria: seq<string>, openQuestions: seq<string>, riskNotes: seq<string>, updatedAt: Time)

  datatype TaskPatch = TaskPatch(
    title: Option<string>, status: Option<TaskStatus>, latestHandoffId: Option<Id>, updatedAt: Option<Time>)

  datatype Handoff = Handoff(id: Id, taskId: Id, summary: string)

  datatype Session = Session(
    id: Id, status: SessionStatus, endedAt: Option<Time>, lastSeenAt: Time, updatedAt: Time)

  datatype Observation = Observation(id: Id, sessionId: Option<Id>, transcriptPath: Option<string>, createdAt: Time)

  datatype Memory = Memory(
    id: Id, kind: MemoryKind, text: string, salience: int, sessionId: Option<Id>, sources: seq<Id>, createdAt: Time)

  /** What an authenticated cipher leaves on the wire in place of a payload. */
  datatype Envelope = Envelope(kid: string, iv: string, ct: string, tag: string)

  /** The type of an event, and the payload that goes with it. */
  datatype Payload =
    | ProjectCreated(project: Project)
    | ProjectUpdated(patch: ProjectPatch)
    | TaskCreated(task: Task)
    | TaskUpdated(taskPatch: TaskPatch)
    | TaskItemAppended(field: string, item: Option<string>)
    | HandoffCreated(handoff: Handoff)
    | SessionStarted(session: Session)
    | SessionCompleted
    | SessionAbandoned
    | SessionPaused
    | SessionResumed
    | SessionHeartbeat(sessionId: Id, at: Time)
    | ObservationCaptured(observation: Observation)
    | MemoryConsolidated(memory: Memory)
    | MemorySuperseded(supersedes: Id, supersededBy: Id)
    | MemoryRetracted(retracts: Id, byOwner: bool)
    | SyncStateUpdated
    | Other(name: string)
    | Sealed(envelope: Envelope)

  /** `source` is the originating store, absent on legacy events. */
  datatype Event = Event(
    id: Id, createdAt: Time, projectId: Id, scopeId: Id, writer: Option<string>, source: Option<Id>, payload: Payload)

  type Log = seq<Event>

  /** Local sync bookkeeping never leaves the machine. */
  predicate Bookkeeping(e: Event) {
    e.payload.SyncStateUpdated?
  }

  predicate Consolidates(e: Event, m: Id) {
    e.payload.MemoryConsolidated? && e.payload.memory.id == m
  }

  predicate Supersedes(e: Event, m: Id) {
    e.payload.MemorySuperseded? && e.payload.supersedes == m
  }

  predicate Retracts(e: Event, m: Id) {
    e.payload.MemoryRetracted? && e.payload.retracts == m
  }

  /** `e` aims at memory `m`, whether or not the reducer will honour it. */
  predicate Targets(e: Event, m: Id) {
    Supersedes(e, m) || Retracts(e, m)
  }

  predicate Captures(e: Event, o: Id) {
    e.payload.ObservationCaptured? && e.payload.observation.id == o
  }

  ghost predicate UniqueIds(log: Log) {
    forall i, j :: 0 <= i < j < |log| ==> log[i].id != log[j].id
  }

  /** A memory id is minted once. */
  ghost predicate ConsolidatedOnce(log: Log) {
    forall i, j :: 0 <= i < j < |log| && log[i].payload.MemoryConsolidated? ==>
      !Consolidates(log[j], log[i].payload.memory.id)
  }

  /** No supersede or retract comes before the consolidation it aims at. */
  ghost predicate TargetsFollow(log: Log) {
    forall i, j :: 0 <= i < j < |log| && log[j].payload.MemoryConsolidated? ==>
      !Targets(log[i], log[j].payload.memory.id)
  }

  ghost predicate CapturedOnce(log: Log) {
    forall i, j :: 0 <= i < j < |log| && log[i].payload.ObservationCaptured? ==>
      !Captures(log[j], log[i].payload.observation.id)
  }
}
