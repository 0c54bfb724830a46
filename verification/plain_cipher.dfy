/**
 * A cipher that keeps the promise the encryption results rest on, by writing key, id and payload
 * out in full: the promise can be kept, for every payload there is.
 */
module PlainCipher {
  import opened Events
  import opened Encryption

  // --- texts that can be taken apart again ---------------------------------------------------------

  function Ticks(n: nat): (t: string)
    ensures |t| == n && forall i :: 0 <= i < n ==> t[i] == 'i'
  {
    seq(n, _ => 'i')
  }

  /** How many ticks a text begins with. */
  function Lead(s: string): (n: nat)
    ensures n <= |s| && (n < |s| ==> s[n] != 'i') && forall i :: 0 <= i < n ==> s[i] == 'i'
  {
    if s == [] || s[0] != 'i' then 0 else 1 + Lead(s[1..])
  }

  /** Each part behind its own length. */
  function Join(parts: seq<string>): string {
    if parts == [] then "" else Ticks(|parts[0]|) + (":" + (parts[0] + Join(parts[1..])))
  }

  predicate HasPart(s: string) {
    2 * Lead(s) + 1 <= |s|
  }

  function Part(s: string): string
    requires HasPart(s)
  {
    s[Lead(s) + 1..2 * Lead(s) + 1]
  }

  function Rest(s: string): (rest: string)
    requires HasPart(s)
    ensures |rest| < |s|
  {
    s[2 * Lead(s) + 1..]
  }

  function Split(s: string): seq<string>
    decreases |s|
  {
    if HasPart(s) then [Part(s)] + Split(Rest(s)) else []
  }

  lemma LeadOf(n: nat, rest: string)
    ensures Lead(Ticks(n) + (":" + rest)) == n
  {
    var s := Ticks(n) + (":" + rest);
    assert s[n] == ':';
  }

  lemma Slices(ticks: string, head: string, rest: string)
    requires |ticks| == |head|
    ensures var s, n := ticks + (":" + (head + rest)), |head|;
            2 * n + 1 <= |s| && s[n + 1..2 * n + 1] == head && s[2 * n + 1..] == rest
  {
  }

  lemma PartsOf(ticks: string, head: string, rest: string)
    requires |ticks| == |head| && Lead(ticks + (":" + (head + rest))) == |head|
    ensures var s := ticks + (":" + (head + rest)); HasPart(s) && Part(s) == head && Rest(s) == rest
  {
    hide Lead;
    Slices(ticks, head, rest);
  }

  lemma SplitOnce(head: string, rest: string)
    ensures Split(Ticks(|head|) + (":" + (head + rest))) == [head] + Split(rest)
  {
    hide Lead, Ticks, HasPart, Part, Rest;
    LeadOf(|head|, head + rest);
    PartsOf(Ticks(|head|), head, rest);
  }

  lemma {:induction false} SplitUndoesJoin(parts: seq<string>)
    ensures Split(Join(parts)) == parts
  {
    hide Split;
    if parts == [] {
      NothingToSplit();
    } else {
      SplitUndoesJoin(parts[1..]);
      SplitOnce(parts[0], Join(parts[1..]));
      assert parts == [parts[0]] + parts[1..];
    }
  }

  lemma NothingToSplit()
    ensures Split("") == []
  {
  }

  // --- fields -----------------------------------------------------------------------------------------

  function Maybe(o: Option<string>): string {
    if o.Some? then "s" + o.value else ""
  }

  function MaybeOf(t: string): Option<string> {
    if t == "" then None else Some(t[1..])
  }

  function Whole(n: int): string {
    if n < 0 then "-" + Ticks(-n) else Ticks(n)
  }

  function WholeOf(t: string): int {
    if t != "" && t[0] == '-' then 1 - |t| else |t|
  }

  function Status(s: TaskStatus): string {
    match s
    case Todo => "0" case InProgress => "1" case Blocked => "2"
    case HandoffReady => "3" case Done => "4" case Cancelled => "5"
  }

  function StatusOf(t: string): TaskStatus {
    if t == "0" then Todo else if t == "1" then InProgress else if t == "2" then Blocked
    else if t == "3" then HandoffReady else if t == "4" then Done else Cancelled
  }

  function Live(s: SessionStatus): string {
    match s case Active => "0" case Paused => "1" case Completed => "2" case Abandoned => "3"
  }

  function LiveOf(t: string): SessionStatus {
    if t == "0" then Active else if t == "1" then Paused else if t == "2" then Completed else Abandoned
  }

  function Kind(k: MemoryKind): string {
    match k case Decision => "0" case Rationale => "1" case Progress => "2"
  }

  function KindOf(t: string): MemoryKind {
    if t == "0" then Decision else if t == "1" then Rationale else Progress
  }

  lemma FieldsReadBack()
    ensures forall o :: MaybeOf(Maybe(o)) == o
    ensures forall n :: WholeOf(Whole(n)) == n
    ensures forall s :: StatusOf(Status(s)) == s
    ensures forall s :: LiveOf(Live(s)) == s
    ensures forall k :: KindOf(Kind(k)) == k
  {
    forall o ensures MaybeOf(Maybe(o)) == o {
      if o.Some? { assert ("s" + o.value)[1..] == o.value; }
    }
  }

  function MaybeStatus(s: Option<TaskStatus>): string {
    Maybe(if s.Some? then Some(Status(s.value)) else None)
  }

  function MaybeStatusOf(t: string): Option<TaskStatus> {
    var o := MaybeOf(t);
    if o.Some? then Some(StatusOf(o.value)) else None
  }

  lemma MaybeStatusReadsBack(s: Option<TaskStatus>)
    ensures MaybeStatusOf(MaybeStatus(s)) == s
  {
    hide Maybe, MaybeOf, Status, StatusOf;
    FieldsReadBack();
  }

  // --- payloads -----------------------------------------------------------------------------------------

  function Fields(p: Payload): (fields: seq<string>)
    ensures |fields| == 11
  {
    match p
    case ProjectCreated(x) => Padded('a', [x.id, x.title, x.summary, Join(x.activeTaskIds)])
    case ProjectUpdated(x) => Padded('b', [Maybe(x.id), Maybe(x.title), Maybe(x.summary)])
    case TaskCreated(x) =>
      Padded('c', [x.id, x.title, Status(x.status), x.priority, Maybe(x.latestHandoffId), Join(x.acceptanceCriteria),
                   Join(x.openQuestions), Join(x.riskNotes), x.updatedAt])
    case TaskUpdated(x) => Padded('d',
      [Maybe(x.title), MaybeStatus(x.status), Maybe(x.latestHandoffId), Maybe(x.updatedAt)])
    case TaskItemAppended(field, item) => Padded('e', [field, Maybe(item)])
    case HandoffCreated(x) => Padded('f', [x.id, x.taskId, x.summary])
    case SessionStarted(x) => Padded('g', [x.id, Live(x.status), Maybe(x.endedAt), x.lastSeenAt, x.updatedAt])
    case SessionCompleted => Padded('h', [])
    case SessionAbandoned => Padded('i', [])
    case SessionPaused => Padded('j', [])
    case SessionResumed => Padded('k', [])
    case SessionHeartbeat(id, at) => Padded('l', [id, at])
    case ObservationCaptured(x) => Padded('m', [x.id, Maybe(x.sessionId), Maybe(x.transcriptPath), x.createdAt])
    case MemoryConsolidated(x) =>
      Padded('n', [x.id, Kind(x.kind), x.text, Whole(x.salience), Maybe(x.sessionId), Join(x.sources), x.createdAt])
    case MemorySuperseded(loser, winner) => Padded('o', [loser, winner])
    case MemoryRetracted(m, byOwner) => Padded('p', [m, if byOwner then "1" else ""])
    case SyncStateUpdated => Padded('q', [])
    case Other(name) => Padded('r', [name])
    case Sealed(x) => Padded('s', [x.kid, x.iv, x.ct, x.tag])
  }

  function Padded(tag: char, fields: seq<string>): (all: seq<string>)
    requires |fields| < 11
    ensures |all| == 11 && all[0] == [tag] && forall i :: 1 <= i <= |fields| ==> all[i] == fields[i - 1]
  {
    [[tag]] + fields + seq(10 - |fields|, _ => "")
  }

  function Tag(f: seq<string>): char
    requires |f| == 11
  {
    if |f[0]| == 1 then f[0][0] else '?'
  }

  function PayloadOf(f: seq<string>): Payload
    requires |f| == 11
  {
    if Tag(f) == 'a' then ProjectCreated(Project(f[1], f[2], f[3], Split(f[4])))
    else if Tag(f) == 'b' then ProjectUpdated(ProjectPatch(MaybeOf(f[1]), MaybeOf(f[2]), MaybeOf(f[3])))
    else if Tag(f) == 'c' then
      TaskCreated(Task(f[1], f[2], StatusOf(f[3]), f[4], MaybeOf(f[5]), Split(f[6]), Split(f[7]), Split(f[8]), f[9]))
    else if Tag(f) == 'd' then TaskUpdated(TaskPatch(MaybeOf(f[1]), MaybeStatusOf(f[2]), MaybeOf(f[3]), MaybeOf(f[4])))
    else if Tag(f) == 'e' then TaskItemAppended(f[1], MaybeOf(f[2]))
    else if Tag(f) == 'f' then HandoffCreated(Handoff(f[1], f[2], f[3]))
    else if Tag(f) == 'g' then SessionStarted(Session(f[1], LiveOf(f[2]), MaybeOf(f[3]), f[4], f[5]))
    else if Tag(f) == 'h' then SessionCompleted
    else if Tag(f) == 'i' then SessionAbandoned
    else if Tag(f) == 'j' then SessionPaused
    else if Tag(f) == 'k' then SessionResumed
    else if Tag(f) == 'l' then SessionHeartbeat(f[1], f[2])
    else if Tag(f) == 'm' then ObservationCaptured(Observation(f[1], MaybeOf(f[2]), MaybeOf(f[3]), f[4]))
    else if Tag(f) == 'n' then
      MemoryConsolidated(Memory(f[1], KindOf(f[2]), f[3], WholeOf(f[4]), MaybeOf(f[5]), Split(f[6]), f[7]))
    else if Tag(f) == 'o' then MemorySuperseded(f[1], f[2])
    else if Tag(f) == 'p' then MemoryRetracted(f[1], f[2] == "1")
    else if Tag(f) == 'q' then SyncStateUpdated
    else if Tag(f) == 'r' then Other(f[1])
    else Sealed(Envelope(f[1], f[2], f[3], f[4]))
  }

  lemma TaskReadsBack(x: Task)
    ensures PayloadOf(Fields(TaskCreated(x))) == TaskCreated(x)
  {
    hide Join, Split, Maybe, MaybeOf, Status, StatusOf, Padded;
    FieldsReadBack();
    SplitUndoesJoin(x.acceptanceCriteria);
    SplitUndoesJoin(x.openQuestions);
    SplitUndoesJoin(x.riskNotes);
  }

  lemma MemoryReadsBack(x: Memory)
    ensures PayloadOf(Fields(MemoryConsolidated(x))) == MemoryConsolidated(x)
  {
    hide Join, Split, Maybe, MaybeOf, Whole, WholeOf, Kind, KindOf, Padded;
    FieldsReadBack();
    SplitUndoesJoin(x.sources);
  }

  lemma PayloadReadsBack(p: Payload)
    ensures PayloadOf(Fields(p)) == p
  {
    hide Fields, PayloadOf;
    if p.TaskCreated? {
      TaskReadsBack(p.task);
    } else if p.MemoryConsolidated? {
      MemoryReadsBack(p.memory);
    } else {
      OtherReadsBack(p);
    }
  }

  lemma OtherReadsBack(p: Payload)
    requires !p.TaskCreated? && !p.MemoryConsolidated?
    ensures PayloadOf(Fields(p)) == p
  {
    hide Join, Split, Maybe, MaybeOf, Live, LiveOf, MaybeStatus, MaybeStatusOf, Padded;
    FieldsReadBack();
    if p.ProjectCreated? { SplitUndoesJoin(p.project.activeTaskIds); }
    if p.TaskUpdated? { MaybeStatusReadsBack(p.taskPatch.status); }
  }

  // --- the cipher ---------------------------------------------------------------------------------------

  function Seal(key: Key, id: Id, p: Payload): string {
    Join([key, id] + Fields(p))
  }

  function Unseal(key: Key, id: Id, text: string): Option<Payload> {
    var parts := Split(text);
    if |parts| == 13 && parts[0] == key && parts[1] == id then Some(PayloadOf(parts[2..])) else None
  }

  const PLAIN: Aead :=
    Aead(key => key, (key, iv, id, p) => (Seal(key, id, p), ""), (key, iv, id, text, tag) => Unseal(key, id, text))

  lemma UnsealsExactly(key: Key, id: Id, p: Payload, key': Key, id': Id)
    ensures Unseal(key', id', Seal(key, id, p)) == if key' == key && id' == id then Some(p) else None
  {
    hide Fields, PayloadOf, Join, Split;
    var parts := [key, id] + Fields(p);
    SplitUndoesJoin(parts);
    PayloadReadsBack(p);
    assert parts[2..] == Fields(p);
  }

  /** So the results about encrypted sync are not about nothing. */
  lemma SoundCanBeMet()
    ensures Sound(PLAIN)
  {
    hide Seal, Unseal;
    forall k, iv: string, aad, p
      ensures PLAIN.open(k, iv, aad, PLAIN.seal(k, iv, aad, p).0, PLAIN.seal(k, iv, aad, p).1) == Some(p)
    {
      UnsealsExactly(k, aad, p, k, aad);
    }
    forall k, iv: string, aad, p, k', aad' | k != k' || aad != aad'
      ensures PLAIN.open(k', iv, aad', PLAIN.seal(k, iv, aad, p).0, PLAIN.seal(k, iv, aad, p).1) == None
    {
      UnsealsExactly(k, aad, p, k', aad');
    }
  }
}
