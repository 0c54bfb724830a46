/** What a store shows as its own is what its own events alone would have built. */
module LaneIsolation {
  import opened Events
  import opened Lanes
  import opened Dedup
  import opened Projector
  import opened ProjectorLaws
  import opened Text

  /** The events of the log that belong to the store itself, in order. */
  function SelfOnly(events: Log, c: Context): Log {
    if events == [] then []
    else
      var last := events[|events| - 1];
      SelfOnly(events[..|events| - 1], c) + (if EventLane(last, c) == SELF_LANE then [last] else [])
  }

  /** The ids an event files its entity under hold no lane separator. */
  predicate CleanKeys(e: Event) {
    && NUL !in e.scopeId
    && (e.payload.HandoffCreated? ==> NUL !in e.payload.handoff.id)
    && (e.payload.SessionStarted? ==> NUL !in e.payload.session.id)
    && (e.payload.SessionHeartbeat? ==> NUL !in e.payload.sessionId)
  }

  ghost predicate CleanSelfKeys(events: Log, c: Context) {
    forall e :: e in events && EventLane(e, c) == SELF_LANE ==> CleanKeys(e)
  }

  function SelfMap<V>(m: map<string, V>): map<string, V> {
    map k | k in m && IsSelfKey(k) :: m[k]
  }

  lemma KeyTellsLane(lane: string, id: Id)
    ensures lane != SELF_LANE ==> !IsSelfKey(LaneKey(lane, id))
    ensures lane == SELF_LANE && NUL !in id ==> IsSelfKey(LaneKey(lane, id))
  {
    if lane != SELF_LANE { assert LaneKey(lane, id)[|lane|] == NUL; }
  }

  // --- one step --------------------------------------------------------------------------

  lemma TaskStep(tasks: seq<(string, Task)>, e: Event, lane: string)
    requires lane == SELF_LANE ==> CleanKeys(e)
    ensures SelfEntries(NextTasks(tasks, e, lane)) ==
            if lane == SELF_LANE then NextTasks(SelfEntries(tasks), e, SELF_LANE) else SelfEntries(tasks)
  {
    hide IsSelfKey, LaneKey;
    var key := LaneKey(lane, e.scopeId);
    KeyTellsLane(lane, e.scopeId);
    if IsSelfKey(key) { GetSelf(tasks, key); }
    match e.payload
    case TaskCreated(task) => PutSelf(tasks, key, task);
    case TaskUpdated(patch) =>
      if Get(tasks, key).Some? { PutSelf(tasks, key, PatchedTask(Get(tasks, key).value, patch, e.createdAt)); }
    case TaskItemAppended(field, item) =>
      if Get(tasks, key).Some? { PutSelf(tasks, key, AppendedTask(Get(tasks, key).value, field, item, e.createdAt)); }
    case _ =>
  }

  lemma HandoffStep(handoffs: map<string, Handoff>, e: Event, lane: string)
    requires lane == SELF_LANE ==> CleanKeys(e)
    ensures SelfMap(NextHandoffs(handoffs, e, lane)) ==
            if lane == SELF_LANE then NextHandoffs(SelfMap(handoffs), e, SELF_LANE) else SelfMap(handoffs)
  {
    hide IsSelfKey, LaneKey;
    if e.payload.HandoffCreated? { KeyTellsLane(lane, e.payload.handoff.id); }
  }

  lemma SessionStep(sessions: map<string, Session>, e: Event, lane: string)
    requires lane == SELF_LANE ==> CleanKeys(e)
    ensures SelfMap(NextSessions(sessions, e, lane)) ==
            if lane == SELF_LANE then NextSessions(SelfMap(sessions), e, SELF_LANE) else SelfMap(sessions)
  {
    hide IsSelfKey, LaneKey;
    KeyTellsLane(lane, e.scopeId);
    if e.payload.SessionStarted? { KeyTellsLane(lane, e.payload.session.id); }
    if e.payload.SessionHeartbeat? { KeyTellsLane(lane, e.payload.sessionId); }
  }

  /** An event of the store's own stays its own in the filtered log, union or not. */
  lemma SelfStaysSelf(e: Event, self: Id, isUnion: bool, isUnion': bool)
    requires LaneOf(e, Some(self), isUnion) == SELF_LANE && (isUnion' ==> isUnion)
    ensures LaneOf(e, Some(self), isUnion') == SELF_LANE
  {
  }

  // --- the whole replay ----------------------------------------------------------------------

  /** `t` is what `s` shows as the store's own. */
  ghost predicate Mirrors(s: ProjectState, t: ProjectState) {
    SelfEntries(s.tasks) == t.tasks && SelfMap(s.handoffs) == t.handoffs && SelfMap(s.sessions) == t.sessions
  }

  lemma StepMirrors(s: ProjectState, t: ProjectState, e: Event, c: Context, d: Context)
    requires Mirrors(s, t) && Apply(s, e, c).Reduced?
    requires EventLane(e, c) == SELF_LANE ==> CleanKeys(e) && EventLane(e, d) == SELF_LANE && Apply(t, e, d).Reduced?
    ensures if EventLane(e, c) == SELF_LANE then Mirrors(Apply(s, e, c).state, Apply(t, e, d).state)
            else Mirrors(Apply(s, e, c).state, t)
  {
    hide NextTasks, NextSessions, NextHandoffs, NextMemories, NextProject, NextMembers, NextObservations;
    hide EventLane, SelfEntries, SelfMap, CleanKeys;
    var lane := EventLane(e, c);
    TaskStep(s.tasks, e, lane);
    HandoffStep(s.handoffs, e, lane);
    SessionStep(s.sessions, e, lane);
  }

  lemma {:induction false} ReplayIsolates(events: Log, c: Context, d: Context)
    requires c.selfId.Some? && d.selfId == c.selfId && (d.isUnion ==> c.isUnion)
    requires CleanSelfKeys(events, c)
    requires Replay(events, c).Reduced? && Replay(SelfOnly(events, c), d).Reduced?
    ensures Mirrors(Replay(events, c).state, Replay(SelfOnly(events, c), d).state)
  {
    hide Apply, LaneOf, CleanKeys, Mirrors;
    if events == [] {
      NothingMirrors();
    } else {
      var n := |events| - 1;
      var before, e := events[..n], events[n];
      var mine := SelfOnly(before, c);
      assert events == before + [e];
      if EventLane(e, c) == SELF_LANE {
        var kept := SelfOnly(events, c);
        assert kept == mine + [e];
        assert kept[|kept| - 1] == e && kept[..|kept| - 1] == mine;
        SelfStaysSelf(e, c.selfId.value, c.isUnion, d.isUnion);
      } else {
        assert SelfOnly(events, c) == mine;
      }
      ReplayIsolates(before, c, d);
      StepMirrors(Replay(before, c).state, Replay(mine, d).state, e, c, d);
    }
  }

  lemma NothingMirrors()
    ensures Mirrors(EMPTY, EMPTY)
  {
    assert SelfMap<Handoff>(map[]) == map[] && SelfMap<Session>(map[]) == map[];
  }

  lemma {:induction false} OpenSelfTasksIgnoreOthers(tasks: seq<(string, Task)>)
    ensures OpenSelfTasks(SelfEntries(tasks)) == OpenSelfTasks(tasks)
  {
    hide IsSelfKey;
    if tasks != [] {
      OpenSelfTasksIgnoreOthers(tasks[1..]);
      if IsSelfKey(tasks[0].0) {
        assert SelfEntries(tasks)[0] == tasks[0] && SelfEntries(tasks)[1..] == SelfEntries(tasks[1..]);
      }
    }
  }

  lemma {:induction false} SelfOnlyMembers(events: Log, c: Context, e: Event)
    ensures e in SelfOnly(events, c) <==> e in events && EventLane(e, c) == SELF_LANE
  {
    hide LaneOf;
    if events != [] {
      assert events == events[..|events| - 1] + [events[|events| - 1]];
      SelfOnlyMembers(events[..|events| - 1], c, e);
    }
  }

  lemma FilteringMakesNoUnion(events: Log, self: Id)
    ensures var c := Prescan(events, Some(self));
            Prescan(SelfOnly(events, c), Some(self)).isUnion ==> c.isUnion
  {
    hide LaneOf;
    var c := Prescan(events, Some(self));
    var mine := SelfOnly(events, c);
    forall id | id in GenesisIds(mine) ensures id in GenesisIds(events) {
      var e :| e in mine && e.payload.ProjectCreated? && e.payload.project.id == id;
      SelfOnlyMembers(events, c, e);
    }
    SubsetSize(GenesisIds(mine), GenesisIds(events));
  }

  lemma {:induction false} SubsetSize(a: set<Id>, b: set<Id>)
    requires a <= b
    ensures |a| <= |b|
  {
    if a != {} {
      var x :| x in a;
      SubsetSize(a - {x}, b - {x});
    }
  }

  /**
   * Tasks (and their order), handoffs, sessions, the active task list and the top
   * tasks that a union replay files under the store itself are exactly those of a
   * replay that never saw another writer.
   */
  lemma LaneIsolation(events: Log, self: Id)
    requires CleanSelfKeys(events, Prescan(events, Some(self)))
    requires Reduce(events, Some(self)).Reduced?
    requires Reduce(SelfOnly(events, Prescan(events, Some(self))), Some(self)).Reduced?
    ensures var s := Reduce(events, Some(self)).state;
            var t := Reduce(SelfOnly(events, Prescan(events, Some(self))), Some(self)).state;
            && SelfEntries(s.tasks) == t.tasks
            && SelfMap(s.handoffs) == t.handoffs
            && SelfMap(s.sessions) == t.sessions
            && TopTasks(s) == TopTasks(t)
            && (s.project.Some? && t.project.Some? ==>
                  s.project.value.activeTaskIds == t.project.value.activeTaskIds)
  {
    hide Replay, LaneOf, IsSelfKey, Dedupe, SelfOnly;
    var c := Prescan(events, Some(self));
    var mine := SelfOnly(events, c);
    var d := Prescan(mine, Some(self));
    FilteringMakesNoUnion(events, self);
    ReplayIsolates(events, c, d);
    OpenSelfTasksIgnoreOthers(Replay(events, c).state.tasks);
  }

  /** Without id patches, which no emitter of the store writes, both replays do finish. */
  lemma LaneIsolationWithoutIdPatches(events: Log, self: Id)
    requires NoIdPatch(events) && CleanSelfKeys(events, Prescan(events, Some(self)))
    ensures Reduce(events, Some(self)).Reduced?
    ensures Reduce(SelfOnly(events, Prescan(events, Some(self))), Some(self)).Reduced?
    ensures var s := Reduce(events, Some(self)).state;
            var t := Reduce(SelfOnly(events, Prescan(events, Some(self))), Some(self)).state;
            && SelfEntries(s.tasks) == t.tasks
            && SelfMap(s.handoffs) == t.handoffs
            && SelfMap(s.sessions) == t.sessions
            && TopTasks(s) == TopTasks(t)
            && (s.project.Some? && t.project.Some? ==>
                  s.project.value.activeTaskIds == t.project.value.activeTaskIds)
  {
    hide Reduce, Prescan, SelfOnly, CleanSelfKeys, TopTasks, SelfEntries, SelfMap;
    var mine := SelfOnly(events, Prescan(events, Some(self)));
    forall e | e in mine ensures e in events { SelfOnlyMembers(events, Prescan(events, Some(self)), e); }
    StopsExactlyOnTwoIdentities(events, Some(self));
    StopsExactlyOnTwoIdentities(mine, Some(self));
    LaneIsolation(events, self);
  }
}
