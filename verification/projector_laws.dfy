/** Laws of the whole reduction. */
module ProjectorLaws {
  import opened Events
  import opened Lanes
  import opened Dedup
  import opened Projector
  import opened Convergence

  // --- identity clashes --------------------------------------------------------------

  /** No `project.updated` in the log rewrites the project id. */
  ghost predicate NoIdPatch(events: Log) {
    forall e :: e in events && e.payload.ProjectUpdated? ==> e.payload.patch.id.None?
  }

  /** What one more event does to the project, and when it stops the replay. */
  lemma ProjectStep(events: Log, c: Context)
    requires events != []
    ensures var before, last := Replay(events[..|events| - 1], c), events[|events| - 1];
            && (before.Divergent? ==> Replay(events, c) == before)
            && (before.Reduced? ==>
                  && (Replay(events, c).Divergent? <==> Clashes(before.state.project, last, c))
                  && (Replay(events, c).Reduced? ==>
                       Replay(events, c).state.project == NextProject(before.state.project, last, c)))
  {
    hide NextTasks, NextSessions, NextHandoffs, NextMemories, NextMembers, NextObservations, NextProject, Clashes,
         EventLane;
  }

  lemma GenesisStep(events: Log)
    requires events != []
    ensures var before, last := events[..|events| - 1], events[|events| - 1];
            GenesisIds(events) == GenesisIds(before) + (if last.payload.ProjectCreated? then {last.payload.project.id}
              else {})
  {
    assert events == events[..|events| - 1] + [events[|events| - 1]];
  }

  lemma {:induction false} IdentityIsAGenesis(events: Log, c: Context)
    requires NoIdPatch(events) && Replay(events, c).Reduced?
    ensures var p := Replay(events, c).state.project;
            p.Some? ==> p.value.id in GenesisIds(events) && !SkipsGenesis(p.value.id, c)
    ensures forall id :: id in GenesisIds(events) && !SkipsGenesis(id, c) ==>
              Replay(events, c).state.project.Some? && Replay(events, c).state.project.value.id == id
  {
    hide Apply, GenesisIds;
    if events == [] {
      NoGenesis();
    } else {
      var before, last := events[..|events| - 1], events[|events| - 1];
      assert last in events && forall e :: e in before ==> e in events;
      ProjectStep(events, c);
      GenesisStep(events);
      IdentityIsAGenesis(before, c);
    }
  }

  lemma NoGenesis()
    ensures GenesisIds([]) == {}
  {
  }

  lemma {:induction false} FirstClash(events: Log, c: Context)
    requires NoIdPatch(events) && Replay(events, c).Divergent?
    ensures exists x, y ::
              x in GenesisIds(events) && y in GenesisIds(events) && x != y && !SkipsGenesis(x, c) && !SkipsGenesis(y, c)
  {
    var before, last := events[..|events| - 1], events[|events| - 1];
    assert events == before + [last];
    if Replay(before, c).Divergent? {
      FirstClash(before, c);
      var x, y :| x in GenesisIds(before) && y in GenesisIds(before) && x != y && !SkipsGenesis(x, c) &&
          !SkipsGenesis(y, c);
      assert x in GenesisIds(events) && y in GenesisIds(events);
    } else {
      IdentityIsAGenesis(before, c);
      var x, y := Replay(before, c).state.project.value.id, last.payload.project.id;
      assert x in GenesisIds(events) && y in GenesisIds(events);
    }
  }

  lemma TwoDistinctIds(ids: set<Id>, x: Id, y: Id)
    requires x in ids && y in ids && x != y
    ensures |ids| > 1
  {
    assert |ids - {x}| == |ids| - 1;
    assert y in ids - {x};
  }

  lemma OneIdOnly(ids: set<Id>, x: Id)
    requires |ids| > 1
    ensures exists y :: y in ids && y != x
  {
    var rest := ids - {x};
    assert |rest| >= |ids| - 1 by {
      if x !in ids { assert rest == ids; }
    }
    var y :| y in rest;
  }

  /** With a self id the replay never stops; without one it stops exactly on two genesis ids. */
  lemma StopsExactlyOnTwoIdentities(events: Log, selfProjectId: Option<Id>)
    requires NoIdPatch(events)
    ensures Reduce(events, selfProjectId).Divergent? <==> selfProjectId.None? && |GenesisIds(events)| > 1
  {
    hide Apply, Finish;
    var c := Prescan(events, selfProjectId);
    if Replay(events, c).Divergent? {
      FirstClash(events, c);
      var x, y :| x in GenesisIds(events) && y in GenesisIds(events) && x != y && !SkipsGenesis(x, c) &&
          !SkipsGenesis(y, c);
      TwoDistinctIds(GenesisIds(events), x, y);
    } else if selfProjectId.None? && |GenesisIds(events)| > 1 {
      IdentityIsAGenesis(events, c);
      var x :| x in GenesisIds(events);
      OneIdOnly(GenesisIds(events), x);
    }
  }

  /** The id the log gives the project, read off the log without replaying it. */
  function NameAfter(events: Log, c: Context): Option<Id> {
    if events == [] then None
    else
      var name := NameAfter(events[..|events| - 1], c);
      match events[|events| - 1].payload
      case ProjectCreated(p) => if SkipsGenesis(p.id, c) then name else Some(p.id)
      case ProjectUpdated(patch) => if name.Some? && patch.id.Some? then patch.id else name
      case _ => name
  }

  /** A genesis of the store's own arrives while the project goes by another id. */
  ghost predicate Misnamed(events: Log, c: Context, i: nat)
    requires i < |events|
  {
    && events[i].payload.ProjectCreated?
    && !SkipsGenesis(events[i].payload.project.id, c)
    && NameAfter(events[..i], c).Some?
    && NameAfter(events[..i], c) != Some(events[i].payload.project.id)
  }

  /** The exact condition, id patches included. */
  lemma {:induction false} StopsExactlyWhenMisnamed(events: Log, c: Context)
    ensures Replay(events, c).Divergent? <==> exists i :: 0 <= i < |events| && Misnamed(events, c, i)
    ensures Replay(events, c).Reduced? ==>
              NameAfter(events, c) ==
              (if Replay(events, c).state.project.None? then None else Some(Replay(events, c).state.project.value.id))
  {
    hide Apply;
    if events != [] {
      var n := |events| - 1;
      ProjectStep(events, c);
      StopsExactlyWhenMisnamed(events[..n], c);
      MisnamedStep(events, c);
    }
  }

  lemma MisnamedStep(events: Log, c: Context)
    requires events != []
    ensures var n := |events| - 1;
            (exists i :: 0 <= i < |events| && Misnamed(events, c, i)) <==>
            (exists i :: 0 <= i < n && Misnamed(events[..n], c, i)) || Misnamed(events, c, n)
  {
    hide NameAfter, SkipsGenesis;
    var n := |events| - 1;
    forall i | 0 <= i < n ensures Misnamed(events, c, i) <==> Misnamed(events[..n], c, i) {
      assert events[..n][..i] == events[..i];
    }
  }

  /** A self id alone is not enough: an id patch followed by a re-pulled genesis stops the replay. */
  lemma IdPatchCanStopAReplay()
    ensures exists events: Log, self :: Reduce(events, Some(self)).Divergent?
  {
    var p := Project("proj_a", "A", "A", []);
    var born := Event("evt_1", "t1", "proj_a", "proj_a", None, Some("proj_a"), ProjectCreated(p));
    var renamed := Event("evt_2", "t2", "proj_a", "proj_a", None, Some("proj_a"),
                         ProjectUpdated(ProjectPatch(Some("proj_b"), None, None)));
    var again := born.(id := "evt_3");
    var events := [born, renamed, again];
    var c := Prescan(events, Some("proj_a"));
    assert events[..0] == [] && events[..1] == [born] && events[..2] == [born, renamed];
    assert events[..2][..1] == [born] && events[..1][..0] == [];
    assert NameAfter(events[..1], c) == Some("proj_a") by {
      if SkipsGenesis("proj_a", c) { assert false; }
    }
    assert NameAfter(events[..2], c) == Some("proj_b");
    assert Misnamed(events, c, 2);
    StopsExactlyWhenMisnamed(events, c);
    assert Reduce(events, Some("proj_a")).Divergent?;
  }

  // --- retracts ------------------------------------------------------------------------

  /** Some event of the log is a retract of `m` from the lane it was born in, or stamped `owner`. */
  ghost predicate RetractOnRecord(events: Log, m: Id, selfId: Option<Id>, isUnion: bool) {
    exists e, born :: e in events && born in events && Consolidates(born, m) &&
      HonouredRetract(e, born, selfId, isUnion)
  }

  ghost predicate LaneOnRecord(events: Log, m: Id, lane: string, selfId: Option<Id>, isUnion: bool) {
    exists born :: born in events && Consolidates(born, m) && LaneOf(born, selfId, isUnion) == lane
  }

  /** In any log at all, a record ends retracted only by its own lane or by an owner. */
  lemma {:induction false} RetractedOnlyWithAuthority(events: Log, selfId: Option<Id>, isUnion: bool, m: Id)
    requires m in Records(events, selfId, isUnion)
    ensures Records(events, selfId, isUnion)[m].retractedAt.Some? ==> RetractOnRecord(events, m, selfId, isUnion)
    ensures LaneOnRecord(events, m, Records(events, selfId, isUnion)[m].Lane(), selfId, isUnion)
  {
    hide LaneOf;
    var before, last := events[..|events| - 1], events[|events| - 1];
    assert events == before + [last];
    if Consolidates(last, m) {
      BirthRecord(Records(before, selfId, isUnion), last, LaneOf(last, selfId, isUnion));
    } else {
      RetractedOnlyWithAuthority(before, selfId, isUnion, m);
      var r := Records(before, selfId, isUnion)[m];
      StepOnRecord(Records(before, selfId, isUnion), last, LaneOf(last, selfId, isUnion), m);
      var born :| born in before && Consolidates(born, m) && LaneOf(born, selfId, isUnion) == r.Lane();
      assert born in events;
      if r.retractedAt.Some? {
        var e, b :| e in before && b in before && Consolidates(b, m) && HonouredRetract(e, b, selfId, isUnion);
        assert e in events && b in events;
      } else if Retracts(last, m) && (LaneOf(last, selfId, isUnion) == r.Lane() || last.payload.byOwner) {
        assert HonouredRetract(last, born, selfId, isUnion);
      }
    }
  }

  /** The same, read off the finished state: dedup neither adds nor drops a tombstone. */
  lemma TombstonesHaveAuthority(events: Log, selfProjectId: Option<Id>, m: Id)
    requires Reduce(events, selfProjectId).Reduced?
    requires m in Reduce(events, selfProjectId).state.memories
    requires Reduce(events, selfProjectId).state.memories[m].retractedAt.Some?
    ensures var c := Prescan(events, selfProjectId); RetractOnRecord(events, m, c.selfId, c.isUnion)
  {
    hide Replay, Records, DedupKey, Winner, Before;
    var c := Prescan(events, selfProjectId);
    ReplayKeepsRecords(events, c);
    RetractedOnlyWithAuthority(events, c.selfId, c.isUnion, m);
  }

  // --- what stays closed ---------------------------------------------------------------

  /** Closing is for good, as long as the memory is not consolidated anew and the log stays (or stays not) a union. */
  lemma {:induction false} ClosedStaysClosed(events: Log, more: Log, selfId: Option<Id>, isUnion: bool, m: Id)
    requires m in Records(events, selfId, isUnion) && Records(events, selfId, isUnion)[m].invalidAt.Some?
    requires forall e :: e in more ==> !Consolidates(e, m)
    ensures m in Records(events + more, selfId, isUnion)
    ensures Records(events + more, selfId, isUnion)[m].invalidAt.Some?
  {
    hide LaneOf;
    if more == [] {
      assert events + more == events;
    } else {
      var n := |more| - 1;
      assert (events + more)[..|events + more| - 1] == events + more[..n];
      ClosedStaysClosed(events, more[..n], selfId, isUnion, m);
      StepOnRecord(Records(events + more[..n], selfId, isUnion), more[n], LaneOf(more[n], selfId, isUnion), m);
    }
  }

  /**
   * A second genesis turns the log into a union and re-reads the lanes of unstamped
   * events. A closed memory reopens then exactly when none of its closers counts
   * under the new reading.
   */
  lemma ReopensExactlyWhenLanesSplit(events: Log, more: Log, self: Id, born: Event)
    requires Causal(events) && Causal(events + more)
    requires born in events && born.payload.MemoryConsolidated?
    requires forall e :: e in more ==> !Targets(e, born.payload.memory.id)
    requires !Prescan(events, Some(self)).isUnion && Prescan(events + more, Some(self)).isUnion
    requires Closed(events, born, Some(self), false)
    ensures var m := born.payload.memory.id;
            m in Records(events + more, Some(self), true) &&
            (Records(events + more, Some(self), true)[m].invalidAt.None? <==>
              forall e :: e in events ==> !Closes(e, born, Some(self), true))
  {
    hide Records, LaneOf, ConsolidatedOnce, TargetsFollow;
    RecordIsTold(events + more, Some(self), true, born);
    assert Closed(events + more, born, Some(self), true) <==>
           exists e :: e in events && Closes(e, born, Some(self), true);
  }

  function Genesis(id: Id, project: Id): Event {
    Event(id, "t1", project, project, None, Some(project), ProjectCreated(Project(project, project, project, [])))
  }

  /** A memory of the store's own, and a retract of it that a legacy client of another store left unstamped. */
  const OWN_BIRTH: Event := Event("evt_2", "t2", "proj_a", "proj_a", None, Some("proj_a"),
                                  MemoryConsolidated(Memory("mem_1", Decision, "x", 1, None, ["obs_1"], "t2")))
  const UNSTAMPED_RETRACT: Event :=
      Event("evt_3", "t3", "proj_b", "proj_b", None, None, MemoryRetracted("mem_1", false))
  const LEGACY: Log := [Genesis("evt_1", "proj_a"), OWN_BIRTH, UNSTAMPED_RETRACT]

  /** The genesis of the other store arrives, and the retracted memory is open again. */
  lemma SecondGenesisReopens()
    ensures var more := [Genesis("evt_4", "proj_b")];
            && Reduce(LEGACY, Some("proj_a")).Reduced? && Reduce(LEGACY + more, Some("proj_a")).Reduced?
            && "mem_1" !in ValidMemories(Reduce(LEGACY, Some("proj_a")))
            && "mem_1" in ValidMemories(Reduce(LEGACY + more, Some("proj_a")))
  {
    hide Replay, Records, GenesisIds, FirstGenesis, Dedupe;
    var more := [Genesis("evt_4", "proj_b")];
    var self := Some("proj_a");
    LegacyGenesis(more);
    LegacyIsCausal(more);
    assert OWN_BIRTH in LEGACY && UNSTAMPED_RETRACT in LEGACY;
    assert HonouredRetract(UNSTAMPED_RETRACT, OWN_BIRTH, self, false);
    StopsExactlyOnTwoIdentities(LEGACY, self);
    StopsExactlyOnTwoIdentities(LEGACY + more, self);
    RecordIsTold(LEGACY, self, false, OWN_BIRTH);
    ReopensExactlyWhenLanesSplit(LEGACY, more, "proj_a", OWN_BIRTH);
    ClosedIsInvalid(LEGACY, self, "mem_1");
    AloneIsValid(LEGACY + more, self, "mem_1");
  }

  lemma LegacyGenesis(more: Log)
    requires more == [Genesis("evt_4", "proj_b")]
    ensures NoIdPatch(LEGACY) && NoIdPatch(LEGACY + more)
    ensures !Prescan(LEGACY, Some("proj_a")).isUnion && Prescan(LEGACY + more, Some("proj_a")).isUnion
  {
    assert Genesis("evt_1", "proj_a") in LEGACY + more && Genesis("evt_4", "proj_b") in LEGACY + more;
    assert GenesisIds(LEGACY) == {"proj_a"};
    assert GenesisIds(LEGACY + more) == {"proj_a", "proj_b"};
  }

  lemma LegacyIsCausal(more: Log)
    requires more == [Genesis("evt_4", "proj_b")]
    ensures Causal(LEGACY) && Causal(LEGACY + more)
  {
    assert LEGACY + more == [Genesis("evt_1", "proj_a"), OWN_BIRTH, UNSTAMPED_RETRACT, Genesis("evt_4", "proj_b")];
  }

  lemma ClosedIsInvalid(log: Log, self: Option<Id>, m: Id)
    requires Reduce(log, self).Reduced?
    requires var c := Prescan(log, self); var r := Records(log, c.selfId, c.isUnion); m in r && r[m].invalidAt.Some?
    ensures m !in ValidMemories(Reduce(log, self))
  {
    hide Replay, Records, DedupKey, Winner, Before;
    ReplayKeepsRecords(log, Prescan(log, self));
  }

  /** An open record with no rival is valid. */
  lemma AloneIsValid(log: Log, self: Option<Id>, m: Id)
    requires Reduce(log, self).Reduced?
    requires var c := Prescan(log, self); var r := Records(log, c.selfId, c.isUnion); m in r && r[m].invalidAt.None?
    requires forall x :: Born(log, x) ==> x == m
    ensures m in ValidMemories(Reduce(log, self))
  {
    hide Replay, Records, DedupKey, Before, Born;
    var c := Prescan(log, self);
    ReplayKeepsRecords(log, c);
    RecordsAreWellKeyed(log, c);
    forall x | x in Records(log, c.selfId, c.isUnion) ensures x == m {
      RecordsAreBorn(log, c.selfId, c.isUnion, x);
    }
    GroupKeepsItsLeast(Records(log, c.selfId, c.isUnion), m);
  }

  /**
   * A dedup loser is not closed for good: when its winner is closed by an event, the
   * runner-up becomes valid again, and no other loser of the group does.
   */
  lemma RunnerUpComesBack(memories: Memories, m: Id, at: Time)
    requires WellKeyed(memories) && m in memories && Competes(memories[m])
    requires m !in Valid(Dedupe(memories))
    ensures var w := Winner(memories, m);
            m in Valid(Dedupe(memories[w := memories[w].(invalidAt := Some(at))])) <==>
            forall x :: InGroup(memories, DedupKey(memories[m]), x) && x != w && x != m ==>
              Before(memories[m], memories[x])
  {
    hide DedupKey, Before;
    var w := Winner(memories, m);
    var after := memories[w := memories[w].(invalidAt := Some(at))];
    assert forall x :: InGroup(after, DedupKey(after[m]), x) <==> InGroup(memories, DedupKey(memories[m]), x) && x != w;
    GroupKeepsItsLeast(after, m);
  }
}
