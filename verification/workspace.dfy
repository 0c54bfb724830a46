/** Converging a store's sync binding onto the workspace minted for it. */
module Workspace {
  import opened Events
  import opened EventLog
  import opened SyncRuns
  import opened SyncService

  datatype Transport = NoTransport | FileTransport | HttpTransport

  /** The sync state, the kind of transport it names, and the cached role of this account. */
  datatype Binding = Binding(sync: SyncState, transport: Transport, role: Option<string>, inviteReachable: bool)

  datatype Listed = Listed(workspaceId: Id, role: string, inviteReachable: bool)

  /** What creating a workspace comes to; a bare relay has no control plane to ask. */
  datatype Creation = Created(workspace: Listed) | NoControlPlane | CreationFailed

  /** The answers of the control plane, had one asked. */
  datatype ControlPlane = ControlPlane(token: Option<string>, listed: Option<seq<Listed>>, creation: Creation)

  datatype Reconciled = Untouched | RoleBackfilled(workspaceId: Id) | Migrated(workspaceId: Id) | Refused

  datatype Adopted = AlreadyBound(workspaceId: Id) | Adopted(workspaceId: Id) | NotAdopted

  const WORKSPACE_PREFIX: string := "wsp_"
  const PERSONAL_PREFIX: string := "psm_"

  predicate IsWorkspace(remote: Option<Id>) {
    remote.Some? && WORKSPACE_PREFIX <= remote.value
  }

  predicate IsPersonal(remote: Option<Id>) {
    remote.Some? && PERSONAL_PREFIX <= remote.value
  }

  /** A binding that reconciling leaves alone without asking anyone. */
  predicate Settled(b: Binding) {
    || !b.transport.HttpTransport?
    || IsPersonal(b.sync.remote)
    || (IsWorkspace(b.sync.remote) && b.role.Some? && b.role.value != "")
  }

  /** A control plane that mints workspace ids and hands out roles. */
  predicate MintsWorkspaces(c: ControlPlane) {
    c.creation.Created? ==> WORKSPACE_PREFIX <= c.creation.workspace.workspaceId && c.creation.workspace.role != ""
  }

  predicate NamesRoles(c: ControlPlane) {
    c.listed.Some? ==> forall w :: w in c.listed.value ==> w.role != ""
  }

  /** What counts as bound to a workspace: a remote id and a cached role, whatever the id looks like. */
  predicate BoundToWorkspace(b: Binding) {
    b.sync.remote.Some? && b.role.Some? && b.role.value != ""
  }

  /** Creating and joining patch the stored state: the watermarks stay. */
  function AfterAdoption(b: Binding, w: Listed): Binding {
    Binding(b.sync.(remote := Some(w.workspaceId), syncEnabled := true, transport := true), HttpTransport,
            Some(w.role), w.inviteReachable)
  }

  /** The id has the form of a minted workspace. */
  ghost predicate IsMinted(remote: Option<Id>) {
    remote.Some? && "wsp_" <= remote.value
  }

  ghost predicate HasRole(b: Binding) {
    b.role.Some? && b.role.value != ""
  }

  /** Bound to `w` over HTTP, with what `before` knew of keys, status and watermarks. */
  ghost predicate Holds(b: Binding, before: SyncState, w: Listed) {
    && b.sync.remote == Some(w.workspaceId) && b.sync.syncEnabled && b.sync.transport
    && b.sync.pushed == before.pushed && b.sync.pulled == before.pulled
    && b.sync.status == before.status && b.sync.key == before.key
    && b.transport == HttpTransport && b.role == Some(w.role) && b.inviteReachable == w.inviteReachable
  }

  class BoundStore {
    var log: Log
    var binding: Binding

    constructor (log: Log, binding: Binding)
      ensures this.log == log && this.binding == binding
    {
      this.log, this.binding := log, binding;
    }

    /**
     * Backfill a missing role, or bind to a freshly minted workspace and drop both
     * watermarks. The file is rewritten directly: no bookkeeping event is left behind. What
     * a reconcile leaves is settled, so that a second one finds nothing to do.
     */
    method ReconcileWorkspaceBinding(c: ControlPlane) returns (r: Reconciled)
      modifies this`binding
      ensures r.Untouched? || r.Refused? ==> binding == old(binding)
      ensures r.Untouched? <==>
                || !old(binding).transport.HttpTransport?
                || (old(binding).sync.remote.Some? && "psm_" <= old(binding).sync.remote.value)
                || (IsMinted(old(binding).sync.remote) && HasRole(old(binding)))
                || (!IsMinted(old(binding).sync.remote) && c.token.Some? && c.creation.NoControlPlane?)
      ensures r.RoleBackfilled? ==>
                && IsWorkspace(old(binding).sync.remote) && old(binding).sync.remote == Some(r.workspaceId)
                && c.listed.Some?
                && exists w :: w in c.listed.value && w.workspaceId == r.workspaceId &&
                     binding == old(binding).(role := Some(w.role), inviteReachable := w.inviteReachable,
                                              sync := old(binding).sync.(syncEnabled := true))
      ensures r.Migrated? ==>
                && !IsWorkspace(old(binding).sync.remote) && c.creation.Created?
                && var w := c.creation.workspace;
                   w.workspaceId == r.workspaceId &&
                   binding == Binding(
                     old(binding).sync.(remote := Some(w.workspaceId), pushed := None, pulled := None,
                       syncEnabled := true),
                     old(binding).transport, Some(w.role), w.inviteReachable)
      ensures r.Refused? <==>
                && !Settled(old(binding))
                && (|| c.token.None?
                    || (IsWorkspace(old(binding).sync.remote) &&
                        (c.listed.None? || forall w :: w in c.listed.value ==>
                          Some(w.workspaceId) != old(binding).sync.remote))
                    || (!IsWorkspace(old(binding).sync.remote) && c.creation.CreationFailed?))
      ensures (r.RoleBackfilled? || r.Migrated?) && MintsWorkspaces(c) && NamesRoles(c) ==> Settled(binding)
    {
      var state := binding.sync;
      if !binding.transport.HttpTransport? { return Untouched; }
      if IsPersonal(state.remote) { return Untouched; }
      var wspBound := IsWorkspace(state.remote);
      if wspBound && binding.role.Some? && binding.role.value != "" { return Untouched; }
      if c.token.None? { return Refused; }
      if wspBound {
        if c.listed.None? { return Refused; }
        var i := 0;
        while i < |c.listed.value| && Some(c.listed.value[i].workspaceId) != state.remote
          invariant 0 <= i <= |c.listed.value|
          invariant forall j :: 0 <= j < i ==> Some(c.listed.value[j].workspaceId) != state.remote
        {
          i := i + 1;
        }
        if i == |c.listed.value| { return Refused; }
        var entry := c.listed.value[i];
        assert entry in c.listed.value;
        binding := binding.(role := Some(entry.role), inviteReachable := entry.inviteReachable,
                            sync := state.(syncEnabled := true));
        return RoleBackfilled(entry.workspaceId);
      }
      match c.creation {
        case NoControlPlane => return Untouched;
        case CreationFailed => return Refused;
        case Created(w) =>
          var rest := state.(pushed := None, pulled := None);
          binding := Binding(rest.(remote := Some(w.workspaceId), syncEnabled := true), binding.transport, Some(w.role),
            w.inviteReachable);
          WorkspaceIsNotPersonal(binding.sync.remote);
          r := Migrated(w.workspaceId);
      }
    }

    /**
     * Mint a workspace and bind to it, unless bound already. The migration above drops both
     * watermarks; this keeps them.
     */
    method CreateWorkspace(c: ControlPlane) returns (r: Adopted)
      modifies this`binding
      ensures r.AlreadyBound? <==> old(binding).sync.remote.Some? && HasRole(old(binding))
      ensures r.AlreadyBound? ==> Some(r.workspaceId) == binding.sync.remote
      ensures r.Adopted? <==> !r.AlreadyBound? && c.token.Some? && c.creation.Created?
      ensures if r.Adopted? then Holds(binding, old(binding).sync, c.creation.workspace) else binding == old(binding)
      ensures r.Adopted? ==> r.workspaceId == c.creation.workspace.workspaceId
      ensures r.Adopted? && MintsWorkspaces(c) ==> Settled(binding) && BoundToWorkspace(binding)
    {
      if BoundToWorkspace(binding) { return AlreadyBound(binding.sync.remote.value); }
      if c.token.None? || !c.creation.Created? { return NotAdopted; }
      binding := AfterAdoption(binding, c.creation.workspace);
      r := Adopted(c.creation.workspace.workspaceId);
    }

    /** Redeem an invite; a bound store refuses. A joined workspace is reachable by invite. */
    method JoinWorkspace(token: Option<string>, joined: Option<Listed>) returns (r: Adopted)
      modifies this`binding
      ensures r.AlreadyBound? <==> old(binding).sync.remote.Some? && HasRole(old(binding))
      ensures r.Adopted? <==> !r.AlreadyBound? && token.Some? && joined.Some?
      ensures if r.Adopted? then Holds(binding, old(binding).sync, joined.value.(inviteReachable := true))
              else binding == old(binding)
      ensures r.Adopted? ==> r.workspaceId == joined.value.workspaceId
    {
      if BoundToWorkspace(binding) { return AlreadyBound(binding.sync.remote.value); }
      if token.None? || joined.None? { return NotAdopted; }
      binding := AfterAdoption(binding, joined.value.(inviteReachable := true));
      r := Adopted(joined.value.workspaceId);
    }
  }

  /**
   * Creating and joining are the bind of the run model, whatever is in flight; nothing the
   * store had marked for its old relay is ever sent to the workspace.
   */
  lemma AdoptionIsABind(w: World, i: nat, s: Site, b: Binding, joined: Listed, push: Option<PushOp>,
      pull: Option<PullOp>)
    requires i < |w.replicas| && s.state.remote.Some? && b.sync == s.state && UniqueIds(s.log)
    requires w.replicas[i] == AsReplica(s).(push := push, pull := pull)
    ensures var t := s.(state := AfterAdoption(b, joined).sync);
            && Next(w, Bind(i, joined.workspaceId)) == WithReplica(w, i, AsReplica(t).(push := push, pull := pull))
            && (forall e :: e in s.log[..StartAfter(s.log, s.state.pushed)] ==> e !in Pending(t.log, t.state.pushed))
            && forall lines :: ReadSince(lines, t.state.pulled) == ReadSince(lines, s.state.pulled)
  {
    var start := StartAfter(s.log, s.state.pushed);
    forall e | e in s.log[..start] ensures e !in Pending(s.log, s.state.pushed) {
      var x :| 0 <= x < start && s.log[x] == e;
      if e in Shareable(s.log[start..]) { ShareableFrom(s.log[start..], e); }
    }
  }

  lemma WorkspaceIsNotPersonal(remote: Option<Id>)
    ensures !(IsWorkspace(remote) && IsPersonal(remote))
  {
    if IsWorkspace(remote) { assert remote.value[0] == 'w'; }
  }

  /** The sync state a migration leaves. */
  function AfterMigration(s: SyncState, remote: Id): SyncState {
    s.(remote := Some(remote), pushed := None, pulled := None, syncEnabled := true)
  }

  /**
   * A migration is the rebind of the run model, whatever is in flight: the next push sends the
   * whole shareable log, and the next pull reads the new relay from its first line.
   */
  lemma MigrationIsARebind(w: World, i: nat, s: Site, push: Option<PushOp>, pull: Option<PullOp>, remote: Id)
    requires i < |w.replicas| && s.state.remote.Some?
    requires w.replicas[i] == AsReplica(s).(push := push, pull := pull)
    ensures var t := s.(state := AfterMigration(s.state, remote));
            && Next(w, Rebind(i, remote)) == WithReplica(w, i, AsReplica(t).(push := push, pull := pull))
            && Pending(t.log, t.state.pushed) == Shareable(t.log)
            && forall lines :: ReadSince(lines, t.state.pulled) == lines
  {
  }
}
