/**
 * The agent-pool scenarios, replayed against the server's contracts: each
 * method performs the calls in the scenario's order and checks, from the
 * contracts alone, the outcome the scenario expects at every step.
 */
module AgentPoolScenarios {
  import opened Wrappers
  import opened Errors
  import opened Membership
  import opened AgentPools

  /** The Default pool, looked up by id and by name: id 0, named "Default", without agent limit. */
  method DefaultPoolLookup(s: Server) returns (byId: AgentPool, byName: AgentPool)
    requires s.Valid()
    ensures byId.id == DefaultPoolId && byId.name == DefaultPoolName && byId.maxAgents == None
    ensures byName.id == DefaultPoolId && byName.name == DefaultPoolName && byName.maxAgents == None
  {
    var r := s.GetByID(DefaultPoolId);
    byId := r.value;
    r := s.GetByName(DefaultPoolName);
    byName := r.value;
  }

  /**
   * Create a pool, read it back by id, delete it: afterwards no listed pool
   * carries its name. `poolName` stands for the time-stamped name, so no
   * pool carries it yet.
   */
  method Lifecycle(s: Server, poolName: string)
    requires s.Valid() && !s.NameTaken(poolName)
    modifies s
    ensures s.Valid()
  {
    var created := s.Create(poolName, None);
    assert created.Success?;
    var id := created.value.id;
    assert id != DefaultPoolId && created.value.name == poolName;
    var retrieved := s.GetByID(id);
    assert retrieved.Success? && retrieved.value.name == poolName && retrieved.value.maxAgents == None;
    var deleted := s.Delete(id);
    assert deleted.Pass?;
    var listed := s.List();
    assert forall i | 0 <= i < |listed| :: listed[i].name != poolName;
  }

  /** A project that belongs to Default alone is listed under exactly one pool, named "Default". */
  method ListedUnderDefaultOnly(s: Server, projectId: string) returns (listing: PoolListing)
    requires s.Valid()
    requires projectId in s.projectNames && PoolsOf(s.members, projectId) == {DefaultPoolId}
    ensures listing.count == |listing.agentPools| == 1
    ensures listing.agentPools[0] == Ref(DefaultPoolId, DefaultPoolName)
  {
    var r := s.ListForProject(projectId);
    listing := r.value;
    assert listing.agentPools[0].id in Ids(listing.agentPools);
  }

  /**
   * A new project is listed under Default only; once assigned to a new
   * pool it is listed under two pools; once unassigned, under Default only.
   * The project id and the time-stamped pool name are not yet in use.
   */
  method ListForProject(s: Server, projectId: string, projectName: string, poolName: string)
    requires s.Valid() && projectId !in s.projectNames && !s.NameTaken(poolName)
    modifies s
    ensures s.Valid()
  {
    var registered := s.RegisterProject(projectId, projectName);
    assert registered.Pass?;
    var created := s.Create(poolName, None);
    assert created.Success?;
    var pool := created.value.id;
    var retrieved := s.GetByID(pool);
    assert retrieved.Success? && retrieved.value.name == poolName && retrieved.value.maxAgents == None;
    assert PoolsOf(s.members, projectId) == {DefaultPoolId};
    var listing := ListedUnderDefaultOnly(s, projectId);
    AssignThenUnassign(s, pool, projectId);
    var deleted := s.Delete(pool);
    assert deleted.Pass?;
  }

  /** The assign / unassign half of ListForProject, from a project listed under Default only. */
  method AssignThenUnassign(s: Server, pool: int, projectId: string)
    requires s.Valid()
    requires pool in s.pools && pool != DefaultPoolId
    requires projectId in s.projectNames && PoolsOf(s.members, projectId) == {DefaultPoolId}
    modifies s
    ensures s.Valid() && s.pools == old(s.pools)
    ensures PoolsOf(s.members, projectId) == {DefaultPoolId}
  {
    ghost var before := s.members;
    var assignment := s.AssignProject(pool, projectId);
    assert assignment.Pass?;
    var found := s.ValidateContainsProject(pool, projectId);
    assert found;
    AssignAddsPool(before, pool, projectId);
    var assignments := s.ListForProject(projectId);
    assert assignments.Success? && assignments.value.count == |{DefaultPoolId, pool}| == 2;

    before := s.members;
    var unassignment := s.UnassignProject(pool, projectId);
    assert unassignment.Pass?;
    UnassignRemovesPool(before, pool, projectId);
    found := s.ValidateContainsProject(pool, projectId);
    assert !found;
    var listing := ListedUnderDefaultOnly(s, projectId);
  }

  /**
   * Two projects in one pool: assigning or unassigning one leaves the
   * other's membership as it was, and re-assigning restores membership.
   * The two new project ids differ and, like the time-stamped pool name,
   * are not yet in use.
   */
  method ProjectAssignment(s: Server, first: string, second: string, poolName: string)
    requires s.Valid() && first != second
    requires first !in s.projectNames && second !in s.projectNames && !s.NameTaken(poolName)
    modifies s
    ensures s.Valid()
  {
    var registered := s.RegisterProject(first, "First Project");
    assert registered.Pass?;
    registered := s.RegisterProject(second, "Second Project");
    assert registered.Pass?;
    var created := s.Create(poolName, None);
    assert created.Success?;
    var pool := created.value.id;
    var retrieved := s.GetByID(pool);
    assert retrieved.Success? && retrieved.value.name == poolName && retrieved.value.maxAgents == None;
    assert s.members[pool] == {};

    var outcome := s.AssignProject(pool, first);
    assert outcome.Pass?;
    var found := s.ValidateContainsProject(pool, first);
    assert found;

    outcome := s.AssignProject(pool, second);
    assert outcome.Pass?;
    found := s.ValidateContainsProject(pool, first);
    assert found;
    found := s.ValidateContainsProject(pool, second);
    assert found;

    outcome := s.UnassignProject(pool, first);
    assert outcome.Pass?;
    found := s.ValidateContainsProject(pool, first);
    assert !found;
    found := s.ValidateContainsProject(pool, second);
    assert found;

    outcome := s.AssignProject(pool, first);
    assert outcome.Pass?;
    found := s.ValidateContainsProject(pool, first);
    assert found;
    found := s.ValidateContainsProject(pool, second);
    assert found;

    outcome := s.UnassignProject(pool, first);
    assert outcome.Pass?;
    outcome := s.UnassignProject(pool, second);
    assert outcome.Pass?;
    found := s.ValidateContainsProject(pool, first);
    assert !found;
    found := s.ValidateContainsProject(pool, second);
    assert !found;

    var deleted := s.Delete(pool);
    assert deleted.Pass?;
  }
}
