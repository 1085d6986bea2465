/**
 * The server-side state of agent pools and their project assignments, as the
 * client observes it through `Create`, `GetByID`, `GetByName`, `Delete`,
 * `List`, `ListForProject`, `AssignProject` and `UnassignProject`.
 *
 * Pool 0 is the permanent "Default" pool without an agent limit; every known
 * project is a member of it. Other pools get fresh non-zero ids when created,
 * start without projects and may be deleted. A project may belong to several
 * pools at once: assigning adds one pool, unassigning removes one.
 */
module AgentPools {
  import opened Wrappers
  import opened Errors
  import opened Membership

  /**
   * An entry of a listing: the id and display name of a project inside a
   * pool, or of a pool in `List` and `ListForProject`.
   */
  datatype Ref<Id> = Ref(id: Id, name: string)

  type ProjectRef = Ref<string>
  type PoolRef = Ref<int>

  /**
   * A pool as `GetByID` returns it. `maxAgents` is absent for an unlimited
   * pool; `projects` is absent when the payload carries no project list.
   */
  datatype AgentPool = AgentPool(id: int, name: string, maxAgents: Option<int>, projects: Option<seq<ProjectRef>>)

  /** The `ListForProject` payload: a count and the pools. */
  datatype PoolListing = PoolListing(count: int, agentPools: seq<PoolRef>)

  /** The ids a listing names. */
  function Ids<Id(==)>(refs: seq<Ref<Id>>): set<Id> {
    set i | 0 <= i < |refs| :: refs[i].id
  }

  /** No id is listed twice. */
  predicate DistinctIds<Id(==)>(refs: seq<Ref<Id>>) {
    forall i, j | 0 <= i < j < |refs| :: refs[i].id != refs[j].id
  }

  lemma IdsSnoc<Id>(refs: seq<Ref<Id>>, r: Ref<Id>)
    ensures Ids(refs + [r]) == Ids(refs) + {r.id}
  {
    var s := refs + [r];
    forall x | x in Ids(s) ensures x in Ids(refs) + {r.id} {
      var i :| 0 <= i < |s| && s[i].id == x;
      if i < |refs| { assert refs[i].id == x; }
    }
    forall x | x in Ids(refs) ensures x in Ids(s) {
      var i :| 0 <= i < |refs| && refs[i].id == x;
      assert s[i].id == x;
    }
    assert s[|refs|].id == r.id;
  }

  /** Appending an entry whose id is not yet listed keeps the listing free of repeats. */
  lemma AppendRef<Id>(refs: seq<Ref<Id>>, r: Ref<Id>)
    requires DistinctIds(refs) && r.id !in Ids(refs)
    ensures DistinctIds(refs + [r])
    ensures Ids(refs + [r]) == Ids(refs) + {r.id}
  {
    IdsSnoc(refs, r);
    forall i | 0 <= i < |refs| ensures refs[i].id != r.id {
      assert refs[i].id in Ids(refs);
    }
  }

  /** A listing without repeated ids has as many entries as it names ids. */
  lemma {:induction false} DistinctIdsCount<Id>(refs: seq<Ref<Id>>)
    requires DistinctIds(refs)
    ensures |Ids(refs)| == |refs|
  {
    if refs != [] {
      var init, last := refs[..|refs| - 1], refs[|refs| - 1];
      assert refs == init + [last];
      DistinctIdsCount(init);
      IdsSnoc(init, last);
      assert last.id !in Ids(init) by {
        forall i | 0 <= i < |init| ensures init[i].id != last.id {
          assert refs[i].id != refs[|refs| - 1].id;
        }
      }
    }
  }

  /**
   * `validateContainsProject` on a retrieved pool: false when the pool has
   * no project list, otherwise whether some listed project has the id.
   */
  method ContainsProject(pool: AgentPool, projectId: string) returns (found: bool)
    ensures found <==> pool.projects.Some? && exists i | 0 <= i < |pool.projects.value| :: pool.projects.value[i].id == projectId
  {
    if pool.projects.None? {
      return false;
    }
    var refs := pool.projects.value;
    var i := 0;
    while i < |refs|
      invariant 0 <= i <= |refs|
      invariant forall j | 0 <= j < i :: refs[j].id != projectId
    {
      if refs[i].id == projectId {
        return true;
      }
      i := i + 1;
    }
    return false;
  }

  function Elements(ids: seq<int>): set<int> {
    set i | 0 <= i < |ids| :: ids[i]
  }

  predicate Distinct(ids: seq<int>) {
    forall i, j | 0 <= i < j < |ids| :: ids[i] != ids[j]
  }

  lemma ElementsSnoc(ids: seq<int>, id: int)
    ensures Elements(ids + [id]) == Elements(ids) + {id}
  {
    var s := ids + [id];
    forall x | x in Elements(s) ensures x in Elements(ids) + {id} {
      var i :| 0 <= i < |s| && s[i] == x;
      if i < |ids| { assert ids[i] == x; }
    }
    forall x | x in Elements(ids) ensures x in Elements(s) {
      var i :| 0 <= i < |ids| && ids[i] == x;
      assert s[i] == x;
    }
    assert s[|ids|] == id;
  }

  /** Removing the entry at `k` from a list without repeats removes exactly that id. */
  lemma ElementsRemove(ids: seq<int>, k: int)
    requires 0 <= k < |ids| && Distinct(ids)
    ensures Elements(ids[..k] + ids[k + 1..]) == Elements(ids) - {ids[k]}
    ensures Distinct(ids[..k] + ids[k + 1..])
  {
    var s := ids[..k] + ids[k + 1..];
    assert forall i | 0 <= i < |s| :: s[i] == if i < k then ids[i] else ids[i + 1];
    forall x | x in Elements(s) ensures x in Elements(ids) - {ids[k]} {
      var i :| 0 <= i < |s| && s[i] == x;
      if i < k { assert ids[i] == x; } else { assert ids[i + 1] == x; }
    }
    forall x | x in Elements(ids) - {ids[k]} ensures x in Elements(s) {
      var j :| 0 <= j < |ids| && ids[j] == x;
      if j < k { assert s[j] == x; } else { assert s[j - 1] == x; }
    }
  }

  /** Taking one more entry of a list without repeats adds one new id. */
  lemma ElementsPrefixNext(order: seq<int>, k: int)
    requires Distinct(order) && 0 <= k < |order|
    ensures Elements(order[..k + 1]) == Elements(order[..k]) + {order[k]}
    ensures order[k] !in Elements(order[..k])
  {
    assert order[..k + 1] == order[..k] + [order[k]];
    ElementsSnoc(order[..k], order[k]);
  }

  /** One step of ProjectList: listing a project not yet listed moves it out of `rest`. */
  lemma ProjectListStep(ids: set<string>, rest: set<string>, refs: seq<ProjectRef>, r: ProjectRef)
    requires rest <= ids && r.id in rest
    requires Ids(refs) == ids - rest && DistinctIds(refs)
    requires forall i | 0 <= i < |refs| :: refs[i].id !in rest
    ensures Ids(refs + [r]) == ids - (rest - {r.id})
    ensures DistinctIds(refs + [r])
    ensures forall i | 0 <= i < |refs + [r]| :: (refs + [r])[i].id !in rest - {r.id}
  {
    IdsSnoc(refs, r);
  }

  /** The project list of a pool: each project of `ids` once, with its display name. */
  method ProjectList(ids: set<string>, names: map<string, string>) returns (refs: seq<ProjectRef>)
    requires ids <= names.Keys
    ensures Ids(refs) == ids && DistinctIds(refs)
    ensures forall i | 0 <= i < |refs| :: refs[i].id in names && refs[i].name == names[refs[i].id]
  {
    var rest := ids;
    refs := [];
    while rest != {}
      invariant rest <= ids
      invariant Ids(refs) == ids - rest
      invariant DistinctIds(refs)
      invariant forall i | 0 <= i < |refs| :: refs[i].id !in rest
      invariant forall i | 0 <= i < |refs| :: refs[i].id in names && refs[i].name == names[refs[i].id]
      decreases |rest|
    {
      var x :| x in rest;
      ProjectListStep(ids, rest, refs, Ref(x, names[x]));
      refs := refs + [Ref(x, names[x])];
      rest := rest - {x};
    }
  }

  /** One step of Collect: the pool at `k` is listed exactly when it is one of `ids`. */
  lemma CollectStep(order: seq<int>, ids: set<int>, refs: seq<PoolRef>, k: int, r: PoolRef)
    requires Distinct(order) && 0 <= k < |order| && r.id == order[k]
    requires DistinctIds(refs) && Ids(refs) == ids * Elements(order[..k])
    ensures r.id in ids ==> DistinctIds(refs + [r]) && Ids(refs + [r]) == ids * Elements(order[..k + 1])
    ensures r.id !in ids ==> Ids(refs) == ids * Elements(order[..k + 1])
  {
    ElementsPrefixNext(order, k);
    if r.id in ids {
      AppendRef(refs, r);
    }
  }

  /** The listing, in `order`, of the given pools, each once, with its name. */
  method Collect(order: seq<int>, pools: map<int, PoolInfo>, ids: set<int>) returns (refs: seq<PoolRef>)
    requires Distinct(order) && Elements(order) <= pools.Keys
    requires ids <= Elements(order)
    ensures Ids(refs) == ids && DistinctIds(refs) && |refs| == |ids|
    ensures forall i | 0 <= i < |refs| :: refs[i].id in pools && refs[i].name == pools[refs[i].id].name
  {
    refs := [];
    var k := 0;
    while k < |order|
      invariant 0 <= k <= |order|
      invariant Ids(refs) == ids * Elements(order[..k])
      invariant DistinctIds(refs)
      invariant forall i | 0 <= i < |refs| :: refs[i].id in pools && refs[i].name == pools[refs[i].id].name
    {
      assert order[k] in Elements(order);
      var r := Ref(order[k], pools[order[k]].name);
      CollectStep(order, ids, refs, k, r);
      if order[k] in ids {
        refs := refs + [r];
      }
      k := k + 1;
    }
    assert order[..k] == order;
    DistinctIdsCount(refs);
  }

  /** What the server records of a pool besides its id and its projects. */
  datatype PoolInfo = PoolInfo(name: string, maxAgents: Option<int>)

  ghost predicate UniquePoolNames(pools: map<int, PoolInfo>) {
    forall a, b | a in pools && b in pools && pools[a].name == pools[b].name :: a == b
  }

  /**
   * The server's invariant: `order` lists every pool once; Default exists,
   * is unlimited and holds every known project; every pool has a project
   * set of known projects; pool names are unique; every id handed out so
   * far is below `nextId`.
   */
  ghost predicate Consistent(order: seq<int>, pools: map<int, PoolInfo>, members: Relation,
                             projects: map<string, string>, nextId: int)
  {
    && pools.Keys == Elements(order)
    && Distinct(order)
    && DefaultPoolId in pools && pools[DefaultPoolId] == PoolInfo(DefaultPoolName, None)
    && members.Keys == pools.Keys
    && members[DefaultPoolId] == projects.Keys
    && (forall p | p in members :: members[p] <= projects.Keys)
    && UniquePoolNames(pools)
    && (forall p | p in pools :: 0 <= p < nextId)
  }

  /** Adding a pool under a fresh id and an unused name keeps the invariant. */
  lemma CreateKeepsConsistent(order: seq<int>, pools: map<int, PoolInfo>, members: Relation,
                              projects: map<string, string>, nextId: int, info: PoolInfo)
    requires Consistent(order, pools, members, projects, nextId)
    requires forall a | a in pools :: pools[a].name != info.name
    ensures nextId !in pools && nextId != DefaultPoolId
    ensures Consistent(order + [nextId], pools[nextId := info], members[nextId := {}], projects, nextId + 1)
  {
    ElementsSnoc(order, nextId);
    var pools' := pools[nextId := info];
    assert UniquePoolNames(pools') by {
      forall a, b | a in pools' && b in pools' && pools'[a].name == pools'[b].name ensures a == b {
        if a != nextId && b != nextId {
          assert pools[a].name == pools[b].name;
        }
      }
    }
    assert Distinct(order + [nextId]) by {
      forall i | 0 <= i < |order| ensures order[i] != nextId {
        assert order[i] in Elements(order);
      }
    }
  }

  /** Removing any pool but Default, with its assignments, keeps the invariant. */
  lemma DeleteKeepsConsistent(order: seq<int>, pools: map<int, PoolInfo>, members: Relation,
                              projects: map<string, string>, nextId: int, k: int)
    requires Consistent(order, pools, members, projects, nextId)
    requires 0 <= k < |order| && order[k] != DefaultPoolId
    ensures order[k] in pools
    ensures forall a | a in pools && a != order[k] :: pools[a].name != pools[order[k]].name
    ensures Consistent(order[..k] + order[k + 1..], pools - {order[k]}, members - {order[k]}, projects, nextId)
  {
    assert order[k] in Elements(order);
    ElementsRemove(order, k);
  }

  /** A new project joins Default, and only Default; the invariant is kept. */
  lemma RegisterKeepsConsistent(order: seq<int>, pools: map<int, PoolInfo>, members: Relation,
                                projects: map<string, string>, nextId: int, id: string, name: string)
    requires Consistent(order, pools, members, projects, nextId)
    requires id !in projects
    ensures PoolsOf(members[DefaultPoolId := members[DefaultPoolId] + {id}], id) == {DefaultPoolId}
    ensures Consistent(order, pools, members[DefaultPoolId := members[DefaultPoolId] + {id}], projects[id := name], nextId)
  {
    var members' := members[DefaultPoolId := members[DefaultPoolId] + {id}];
    forall p | p in members' ensures id in members'[p] <==> p == DefaultPoolId {
      if p != DefaultPoolId {
        assert members'[p] == members[p] <= projects.Keys;
      }
    }
  }

  /** Assigning a known project to an existing pool keeps the invariant. */
  lemma AssignKeepsConsistent(order: seq<int>, pools: map<int, PoolInfo>, members: Relation,
                              projects: map<string, string>, nextId: int, pool: int, project: string)
    requires Consistent(order, pools, members, projects, nextId)
    requires pool in pools && project in projects
    ensures Consistent(order, pools, Assign(members, pool, project), projects, nextId)
  {
  }

  /** Unassigning from any pool but Default keeps the invariant. */
  lemma UnassignKeepsConsistent(order: seq<int>, pools: map<int, PoolInfo>, members: Relation,
                                projects: map<string, string>, nextId: int, pool: int, project: string)
    requires Consistent(order, pools, members, projects, nextId)
    requires pool in pools && pool != DefaultPoolId
    ensures Consistent(order, pools, Unassign(members, pool, project), projects, nextId)
  {
  }

  class Server {
    var order: seq<int>
    var pools: map<int, PoolInfo>
    var members: Relation
    var projectNames: map<string, string>
    var nextId: int

    ghost predicate Valid()
      reads this
    {
      Consistent(order, pools, members, projectNames, nextId)
    }

    /** Some pool carries the name. */
    ghost predicate NameTaken(name: string)
      reads this
    {
      exists id | id in pools :: pools[id].name == name
    }

    /** `pool` is what `GetByID(id)` reports of pool `id`. */
    ghost predicate Describes(pool: AgentPool, id: int)
      reads this
    {
      && id in pools && id in members
      && pool.id == id && pool.name == pools[id].name && pool.maxAgents == pools[id].maxAgents
      && pool.projects.Some?
      && Ids(pool.projects.value) == members[id]
      && DistinctIds(pool.projects.value)
      && forall i | 0 <= i < |pool.projects.value| ::
           pool.projects.value[i].id in projectNames && pool.projects.value[i].name == projectNames[pool.projects.value[i].id]
    }

    /** A server with only the Default pool, holding the given projects (id to display name). */
    constructor (projects: map<string, string>)
      ensures Valid()
      ensures pools == map[DefaultPoolId := PoolInfo(DefaultPoolName, None)]
      ensures members == map[DefaultPoolId := projects.Keys]
      ensures projectNames == projects
    {
      order := [DefaultPoolId];
      pools := map[DefaultPoolId := PoolInfo(DefaultPoolName, None)];
      members := map[DefaultPoolId := projects.Keys];
      projectNames := projects;
      nextId := 1;
      ElementsSnoc([], DefaultPoolId);
      assert [] + [DefaultPoolId] == [DefaultPoolId];
    }

    /**
     * A new project enters the server as a member of Default and of no
     * other pool; an id already in use is a conflict.
     */
    method RegisterProject(id: string, name: string) returns (r: Outcome<Error>)
      requires Valid()
      modifies this
      ensures Valid()
      ensures r.Pass? <==> id !in old(projectNames)
      ensures r.Fail? ==> r.error == Conflict && unchanged(this)
      ensures r.Pass? ==> && projectNames == old(projectNames)[id := name]
                          && members == old(members)[DefaultPoolId := old(members)[DefaultPoolId] + {id}]
                          && order == old(order) && pools == old(pools) && nextId == old(nextId)
      ensures r.Pass? ==> PoolsOf(members, id) == {DefaultPoolId}
    {
      if id in projectNames {
        return Fail(Conflict);
      }
      RegisterKeepsConsistent(order, pools, members, projectNames, nextId, id, name);
      projectNames := projectNames[id := name];
      members := members[DefaultPoolId := members[DefaultPoolId] + {id}];
      r := Pass;
    }

    /** The position in `order` of the pool carrying the name, or `|order|` when no pool does. */
    method FindName(name: string) returns (k: nat)
      requires Valid()
      ensures k <= |order|
      ensures k < |order| ==> order[k] in pools && pools[order[k]].name == name
      ensures k == |order| <==> !NameTaken(name)
    {
      k := 0;
      while k < |order| && pools[order[k]].name != name
        invariant 0 <= k <= |order|
        invariant forall j | 0 <= j < k :: pools[order[j]].name != name
      {
        assert order[k] in Elements(order);
        k := k + 1;
      }
      if k == |order| {
        forall id | id in pools ensures pools[id].name != name {
          assert id in Elements(order);
          var j :| 0 <= j < |order| && order[j] == id;
        }
      } else {
        assert order[k] in Elements(order);
      }
    }

    /**
     * `Create`: a new pool with a fresh non-zero id, the requested name and
     * limit, and no projects. A name already in use is a conflict.
     */
    method Create(name: string, limit: Option<int>) returns (r: Result<AgentPool, Error>)
      requires Valid()
      modifies this
      ensures Valid()
      ensures r.Failure? <==> old(NameTaken(name))
      ensures r.Failure? ==> r.error == Conflict && unchanged(this)
      ensures r.Success? ==> && r.value.id != DefaultPoolId && r.value.id !in old(pools)
                             && r.value.name == name && r.value.maxAgents == limit
                             && r.value.projects == Some([])
                             && order == old(order) + [r.value.id]
                             && pools == old(pools)[r.value.id := PoolInfo(name, limit)]
                             && members == old(members)[r.value.id := {}]
                             && projectNames == old(projectNames)
    {
      var k := FindName(name);
      if k < |order| {
        return Failure(Conflict);
      }
      var id := nextId;
      CreateKeepsConsistent(order, pools, members, projectNames, nextId, PoolInfo(name, limit));
      nextId := nextId + 1;
      order := order + [id];
      pools := pools[id := PoolInfo(name, limit)];
      members := members[id := {}];
      r := Success(AgentPool(id, name, limit, Some([])));
    }

    /** `GetByID`: the pool with its name, limit and projects, or NotFound. */
    method GetByID(id: int) returns (r: Result<AgentPool, Error>)
      requires Valid()
      ensures r.Failure? <==> id !in pools
      ensures r.Failure? ==> r.error == NotFound
      ensures r.Success? ==> Describes(r.value, id)
    {
      if id !in pools {
        return Failure(NotFound);
      }
      var refs := ProjectList(members[id], projectNames);
      r := Success(AgentPool(id, pools[id].name, pools[id].maxAgents, Some(refs)));
    }

    /** `GetByName`: the pool carrying the name, or NotFound; "Default" is always pool 0. */
    method GetByName(name: string) returns (r: Result<AgentPool, Error>)
      requires Valid()
      ensures r.Failure? <==> !NameTaken(name)
      ensures r.Failure? ==> r.error == NotFound
      ensures r.Success? ==> Describes(r.value, r.value.id) && pools[r.value.id].name == name
      ensures name == DefaultPoolName ==> r.Success? && r.value.id == DefaultPoolId
    {
      var k := FindName(name);
      if k == |order| {
        return Failure(NotFound);
      }
      r := GetByID(order[k]);
    }

    /**
     * `Delete`: the Default pool cannot be deleted, an unknown pool is not
     * found; otherwise the pool and its assignments are gone, and no pool
     * keeps its name.
     */
    method Delete(id: int) returns (r: Outcome<Error>)
      requires Valid()
      modifies this
      ensures Valid()
      ensures r.Pass? <==> id != DefaultPoolId && id in old(pools)
      ensures id == DefaultPoolId ==> r == Fail(InvalidOperation)
      ensures id != DefaultPoolId && id !in old(pools) ==> r == Fail(NotFound)
      ensures r.Fail? ==> unchanged(this)
      ensures r.Pass? ==> && pools == old(pools) - {id}
                          && members == old(members) - {id}
                          && projectNames == old(projectNames)
      ensures r.Pass? ==> !NameTaken(old(pools)[id].name)
    {
      if id == DefaultPoolId {
        return Fail(InvalidOperation);
      }
      if id !in pools {
        return Fail(NotFound);
      }
      assert id in Elements(order);
      ghost var at :| 0 <= at < |order| && order[at] == id;
      var k := 0;
      while order[k] != id
        invariant 0 <= k <= at
        invariant forall j | 0 <= j < k :: order[j] != id
        decreases at - k
      {
        k := k + 1;
      }
      DeleteKeepsConsistent(order, pools, members, projectNames, nextId, k);
      order := order[..k] + order[k + 1..];
      pools := pools - {id};
      members := members - {id};
      r := Pass;
    }

    /** `List`: every pool once, with its name; the Default pool is always among them. */
    method List() returns (refs: seq<PoolRef>)
      requires Valid()
      ensures Ids(refs) == pools.Keys && DistinctIds(refs)
      ensures forall i | 0 <= i < |refs| :: refs[i].id in pools && refs[i].name == pools[refs[i].id].name
      ensures |refs| > 0
      ensures exists i | 0 <= i < |refs| :: refs[i] == Ref(DefaultPoolId, DefaultPoolName)
    {
      refs := Collect(order, pools, pools.Keys);
      assert DefaultPoolId in Ids(refs);
    }

    /**
     * `ListForProject`: the pools whose project set holds the project, each
     * once, with the count equal to their number; a known project is always
     * listed under Default. An unknown project is not found.
     */
    method ListForProject(projectId: string) returns (r: Result<PoolListing, Error>)
      requires Valid()
      ensures r.Failure? <==> projectId !in projectNames
      ensures r.Failure? ==> r.error == NotFound
      ensures r.Success? ==> && r.value.count == |r.value.agentPools| == |PoolsOf(members, projectId)|
                             && Ids(r.value.agentPools) == PoolsOf(members, projectId)
                             && DistinctIds(r.value.agentPools)
                             && DefaultPoolId in Ids(r.value.agentPools)
      ensures r.Success? ==> forall i | 0 <= i < |r.value.agentPools| ::
                               r.value.agentPools[i].id in pools && r.value.agentPools[i].name == pools[r.value.agentPools[i].id].name
    {
      if projectId !in projectNames {
        return Failure(NotFound);
      }
      var refs := Collect(order, pools, PoolsOf(members, projectId));
      r := Success(PoolListing(|refs|, refs));
    }

    /**
     * `AssignProject`: adds the project to the pool and changes nothing
     * else; assigning an assigned project is a successful no-op. An unknown
     * pool or project is not found.
     */
    method AssignProject(poolId: int, projectId: string) returns (r: Outcome<Error>)
      requires Valid()
      modifies this
      ensures Valid()
      ensures r.Pass? <==> poolId in old(pools) && projectId in old(projectNames)
      ensures r.Fail? ==> r.error == NotFound && unchanged(this)
      ensures r.Pass? ==> && members == Assign(old(members), poolId, projectId)
                          && order == old(order) && pools == old(pools)
                          && projectNames == old(projectNames) && nextId == old(nextId)
    {
      if poolId !in pools || projectId !in projectNames {
        return Fail(NotFound);
      }
      AssignKeepsConsistent(order, pools, members, projectNames, nextId, poolId, projectId);
      members := Assign(members, poolId, projectId);
      r := Pass;
    }

    /**
     * `UnassignProject`: removes the project from the pool and changes
     * nothing else; unassigning an unassigned project is a successful
     * no-op. An unknown pool or project is not found, and the Default pool
     * keeps every project.
     */
    method UnassignProject(poolId: int, projectId: string) returns (r: Outcome<Error>)
      requires Valid()
      modifies this
      ensures Valid()
      ensures r.Pass? <==> poolId in old(pools) && projectId in old(projectNames) && poolId != DefaultPoolId
      ensures r.Fail? ==> unchanged(this)
      ensures r.Fail? ==> r.error == if poolId == DefaultPoolId && projectId in old(projectNames) then InvalidOperation else NotFound
      ensures r.Pass? ==> && members == Unassign(old(members), poolId, projectId)
                          && order == old(order) && pools == old(pools)
                          && projectNames == old(projectNames) && nextId == old(nextId)
    {
      if poolId !in pools || projectId !in projectNames {
        return Fail(NotFound);
      }
      if poolId == DefaultPoolId {
        return Fail(InvalidOperation);
      }
      UnassignKeepsConsistent(order, pools, members, projectNames, nextId, poolId, projectId);
      members := Unassign(members, poolId, projectId);
      r := Pass;
    }

    /**
     * `validateContainsProject`: fetches the pool and scans its project
     * list; an unknown pool yields false.
     */
    method ValidateContainsProject(poolId: int, projectId: string) returns (found: bool)
      requires Valid()
      ensures found <==> poolId in members && projectId in members[poolId]
    {
      var pool := GetByID(poolId);
      if pool.Failure? {
        return false;
      }
      found := ContainsProject(pool.value, projectId);
      if projectId in members[poolId] {
        ghost var refs := pool.value.projects.value;
        ghost var i :| 0 <= i < |refs| && refs[i].id == projectId;
      }
    }
  }
}
