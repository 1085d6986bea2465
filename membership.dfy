/**
 * The agent-pool / project relation as a value: each pool id maps to the set
 * of project ids assigned to it. Pool 0 is the permanent Default pool.
 * Assigning and unassigning add or remove a single (pool, project) pair and
 * touch nothing else; a project's pools are the pools whose sets hold it.
 */
module Membership {

  const DefaultPoolId: int := 0
  const DefaultPoolName: string := "Default"

  type Relation = map<int, set<string>>

  /** The pools a project is listed under (`ListForProject`). */
  function PoolsOf(m: Relation, project: string): set<int> {
    set p | p in m && project in m[p]
  }

  /** The relation after `AssignProject(pool, project)`. */
  function Assign(m: Relation, pool: int, project: string): (r: Relation)
    requires pool in m
    ensures r.Keys == m.Keys
    ensures project in r[pool]
    ensures r[pool] - {project} == m[pool] - {project}
    ensures forall q | q in m && q != pool :: r[q] == m[q]
  {
    m[pool := m[pool] + {project}]
  }

  /** The relation after `UnassignProject(pool, project)`. */
  function Unassign(m: Relation, pool: int, project: string): (r: Relation)
    requires pool in m
    ensures r.Keys == m.Keys
    ensures project !in r[pool]
    ensures r[pool] + {project} == m[pool] + {project}
    ensures forall q | q in m && q != pool :: r[q] == m[q]
  {
    m[pool := m[pool] - {project}]
  }

  /** Membership is additive: assigning adds exactly this pool to the project's pools. */
  lemma AssignAddsPool(m: Relation, pool: int, project: string)
    requires pool in m
    ensures PoolsOf(Assign(m, pool, project), project) == PoolsOf(m, project) + {pool}
  {
  }

  /** Unassigning removes exactly this pool from the project's pools. */
  lemma UnassignRemovesPool(m: Relation, pool: int, project: string)
    requires pool in m
    ensures PoolsOf(Unassign(m, pool, project), project) == PoolsOf(m, project) - {pool}
  {
  }

  /** Assigning or unassigning one project leaves every other project's pools as they were. */
  lemma OtherProjectsUnchanged(m: Relation, pool: int, project: string, other: string)
    requires pool in m && other != project
    ensures PoolsOf(Assign(m, pool, project), other) == PoolsOf(m, other)
    ensures PoolsOf(Unassign(m, pool, project), other) == PoolsOf(m, other)
    ensures other in Assign(m, pool, project)[pool] <==> other in m[pool]
    ensures other in Unassign(m, pool, project)[pool] <==> other in m[pool]
  {
  }

  /** Assigning twice is the same as assigning once. */
  lemma AssignIdempotent(m: Relation, pool: int, project: string)
    requires pool in m
    ensures Assign(Assign(m, pool, project), pool, project) == Assign(m, pool, project)
  {
  }

  /** Unassigning undoes an assignment of a project that was not yet in the pool. */
  lemma UnassignUndoesAssign(m: Relation, pool: int, project: string)
    requires pool in m && project !in m[pool]
    ensures Unassign(Assign(m, pool, project), pool, project) == m
  {
    assert Assign(m, pool, project)[pool] - {project} == m[pool];
  }

  /** Re-assigning after an unassign restores the relation of a project that was in the pool. */
  lemma AssignRestoresUnassign(m: Relation, pool: int, project: string)
    requires pool in m && project in m[pool]
    ensures Assign(Unassign(m, pool, project), pool, project) == m
  {
    assert Unassign(m, pool, project)[pool] + {project} == m[pool];
  }
}
