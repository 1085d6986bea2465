# TeamCity client core: typed parameters and agent-pool membership

This project models two parts of a Go client for the TeamCity continuous-integration server.

**Typed parameter codec and collection.** A build parameter is a triple (kind, name, value). The kind is a configuration parameter, a system property or an environment variable. The server stores a parameter as one flat property. Its name carries the kind as a prefix: none for a configuration parameter, `system.` for a system property, `env.` for an environment variable. Reading a property back strips the prefix and recovers the kind. This is only a best-effort inverse: a configuration parameter whose own name starts with `system.` or `env.` reads back as the other kind. A parameter collection starts empty. `AddOrReplaceValue` changes it in place: an entry that already carries the same stored name is replaced where it stands, and any other property is appended. The collection serialises as a count plus the property list in insertion order.

**Agent-pool / project membership.** The server keeps a set of project ids for each agent pool. Pool 0 is the permanent "Default" pool. It has no agent limit and holds every known project. `Create` hands out fresh non-zero ids. `Delete` removes a pool and its assignments, but never the Default pool. `AssignProject` and `UnassignProject` add or remove one (pool, project) pair and touch nothing else. `ListForProject` returns the pools whose set holds the project. The test helper `validateContainsProject` scans a retrieved pool's project list, which may be absent.

Files:
- `wrappers.dfy`: `Option`, `Result` and `Outcome`, and the error kinds `InvalidArgument`, `NotFound`, `Conflict` and `InvalidOperation`.
- `parameter.dfy`: the pure codec (module `Parameters`).
- `parameter_collection.dfy`: the replace-or-append specification and the `ParameterCollection` class (module `ParameterCollections`).
- `membership.dfy`: the pool-to-projects relation as a value, with its lemmas (module `Membership`).
- `agent_pool.dfy`: the `Server` class, the pool views it returns, and the `validateContainsProject` scan (module `AgentPools`).
- `agent_pool_scenarios.dfy`: the agent-pool test scenarios, replayed against the server's contracts (module `AgentPoolScenarios`).

## Model

| member | source | states |
|---|---|---|
| `Parameters.Prefix` | teamcity/parameter_test.go:13-19 | only a configuration parameter has an empty prefix |
| `Parameters.NewParameter` | teamcity/parameter_test.go:15 | succeeds exactly when the name is non-empty and then carries the given kind, name and value; otherwise fails with InvalidArgument |
| `Parameters.ToProperty` | teamcity/parameter_test.go:78-97 | the stored name starts with the kind's prefix, the rest of it is the parameter's name, and the value is passed through |
| `Parameters.Decode` | teamcity/parameter_test.go:20-27 | storing the decoded parameter again gives back exactly the property that was read; the result is a configuration parameter iff the name carries neither prefix, and a system property whenever it carries `system.` |
| `Parameters.DecodeEncode` | teamcity/parameter_test.go:13-64 | decoding a stored parameter yields the same parameter if and only if it is unambiguous (not a configuration parameter whose name starts with `system.` or `env.`) |
| `Parameters.EncodeInjective` | teamcity/parameter_test.go:38-45 | two unambiguous parameters with the same stored form are equal |
| `Parameters.ConfigurationNamedLikeSystem` | teamcity/parameter_test.go:38-45 | a configuration parameter named `system.<n>` has the same stored form as system property `<n>` and reads back as that system property |
| `Parameters.ConfigurationSerialization` | teamcity/parameter_test.go:13-28 | `NewParameter` builds ("param1", "value1") as a configuration parameter, which is stored as ("param1", "value1") and reads back with kind Configuration |
| `Parameters.SystemSerialization` | teamcity/parameter_test.go:30-46 | `NewParameter` builds the system property ("param1", "value1"), which is stored as ("system.param1", "value1") and reads back as itself |
| `Parameters.EnvironmentVariableSerialization` | teamcity/parameter_test.go:48-64 | `NewParameter` builds the environment variable ("param1", "value1"), which is stored as ("env.param1", "value1") and reads back as itself |
| `Parameters.ConvertToProperty` | teamcity/parameter_test.go:78-97 | for parameters built by `NewParameter`, `Property()` gives "name", "system.name" and "env.name" for the three kinds, each with its value unchanged |
| `ParameterCollections.IndexOf` | teamcity/parameter_test.go:69-71 | the position of the first entry with the stored name, or the length when there is none |
| `ParameterCollections.Upsert` | teamcity/parameter_test.go:69-71 | appends when the name is new; otherwise keeps the length, replaces the entry carrying the name and keeps every other entry in place; preserves unique names |
| `ParameterCollections.UpsertSameNameTwice` | teamcity/parameter_test.go:69-71 | a second add with the same stored name lands where the first did: same length, same position |
| `ParameterCollections.Deserialize` | teamcity/parameter_test.go:20-27 | one parameter per property, each storing back to its property; its kind is System for a `system.` name, otherwise EnvironmentVariable for an `env.` name, otherwise Configuration |
| `ParameterCollections.ParameterCollection.Empty` | teamcity/parameter_test.go:67 | a new collection is empty and valid |
| `ParameterCollections.ParameterCollection.AddOrReplaceValue` | teamcity/parameter_test.go:69-71 | the new list is the replace-or-append of the stored property, the count stays equal to the length, names stay unique; an empty name changes nothing |
| `ParameterCollections.ParameterCollection.Serialize` | teamcity/parameter_test.go:73-75 | the wire count equals the length of the property list, which is the collection in insertion order |
| `ParameterCollections.CollectionSerialization` | teamcity/parameter_test.go:66-76 | three adds of distinct names give count 3 and the properties config, system.system, env.env in insertion order |
| `Membership.Assign` | teamcity/agent_pool_test.go:116 | the pool gains the project, loses nothing else, and every other pool is unchanged |
| `Membership.Unassign` | teamcity/agent_pool_test.go:124 | the pool loses the project, gains nothing, and every other pool is unchanged |
| `Membership.AssignAddsPool` | teamcity/agent_pool_test.go:116-121 | after assigning, the project's pools are its former pools plus this one (membership is additive) |
| `Membership.UnassignRemovesPool` | teamcity/agent_pool_test.go:124-131 | after unassigning, the project's pools are its former pools minus this one |
| `Membership.OtherProjectsUnchanged` | teamcity/agent_pool_test.go:163-174 | assigning or unassigning one project leaves every other project's pools, and its membership of this pool, as they were |
| `Membership.AssignIdempotent` | teamcity/agent_pool_test.go:116-121 | assigning twice equals assigning once |
| `Membership.UnassignUndoesAssign` | teamcity/agent_pool_test.go:116-131 | unassigning a project just assigned to a pool it was not in restores the relation |
| `Membership.AssignRestoresUnassign` | teamcity/agent_pool_test.go:171-179 | re-assigning a project just unassigned from a pool it was in restores the relation |
| `AgentPools.DistinctIdsCount` | teamcity/agent_pool_test.go:110-121 | a listing without repeated ids has as many entries as ids, so a pool listing's count is the number of pools it names |
| `AgentPools.ContainsProject` | teamcity/agent_pool_test.go:196-206 | false when the project list is absent, otherwise true iff some listed project has the id |
| `AgentPools.Collect` | teamcity/agent_pool_test.go:72-86 | the listing of a set of pools holds each of them exactly once, with its name, and has as many entries as pools |
| `AgentPools.CreateKeepsConsistent` | teamcity/agent_pool_test.go:43-49 | adding a pool under a fresh non-zero id and an unused name keeps the server invariant |
| `AgentPools.DeleteKeepsConsistent` | teamcity/agent_pool_test.go:75-76 | deleting any pool other than Default keeps the server invariant (Default present, unlimited, holding every project; names unique) and leaves no other pool with the deleted name |
| `AgentPools.RegisterKeepsConsistent` | teamcity/agent_pool_test.go:93-95 | a new project joins Default and no other pool, and the server invariant is kept |
| `AgentPools.AssignKeepsConsistent` | teamcity/agent_pool_test.go:116 | assigning a known project to an existing pool keeps the server invariant |
| `AgentPools.UnassignKeepsConsistent` | teamcity/agent_pool_test.go:124 | unassigning from any pool but Default keeps the server invariant, so every project stays in Default |
| `AgentPools.Server.constructor` | teamcity/agent_pool_test.go:16-22 | a server starts with pool 0 named "Default", without agent limit, holding the given projects |
| `AgentPools.Server.RegisterProject` | teamcity/agent_pool_test.go:93-95 | a new project joins Default and no other pool; its pools are exactly {0} |
| `AgentPools.Server.Create` | teamcity/agent_pool_test.go:43-49 | a fresh non-zero id with the requested name and limit and no projects; a name already in use is a Conflict and changes nothing |
| `AgentPools.Server.GetByID` | teamcity/agent_pool_test.go:51-54 | NotFound iff no such pool; otherwise the pool's id, name, limit and exactly its projects, each once |
| `AgentPools.Server.GetByName` | teamcity/agent_pool_test.go:32-36 | NotFound iff no pool has the name; otherwise the pool carrying it; "Default" always yields pool 0 |
| `AgentPools.Server.Delete` | teamcity/agent_pool_test.go:56-65 | Default cannot be deleted (InvalidOperation), an unknown id is NotFound, otherwise the pool and its assignments go and no pool keeps its name |
| `AgentPools.Server.List` | teamcity/agent_pool_test.go:72-86 | every pool exactly once with its name; non-empty and always containing (0, "Default") |
| `AgentPools.Server.ListForProject` | teamcity/agent_pool_test.go:110-113 | exactly the pools holding the project, each once, with count equal to their number; Default is always among them; an unknown project is NotFound |
| `AgentPools.Server.AssignProject` | teamcity/agent_pool_test.go:116 | the relation becomes `Assign` of the old one and nothing else changes; an unknown pool or project is NotFound |
| `AgentPools.Server.UnassignProject` | teamcity/agent_pool_test.go:124 | the relation becomes `Unassign` of the old one and nothing else changes; Default keeps its projects (InvalidOperation); an unknown pool or project is NotFound |
| `AgentPools.Server.ValidateContainsProject` | teamcity/agent_pool_test.go:192-207 | true iff the pool exists and its project set holds the project |
| `AgentPoolScenarios.DefaultPoolLookup` | teamcity/agent_pool_test.go:12-37 | by id 0 and by name "Default", the pool is id 0, named "Default", without agent limit |
| `AgentPoolScenarios.Lifecycle` | teamcity/agent_pool_test.go:39-66 | with an unused name: create succeeds, the read gives the name and no limit, delete succeeds, and afterwards no listed pool has the name |
| `AgentPoolScenarios.ListedUnderDefaultOnly` | teamcity/agent_pool_test.go:110-113 | a project in Default alone is listed under exactly one pool, (0, "Default") |
| `AgentPoolScenarios.ListForProject` | teamcity/agent_pool_test.go:89-135 | registering a new project and creating a pool under an unused name succeed; the project is listed under Default only, then under two pools once assigned, then under Default only once unassigned; the final delete succeeds |
| `AgentPoolScenarios.AssignThenUnassign` | teamcity/agent_pool_test.go:115-131 | assign: the pool holds the project and the count is 2; unassign: it does not and the project is back under Default only |
| `AgentPoolScenarios.ProjectAssignment` | teamcity/agent_pool_test.go:137-190 | registering two new projects and creating the pool succeed; every assign and unassign succeeds and changes only its own project's membership, and re-assigning restores it |

## Left out

- HTTP transport, authentication, `setup()`/`initTest()` and the client plumbing: the server's state is a Dafny object and each endpoint is a method on it.
- JSON text: a property is a (name, value) pair, a collection's wire form is a count plus a sequence of pairs, and a pool listing is a count plus a sequence of (id, name) pairs.
- Time-stamped pool and project names: the scenarios take the names as parameters.
- The fixture's three projects in Default (teamcity/agent_pool_test.go:23-25): they come from a data archive, so the constructor takes the initial projects as a parameter.
- Project creation and deletion: `RegisterProject` models only "a new project enters the server as a member of Default". Deleting a project is not modelled, so the scenarios end without it.
- tests/server_test.go is not part of this model: it only reads server metadata.
- Concurrency, retries and server-assigned id schemes: ids come from a counter above every id handed out so far.
- `Parameters.Decode`: a stored name that is exactly `system.` or `env.` decodes to a parameter with an empty name. The model does not reject it, because nothing shown validates decoded names.
- `ParameterCollections.ParameterCollection.AddOrReplaceValue`: the shown calls use no result of `AddOrReplaceValue` and never pass an empty name, so what the Go method does with an empty name is not shown. The model returns `ok = false` for an empty name and leaves the collection unchanged.
- `AgentPools.Server.ValidateContainsProject`: when the pool is missing, the Go helper records a failed assertion and then dereferences the missing pool. The model returns false.
- `AgentPools.Server.UnassignProject`: unassigning a project from the Default pool is refused with InvalidOperation. This keeps "every project belongs to Default", which the behaviour shown relies on. The real server's behaviour here is not shown.
- `AgentPools.Server.ListForProject`: an unknown project id is reported as NotFound. The shown code never asks for one.
- `AgentPools.Server.List`: pools come back in creation order. The server promises no order, and the contract does not state one.
