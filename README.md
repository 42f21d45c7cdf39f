# Bavet constraint: source-stream registry and node registration

This project models `BavetConstraint`, one declared constraint of the Bavet constraint-stream
engine of OptaPlanner. The constraint does two jobs:

- **Source-stream registry.** `from`, `fromUnfiltered` and `fromUniquePair` append source streams
  (one per call, so the same class may appear more than once) to the constraint's private `streamList`. `from` wraps the new source stream
  in an is-initialized filter when the class is a planning entity with genuine variables.
  `fromUniquePair` checks for a `@PlanningId` member before it registers anything.
- **Node registration pass.** `createNodes` walks `streamList` in order, builds each stream's node
  chain from node order 0, and registers the chain's head in a class-to-node table shared by all
  constraints with `putIfAbsent`. It throws an illegal-state error as soon as a class already maps
  to a different node. Entries registered before that point stay in the table.

Layout:

- `wrappers.dfy` (module `Wrappers`): `Option` stands for a nullable reference, `Result` for a call
  that may throw.
- `node_table.dfy` (module `NodeTable`): `PutIfAbsent`, which models `Map.putIfAbsent` on a table without null values.
  `BuildChains` gives the chain heads a pass builds. `Registered` gives the table a pass leaves,
  and `Clash` says when a stream fails. Lemmas give the closed form of all three.
- `bavet_constraint.dfy` (module `Bavet`): the class `BavetConstraint`. It keeps `streamList` as a
  `seq` field that `From`/`FromUnfiltered`/`FromUniquePair` reassign. `CreateNodes` is a `while`
  loop threading the table and the build policy. Its contract is proved against `NodeTable`.

Collaborators become values. The solution descriptor is a datatype of two functions: the
entity-descriptor lookup and weight validation (a predicate; false stands for the exception it
throws). The `@PlanningId` lookup (`ConfigUtils.findPlanningIdMemberAccessor`) is a function
parameter of `FromUniquePair`. `createNodeChain` is a `ChainBuilder` parameter of `CreateNodes`. It
maps (build policy, from-class, stream position, weight, starting node order) to (head node, new
build policy). `ConstraintMatchTotal.composeConstraintId` is a parameter of `ConstraintId`. Node
identity (`oldNode != node`, a reference comparison in Java) is equality on the node type `N`.

The missing
planning id raises an illegal-argument error (`Error.IllegalArgument`), not a configuration error.
The registration conflict raises an illegal-state error (`Error.IllegalState`). The implicit filter
applies exactly when an entity descriptor exists *and* has genuine variables.

## Model

| member | source | states |
|---|---|---|
| `Bavet.BavetConstraint.constructor` | optaplanner-core/src/main/java/org/optaplanner/core/impl/score/stream/bavet/BavetConstraint.java:47-55 | the factory, package, name and weight extractor are stored as given; the stream list starts empty |
| `Bavet.BavetConstraint.ExtractConstraintWeight` | optaplanner-core/src/main/java/org/optaplanner/core/impl/score/stream/bavet/BavetConstraint.java:57-61 | succeeds exactly when the solution descriptor accepts the extractor's weight for this constraint's package and name, and then returns exactly the extractor's output; otherwise fails with the weight error |
| `Bavet.BavetConstraint.HasGenuineVariables` | optaplanner-core/src/main/java/org/optaplanner/core/impl/score/stream/bavet/BavetConstraint.java:70-71 | the filter condition: the class has an entity descriptor and that descriptor has genuine variables |
| `Bavet.BavetConstraint.InitializedOnly` | optaplanner-core/src/main/java/org/optaplanner/core/impl/score/stream/bavet/BavetConstraint.java:70-75 | the result is the given stream or the is-initialized filter on it, and it is the filter exactly when the class has an entity descriptor with genuine variables; a class without an entity descriptor is never filtered |
| `Bavet.BavetConstraint.From` | optaplanner-core/src/main/java/org/optaplanner/core/impl/score/stream/bavet/BavetConstraint.java:68-76 | exactly one stream, for the class, is appended to the stream list; the result is that source stream, filtered on is-initialized exactly when the class has genuine variables |
| `Bavet.BavetConstraint.FromUnfiltered` | optaplanner-core/src/main/java/org/optaplanner/core/impl/score/stream/bavet/BavetConstraint.java:79-83 | the stream list becomes the old list plus the class at the end (earlier entries unchanged); the result is the source stream at the new last position |
| `Bavet.BavetConstraint.FromUniquePairWithoutJoiner` | optaplanner-core/src/main/java/org/optaplanner/core/impl/score/stream/bavet/BavetConstraint.java:85-88 | always fails with the unsupported-operation error and changes nothing |
| `Bavet.BavetConstraint.FromUniquePair` | optaplanner-core/src/main/java/org/optaplanner/core/impl/score/stream/bavet/BavetConstraint.java:90-101 | without a planning-id accessor: the illegal-argument error for the class and an unchanged stream list; with one: exactly the `From` registration, and the join of that stream with the class under the given joiner and "less than" on the planning id |
| `Bavet.BavetConstraint.CreateNodes` | optaplanner-core/src/main/java/org/optaplanner/core/impl/score/stream/bavet/BavetConstraint.java:107-118 | succeeds exactly when no stream clashes, and then leaves the `putIfAbsent` closed form over all chain heads and the policy after all chains; on failure there is a first clashing stream j: the table holds exactly the registrations of streams before j, the policy is the one after building chain j, and the error carries the registered node and chain j's head |
| `NodeTable.PutIfAbsent` | optaplanner-core/src/main/java/org/optaplanner/core/impl/score/stream/bavet/BavetConstraint.java:112 | returns the previous value exactly when the key was present; the keys grow by the key alone; no existing entry changes; an absent key gets the new value |
| `NodeTable.BuildChains` | optaplanner-core/src/main/java/org/optaplanner/core/impl/score/stream/bavet/BavetConstraint.java:109-111 | the chain heads of a pass, one per stream in list order, each built from node order 0 with the build policy the earlier chains left |
| `NodeTable.Registered` | optaplanner-core/src/main/java/org/optaplanner/core/impl/score/stream/bavet/BavetConstraint.java:109-112 | the table after registering the chain heads of the streams in list order, each with `putIfAbsent` |
| `NodeTable.Clash` | optaplanner-core/src/main/java/org/optaplanner/core/impl/score/stream/bavet/BavetConstraint.java:112-116 | stream j fails when the table as it stands when stream j is reached already maps its class to a node other than stream j's head |
| `NodeTable.BuildChainsPrefix` | optaplanner-core/src/main/java/org/optaplanner/core/impl/score/stream/bavet/BavetConstraint.java:109-111 | building the first i streams builds the first i heads of building all of them |
| `NodeTable.ChainHeadAt` | optaplanner-core/src/main/java/org/optaplanner/core/impl/score/stream/bavet/BavetConstraint.java:109-111 | streams are processed in list order: the head for position j is the chain built from node order 0 with the policy left by positions 0 to j-1 |
| `NodeTable.ChainStep` | optaplanner-core/src/main/java/org/optaplanner/core/impl/score/stream/bavet/BavetConstraint.java:109-111 | building the chain of stream i from the policy left by the earlier chains yields head i, and the resulting policy is the one after the first i+1 chains |
| `NodeTable.RegisteredKeys` | optaplanner-core/src/main/java/org/optaplanner/core/impl/score/stream/bavet/BavetConstraint.java:109-112 | after a pass every key of the original table keeps its node, every stream's from-class is a key, and no other key appears |
| `NodeTable.RegisteredFirst` | optaplanner-core/src/main/java/org/optaplanner/core/impl/score/stream/bavet/BavetConstraint.java:112 | a from-class not in the original table maps to the head built for its first stream |
| `NodeTable.RegisteredGrows` | optaplanner-core/src/main/java/org/optaplanner/core/impl/score/stream/bavet/BavetConstraint.java:112 | the pass is append-only: the table after i streams is a sub-map of the table after n streams, for i <= n |
| `NodeTable.RegisteredSnoc` | optaplanner-core/src/main/java/org/optaplanner/core/impl/score/stream/bavet/BavetConstraint.java:112 | registering one more stream is exactly one `putIfAbsent` on the table so far |
| `NodeTable.PassStep` | optaplanner-core/src/main/java/org/optaplanner/core/impl/score/stream/bavet/BavetConstraint.java:112-116 | one loop step's `putIfAbsent` yields the table after i+1 streams, and reports a different previous node exactly when stream i clashes |
| `NodeTable.ClashOrigin` | optaplanner-core/src/main/java/org/optaplanner/core/impl/score/stream/bavet/BavetConstraint.java:112-116 | stream j clashes exactly when its class was already in the table with a different node, or was absent from the table and its first earlier stream in this pass registered a different node |
| `NodeTable.SharedWhenNoClash` | optaplanner-core/src/main/java/org/optaplanner/core/impl/score/stream/bavet/BavetConstraint.java:112-116 | when no stream clashes, every stream's head is the node the final table holds for its class, so streams of one class share one node |
| `NodeTable.RegisteredConcat` | optaplanner-core/src/main/java/org/optaplanner/core/impl/score/stream/bavet/BavetConstraint.java:107-112 | threading the caller's table through two passes registers the same as one pass over both stream lists |
| `Bavet.BavetConstraint.ConstraintId` | optaplanner-core/src/main/java/org/optaplanner/core/impl/score/stream/bavet/BavetConstraint.java:136-138 | the constraint id is the composer applied to this constraint's package and name |
| `Bavet.ConstraintIdOfPackageAndName` | optaplanner-core/src/main/java/org/optaplanner/core/impl/score/stream/bavet/BavetConstraint.java:136-138 | two constraints with the same package and name have the same constraint id |

## Left out

- How `createNodeChain` builds nodes from the build policy (`BavetFromUniConstraintStream`, `BavetNodeBuildPolicy`): that code is not part of this model. The chain builder is an arbitrary function, and the policy is an opaque value threaded through the pass, not an object updated in place. The `null` parent argument is always `null` and is not modelled.
- The downstream streams the fluent API attaches to a source stream (filter and join children): a stream handle is a value (`FromStream`, `FilterStream`, `JoinStream`) that records the request. The effect of `filter` and `join` on the stream objects is not modelled.
- `FromUniquePair`: only the `from(fromClass)` registration is modelled. Any stream that `join(Class, …)` itself registers is not, because that code is not part of this model.
- Reflection and metadata lookups (`findPlanningIdMemberAccessor`, `executeGetter`, `findEntityDescriptor`, `getIsInitializedPredicate`): these are function values. The is-initialized predicate and the planning-id getter are named by tags, not evaluated.
- `ExtractConstraintWeight`: the `Score` type and the rules of `validateConstraintWeight` belong to other code. Validation is an arbitrary predicate, and a rejected weight becomes one error value instead of the validator's own exception. An exception thrown by the extractor itself is not modelled.
- `ConstraintId`: the string format of `composeConstraintId` is not part of this model, so the composer is a parameter.
- `PutIfAbsent`: the caller's table holds no null values. Java's `putIfAbsent` treats a key mapped to `null` as absent, so it would store the new node there and report no previous node; a `map<C, N>` cannot hold that mapping.
- The caller's `Map` is a value passed in and returned, not an object mutated in place. Aliasing between the caller's map and anything else is not captured.
- Java generics and unchecked casts carry no behaviour. The trivial getters (`getConstraintFactory`, `getConstraintPackage`, `getConstraintName`) are the `const` fields themselves.
- Node graph propagation, join and group indexing, and match-total accumulation do not happen in this class.
