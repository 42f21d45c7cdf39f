/** One constraint of the Bavet constraint-stream engine: the registry of its source streams and
    the pass that registers their node chains in the class-to-node table shared by all constraints. */
module Bavet {
  import opened Wrappers
  import opened NodeTable

  // ---------------------------------------------------------------------------------------------
  // Collaborators, each reduced to what this constraint asks of it
  // ---------------------------------------------------------------------------------------------

  /** The entity descriptor of a planning-entity class; only whether it has genuine planning
      variables matters here. */
  datatype EntityDescriptor = EntityDescriptor(hasAnyGenuineVariables: bool)

  /** The solution descriptor: which classes are planning entities, and the score-shape rules a
      constraint weight must pass (given package, name and weight; false means it throws). */
  datatype SolutionDescriptor<!C, !W> = SolutionDescriptor(
    findEntityDescriptor: C -> Option<EntityDescriptor>,
    acceptsConstraintWeight: (string, string, W) -> bool)

  datatype ConstraintFactory<!C, !W> = ConstraintFactory(solutionDescriptor: SolutionDescriptor<C, W>)

  /** The reflective accessor of a class's @PlanningId member. */
  datatype MemberAccessor = MemberAccessor(memberName: string)

  // ---------------------------------------------------------------------------------------------
  // Streams handed back to the caller
  // ---------------------------------------------------------------------------------------------

  /** A fact predicate a stream filters on: the entity descriptor's is-initialized predicate. */
  datatype FactPredicate<C> = IsInitialized(entityClass: C)

  /** A uni stream: the source stream registered at `position` of the stream list, or a filter
      on another uni stream. */
  datatype UniStream<C> =
    | FromStream(fromClass: C, position: nat)
    | FilterStream(parent: UniStream<C>, condition: FactPredicate<C>)

  /** A join condition: one given by the caller, or "less than" on the planning id. */
  datatype BiJoiner<J> = GivenJoiner(joiner: J) | LessThanPlanningId(planningId: MemberAccessor)

  /** A bi stream: the join of a uni stream with a class under conjunctive joiners. */
  datatype BiStream<C, J> = JoinStream(left: UniStream<C>, rightClass: C, joiners: seq<BiJoiner<J>>)

  /** The exceptions this constraint throws. */
  datatype Error<C, N> =
    | UnsupportedOperation
      /** IllegalArgumentException: the from-class has no @PlanningId member. */
    | IllegalArgument(fromClass: C)
      /** IllegalStateException: the node already registered differs from the new node. */
    | IllegalState(oldNode: N, newNode: N)
      /** The solution descriptor rejected the constraint weight. */
    | InvalidConstraintWeight(constraintPackage: string, constraintName: string)

  /** A constraint over solutions S, fact classes C, source nodes N and score weights W. */
  class BavetConstraint<S, C(==), N(==), W> {
    const constraintFactory: ConstraintFactory<C, W>
    const constraintPackage: string
    const constraintName: string
    const constraintWeightExtractor: S -> W

    /** The from-classes of the source streams, in registration order. */
    var streamList: seq<C>

    constructor (constraintFactory: ConstraintFactory<C, W>, constraintPackage: string,
                 constraintName: string, constraintWeightExtractor: S -> W)
      ensures this.constraintFactory == constraintFactory
      ensures this.constraintPackage == constraintPackage && this.constraintName == constraintName
      ensures this.constraintWeightExtractor == constraintWeightExtractor
      ensures streamList == []
    {
      this.constraintFactory := constraintFactory;
      this.constraintPackage := constraintPackage;
      this.constraintName := constraintName;
      this.constraintWeightExtractor := constraintWeightExtractor;
      streamList := [];
    }

    /** The weight the extractor computes for the working solution, once the solution descriptor
        has accepted it for this constraint's package and name. */
    function ExtractConstraintWeight(workingSolution: S): (r: Result<W, Error<C, N>>)
      ensures r.Success? <==>
              constraintFactory.solutionDescriptor.acceptsConstraintWeight(
                constraintPackage, constraintName, constraintWeightExtractor(workingSolution))
      ensures r.Success? ==> r.value == constraintWeightExtractor(workingSolution)
      ensures r.Failure? ==> r.error == InvalidConstraintWeight(constraintPackage, constraintName)
    {
      var constraintWeight := constraintWeightExtractor(workingSolution);
      if constraintFactory.solutionDescriptor.acceptsConstraintWeight(constraintPackage, constraintName, constraintWeight)
      then Success(constraintWeight)
      else Failure(InvalidConstraintWeight(constraintPackage, constraintName))
    }

    // -------------------------------------------------------------------------------------------
    // From
    // -------------------------------------------------------------------------------------------

    /** The class is a planning entity with genuine variables, so its instances may be
        uninitialized. */
    predicate HasGenuineVariables(fromClass: C)
    {
      var entityDescriptor := constraintFactory.solutionDescriptor.findEntityDescriptor(fromClass);
      entityDescriptor.Some? && entityDescriptor.value.hasAnyGenuineVariables
    }

    /** The stream `from` hands back for a freshly registered source stream: filtered on the
        is-initialized predicate exactly when the class has genuine variables, else the source
        stream itself. */
    function InitializedOnly(stream: UniStream<C>, fromClass: C): (r: UniStream<C>)
      ensures r == stream || r == FilterStream(stream, IsInitialized(fromClass))
      ensures r != stream <==> HasGenuineVariables(fromClass)
      ensures constraintFactory.solutionDescriptor.findEntityDescriptor(fromClass).None? ==> r == stream
    {
      assert stream < FilterStream(stream, IsInitialized(fromClass));
      if HasGenuineVariables(fromClass) then FilterStream(stream, IsInitialized(fromClass)) else stream
    }

    method From(fromClass: C) returns (stream: UniStream<C>)
      modifies this
      ensures streamList == old(streamList) + [fromClass]
      ensures stream == InitializedOnly(FromStream(fromClass, |old(streamList)|), fromClass)
    {
      stream := FromUnfiltered(fromClass);
      stream := InitializedOnly(stream, fromClass);
    }

    /** Registers one source stream for the class at the end of the stream list. */
    method FromUnfiltered(fromClass: C) returns (stream: UniStream<C>)
      modifies this
      ensures streamList == old(streamList) + [fromClass]
      ensures stream == FromStream(fromClass, |old(streamList)|)
    {
      stream := FromStream(fromClass, |streamList|);
      streamList := streamList + [fromClass];
    }

    /** Unique pairs without a joiner are not supported; nothing is registered. */
    method FromUniquePairWithoutJoiner<J>(fromClass: C) returns (r: Result<BiStream<C, J>, Error<C, N>>)
      ensures r == Failure(UnsupportedOperation)
    {
      r := Failure(UnsupportedOperation);
    }

    /** Unique pairs: the class's planning id must exist; then the class is registered with
        `From` and joined with itself under the given joiner and "less than" on the planning id.
        `findPlanningIdMemberAccessor` is the reflective lookup of the @PlanningId member. */
    method FromUniquePair<J>(fromClass: C, joiner: J,
                             findPlanningIdMemberAccessor: C -> Option<MemberAccessor>)
      returns (r: Result<BiStream<C, J>, Error<C, N>>)
      modifies this
      ensures findPlanningIdMemberAccessor(fromClass).None? ==>
                r == Failure(IllegalArgument(fromClass)) && streamList == old(streamList)
      ensures findPlanningIdMemberAccessor(fromClass).Some? ==>
                streamList == old(streamList) + [fromClass] &&
                r == Success(JoinStream(InitializedOnly(FromStream(fromClass, |old(streamList)|), fromClass),
                                        fromClass,
                                        [GivenJoiner(joiner),
                                         LessThanPlanningId(findPlanningIdMemberAccessor(fromClass).value)]))
    {
      var planningIdMemberAccessor := findPlanningIdMemberAccessor(fromClass);
      if planningIdMemberAccessor.None? {
        return Failure(IllegalArgument(fromClass));
      }
      var left := From(fromClass);
      r := Success(JoinStream(left, fromClass, [GivenJoiner(joiner), LessThanPlanningId(planningIdMemberAccessor.value)]));
    }

    // -------------------------------------------------------------------------------------------
    // Node creation
    // -------------------------------------------------------------------------------------------

    /** The heads of the chains for all of this constraint's streams, built in order. */
    ghost function ChainHeads<P>(build: ChainBuilder<P, C, W, N>, buildPolicy: P, constraintWeight: W): (h: seq<N>)
      reads this
      ensures |h| == |streamList|
    {
      BuildChains(build, buildPolicy, streamList, constraintWeight).heads
    }

    /** Builds the chain of every stream, in list order and from node order 0, and registers each
        head in the shared class-to-node table with `putIfAbsent`. Fails at the first stream whose
        class already maps to a different node; what was registered before it stays registered.
        `build` stands for the streams' `createNodeChain`. */
    method CreateNodes<P>(build: ChainBuilder<P, C, W, N>, buildPolicy: P,
                          declaredClassToNodeMap: map<C, N>, constraintWeight: W)
      returns (declared: map<C, N>, policy: P, failure: Option<Error<C, N>>)
      ensures var heads := ChainHeads(build, buildPolicy, constraintWeight);
              failure.None? <==>
                forall j :: 0 <= j < |streamList| ==> !Clash(declaredClassToNodeMap, streamList, heads, j)
      ensures failure.None? ==>
                declared == Registered(declaredClassToNodeMap, streamList,
                                       ChainHeads(build, buildPolicy, constraintWeight)) &&
                policy == BuildChains(build, buildPolicy, streamList, constraintWeight).policy
      ensures var heads := ChainHeads(build, buildPolicy, constraintWeight);
              failure.Some? ==>
                exists j :: 0 <= j < |streamList| &&
                  Clash(declaredClassToNodeMap, streamList, heads, j) &&
                  (forall k :: 0 <= k < j ==> !Clash(declaredClassToNodeMap, streamList, heads, k)) &&
                  declared == Registered(declaredClassToNodeMap, streamList[..j], heads[..j]) &&
                  policy == BuildChains(build, buildPolicy, streamList[..j + 1], constraintWeight).policy &&
                  failure == Some(IllegalState(declared[streamList[j]], heads[j]))
    {
      ghost var heads := ChainHeads(build, buildPolicy, constraintWeight);
      declared, policy := declaredClassToNodeMap, buildPolicy;
      var i := 0;
      while i < |streamList|
        invariant 0 <= i <= |streamList|
        invariant policy == BuildChains(build, buildPolicy, streamList[..i], constraintWeight).policy
        invariant declared == Registered(declaredClassToNodeMap, streamList[..i], heads[..i])
        invariant forall j :: 0 <= j < i ==> !Clash(declaredClassToNodeMap, streamList, heads, j)
      {
        var nodeOrder := StartNodeOrder;
        var node := build(policy, streamList[i], i, constraintWeight, nodeOrder);
        ChainStep(build, buildPolicy, streamList, constraintWeight, i);
        var put := PutIfAbsent(declared, streamList[i], node.head);
        PassStep(declaredClassToNodeMap, streamList, heads, i, declared);
        policy := node.policy;
        if put.previous.Some? && put.previous.value != node.head {
          assert node.head == heads[i];
          assert Clash(declaredClassToNodeMap, streamList, heads, i);
          failure := Some(IllegalState(put.previous.value, node.head));
          assert heads == ChainHeads(build, buildPolicy, constraintWeight);
          assert !(forall j :: 0 <= j < |streamList| ==> !Clash(declaredClassToNodeMap, streamList, heads, j));
          return;
        }
        declared := put.table;
        i := i + 1;
      }
      assert streamList[..i] == streamList && heads[..i] == heads;
      failure := None;
    }

    // -------------------------------------------------------------------------------------------
    // Getters
    // -------------------------------------------------------------------------------------------

    /** The constraint id composed from package and name; `composeConstraintId` stands for
        `ConstraintMatchTotal.composeConstraintId`. */
    function ConstraintId(composeConstraintId: (string, string) -> string): string
    {
      composeConstraintId(constraintPackage, constraintName)
    }
  }

  /** The constraint id depends on the package and name alone. */
  lemma ConstraintIdOfPackageAndName<S, C, N, W, S', N', W'>(a: BavetConstraint<S, C, N, W>,
                                                           b: BavetConstraint<S', C, N', W'>,
                                                           composeConstraintId: (string, string) -> string)
    requires a.constraintPackage == b.constraintPackage && a.constraintName == b.constraintName
    ensures a.ConstraintId(composeConstraintId) == b.ConstraintId(composeConstraintId)
  {
  }
}
