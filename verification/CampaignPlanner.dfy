/** The dynamic update planner (tcu/dynamic_update_planner.py) with the dependency policies of the vehicle. */
module CampaignPlanner {
  import opened Base
  import opened DependencyGraphs
  import opened TopologicalPlanner
  import CycleCheck

  datatype Policy = Policy(dependencies: seq<Name>, critical: bool, abortIfUnavailable: bool,
                           abortIfDependencyFailed: bool) {
    predicate UnavailableAborts() { critical || abortIfUnavailable }

    predicate DependencyFailureAborts() { critical || abortIfDependencyFailed }
  }

  type Topology = map<Name, Policy>

  function PolicyFor(topology: Topology, n: Name): Policy {
    if n in topology then topology[n] else Policy([], false, false, false)
  }

  datatype Target = Target(name: Name, priority: int, mandatory: bool, skipIfUnavailable: bool,
                           skipIfIncompatible: bool)

  datatype Campaign = Campaign(targets: map<Name, Target>, skippedOptional: set<Name>, overrides: map<Name, seq<Name>>)

  /** The live vehicle: who answered, and who already runs the version the campaign wants. */
  datatype Vehicle = Vehicle(discovered: set<Name>, upToDate: set<Name>)

  datatype BlockReason = DependencySkipped | DependencyUnavailable

  datatype Classification = Eligible | AlreadySatisfied | SkippedOptional | AbortRequired | Blocked(reason: BlockReason)

  datatype PlanningError =
    | NotDiscovered(ecu: Name)
    | NotEligible(ecu: Name)
    | UnknownDependency(ecu: Name, dependency: Name)
    | DependencyCycle
    | BlockingDependencies(ecu: Name, missing: set<Name>)

  type DependencyMap = map<Name, set<Name>>

  function DependenciesOf(deps: DependencyMap, n: Name): set<Name> {
    if n in deps then deps[n] else {}
  }

  datatype UpdatePlan = UpdatePlan(
    updateOrder: seq<Name>, dependencyMap: DependencyMap, classifications: map<Name, Classification>,
    blockingErrors: seq<PlanningError>)

  // ----- classification

  function Classify(topology: Topology, vehicle: Vehicle, campaign: Campaign, eligible: set<Name>, t: Target)
    : Classification
  {
    var policy := PolicyFor(topology, t.name);
    if t.name in eligible then Eligible
    else if t.name in campaign.skippedOptional then SkippedOptional
    else if t.name !in vehicle.discovered then
      if t.mandatory && !t.skipIfUnavailable && policy.UnavailableAborts() then AbortRequired else SkippedOptional
    else if t.name in vehicle.upToDate then AlreadySatisfied
    else if (t.mandatory || policy.UnavailableAborts()) && !t.skipIfIncompatible then AbortRequired
    else SkippedOptional
  }

  /** The policy of a known ECU says that the campaign stops if the ECU cannot be updated. */
  predicate StopsIfUnavailable(topology: Topology, n: Name) {
    n in topology && (topology[n].critical || topology[n].abortIfUnavailable)
  }

  /** The policy of a known ECU says that the campaign stops if a dependency of it does not run. */
  predicate StopsOnDependency(topology: Topology, n: Name) {
    n in topology && (topology[n].critical || topology[n].abortIfDependencyFailed)
  }

  /** A target that is neither updated nor excused. */
  predicate LeftOver(campaign: Campaign, eligible: set<Name>, n: Name) {
    n in campaign.targets && n !in eligible && n !in campaign.skippedOptional
  }

  /** A target that answered and already runs the version that the campaign wants. */
  predicate InPlace(vehicle: Vehicle, campaign: Campaign, eligible: set<Name>, n: Name) {
    LeftOver(campaign, eligible, n) && n in vehicle.discovered && n in vehicle.upToDate
  }

  /** A target whose absence, or whose unsuitable version, stops the campaign. */
  predicate Demanded(topology: Topology, vehicle: Vehicle, campaign: Campaign, eligible: set<Name>, n: Name) {
    && LeftOver(campaign, eligible, n)
    && var t := campaign.targets[n];
       if n !in vehicle.discovered then t.mandatory && StopsIfUnavailable(topology, n) && !t.skipIfUnavailable
       else n !in vehicle.upToDate && (t.mandatory || StopsIfUnavailable(topology, n)) && !t.skipIfIncompatible
  }

  /** What the classification of a target means. */
  lemma ClassificationMeans(topology: Topology, vehicle: Vehicle, campaign: Campaign, eligible: set<Name>, n: Name)
    requires n in campaign.targets && campaign.targets[n].name == n
    ensures var c := Classify(topology, vehicle, campaign, eligible, campaign.targets[n]);
      && (c == Eligible <==> n in eligible)
      && (c == AlreadySatisfied <==> InPlace(vehicle, campaign, eligible, n))
      && (c == AbortRequired <==> Demanded(topology, vehicle, campaign, eligible, n))
      && !c.Blocked?
  {
  }

  /** The error reported for a target that demands an abort. */
  function DemandError(vehicle: Vehicle, n: Name): PlanningError {
    if n in vehicle.discovered then NotEligible(n) else NotDiscovered(n)
  }

  method ClassifyTargets(topology: Topology, vehicle: Vehicle, campaign: Campaign, eligible: set<Name>)
    returns (classes: map<Name, Classification>, errors: seq<PlanningError>)
    ensures classes == Classes(topology, vehicle, campaign, eligible)
    ensures forall e :: e in errors <==>
      exists n :: n in classes && classes[n].AbortRequired? && e == DemandError(vehicle, n)
  {
    classes, errors := map[], [];
    var rest := campaign.targets.Keys;
    while rest != {}
      invariant rest <= campaign.targets.Keys
      invariant classes == map n | n in campaign.targets && n !in rest ::
                  Classify(topology, vehicle, campaign, eligible, campaign.targets[n])
      invariant forall e :: e in errors <==>
        exists n :: n in classes && classes[n].AbortRequired? && e == DemandError(vehicle, n)
      decreases rest
    {
      var n :| n in rest;
      var c := Classify(topology, vehicle, campaign, eligible, campaign.targets[n]);
      ghost var before := classes;
      classes := classes[n := c];
      assert forall m | m in before :: classes[m] == before[m];
      if c == AbortRequired {
        errors := errors + [if n in vehicle.discovered then NotEligible(n) else NotDiscovered(n)];
        assert classes[n].AbortRequired?;
      }
      rest := rest - {n};
    }
  }

  // ----- dependency resolution

  function ResolveOne(topology: Topology, campaign: Campaign, n: Name): set<Name> {
    var listed := if n in campaign.overrides then campaign.overrides[n] else PolicyFor(topology, n).dependencies;
    set d | d in listed
  }

  function Resolved(topology: Topology, campaign: Campaign): DependencyMap {
    map n | n in campaign.targets :: ResolveOne(topology, campaign, n)
  }

  /** `n` must wait for `d`: the campaign's list for a target replaces the one of the vehicle's policy. */
  predicate Requires(topology: Topology, campaign: Campaign, n: Name, d: Name) {
    && n in campaign.targets
    && if n in campaign.overrides then d in campaign.overrides[n]
       else n in topology && d in topology[n].dependencies
  }

  lemma ResolvedMeansRequires(topology: Topology, campaign: Campaign)
    ensures Resolved(topology, campaign).Keys == campaign.targets.Keys
    ensures forall n, d :: d in DependenciesOf(Resolved(topology, campaign), n) <==> Requires(topology, campaign, n, d)
  {
  }

  /** The dependencies among `within`, as "must come before". */
  function EdgesWithin(deps: DependencyMap, within: set<Name>): Relation {
    set n, d | n in within && n in deps && d in deps[n] && d in within :: (d, n)
  }

  method AddNodes(graph: DependencyGraph, names: set<Name>)
    requires graph.State().Valid()
    modifies graph
    ensures graph.State() == old(graph.State()).(nodes := old(graph.nodes) + names) && graph.State().Valid()
  {
    var rest := names;
    while rest != {}
      invariant graph.State().Valid() && rest <= names
      invariant graph.State() == old(graph.State()).(nodes := old(graph.nodes) + (names - rest))
      decreases rest
    {
      var n :| n in rest;
      graph.AddNode(n);
      rest := rest - {n};
    }
  }

  /** An edge to `n` from each of `parents`. */
  method AddDependencies(graph: DependencyGraph, n: Name, parents: set<Name>)
    requires graph.State().Valid() && parents + {n} <= graph.nodes
    modifies graph
    ensures graph.State().Valid() && graph.nodes == old(graph.nodes)
    ensures graph.State().Edges() == old(graph.State().Edges()) + set d | d in parents :: (d, n)
  {
    var rest := parents;
    while rest != {}
      invariant graph.State().Valid() && graph.nodes == old(graph.nodes) && rest <= parents
      invariant graph.State().Edges() == old(graph.State().Edges()) + set d | d in parents - rest :: (d, n)
      decreases rest
    {
      var d :| d in rest;
      graph.AddDependency(d, n);
      rest := rest - {d};
    }
  }

  /** The graph of the dependencies among `names`. */
  method BuildGraph(deps: DependencyMap, names: set<Name>) returns (graph: DependencyGraph)
    ensures fresh(graph) && graph.State().Valid()
    ensures graph.nodes == names && graph.State().Edges() == EdgesWithin(deps, names)
  {
    graph := new DependencyGraph();
    AddNodes(graph, names);
    var rest := names;
    while rest != {}
      invariant fresh(graph) && graph.State().Valid() && rest <= names && graph.nodes == names
      invariant graph.State().Edges() == set e | e in EdgesWithin(deps, names) && e.1 !in rest
      decreases rest
    {
      var n :| n in rest;
      AddDependencies(graph, n, DependenciesOf(deps, n) * names);
      rest := rest - {n};
    }
  }

  /** `_validate_cycle`: accepts exactly the dependency maps without a cycle among their own keys. */
  method ValidateCycle(deps: DependencyMap) returns (r: Result<(), PlanError>)
    ensures r.Ok? <==> !Cyclic(EdgesWithin(deps, deps.Keys))
  {
    var graph := BuildGraph(deps, deps.Keys);
    var plan := TopologicalPlanner.Plan(graph, map[]);
    return if plan.Ok? then Ok(()) else Err(CycleDetected);
  }

  /** A target depends on something that is neither an ECU of the vehicle nor a target. */
  predicate UnknownAt(topology: Topology, campaign: Campaign, n: Name, d: Name) {
    Requires(topology, campaign, n, d) && d !in topology && d !in campaign.targets
  }

  ghost predicate AllKnown(topology: Topology, campaign: Campaign) {
    !exists n, d :: UnknownAt(topology, campaign, n, d)
  }

  /** All targets' dependencies form a cycle. */
  ghost predicate CyclicTargets(topology: Topology, campaign: Campaign) {
    Cyclic(EdgesWithin(Resolved(topology, campaign), campaign.targets.Keys))
  }

  /** The dependency map, an error for each unknown dependency, and if there is none, one for a cycle. */
  method ResolveDependencies(topology: Topology, campaign: Campaign)
    returns (deps: DependencyMap, errors: seq<PlanningError>)
    ensures deps == Resolved(topology, campaign)
    ensures forall e | e in errors :: e.UnknownDependency? || e.DependencyCycle?
    ensures forall n, d :: UnknownDependency(n, d) in errors <==> UnknownAt(topology, campaign, n, d)
    ensures DependencyCycle in errors <==> AllKnown(topology, campaign) && CyclicTargets(topology, campaign)
  {
    deps, errors := Resolved(topology, campaign), [];
    ResolvedMeansRequires(topology, campaign);
    var unknown := set n, d | n in deps && d in deps[n] && d !in topology && d !in campaign.targets :: (n, d);
    var rest := unknown;
    assert forall n, d :: (n, d) in unknown <==> UnknownAt(topology, campaign, n, d) by {
      forall n, d ensures (n, d) in unknown <==> UnknownAt(topology, campaign, n, d) {
        assert d in DependenciesOf(deps, n) <==> Requires(topology, campaign, n, d);
      }
    }
    while rest != {}
      invariant rest <= unknown
      invariant forall e | e in errors :: e.UnknownDependency?
      invariant forall n, d :: UnknownDependency(n, d) in errors <==> (n, d) in unknown - rest
      decreases rest
    {
      var x :| x in rest;
      errors := errors + [UnknownDependency(x.0, x.1)];
      rest := rest - {x};
    }
    if errors == [] {
      assert AllKnown(topology, campaign) by {
        forall n, d ensures !UnknownAt(topology, campaign, n, d) {
          assert (n, d) in unknown <==> UnknownDependency(n, d) in errors;
        }
      }
      var r := ValidateCycle(deps);
      if r.Err? {
        errors := errors + [DependencyCycle];
      }
    } else {
      assert errors[0] in errors && UnknownAt(topology, campaign, errors[0].ecu, errors[0].dependency);
    }
  }

  // ----- the two cycle checks

  function AsSets(d: CycleCheck.Dependencies): DependencyMap {
    map n | n in d :: set x | x in d[n]
  }

  /**
   The recursive check of the topology and Kahn's check of the planner look at the same cycles: dependencies
   on ECUs that have no entry of their own, which only the recursive check follows, never close one.
   */
  lemma CycleChecksAgree(d: CycleCheck.Dependencies)
    ensures Cyclic(CycleCheck.Requirements(d)) <==> Cyclic(EdgesWithin(AsSets(d), d.Keys))
  {
    var all, known := CycleCheck.Requirements(d), EdgesWithin(AsSets(d), d.Keys);
    assert known <= all;
    if Cyclic(known) {
      FewerEdges(known, all);
    }
    if Cyclic(all) {
      var p :| IsCycle(all, p);
      forall i | 0 <= i < |p| - 1 ensures (p[i], p[i + 1]) in known {
        assert (p[i], p[i + 1]) in all;
        if i == 0 {
          assert (p[|p| - 2], p[|p| - 1]) in all;
        } else {
          assert (p[i - 1], p[i]) in all;
        }
      }
      assert IsCycle(known, p);
    }
  }

  lemma FewerEdges(a: Relation, b: Relation)
    requires a <= b && Cyclic(a)
    ensures Cyclic(b)
  {
    var p :| IsCycle(a, p);
    forall i | 0 <= i < |p| - 1 ensures (p[i], p[i + 1]) in b { assert (p[i], p[i + 1]) in a; }
    assert IsCycle(b, p);
  }

  // ----- pruning

  /** Every dependency of a member is a member or already satisfied. */
  ghost predicate Supported(deps: DependencyMap, satisfied: set<Name>, s: set<Name>) {
    forall n | n in s :: DependenciesOf(deps, n) <= s + satisfied
  }

  ghost predicate IsGreatestSupported(deps: DependencyMap, satisfied: set<Name>, eligible: set<Name>, s: set<Name>) {
    && s <= eligible && Supported(deps, satisfied, s)
    && forall t | t <= eligible && Supported(deps, satisfied, t) :: t <= s
  }

  /** One step of pruning: it only drops ECUs that are blocked. */
  ghost predicate PruningStep(deps: DependencyMap, satisfied: set<Name>, before: set<Name>, after: set<Name>) {
    && after <= before
    && forall n | n in before - after :: !(DependenciesOf(deps, n) <= before + satisfied)
  }

  ghost predicate IsPruning(deps: DependencyMap, satisfied: set<Name>, run: seq<set<Name>>) {
    run != [] && forall i | 0 <= i < |run| - 1 :: PruningStep(deps, satisfied, run[i], run[i + 1])
  }

  lemma {:induction false} PruningKeepsSupported(deps: DependencyMap, satisfied: set<Name>, run: seq<set<Name>>)
    requires IsPruning(deps, satisfied, run)
    ensures run[|run| - 1] <= run[0]
    ensures forall t | t <= run[0] && Supported(deps, satisfied, t) :: t <= run[|run| - 1]
    decreases |run|
  {
    if |run| > 1 {
      var tail := run[1..];
      assert PruningStep(deps, satisfied, run[0], run[1]);
      forall i | 0 <= i < |tail| - 1 ensures PruningStep(deps, satisfied, tail[i], tail[i + 1]) {
        assert PruningStep(deps, satisfied, run[i + 1], run[i + 2]);
      }
      PruningKeepsSupported(deps, satisfied, tail);
      forall t | t <= run[0] && Supported(deps, satisfied, t) ensures t <= run[1] {
        forall n | n in t ensures n in run[1] {
          assert DependenciesOf(deps, n) <= t + satisfied <= run[0] + satisfied;
        }
      }
    }
  }

  /** In whatever order blocked ECUs are dropped, once nobody is blocked the same set is left: the greatest one. */
  lemma PruningOrderIsIrrelevant(deps: DependencyMap, satisfied: set<Name>, run: seq<set<Name>>)
    requires IsPruning(deps, satisfied, run) && Supported(deps, satisfied, run[|run| - 1])
    ensures forall s :: IsGreatestSupported(deps, satisfied, run[0], s) <==> s == run[|run| - 1]
  {
    PruningKeepsSupported(deps, satisfied, run);
    assert IsGreatestSupported(deps, satisfied, run[0], run[|run| - 1]);
  }

  function ClassifiedAs(classes: map<Name, Classification>, c: Classification): set<Name> {
    set n | n in classes && classes[n] == c
  }

  function Missing(deps: DependencyMap, executable: set<Name>, satisfied: set<Name>, n: Name): set<Name> {
    DependenciesOf(deps, n) - executable - satisfied
  }

  /**
   Why a dropped ECU was dropped: a target it depends on will not run, or it depends on something that is no target.
   */
  ghost predicate RightlyBlocked(deps: DependencyMap, classes: map<Name, Classification>, executable: set<Name>,
                                 satisfied: set<Name>, n: Name)
    requires n in classes
  {
    var missing := Missing(deps, executable, satisfied, n);
    match classes[n]
    case Blocked(DependencySkipped) => missing * classes.Keys != {}
    case Blocked(DependencyUnavailable) => missing - classes.Keys != {}
    case _ => false
  }

  /** What the classifications have come to when `executable` is left. */
  ghost predicate Reclassified(deps: DependencyMap, before: map<Name, Classification>,
                               classes: map<Name, Classification>, executable: set<Name>) {
    && classes.Keys == before.Keys && executable == ClassifiedAs(classes, Eligible)
    && executable <= ClassifiedAs(before, Eligible)
    && forall n | n in before ::
         if before[n] == Eligible && n !in executable
         then RightlyBlocked(deps, classes, executable, ClassifiedAs(before, AlreadySatisfied), n)
         else classes[n] == before[n]
  }

  /** The first ECU in name order with a missing dependency. */
  method FindBlocked(deps: DependencyMap, executable: set<Name>, satisfied: set<Name>) returns (r: Option<Name>)
    ensures r.None? <==> Supported(deps, satisfied, executable)
    ensures r.Some? ==> r.value in executable && Missing(deps, executable, satisfied, r.value) != {}
  {
    var names := SortedNodes(map[], executable);
    for i := 0 to |names|
      invariant forall j | 0 <= j < i :: DependenciesOf(deps, names[j]) <= executable + satisfied
    {
      var missing := Missing(deps, executable, satisfied, names[i]);
      if missing != {} {
        var d :| d in missing;
        assert d in DependenciesOf(deps, names[i]) && d !in executable + satisfied;
        return Some(names[i]);
      }
      forall d | d in DependenciesOf(deps, names[i]) ensures d in executable + satisfied {
        assert d !in missing;
      }
    }
    return None;
  }

  lemma BlockOne(deps: DependencyMap, before: map<Name, Classification>, classes: map<Name, Classification>,
                 executable: set<Name>, n: Name, reason: BlockReason)
    requires Reclassified(deps, before, classes, executable) && n in executable
    requires (!exists m :: m in before && before[m].Blocked?)
    requires var missing := Missing(deps, executable, ClassifiedAs(before, AlreadySatisfied), n);
      if reason.DependencySkipped? then missing * classes.Keys != {} else missing - classes.Keys != {}
    ensures Reclassified(deps, before, classes[n := Blocked(reason)], executable - {n})
  {
    var satisfied, next, rest := ClassifiedAs(before, AlreadySatisfied), classes[n := Blocked(reason)],
      executable - {n};
    assert rest == ClassifiedAs(next, Eligible);
    assert n in before && before[n] == Eligible;
    forall m | m in before
      ensures if before[m] == Eligible && m !in rest then RightlyBlocked(deps, next, rest, satisfied, m)
        else next[m] == before[m]
    {
      var missing, more := Missing(deps, executable, satisfied, m), Missing(deps, rest, satisfied, m);
      assert missing <= more && next.Keys == classes.Keys;
      assert missing * classes.Keys <= more * next.Keys && missing - classes.Keys <= more - next.Keys;
    }
  }

  /** One error for each dropped ECU that stops the campaign, with some of the dependencies it misses. */
  ghost predicate DropErrors(topology: Topology, deps: DependencyMap, satisfied: set<Name>, executable: set<Name>,
                             dropped: set<Name>, errors: seq<PlanningError>) {
    && (forall n :: HasDropError(errors, n) <==> n in dropped && StopsOnDependency(topology, n))
    && (forall e | e in errors ::
          e.BlockingDependencies? && e.missing != {} && e.missing <= Missing(deps, executable, satisfied, e.ecu))
  }

  predicate HasDropError(errors: seq<PlanningError>, n: Name) {
    exists i :: 0 <= i < |errors| && errors[i].BlockingDependencies? && errors[i].ecu == n
  }

  lemma DropOne(topology: Topology, deps: DependencyMap, satisfied: set<Name>, executable: set<Name>,
                dropped: set<Name>, errors: seq<PlanningError>, n: Name)
    requires DropErrors(topology, deps, satisfied, executable, dropped, errors) && n in executable
    requires Missing(deps, executable, satisfied, n) != {}
    ensures var more := if StopsOnDependency(topology, n)
                        then errors + [BlockingDependencies(n, Missing(deps, executable, satisfied, n))] else errors;
      DropErrors(topology, deps, satisfied, executable - {n}, dropped + {n}, more)
  {
    var missing := Missing(deps, executable, satisfied, n);
    var more := if StopsOnDependency(topology, n) then errors + [BlockingDependencies(n, missing)] else errors;
    assert missing <= Missing(deps, executable - {n}, satisfied, n);
    forall e | e in more
      ensures e.BlockingDependencies? && e.missing != {}
        && e.missing <= Missing(deps, executable - {n}, satisfied, e.ecu) {
      if e in errors {
        assert Missing(deps, executable, satisfied, e.ecu) <= Missing(deps, executable - {n}, satisfied, e.ecu);
      }
    }
    forall m ensures HasDropError(more, m) <==> m in dropped + {n} && StopsOnDependency(topology, m) {
      HasDropErrorSnoc(errors, BlockingDependencies(n, missing), m);
      assert HasDropError(errors, m) <==> m in dropped && StopsOnDependency(topology, m);
    }
  }

  lemma HasDropErrorSnoc(errors: seq<PlanningError>, e: PlanningError, n: Name)
    ensures HasDropError(errors + [e], n) <==> HasDropError(errors, n) || (e.BlockingDependencies? && e.ecu == n)
  {
    var more := errors + [e];
    if i :| 0 <= i < |errors| && errors[i].BlockingDependencies? && errors[i].ecu == n {
      assert more[i] == errors[i];
    }
    assert more[|errors|] == e;
  }

  /**
   The `while changed` loop: drops one blocked ECU at a time until none is left. What stays is the greatest set
   of eligible ECUs whose dependencies all run too or are satisfied; the rest are blocked for a stated reason.
   */
  method Prune(topology: Topology, deps: DependencyMap, before: map<Name, Classification>)
    returns (executable: set<Name>, classes: map<Name, Classification>, errors: seq<PlanningError>)
    requires !exists m :: m in before && before[m].Blocked?
    ensures IsGreatestSupported(deps, ClassifiedAs(before, AlreadySatisfied), ClassifiedAs(before, Eligible),
                                executable)
    ensures Reclassified(deps, before, classes, executable)
    ensures DropErrors(topology, deps, ClassifiedAs(before, AlreadySatisfied), executable,
                       ClassifiedAs(before, Eligible) - executable, errors)
  {
    var eligible, satisfied := ClassifiedAs(before, Eligible), ClassifiedAs(before, AlreadySatisfied);
    executable, classes, errors := eligible, before, [];
    ghost var run := [eligible];
    while true
      invariant IsPruning(deps, satisfied, run) && run[0] == eligible && run[|run| - 1] == executable
      invariant Reclassified(deps, before, classes, executable)
      invariant DropErrors(topology, deps, satisfied, executable, eligible - executable, errors)
      decreases executable
    {
      var blocked := FindBlocked(deps, executable, satisfied);
      if blocked.None? {
        break;
      }
      var n := blocked.value;
      var missing := Missing(deps, executable, satisfied, n);
      var skipped := classes.Keys - executable - satisfied;
      assert missing * skipped == missing * classes.Keys;
      var reason := if missing * skipped != {} then DependencySkipped else DependencyUnavailable;
      assert missing == missing * classes.Keys + (missing - classes.Keys);
      BlockOne(deps, before, classes, executable, n, reason);
      ghost var was := executable;
      ghost var longer := run + [was - {n}];
      assert PruningStep(deps, satisfied, was, was - {n}) by {
        var d :| d in missing;
        assert d in DependenciesOf(deps, n) && d !in was + satisfied;
      }
      forall i | 0 <= i < |longer| - 1 ensures PruningStep(deps, satisfied, longer[i], longer[i + 1]) {
        if i < |run| - 1 { assert PruningStep(deps, satisfied, run[i], run[i + 1]); }
      }
      run := longer;
      DropOne(topology, deps, satisfied, was, eligible - was, errors, n);
      classes := classes[n := Blocked(reason)];
      executable := executable - {n};
      assert eligible - executable == (eligible - was) + {n};
      if PolicyFor(topology, n).DependencyFailureAborts() {
        errors := errors + [BlockingDependencies(n, missing)];
      }
    }
    PruningOrderIsIrrelevant(deps, satisfied, run);
  }

  // ----- the plan

  function Classes(topology: Topology, vehicle: Vehicle, campaign: Campaign, eligible: set<Name>)
    : map<Name, Classification>
  {
    map n | n in campaign.targets :: Classify(topology, vehicle, campaign, eligible, campaign.targets[n])
  }

  function EligibleTargets(campaign: Campaign, eligible: set<Name>): set<Name> {
    set n | n in campaign.targets && n in eligible
  }

  function TargetsInPlace(vehicle: Vehicle, campaign: Campaign, eligible: set<Name>): set<Name> {
    set n | n in campaign.targets && InPlace(vehicle, campaign, eligible, n)
  }

  lemma ClassesMean(topology: Topology, vehicle: Vehicle, campaign: Campaign, eligible: set<Name>)
    requires forall n | n in campaign.targets :: campaign.targets[n].name == n
    ensures var classes := Classes(topology, vehicle, campaign, eligible);
      && classes.Keys == campaign.targets.Keys
      && ClassifiedAs(classes, Eligible) == EligibleTargets(campaign, eligible)
      && ClassifiedAs(classes, AlreadySatisfied) == TargetsInPlace(vehicle, campaign, eligible)
      && (forall n ::
            n in classes && classes[n] == AbortRequired <==> Demanded(topology, vehicle, campaign, eligible, n))
      && (forall n | n in classes :: !classes[n].Blocked?)
  {
    forall n | n in campaign.targets
      ensures var c := Classify(topology, vehicle, campaign, eligible, campaign.targets[n]);
        && (c == Eligible <==> n in eligible)
        && (c == AlreadySatisfied <==> InPlace(vehicle, campaign, eligible, n))
        && (c == AbortRequired <==> Demanded(topology, vehicle, campaign, eligible, n))
        && !c.Blocked? {
      ClassificationMeans(topology, vehicle, campaign, eligible, n);
    }
  }

  /** The targets that can be updated together: the most that have all they require among them or in place. */
  ghost predicate IsExecutableSet(topology: Topology, vehicle: Vehicle, campaign: Campaign, eligible: set<Name>,
                                  s: set<Name>)
  {
    IsGreatestSupported(Resolved(topology, campaign), TargetsInPlace(vehicle, campaign, eligible),
                        EligibleTargets(campaign, eligible), s)
  }

  /** What every plan guarantees its executor. */
  ghost predicate SoundPlan(topology: Topology, vehicle: Vehicle, campaign: Campaign, eligible: set<Name>,
                            plan: UpdatePlan)
  {
    var s := Elements(plan.updateOrder);
    && plan.dependencyMap == Resolved(topology, campaign)
    && Distinct(plan.updateOrder) && IsExecutableSet(topology, vehicle, campaign, eligible, s)
    && PredecessorsFirst(EdgesWithin(plan.dependencyMap, s), plan.updateOrder)
    && Reclassified(plan.dependencyMap, Classes(topology, vehicle, campaign, eligible), plan.classifications, s)
    && Ranked(EdgesWithin(plan.dependencyMap, s), TargetPriorities(campaign), plan.updateOrder, plan.updateOrder)
  }

  function TargetPriorities(campaign: Campaign): Priorities {
    map n | n in campaign.targets :: campaign.targets[n].priority
  }

  /** Released later, or together with `a` and of a later priority or the same one and a later name. */
  predicate NotBefore(campaign: Campaign, e: Relation, order: seq<Name>, a: Name, b: Name)
    requires a in campaign.targets && b in campaign.targets
  {
    var x, y := ReleasedAt(e, order, a), ReleasedAt(e, order, b);
    var p, q := campaign.targets[a].priority, campaign.targets[b].priority;
    x < y || (x == y && (p < q || (p == q && LexLeq(a, b))))
  }

  /**
   An order that is safe to execute: eligible targets only, each after everything it requires unless that is in place
   already, and by the priorities of the campaign where that leaves a choice.
   */
  ghost predicate SafeOrder(topology: Topology, vehicle: Vehicle, campaign: Campaign, eligible: set<Name>,
                            order: seq<Name>) {
    var e := EdgesWithin(Resolved(topology, campaign), Elements(order));
    && (forall i | 0 <= i < |order| :: order[i] in campaign.targets && order[i] in eligible)
    && (forall i, d | 0 <= i < |order| && Requires(topology, campaign, order[i], d) ::
          d in order[..i] || InPlace(vehicle, campaign, eligible, d))
    && (forall i, j | 0 <= i < j < |order| :: NotBefore(campaign, e, order, order[i], order[j]))
  }

  lemma SoundPlansAreSafe(topology: Topology, vehicle: Vehicle, campaign: Campaign, eligible: set<Name>,
                          plan: UpdatePlan)
    requires SoundPlan(topology, vehicle, campaign, eligible, plan)
    ensures SafeOrder(topology, vehicle, campaign, eligible, plan.updateOrder)
  {
    var order, deps := plan.updateOrder, plan.dependencyMap;
    var s := Elements(order);
    var e := EdgesWithin(deps, s);
    ResolvedMeansRequires(topology, campaign);
    forall i | 0 <= i < |order| ensures order[i] in campaign.targets && order[i] in eligible {
      assert order[i] in s;
    }
    forall i, d | 0 <= i < |order| && Requires(topology, campaign, order[i], d)
      ensures d in order[..i] || InPlace(vehicle, campaign, eligible, d) {
      assert order[i] in s && d in DependenciesOf(deps, order[i]);
      if d in s { assert (d, order[i]) in e; }
    }
    forall i, j | 0 <= i < j < |order| ensures NotBefore(campaign, e, order, order[i], order[j]) {
      assert RankLeq(e, TargetPriorities(campaign), order, order[i], order[j]);
    }
  }

  /** Two sound plans of one campaign have the same order. */
  lemma PlansAreUnique(topology: Topology, vehicle: Vehicle, campaign: Campaign, eligible: set<Name>,
                       plan: UpdatePlan, other: UpdatePlan)
    requires SoundPlan(topology, vehicle, campaign, eligible, plan)
    requires SoundPlan(topology, vehicle, campaign, eligible, other)
    ensures plan.updateOrder == other.updateOrder
  {
    var s, t := Elements(plan.updateOrder), Elements(other.updateOrder);
    assert s <= t && t <= s;
    var order := plan.updateOrder;
    RankedIsUnique(EdgesWithin(plan.dependencyMap, s), TargetPriorities(campaign), order, other.updateOrder, |order|);
    assert order[..|order|] == order && other.updateOrder[..|order|] == other.updateOrder;
  }

  ghost predicate DependenciesAccepted(topology: Topology, campaign: Campaign) {
    AllKnown(topology, campaign) && !CyclicTargets(topology, campaign)
  }

  lemma PlanningCanOnlyFailOnCycles(topology: Topology, vehicle: Vehicle, campaign: Campaign, eligible: set<Name>,
                                    s: set<Name>)
    requires IsExecutableSet(topology, vehicle, campaign, eligible, s)
    ensures forall t | IsExecutableSet(topology, vehicle, campaign, eligible, t) :: t == s
    ensures DependenciesAccepted(topology, campaign) ==> !Cyclic(EdgesWithin(Resolved(topology, campaign), s))
    ensures s == {} ==> !Cyclic(EdgesWithin(Resolved(topology, campaign), s))
  {
    var deps := Resolved(topology, campaign);
    assert deps.Keys == campaign.targets.Keys;
    if Cyclic(EdgesWithin(deps, s)) {
      FewerEdges(EdgesWithin(deps, s), EdgesWithin(deps, deps.Keys));
      var p :| IsCycle(EdgesWithin(deps, s), p);
      assert (p[0], p[1]) in EdgesWithin(deps, s);
    }
  }

  /** A target that could have been updated, but was dropped for want of its dependencies. */
  predicate Dropped(campaign: Campaign, eligible: set<Name>, s: set<Name>, n: Name) {
    n in campaign.targets && n in eligible && n !in s
  }

  /** Why a campaign with executable set `s` may be stopped. */
  ghost predicate Stops(topology: Topology, vehicle: Vehicle, campaign: Campaign, eligible: set<Name>, s: set<Name>,
                        e: PlanningError) {
    match e
    case NotDiscovered(n) => Demanded(topology, vehicle, campaign, eligible, n) && n !in vehicle.discovered
    case NotEligible(n) => Demanded(topology, vehicle, campaign, eligible, n) && n in vehicle.discovered
    case UnknownDependency(n, d) => UnknownAt(topology, campaign, n, d)
    case DependencyCycle => AllKnown(topology, campaign) && CyclicTargets(topology, campaign)
    case BlockingDependencies(n, missing) =>
      && Dropped(campaign, eligible, s, n) && StopsOnDependency(topology, n) && missing != {}
      && forall d | d in missing ::
           Requires(topology, campaign, n, d) && d !in s && !InPlace(vehicle, campaign, eligible, d)
  }

  /** Every error is one of these, and every reason to stop has an error. */
  ghost predicate ErrorsFit(topology: Topology, vehicle: Vehicle, campaign: Campaign, eligible: set<Name>,
                            s: set<Name>, errors: seq<PlanningError>) {
    && (forall e | e in errors :: Stops(topology, vehicle, campaign, eligible, s, e))
    && (forall e: PlanningError | !e.BlockingDependencies? && Stops(topology, vehicle, campaign, eligible, s, e) ::
          e in errors)
    && (forall n | Dropped(campaign, eligible, s, n) && StopsOnDependency(topology, n) :: HasDropError(errors, n))
  }

  /** Nothing stops a campaign whose executable set is `s`. */
  ghost predicate Unblocked(topology: Topology, vehicle: Vehicle, campaign: Campaign, eligible: set<Name>, s: set<Name>)
  {
    && DependenciesAccepted(topology, campaign)
    && (forall n | n in campaign.targets :: !Demanded(topology, vehicle, campaign, eligible, n))
    && (forall n | Dropped(campaign, eligible, s, n) :: !StopsOnDependency(topology, n))
  }

  lemma ErrorsMeanBlocked(topology: Topology, vehicle: Vehicle, campaign: Campaign, eligible: set<Name>,
                          s: set<Name>, errors: seq<PlanningError>)
    requires ErrorsFit(topology, vehicle, campaign, eligible, s, errors)
    ensures errors == [] <==> Unblocked(topology, vehicle, campaign, eligible, s)
  {
    if errors != [] {
      assert errors[0] in errors && Stops(topology, vehicle, campaign, eligible, s, errors[0]);
    } else {
      forall n | n in campaign.targets ensures !Demanded(topology, vehicle, campaign, eligible, n) {
        assert !Stops(topology, vehicle, campaign, eligible, s, DemandError(vehicle, n));
      }
      forall n, d ensures !UnknownAt(topology, campaign, n, d) {
        assert !Stops(topology, vehicle, campaign, eligible, s, UnknownDependency(n, d));
      }
      assert !Stops(topology, vehicle, campaign, eligible, s, DependencyCycle);
    }
  }

  /** The errors of the three phases together. */
  lemma AllErrorsFit(topology: Topology, vehicle: Vehicle, campaign: Campaign, eligible: set<Name>, s: set<Name>,
                     demands: seq<PlanningError>, dependencies: seq<PlanningError>, drops: seq<PlanningError>)
    requires forall n | n in campaign.targets :: campaign.targets[n].name == n
    requires forall e :: e in demands <==>
      exists n :: Demanded(topology, vehicle, campaign, eligible, n) && e == DemandError(vehicle, n)
    requires forall e | e in dependencies :: e.UnknownDependency? || e.DependencyCycle?
    requires forall n, d :: UnknownDependency(n, d) in dependencies <==> UnknownAt(topology, campaign, n, d)
    requires DependencyCycle in dependencies <==> AllKnown(topology, campaign) && CyclicTargets(topology, campaign)
    requires DropErrors(topology, Resolved(topology, campaign), TargetsInPlace(vehicle, campaign, eligible), s,
                        EligibleTargets(campaign, eligible) - s, drops)
    ensures ErrorsFit(topology, vehicle, campaign, eligible, s, demands + dependencies + drops)
  {
    var errors := demands + dependencies + drops;
    ResolvedMeansRequires(topology, campaign);
    forall e | e in errors ensures Stops(topology, vehicle, campaign, eligible, s, e) {
      if e in drops {
        var i :| 0 <= i < |drops| && drops[i] == e;
        assert HasDropError(drops, e.ecu);
      }
    }
    forall e: PlanningError | !e.BlockingDependencies? && Stops(topology, vehicle, campaign, eligible, s, e)
      ensures e in errors {
      if e.NotDiscovered? || e.NotEligible? {
        assert e == DemandError(vehicle, e.ecu);
      }
    }
    forall n | Dropped(campaign, eligible, s, n) && StopsOnDependency(topology, n) ensures HasDropError(errors, n) {
      var i :| 0 <= i < |drops| && drops[i].BlockingDependencies? && drops[i].ecu == n;
      assert errors[|demands| + |dependencies| + i] == drops[i];
    }
  }

  /** The sort of the executable set: every ECU once, dependencies first; refused exactly on a cycle. */
  method SortExecutable(campaign: Campaign, deps: DependencyMap, executable: set<Name>)
    returns (r: Result<seq<Name>, PlanError>)
    ensures r.Err? <==> Cyclic(EdgesWithin(deps, executable))
    ensures r.Ok? ==> Distinct(r.value) && Elements(r.value) == executable
    ensures r.Ok? ==> PredecessorsFirst(EdgesWithin(deps, executable), r.value)
    ensures r.Ok? ==> Ranked(EdgesWithin(deps, executable), TargetPriorities(campaign), r.value, r.value)
  {
    var graph := BuildGraph(deps, executable);
    if executable == {} {
      NoNodesNoCycle(deps);
      return Ok([]);
    }
    r := TopologicalPlanner.Plan(graph, TargetPriorities(campaign));
  }

  lemma NoNodesNoCycle(deps: DependencyMap)
    ensures !Cyclic(EdgesWithin(deps, {}))
  {
    forall p ensures !IsCycle(EdgesWithin(deps, {}), p) {
      if |p| > 1 {
        assert (p[0], p[1]) !in EdgesWithin(deps, {});
      }
    }
  }

  /**
   Every plan is sound and updates the greatest executable set. Planning raises exactly when that set has a
   dependency cycle, which it cannot have once the dependency map was accepted; the plan has blocking errors exactly
   when a dependency is unknown or cyclic, a target requires an abort, or a dropped ECU demands one.
   */
  method Plan(topology: Topology, vehicle: Vehicle, campaign: Campaign, eligible: set<Name>)
    returns (r: Result<UpdatePlan, PlanError>, ghost executable: set<Name>)
    requires forall n | n in campaign.targets :: campaign.targets[n].name == n
    ensures IsExecutableSet(topology, vehicle, campaign, eligible, executable)
    ensures r.Err? <==> Cyclic(EdgesWithin(Resolved(topology, campaign), executable))
    ensures r.Ok? ==> SoundPlan(topology, vehicle, campaign, eligible, r.value)
    ensures r.Ok? ==> Elements(r.value.updateOrder) == executable
    ensures r.Ok? ==> SafeOrder(topology, vehicle, campaign, eligible, r.value.updateOrder)
    ensures r.Ok? ==> ErrorsFit(topology, vehicle, campaign, eligible, executable, r.value.blockingErrors)
    ensures r.Ok? ==> (r.value.blockingErrors == [] <==> Unblocked(topology, vehicle, campaign, eligible, executable))
    ensures DependenciesAccepted(topology, campaign) ==> r.Ok?
  {
    var classes, errors := ClassifyTargets(topology, vehicle, campaign, eligible);
    ClassesMean(topology, vehicle, campaign, eligible);
    var deps, dependencyErrors := ResolveDependencies(topology, campaign);
    var left, pruned, pruningErrors := Prune(topology, deps, classes);
    executable := left;
    PlanningCanOnlyFailOnCycles(topology, vehicle, campaign, eligible, left);
    AllErrorsFit(topology, vehicle, campaign, eligible, left, errors, dependencyErrors, pruningErrors);
    ErrorsMeanBlocked(topology, vehicle, campaign, eligible, left, errors + dependencyErrors + pruningErrors);
    var sorted := SortExecutable(campaign, deps, left);
    match sorted
    case Err(e) => return Err(e), executable;
    case Ok(order) =>
      var plan := UpdatePlan(order, deps, pruned, errors + dependencyErrors + pruningErrors);
      SoundPlansAreSafe(topology, vehicle, campaign, eligible, plan);
      return Ok(plan), executable;
  }
}
