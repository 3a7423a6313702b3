/** Executing a plan (tcu/update_scheduler.py) and the wiring of planner and scheduler (tcu/main.py). */
module UpdateScheduler {
  import opened Base
  import opened DependencyGraphs
  import opened TopologicalPlanner
  import opened CampaignPlanner

  datatype SkipReason = OnFailed | OnSkipped | OnUnavailable

  datatype Status = Flashed | Failed | Satisfied | NotFlashed | Skipped(reason: SkipReason) | Aborted

  datatype EcuResult = EcuResult(ecu: Name, status: Status)

  /** The inputs of `execute`, and whether flashing an ECU succeeds within the allowed retries. */
  datatype Job = Job(eligible: set<Name>, discovered: set<Name>, order: seq<Name>, deps: DependencyMap,
                     topology: Topology, flashes: Name -> bool)

  datatype Progress = Progress(results: seq<EcuResult>, failed: set<Name>, skipped: set<Name>, completed: set<Name>,
                               fatal: bool, aborted: bool)

  function Start(job: Job): Progress {
    Progress([], {}, {}, job.discovered - job.eligible, false, false)
  }

  /** The dependency map given, or, when that is empty, the dependencies of the vehicle's own policy. */
  function Lookup(job: Job): DependencyMap {
    if job.deps != map[] then job.deps
    else map n | n in Elements(job.order) :: set d | d in PolicyFor(job.topology, n).dependencies
  }

  /** What becomes of the next ECU of the order. */
  function StatusOf(job: Job, p: Progress, n: Name): Status {
    var deps, policy := DependenciesOf(Lookup(job), n), PolicyFor(job.topology, n);
    var failed, skipped := deps * p.failed, deps * p.skipped;
    var missing := deps - Elements(job.order) - p.completed;
    if failed + skipped + missing != {} then
      if policy.DependencyFailureAborts() then Aborted
      else Skipped(if failed != {} then OnFailed else if skipped != {} then OnSkipped else OnUnavailable)
    else if n !in job.eligible then
      if n in p.completed then Satisfied else if policy.UnavailableAborts() then Aborted else NotFlashed
    else if job.flashes(n) then Flashed
    else Failed
  }

  function Add(p: Progress, n: Name, status: Status): Progress {
    p.(results := p.results + [EcuResult(n, status)])
  }

  /** One ECU of the order. */
  function Step(job: Job, p: Progress, n: Name): Progress {
    var status := StatusOf(job, p, n);
    var next := Add(p, n, status);
    match status
    case Flashed => next.(completed := p.completed + {n})
    case Failed => next.(failed := p.failed + {n}, fatal := p.fatal || PolicyFor(job.topology, n).critical)
    case Satisfied => next
    case Aborted => next.(skipped := p.skipped + {n}, aborted := true)
    case _ => next.(skipped := p.skipped + {n})
  }

  /** An abort stops the campaign for good. */
  function StepUnlessAborted(job: Job, p: Progress, n: Name): Progress {
    if p.aborted then p else Step(job, p, n)
  }

  /** The progress after the first `k` ECUs of the order. */
  function Run(job: Job, k: nat): Progress
    requires k <= |job.order|
  {
    if k == 0 then Start(job) else StepUnlessAborted(job, Run(job, k - 1), job.order[k - 1])
  }

  predicate Succeeded(p: Progress) {
    !p.aborted && !p.fatal && p.failed == {}
  }

  datatype CampaignResult = NoApplicableUpdates | AbortedByPolicy | FlashingComplete | PartialSuccess | CampaignFailed

  predicate Has(results: seq<EcuResult>, s: set<Status>) {
    exists i :: 0 <= i < |results| && results[i].status in s
  }

  predicate All(results: seq<EcuResult>, s: set<Status>) {
    forall i | 0 <= i < |results| :: results[i].status in s
  }

  const SKIPPED_STATUSES := {NotFlashed, Skipped(OnFailed), Skipped(OnSkipped), Skipped(OnUnavailable)}

  function Summary(results: seq<EcuResult>): CampaignResult {
    if results == [] then NoApplicableUpdates
    else if Has(results, {Aborted}) then AbortedByPolicy
    else if All(results, SKIPPED_STATUSES) then NoApplicableUpdates
    else if All(results, {Flashed, Satisfied}) then FlashingComplete
    else if Has(results, {Failed}) && Has(results, {Flashed} + SKIPPED_STATUSES) then PartialSuccess
    else CampaignFailed
  }

  datatype ExecuteError = RepositoryVerificationFailed

  class Scheduler {
    const retryCount: nat
    var lastResults: seq<EcuResult>
    var lastCampaignResult: Option<CampaignResult>

    constructor (retryCount: int)
      ensures this.retryCount == if retryCount < 1 then 1 else retryCount
      ensures lastResults == [] && lastCampaignResult == None
    {
      this.retryCount := if retryCount < 1 then 1 else retryCount;
      lastResults, lastCampaignResult := [], None;
    }

    /** Flashing with retries: whether one of the attempts works, and that none is made after it. */
    method SendWithRetries(n: Name, attempt: (Name, nat) -> bool) returns (success: bool, attempts: nat)
      requires retryCount > 0
      ensures success <==> exists a :: 0 <= a < retryCount && attempt(n, a)
      ensures 1 <= attempts <= retryCount && (success ==> attempt(n, attempts - 1))
      ensures forall a | 0 <= a < attempts - 1 :: !attempt(n, a)
    {
      success, attempts := false, 0;
      while attempts < retryCount && !success
        invariant attempts <= retryCount && (attempts == 0 ==> !success)
        invariant success ==> attempt(n, attempts - 1)
        invariant forall a | 0 <= a < attempts - (if success then 1 else 0) :: !attempt(n, a)
        decreases retryCount - attempts, !success
      {
        success := attempt(n, attempts);
        attempts := attempts + 1;
      }
    }

    /** One turn of the main loop: skip, abort or flash. */
    method ExecuteOne(job: Job, p: Progress, n: Name, attempt: (Name, nat) -> bool) returns (next: Progress)
      requires retryCount > 0
      requires job.flashes(n) <==> exists a :: 0 <= a < retryCount && attempt(n, a)
      ensures next == Step(job, p, n)
    {
      next := p;
      var policy, dependencies := PolicyFor(job.topology, n), DependenciesOf(Lookup(job), n);
      var failed, skipped := dependencies * p.failed, dependencies * p.skipped;
      var missing := dependencies - Elements(job.order) - p.completed;
      if failed != {} || skipped != {} || missing != {} {
        assert failed + skipped + missing != {};
        var reason := if failed != {} then OnFailed else if skipped != {} then OnSkipped else OnUnavailable;
        next := Add(next, n, if policy.DependencyFailureAborts() then Aborted else Skipped(reason));
        next := next.(skipped := next.skipped + {n}, aborted := policy.DependencyFailureAborts() || p.aborted);
        return;
      }
      assert failed + skipped + missing == {};
      if n !in job.eligible {
        if n in p.completed {
          next := Add(next, n, Satisfied);
          return;
        }
        next := Add(next, n, if policy.UnavailableAborts() then Aborted else NotFlashed);
        next := next.(skipped := next.skipped + {n}, aborted := policy.UnavailableAborts() || p.aborted);
        return;
      }
      var success, _ := SendWithRetries(n, attempt);
      if !success {
        next := Add(next, n, Failed).(failed := next.failed + {n});
        if policy.critical {
          next := next.(fatal := true);
        }
        return;
      }
      next := Add(next, n, Flashed).(completed := next.completed + {n});
    }

    method Execute(job: Job, repositoryOk: bool, attempt: (Name, nat) -> bool) returns (r: Result<bool, ExecuteError>)
      requires retryCount > 0
      requires forall n :: job.flashes(n) <==> exists a :: 0 <= a < retryCount && attempt(n, a)
      modifies this
      ensures r == if repositoryOk then Ok(Succeeded(Run(job, |job.order|))) else Err(RepositoryVerificationFailed)
      ensures repositoryOk ==>
        lastResults == Run(job, |job.order|).results && lastCampaignResult == Some(Summary(lastResults))
    {
      if !repositoryOk {
        return Err(RepositoryVerificationFailed);
      }
      var p, k := Start(job), 0;
      while k < |job.order| && !p.aborted
        invariant k <= |job.order| && p == Run(job, k)
      {
        p := ExecuteOne(job, p, job.order[k], attempt);
        k := k + 1;
      }
      if p.aborted {
        AbortIsFinal(job, k, |job.order|);
      }
      lastResults, lastCampaignResult := p.results, Some(Summary(p.results));
      return Ok(!p.aborted && !p.fatal && p.failed == {});
    }
  }

  lemma {:induction false} AbortIsFinal(job: Job, k: nat, n: nat)
    requires k <= n <= |job.order| && Run(job, k).aborted
    ensures Run(job, n) == Run(job, k)
    decreases n - k
  {
    if k < n {
      AbortIsFinal(job, k, n - 1);
    }
  }

  // ----- what the results mean

  /** The dependency map counts, or, when it is empty, the policies of the planned ECUs. */
  predicate Needs(job: Job, n: Name, d: Name) {
    if job.deps != map[] then n in job.deps && d in job.deps[n]
    else n in job.order && n in job.topology && d in job.topology[n].dependencies
  }

  lemma LookupIsNeeds(job: Job, n: Name)
    ensures forall d :: d in DependenciesOf(Lookup(job), n) <==> Needs(job, n, d)
  {
  }

  predicate Attempted(s: Status) {
    s.Flashed? || s.Failed?
  }

  function EcusWith(results: seq<EcuResult>, s: set<Status>): set<Name> {
    set i | 0 <= i < |results| && results[i].status in s :: results[i].ecu
  }

  const NOT_RUN := SKIPPED_STATUSES + {Aborted}

  predicate NotRun(s: Status) {
    s.Skipped? || s.NotFlashed? || s.Aborted?
  }

  lemma NotRunStatuses(s: Status)
    ensures s in NOT_RUN <==> NotRun(s)
    ensures s in SKIPPED_STATUSES <==> NotRun(s) && !s.Aborted?
  {
    match s
    case Skipped(OnFailed) =>
    case Skipped(OnSkipped) =>
    case Skipped(OnUnavailable) =>
    case _ =>
  }

  ghost predicate NeedsOneOf(job: Job, n: Name, names: set<Name>) {
    exists d :: d in names && Needs(job, n, d)
  }

  /** A dependency that is neither in the plan nor on a vehicle that has nothing to update there. */
  ghost predicate LacksSomething(job: Job, n: Name) {
    exists d :: Needs(job, n, d) && d !in job.order && d !in job.discovered - job.eligible
  }

  /** Each result, by the results before it: who is attempted, who is skipped and why, and who stops the campaign. */
  ghost predicate Explained(job: Job, results: seq<EcuResult>, i: nat)
    requires i < |results| <= |job.order|
  {
    var n, status := job.order[i], results[i].status;
    var onFailed := NeedsOneOf(job, n, EcusWith(results[..i], {Failed}));
    var onSkipped := NeedsOneOf(job, n, EcusWith(results[..i], NOT_RUN));
    var blocked := onFailed || onSkipped || LacksSomething(job, n);
    var idle := !blocked && n !in job.eligible;
    && results[i].ecu == n
    && (Attempted(status) <==> !blocked && n in job.eligible)
    && (Attempted(status) ==> (status.Flashed? <==> job.flashes(n)))
    && (status == Aborted <==>
          || (blocked && StopsOnDependency(job.topology, n))
          || (idle && n !in job.discovered && StopsIfUnavailable(job.topology, n)))
    && (status.Skipped? <==> blocked && !StopsOnDependency(job.topology, n))
    && (status == Skipped(OnFailed) ==> onFailed) && (status == Skipped(OnSkipped) ==> !onFailed && onSkipped)
    && (status == Skipped(OnUnavailable) ==> !onFailed && !onSkipped)
    && (status == Satisfied <==> idle && n in job.discovered)
    && (status == NotFlashed <==> idle && n !in job.discovered && !StopsIfUnavailable(job.topology, n))
  }

  /** An abort is the last result, and nothing else ends the campaign early. */
  predicate StopsAtAbort(job: Job, results: seq<EcuResult>) {
    && |results| <= |job.order| && (forall i | 0 <= i < |results| - 1 :: results[i].status != Aborted)
    && (|results| < |job.order| ==> results != [] && results[|results| - 1].status == Aborted)
  }

  /** The scheduler's sets and flags are what the results say. */
  ghost predicate Tallied(job: Job, p: Progress) {
    && p.failed == EcusWith(p.results, {Failed})
    && p.skipped == EcusWith(p.results, NOT_RUN)
    && p.completed == (job.discovered - job.eligible) + EcusWith(p.results, {Flashed})
    && (p.fatal ==> p.failed != {})
    && (p.aborted <==> p.results != [] && p.results[|p.results| - 1].status == Aborted)
  }

  ghost predicate Progressing(job: Job, k: nat, p: Progress)
    requires k <= |job.order|
  {
    && |p.results| <= k && (!p.aborted ==> |p.results| == k) && Tallied(job, p)
    && (forall i | 0 <= i < |p.results| - 1 :: p.results[i].status != Aborted)
    && forall i | 0 <= i < |p.results| :: Explained(job, p.results, i)
  }

  lemma EcusWithSnoc(results: seq<EcuResult>, r: EcuResult, s: set<Status>)
    ensures EcusWith(results + [r], s) == EcusWith(results, s) + if r.status in s then {r.ecu} else {}
  {
    var next := results + [r];
    forall n | n in EcusWith(results, s) ensures n in EcusWith(next, s) {
      var i :| 0 <= i < |results| && results[i].status in s && results[i].ecu == n;
      assert next[i] == results[i];
    }
    assert next[|results|] == r;
  }

  /** One step adds one result, and counts it. */
  lemma StepAdds(job: Job, p: Progress, n: Name) returns (r: EcuResult)
    ensures r == EcuResult(n, StatusOf(job, p, n))
    ensures var next := Step(job, p, n);
      && next.results == p.results + [r] && r.ecu == n
      && next.failed == p.failed + (if r.status.Failed? then {n} else {})
      && next.skipped == p.skipped + (if NotRun(r.status) then {n} else {})
      && next.completed == p.completed + (if r.status.Flashed? then {n} else {})
      && (next.fatal ==> p.fatal || r.status.Failed?) && (!p.aborted ==> (next.aborted <==> r.status == Aborted))
  {
    r := EcuResult(n, StatusOf(job, p, n));
  }

  lemma StepTallied(job: Job, p: Progress, n: Name)
    requires Tallied(job, p) && !p.aborted
    ensures Tallied(job, Step(job, p, n))
  {
    var r := StepAdds(job, p, n);
    NotRunStatuses(r.status);
    EcusWithSnoc(p.results, r, {Failed});
    EcusWithSnoc(p.results, r, {Flashed});
    EcusWithSnoc(p.results, r, NOT_RUN);
  }

  /** What blocks the next ECU, in terms of the scheduler's sets. */
  lemma BlockersAreSets(job: Job, n: Name, names: set<Name>)
    ensures NeedsOneOf(job, n, names) <==> DependenciesOf(Lookup(job), n) * names != {}
  {
    LookupIsNeeds(job, n);
    if DependenciesOf(Lookup(job), n) * names != {} {
      var d :| d in DependenciesOf(Lookup(job), n) * names;
    }
    if NeedsOneOf(job, n, names) {
      var d :| d in names && Needs(job, n, d);
      assert d in DependenciesOf(Lookup(job), n) * names;
    }
  }

  lemma FlashedWereEligible(job: Job, k: nat, p: Progress)
    requires k <= |job.order| && Progressing(job, k, p)
    ensures EcusWith(p.results, {Flashed}) <= Elements(job.order) * job.eligible
  {
    forall n | n in EcusWith(p.results, {Flashed}) ensures n in Elements(job.order) * job.eligible {
      var i :| 0 <= i < |p.results| && p.results[i].status == Flashed && p.results[i].ecu == n;
      assert Explained(job, p.results, i);
    }
  }

  lemma MissingIsLack(job: Job, k: nat, p: Progress, n: Name)
    requires k <= |job.order| && Progressing(job, k, p)
    ensures LacksSomething(job, n) <==> DependenciesOf(Lookup(job), n) - Elements(job.order) - p.completed != {}
  {
    LookupIsNeeds(job, n);
    FlashedWereEligible(job, k, p);
    var missing := DependenciesOf(Lookup(job), n) - Elements(job.order) - p.completed;
    if missing != {} {
      var d :| d in missing;
      assert Needs(job, n, d) && d !in job.order && d !in job.discovered - job.eligible;
    }
    if LacksSomething(job, n) {
      var d :| Needs(job, n, d) && d !in job.order && d !in job.discovered - job.eligible;
      assert d in missing;
    }
  }

  lemma NewResultExplained(job: Job, k: nat, p: Progress, r: EcuResult)
    requires k < |job.order| && Progressing(job, k, p) && !p.aborted
    requires r == EcuResult(job.order[k], StatusOf(job, p, job.order[k]))
    ensures Explained(job, p.results + [r], k)
  {
    var n := job.order[k];
    assert (p.results + [r])[..k] == p.results;
    BlockersAreSets(job, n, p.failed);
    BlockersAreSets(job, n, p.skipped);
    MissingIsLack(job, k, p, n);
    FlashedWereEligible(job, k, p);
  }

  lemma OldResultExplained(job: Job, results: seq<EcuResult>, r: EcuResult, i: nat)
    requires i < |results| < |job.order| && Explained(job, results, i)
    ensures Explained(job, results + [r], i)
  {
    assert (results + [r])[..i] == results[..i];
  }

  lemma StepProgresses(job: Job, k: nat, p: Progress)
    requires k < |job.order| && Progressing(job, k, p) && !p.aborted
    ensures Progressing(job, k + 1, Step(job, p, job.order[k]))
  {
    var next := Step(job, p, job.order[k]);
    var r := StepAdds(job, p, job.order[k]);
    StepTallied(job, p, job.order[k]);
    NewResultExplained(job, k, p, r);
    forall i | 0 <= i < |next.results| ensures Explained(job, next.results, i) {
      if i < k { OldResultExplained(job, p.results, r, i); }
    }
  }

  lemma {:induction false} RunProgresses(job: Job, k: nat)
    requires k <= |job.order|
    ensures Progressing(job, k, Run(job, k))
  {
    if k > 0 {
      RunProgresses(job, k - 1);
      if !Run(job, k - 1).aborted {
        StepProgresses(job, k - 1, Run(job, k - 1));
      }
    }
  }

  /**
   The results of any job: each is explained by those before it, an abort is the last, and the campaign succeeds
   exactly if nothing failed and nothing aborted it.
   */
  lemma ResultsAreExplained(job: Job)
    ensures var p := Run(job, |job.order|);
      && StopsAtAbort(job, p.results) && (forall i | 0 <= i < |p.results| :: Explained(job, p.results, i))
      && (Succeeded(p) <==> !Has(p.results, {Failed, Aborted}))
  {
    var p := Run(job, |job.order|);
    RunProgresses(job, |job.order|);
    forall i | 0 <= i < |p.results| && p.results[i].status.Failed? ensures p.failed != {} {
      assert p.results[i].ecu in EcusWith(p.results, {Failed});
    }
  }

  /** What the campaign result says about any list of results. */
  lemma SummaryMeans(results: seq<EcuResult>)
    ensures var c := Summary(results);
      && (c == NoApplicableUpdates <==> All(results, SKIPPED_STATUSES))
      && (c == AbortedByPolicy <==> Has(results, {Aborted}))
      && (c == FlashingComplete <==> results != [] && All(results, {Flashed, Satisfied}))
      && (c == PartialSuccess <==>
            !Has(results, {Aborted}) && Has(results, {Failed}) && Has(results, {Flashed} + SKIPPED_STATUSES))
      && (c == CampaignFailed <==>
            && !Has(results, {Aborted})
            && if Has(results, {Failed}) then All(results, {Failed, Satisfied})
               else Has(results, SKIPPED_STATUSES) && Has(results, {Flashed, Satisfied}))
  {
    assert results != [] && All(results, SKIPPED_STATUSES) ==> results[0].status in SKIPPED_STATUSES;
    forall i | 0 <= i < |results|
      ensures results[i].status in SKIPPED_STATUSES || results[i].status in {Flashed, Satisfied, Failed, Aborted} {
      NotRunStatuses(results[i].status);
    }
    assert forall i | 0 <= i < |results| ::
      (results[i].status in {Flashed} + SKIPPED_STATUSES
       <==> results[i].status == Flashed || results[i].status in SKIPPED_STATUSES);
  }

  // ----- failure containment

  /** What the planner hands to the scheduler: dependencies run earlier in the plan or are satisfied already. */
  ghost predicate Wired(job: Job, satisfied: set<Name>) {
    var planned := Elements(job.order);
    && Distinct(job.order) && job.eligible == planned
    && satisfied <= job.discovered - planned
    && Supported(Lookup(job), satisfied, planned)
    && PredecessorsFirst(EdgesWithin(Lookup(job), planned), job.order)
  }

  /** `b` depends on `a`, directly or through other ECUs of the plan. */
  ghost predicate DependsOn(job: Job, b: Name, a: Name) {
    exists p :: IsPath(EdgesWithin(Lookup(job), Elements(job.order)), p) && |p| > 1 && p[0] == a && p[|p| - 1] == b
  }

  const BLOCKED_STATUSES := {Skipped(OnFailed), Skipped(OnSkipped), Aborted}

  /** In a plan that is wired only failures block, and whoever is attempted has all it needs. */
  ghost predicate LocallyContained(job: Job, satisfied: set<Name>, results: seq<EcuResult>, i: nat)
    requires i < |results| <= |job.order|
  {
    var n, status := job.order[i], results[i].status;
    var bad := EcusWith(results[..i], {Failed} + BLOCKED_STATUSES);
    && results[i].ecu == n
    && (Attempted(status) || status in BLOCKED_STATUSES)
    && (Attempted(status) <==> DependenciesOf(Lookup(job), n) !! bad)
    && (Attempted(status) ==> DependenciesOf(Lookup(job), n) <= satisfied + EcusWith(results[..i], {Flashed}))
  }

  /** Every planned dependency of an ECU has a result before it. */
  lemma DependenciesHaveResults(job: Job, satisfied: set<Name>, results: seq<EcuResult>, i: nat, d: Name)
    requires Wired(job, satisfied) && i < |results| <= |job.order|
    requires forall j | 0 <= j < i :: results[j].ecu == job.order[j]
    requires d in DependenciesOf(Lookup(job), job.order[i]) && d !in satisfied
    ensures d in job.order[..i] && exists j :: 0 <= j < i && results[j].ecu == d
  {
    var n := job.order[i];
    assert n in Elements(job.order) && d in Elements(job.order);
    assert (d, n) in EdgesWithin(Lookup(job), Elements(job.order));
    var j :| 0 <= j < i && job.order[j] == d;
    assert results[j].ecu == d;
  }

  lemma NothingLacks(job: Job, satisfied: set<Name>, n: Name)
    requires Wired(job, satisfied) && n in job.order
    ensures !LacksSomething(job, n)
  {
    LookupIsNeeds(job, n);
    assert n in Elements(job.order);
  }

  lemma BlockedStatuses(s: Status)
    ensures s in BLOCKED_STATUSES <==> s.Aborted? || (s.Skipped? && s.reason != OnUnavailable)
  {
    match s
    case Skipped(OnFailed) =>
    case Skipped(OnSkipped) =>
    case Skipped(OnUnavailable) =>
    case _ =>
  }

  lemma SameBlockers(results: seq<EcuResult>)
    requires forall j | 0 <= j < |results| :: Attempted(results[j].status) || results[j].status in BLOCKED_STATUSES
    ensures EcusWith(results, {Failed} + BLOCKED_STATUSES) == EcusWith(results, {Failed}) + EcusWith(results, NOT_RUN)
  {
    forall j | 0 <= j < |results| ensures results[j].status in BLOCKED_STATUSES <==> results[j].status in NOT_RUN {
      BlockedStatuses(results[j].status);
      NotRunStatuses(results[j].status);
    }
  }

  lemma BlockedByBefore(job: Job, results: seq<EcuResult>, i: nat)
    requires i < |results| <= |job.order| && Explained(job, results, i) && !LacksSomething(job, job.order[i])
    requires job.order[i] in job.eligible
    requires forall j | 0 <= j < i :: Attempted(results[j].status) || results[j].status in BLOCKED_STATUSES
    ensures Attempted(results[i].status) || results[i].status in BLOCKED_STATUSES
    ensures Attempted(results[i].status)
       <==> DependenciesOf(Lookup(job), job.order[i]) !! EcusWith(results[..i], {Failed} + BLOCKED_STATUSES)
  {
    var n, before := job.order[i], results[..i];
    SameBlockers(before);
    BlockersAreSets(job, n, EcusWith(before, {Failed}));
    BlockersAreSets(job, n, EcusWith(before, NOT_RUN));
    BlockersAreSets(job, n, EcusWith(before, {Failed} + BLOCKED_STATUSES));
    var deps := DependenciesOf(Lookup(job), n);
    assert deps * EcusWith(before, {Failed} + BLOCKED_STATUSES)
        == deps * EcusWith(before, {Failed}) + deps * EcusWith(before, NOT_RUN);
    BlockedStatuses(results[i].status);
  }

  lemma {:induction false} WiredIsContained(job: Job, satisfied: set<Name>, results: seq<EcuResult>, i: nat)
    requires Wired(job, satisfied) && i < |results| <= |job.order|
    requires forall j | 0 <= j < |results| :: Explained(job, results, j)
    ensures forall j | 0 <= j <= i :: LocallyContained(job, satisfied, results, j)
  {
    if i > 0 {
      WiredIsContained(job, satisfied, results, i - 1);
    }
    forall j | 0 <= j < i
      ensures results[j].ecu == job.order[j]
      ensures Attempted(results[j].status) || results[j].status in BLOCKED_STATUSES {
      assert LocallyContained(job, satisfied, results, j);
    }
    var n := job.order[i];
    assert Explained(job, results, i) && n in Elements(job.order);
    NothingLacks(job, satisfied, n);
    BlockedByBefore(job, results, i);
    if Attempted(results[i].status) {
      forall d | d in DependenciesOf(Lookup(job), n) ensures d in satisfied + EcusWith(results[..i], {Flashed}) {
        if d !in satisfied {
          DependenciesHaveResults(job, satisfied, results, i, d);
          var j :| 0 <= j < i && results[j].ecu == d;
          assert LocallyContained(job, satisfied, results, j) && results[..i][j] == results[j];
        }
      }
    }
  }

  /** An ECU that was blocked depends, perhaps through others, on an earlier one that failed. */
  lemma {:induction false} BlockedMeansFailedAncestor(job: Job, satisfied: set<Name>, results: seq<EcuResult>, i: nat)
    returns (f: nat)
    requires Wired(job, satisfied) && i < |results| <= |job.order|
    requires forall j | 0 <= j < |results| :: LocallyContained(job, satisfied, results, j)
    requires !Attempted(results[i].status)
    ensures f < i && results[f].status.Failed? && DependsOn(job, job.order[i], job.order[f])
    decreases i
  {
    var n, planned := job.order[i], Elements(job.order);
    assert LocallyContained(job, satisfied, results, i);
    var d :| d in DependenciesOf(Lookup(job), n) && d in EcusWith(results[..i], {Failed} + BLOCKED_STATUSES);
    var j :| 0 <= j < i && results[j].status in {Failed} + BLOCKED_STATUSES && results[j].ecu == d;
    assert LocallyContained(job, satisfied, results, j);
    assert n in planned && d in planned;
    assert (d, n) in EdgesWithin(Lookup(job), planned);
    if results[j].status.Failed? {
      f := j;
      assert IsPath(EdgesWithin(Lookup(job), planned), [d, n]);
    } else {
      f := BlockedMeansFailedAncestor(job, satisfied, results, j);
      DependsFurther(job, n, d, job.order[f]);
    }
  }

  lemma DependsFurther(job: Job, n: Name, d: Name, f: Name)
    requires (d, n) in EdgesWithin(Lookup(job), Elements(job.order)) && DependsOn(job, d, f)
    ensures DependsOn(job, n, f)
  {
    var e := EdgesWithin(Lookup(job), Elements(job.order));
    var p :| IsPath(e, p) && |p| > 1 && p[0] == f && p[|p| - 1] == d;
    ExtendPath(e, p, n);
  }

  lemma ExtendPath(e: Relation, p: seq<Name>, n: Name)
    requires IsPath(e, p) && (p[|p| - 1], n) in e
    ensures IsPath(e, p + [n])
  {
    var q := p + [n];
    forall i | 0 <= i < |q| - 1 ensures (q[i], q[i + 1]) in e {
      if i < |p| - 1 { assert (p[i], p[i + 1]) in e; }
    }
  }

  /** Conversely, whatever depends on a failed ECU through a path of the plan was not attempted. */
  lemma {:induction false} FailedAncestorBlocks(job: Job, satisfied: set<Name>, results: seq<EcuResult>, i: nat,
                                                p: seq<Name>, f: nat)
    requires Wired(job, satisfied) && i < |results| <= |job.order|
    requires forall j | 0 <= j < |results| :: LocallyContained(job, satisfied, results, j)
    requires IsPath(EdgesWithin(Lookup(job), Elements(job.order)), p) && |p| > 1
    requires f < |results| && results[f].status.Failed? && p[0] == job.order[f] && p[|p| - 1] == job.order[i]
    ensures !Attempted(results[i].status)
    decreases |p|
  {
    var e, front := EdgesWithin(Lookup(job), Elements(job.order)), p[..|p| - 1];
    var d, n := p[|p| - 2], p[|p| - 1];
    assert (d, n) in e;
    assert d in job.order[..i];
    var j :| 0 <= j < i && job.order[j] == d;
    assert LocallyContained(job, satisfied, results, i) && LocallyContained(job, satisfied, results, j);
    if |p| == 2 {
      assert d == job.order[f] && f == j;
    } else {
      assert IsPath(e, front) by {
        forall k | 0 <= k < |front| - 1 ensures (front[k], front[k + 1]) in e { assert (p[k], p[k + 1]) in e; }
      }
      FailedAncestorBlocks(job, satisfied, results, j, front, f);
    }
    assert results[..i][j] == results[j];
    assert d in EcusWith(results[..i], {Failed} + BLOCKED_STATUSES);
  }

  /** What the results of executing a plan say about failures. */
  ghost predicate Contained(job: Job, satisfied: set<Name>, results: seq<EcuResult>, success: bool) {
    && StopsAtAbort(job, results)
    && (forall i | 0 <= i < |results| :: ContainedAt(job, satisfied, results, i))
    && (success <==> |results| == |job.order| && forall i | 0 <= i < |results| :: !results[i].status.Failed?)
  }

  /**
   An ECU is attempted exactly when nothing it depends on has failed, and then all it needs is in place. Otherwise
   its policy decides whether it is skipped or the campaign aborted.
   */
  ghost predicate ContainedAt(job: Job, satisfied: set<Name>, results: seq<EcuResult>, i: nat)
    requires i < |results| <= |job.order|
  {
    var n, status := job.order[i], results[i].status;
    && results[i].ecu == n
    && (Attempted(status) <==>
          !exists f :: 0 <= f < |results| && results[f].status.Failed? && DependsOn(job, n, job.order[f]))
    && (Attempted(status) ==> (status.Flashed? <==> job.flashes(n)))
    && (Attempted(status) ==>
          forall d | d in DependenciesOf(Lookup(job), n) :: d in satisfied || d in EcusWith(results[..i], {Flashed}))
    && (!Attempted(status) ==>
          status == if StopsOnDependency(job.topology, n) then Aborted
                    else if NeedsOneOf(job, n, EcusWith(results[..i], {Failed})) then Skipped(OnFailed)
                    else Skipped(OnSkipped))
  }

  lemma ContainedEverywhere(job: Job, satisfied: set<Name>, results: seq<EcuResult>, i: nat)
    requires Wired(job, satisfied) && i < |results| <= |job.order| && Explained(job, results, i)
    requires forall j | 0 <= j < |results| :: LocallyContained(job, satisfied, results, j)
    ensures ContainedAt(job, satisfied, results, i)
  {
    assert LocallyContained(job, satisfied, results, i);
    NothingLacks(job, satisfied, job.order[i]);
    if Attempted(results[i].status) {
      forall f | 0 <= f < |results| && results[f].status.Failed? && DependsOn(job, job.order[i], job.order[f])
        ensures false {
        var p :| IsPath(EdgesWithin(Lookup(job), Elements(job.order)), p) && |p| > 1
              && p[0] == job.order[f] && p[|p| - 1] == job.order[i];
        FailedAncestorBlocks(job, satisfied, results, i, p, f);
      }
    } else {
      var f := BlockedMeansFailedAncestor(job, satisfied, results, i);
    }
  }

  /** Failures are contained exactly, whatever flashing does and whatever the abort policies say. */
  lemma FailureContainment(job: Job, satisfied: set<Name>)
    requires Wired(job, satisfied)
    ensures var p := Run(job, |job.order|); Contained(job, satisfied, p.results, Succeeded(p))
  {
    var p := Run(job, |job.order|);
    ResultsAreExplained(job);
    if p.results != [] {
      WiredIsContained(job, satisfied, p.results, |p.results| - 1);
    }
    forall i | 0 <= i < |p.results| ensures ContainedAt(job, satisfied, p.results, i) {
      ContainedEverywhere(job, satisfied, p.results, i);
    }
    if i :| 0 <= i < |p.results| && p.results[i].status.Aborted? {
      var f := BlockedMeansFailedAncestor(job, satisfied, p.results, i);
    }
  }

  /** Which campaign result is reported for the results of a plan. */
  predicate ResultFits(results: seq<EcuResult>, success: bool, c: CampaignResult) {
    && results != [] && (c == FlashingComplete <==> success)
    && (c == AbortedByPolicy <==> results[|results| - 1].status == Aborted)
    && (c == CampaignFailed <==> All(results, {Failed}))
    && c != NoApplicableUpdates
  }

  /** With no failed ECU everybody was attempted, and nobody failed. */
  lemma NoFailureMeansFlashed(job: Job, satisfied: set<Name>, results: seq<EcuResult>, success: bool)
    requires Contained(job, satisfied, results, success) && !Has(results, {Failed})
    ensures All(results, {Flashed})
  {
    forall i | 0 <= i < |results| ensures results[i].status == Flashed {
      assert ContainedAt(job, satisfied, results, i) && results[i].status != Failed;
      forall f | 0 <= f < |results| ensures !results[f].status.Failed? { assert results[f].status !in {Failed}; }
    }
  }

  lemma ContainedStatuses(job: Job, satisfied: set<Name>, results: seq<EcuResult>, success: bool, i: nat)
    requires Contained(job, satisfied, results, success) && i < |results|
    ensures var s := results[i].status; s in {Flashed} + SKIPPED_STATUSES || s == Failed || s == Aborted
  {
    assert ContainedAt(job, satisfied, results, i);
    NotRunStatuses(results[i].status);
  }

  lemma ResultOfPlan(job: Job, satisfied: set<Name>, results: seq<EcuResult>, success: bool)
    requires job.order != [] && Contained(job, satisfied, results, success)
    ensures ResultFits(results, success, Summary(results))
  {
    SummaryMeans(results);
    assert StopsAtAbort(job, results) && results != [];
    var last := |results| - 1;
    forall i | 0 <= i < |results| ensures results[i].status == Aborted ==> i == last { }
    if !Has(results, {Failed}) {
      NoFailureMeansFlashed(job, satisfied, results, success);
      assert results[0].status == Flashed && results[last].status == Flashed;
    } else {
      var f :| 0 <= f < |results| && results[f].status in {Failed};
      forall i | 0 <= i < |results|
        ensures results[i].status in {Flashed} + SKIPPED_STATUSES || results[i].status in {Failed, Aborted} {
        ContainedStatuses(job, satisfied, results, success, i);
      }
    }
  }

  // ----- the whole campaign

  /** Pruning leaves alone what is in place. */
  lemma InPlaceStays(topology: Topology, vehicle: Vehicle, campaign: Campaign, eligible: set<Name>, plan: UpdatePlan)
    requires forall n | n in campaign.targets :: campaign.targets[n].name == n
    requires SoundPlan(topology, vehicle, campaign, eligible, plan)
    ensures ClassifiedAs(plan.classifications, AlreadySatisfied) == TargetsInPlace(vehicle, campaign, eligible)
  {
    var classes := Classes(topology, vehicle, campaign, eligible);
    ClassesMean(topology, vehicle, campaign, eligible);
    forall n | n in classes ensures plan.classifications[n] == AlreadySatisfied <==> classes[n] == AlreadySatisfied {
    }
  }

  /** A sound plan is wired as the scheduler needs it. */
  lemma PlansAreWired(vehicle: Vehicle, campaign: Campaign, eligible: set<Name>, plan: UpdatePlan, job: Job)
    requires forall n | n in campaign.targets :: campaign.targets[n].name == n
    requires SoundPlan(job.topology, vehicle, campaign, eligible, plan) && plan.updateOrder != []
    requires job.order == plan.updateOrder && job.deps == plan.dependencyMap
    requires job.eligible == Elements(plan.updateOrder) && job.discovered == vehicle.discovered
    ensures Wired(job, ClassifiedAs(plan.classifications, AlreadySatisfied)) && Lookup(job) == plan.dependencyMap
  {
    var planned := Elements(plan.updateOrder);
    InPlaceStays(job.topology, vehicle, campaign, eligible, plan);
    assert plan.updateOrder[0] in planned && plan.updateOrder[0] in job.deps;
    forall n | n in TargetsInPlace(vehicle, campaign, eligible) ensures n in job.discovered - planned {
    }
  }

  datatype Outcome =
    | PlanningRaised
    | PlanningFailed
    | NothingToDo
    | ArtifactsFailed
    | RepositoryFailed
    | Executed(plan: UpdatePlan, results: seq<EcuResult>, success: bool)

  /** How a campaign with executable set `s` ends: one of these, and each exactly in its case. */
  ghost predicate OutcomeFits(topology: Topology, vehicle: Vehicle, campaign: Campaign, eligible: set<Name>,
                              verified: set<Name>, repositoryOk: bool, s: set<Name>, outcome: Outcome) {
    if Cyclic(EdgesWithin(Resolved(topology, campaign), s)) then outcome.PlanningRaised?
    else if !Unblocked(topology, vehicle, campaign, eligible, s) then outcome.PlanningFailed?
    else if s == {} then outcome.NothingToDo?
    else if !(s <= verified) then outcome.ArtifactsFailed?
    else if !repositoryOk then outcome.RepositoryFailed?
    else outcome.Executed? && Elements(outcome.plan.updateOrder) == s
  }

  /** A sound plan selects exactly the ECUs of its order. */
  lemma SelectedIsPlanned(topology: Topology, vehicle: Vehicle, campaign: Campaign, eligible: set<Name>,
                          plan: UpdatePlan)
    requires SoundPlan(topology, vehicle, campaign, eligible, plan)
    ensures ClassifiedAs(plan.classifications, Eligible) * Elements(plan.updateOrder) == Elements(plan.updateOrder)
  {
  }

  /** The scheduler's job for a plan. */
  function JobFor(topology: Topology, vehicle: Vehicle, plan: UpdatePlan, flashes: Name -> bool): Job {
    Job(Elements(plan.updateOrder), vehicle.discovered, plan.updateOrder, plan.dependencyMap, topology, flashes)
  }

  /** The scheduler keeps the results, and a campaign result that fits them. */
  ghost predicate Reported(scheduler: Scheduler, outcome: Outcome)
    reads scheduler
  {
    && outcome.Executed? && scheduler.lastResults == outcome.results && scheduler.lastCampaignResult.Some?
    && ResultFits(outcome.results, outcome.success, scheduler.lastCampaignResult.value)
  }

  /** Executing a sound plan whose artifacts are all there. */
  method ExecutePlan(topology: Topology, vehicle: Vehicle, campaign: Campaign, eligible: set<Name>, plan: UpdatePlan,
                     selected: set<Name>, repositoryOk: bool, scheduler: Scheduler, flashes: Name -> bool,
                     attempt: (Name, nat) -> bool)
    returns (outcome: Outcome)
    requires forall n | n in campaign.targets :: campaign.targets[n].name == n
    requires SoundPlan(topology, vehicle, campaign, eligible, plan) && plan.updateOrder != []
    requires selected == Elements(plan.updateOrder) && scheduler.retryCount > 0
    requires forall n :: flashes(n) <==> exists a :: 0 <= a < scheduler.retryCount && attempt(n, a)
    modifies scheduler
    ensures if repositoryOk then outcome.Executed? && outcome.plan == plan else outcome.RepositoryFailed?
    ensures repositoryOk ==>
      Contained(JobFor(topology, vehicle, plan, flashes), ClassifiedAs(plan.classifications, AlreadySatisfied),
                outcome.results, outcome.success)
    ensures repositoryOk ==> Reported(scheduler, outcome)
  {
    var job := Job(selected, vehicle.discovered, plan.updateOrder, plan.dependencyMap, topology, flashes);
    PlansAreWired(vehicle, campaign, eligible, plan, job);
    FailureContainment(job, ClassifiedAs(plan.classifications, AlreadySatisfied));
    ghost var p := Run(job, |job.order|);
    ResultOfPlan(job, ClassifiedAs(plan.classifications, AlreadySatisfied), p.results, Succeeded(p));
    var r := scheduler.Execute(job, repositoryOk, attempt);
    if r.Err? {
      return RepositoryFailed;
    }
    return Executed(plan, scheduler.lastResults, r.value);
  }

  /** The artifact check compares numbers: as many ECUs must pass it as were selected. */
  method Recheck(selected: set<Name>, verified: set<Name>) returns (r: Option<set<Name>>)
    ensures r == if selected <= verified then Some(selected) else None
  {
    var rechecked := verified * selected;
    if |rechecked| != |selected| {
      assert selected <= verified ==> rechecked == selected;
      return None;
    }
    SubsetOfSameSize(rechecked, selected);
    return Some(rechecked);
  }

  /** The checks before the scheduler starts: an outcome that ends the campaign, or the plan and what it selects. */
  method CheckCampaign(topology: Topology, vehicle: Vehicle, campaign: Campaign, eligible: set<Name>,
                       verified: set<Name>)
    returns (r: Result<(UpdatePlan, set<Name>), Outcome>, ghost executable: set<Name>)
    requires forall n | n in campaign.targets :: campaign.targets[n].name == n
    ensures IsExecutableSet(topology, vehicle, campaign, eligible, executable)
    ensures r.Err? ==> OutcomeFits(topology, vehicle, campaign, eligible, verified, true, executable, r.error)
    ensures r.Err? ==> !r.error.Executed? && !r.error.RepositoryFailed?
    ensures r.Ok? ==>
      && SoundPlan(topology, vehicle, campaign, eligible, r.value.0) && Elements(r.value.0.updateOrder) == executable
      && r.value.1 == executable != {} && executable <= verified
      && Unblocked(topology, vehicle, campaign, eligible, executable)
      && !Cyclic(EdgesWithin(Resolved(topology, campaign), executable))
    ensures DependenciesAccepted(topology, campaign) ==> r != Err(PlanningRaised)
  {
    var planning;
    planning, executable := CampaignPlanner.Plan(topology, vehicle, campaign, eligible);
    match planning
    case Err(_) => return Err(PlanningRaised), executable;
    case Ok(plan) =>
      if plan.blockingErrors != [] {
        return Err(PlanningFailed), executable;
      }
      var selected := ClassifiedAs(plan.classifications, Eligible) * Elements(plan.updateOrder);
      SelectedIsPlanned(topology, vehicle, campaign, eligible, plan);
      if selected == {} {
        return Err(NothingToDo), executable;
      }
      var rechecked := Recheck(selected, verified);
      if rechecked.None? {
        return Err(ArtifactsFailed), executable;
      }
      return Ok((plan, rechecked.value)), executable;
  }

  /**
   From campaign to flashing: plan, stop on blocking errors, check the artifacts of the selected ECUs, execute.
   `verified` are the ECUs whose downloaded artifact passed. Every outcome occurs exactly in its case; whatever was
   executed was a sound plan of the greatest executable set, and its failures were contained.
   */
  method RunCampaign(topology: Topology, vehicle: Vehicle, campaign: Campaign, eligible: set<Name>, verified: set<Name>,
                     repositoryOk: bool, scheduler: Scheduler, flashes: Name -> bool, attempt: (Name, nat) -> bool)
    returns (outcome: Outcome, ghost executable: set<Name>)
    requires forall n | n in campaign.targets :: campaign.targets[n].name == n
    requires scheduler.retryCount > 0
    requires forall n :: flashes(n) <==> exists a :: 0 <= a < scheduler.retryCount && attempt(n, a)
    modifies scheduler
    ensures IsExecutableSet(topology, vehicle, campaign, eligible, executable)
    ensures OutcomeFits(topology, vehicle, campaign, eligible, verified, repositoryOk, executable, outcome)
    ensures outcome.Executed? ==>
      && SoundPlan(topology, vehicle, campaign, eligible, outcome.plan)
      && SafeOrder(topology, vehicle, campaign, eligible, outcome.plan.updateOrder)
    ensures outcome.Executed? ==>
      Contained(JobFor(topology, vehicle, outcome.plan, flashes),
                ClassifiedAs(outcome.plan.classifications, AlreadySatisfied), outcome.results, outcome.success)
    ensures outcome.Executed? ==> Reported(scheduler, outcome)
    ensures DependenciesAccepted(topology, campaign) ==> !outcome.PlanningRaised?
  {
    var checked;
    checked, executable := CheckCampaign(topology, vehicle, campaign, eligible, verified);
    match checked
    case Err(early) => return early, executable;
    case Ok((plan, selected)) =>
      EmptyOrder(plan.updateOrder);
      SoundPlansAreSafe(topology, vehicle, campaign, eligible, plan);
      outcome := ExecutePlan(topology, vehicle, campaign, eligible, plan, selected, repositoryOk, scheduler, flashes,
                             attempt);
  }

  lemma EmptyOrder(order: seq<Name>)
    ensures order == [] <==> Elements(order) == {}
  {
    if order != [] {
      assert order[0] in Elements(order);
    }
  }

  lemma SubsetOfSameSize(a: set<Name>, b: set<Name>)
    requires a <= b && |a| == |b|
    ensures a == b
  {
    assert b == a + (b - a);
  }
}
