/**
 The paired-search budget of an epoch: what a search over one task can cost at most, against what
 the epoch has frozen.
 */
module Budget {

  datatype Ceilings = Ceilings(
    modelCalls: nat, inputTokens: nat, outputTokens: nat, cachedTokens: nat, cacheWriteTokens: nat, toolCalls: nat,
    toolOutputBytes: nat, artifactBytes: nat, patchBytes: nat, retries: nat, wallTime: nat, deadline: nat,
    knownCost: real, estimatedCost: real)

  datatype Epoch = Epoch(maxSteps: nat, offspring: nat, replicates: nat, candidateBudget: nat, perRun: Ceilings)

  datatype Projection = Projection(
    structural: nat, budget: nat, candidates: nat, pairedRuns: nat, calls: nat, known: real, estimated: real,
    frozenCalls: nat, frozenKnown: real, frozenEstimated: real, fits: bool)

  predicate ValidCeilings(c: Ceilings) {
    && c.modelCalls > 0 && c.inputTokens > 0 && c.outputTokens > 0 && c.toolCalls > 0 && c.toolOutputBytes > 0
    && c.artifactBytes > 0 && c.patchBytes > 0 && 0 < c.deadline <= c.wallTime
    && 0.0 <= c.knownCost <= c.estimatedCost
  }

  predicate ValidEpoch(e: Epoch) {
    && e.maxSteps > 0 && e.offspring > 0 && e.replicates > 0 && e.candidateBudget > 0 && ValidCeilings(e.perRun)
  }

  /** Field by field. */
  predicate IsWithin(inner: Ceilings, outer: Ceilings) {
    && inner.modelCalls <= outer.modelCalls && inner.inputTokens <= outer.inputTokens
    && inner.outputTokens <= outer.outputTokens && inner.cachedTokens <= outer.cachedTokens
    && inner.cacheWriteTokens <= outer.cacheWriteTokens && inner.toolCalls <= outer.toolCalls
    && inner.toolOutputBytes <= outer.toolOutputBytes && inner.artifactBytes <= outer.artifactBytes
    && inner.patchBytes <= outer.patchBytes && inner.retries <= outer.retries && inner.wallTime <= outer.wallTime
    && inner.deadline <= outer.deadline && inner.knownCost <= outer.knownCost && inner.estimatedCost <= outer.estimatedCost
  }

  function Min(a: nat, b: nat): nat {
    if a < b then a else b
  }

  function Project(e: Epoch, task: Ceilings): Projection {
    var structural := e.maxSteps * e.offspring;
    var candidates := Min(structural, e.candidateBudget);
    var paired := candidates * e.replicates * 2;
    var frozen := e.candidateBudget * e.replicates * 2;
    var calls, known, estimated := paired * task.modelCalls, paired as real * task.knownCost, paired as real * task.estimatedCost;
    var frozenCalls := frozen * e.perRun.modelCalls;
    var frozenKnown, frozenEstimated := frozen as real * e.perRun.knownCost, frozen as real * e.perRun.estimatedCost;
    Projection(structural, e.candidateBudget, candidates, paired, calls, known, estimated, frozenCalls, frozenKnown, frozenEstimated,
               candidates <= e.candidateBudget && calls <= frozenCalls && known <= frozenKnown && estimated <= frozenEstimated)
  }

  lemma ProductGrows(a: nat, b: nat, x: nat, y: nat)
    requires a <= b && x <= y
    ensures a * x <= b * y
  {
    assert a * x <= a * y;
    assert a * y <= b * y;
  }

  lemma RealProductGrows(a: nat, b: nat, x: real, y: real)
    requires a <= b && 0.0 <= x <= y
    ensures a as real * x <= b as real * y
  {
    var p, q := a as real, b as real;
    assert p * x <= p * y;
    assert p * y <= q * y;
  }

  lemma RunsGrow(a: nat, b: nat, replicates: nat)
    requires a <= b
    ensures a * replicates * 2 <= b * replicates * 2
  {
    ProductGrows(a, b, replicates, replicates);
  }

  /** A task within the epoch's ceilings always fits the frozen budget. */
  lemma ProjectionFits(e: Epoch, task: Ceilings)
    requires ValidEpoch(e) && ValidCeilings(task) && IsWithin(task, e.perRun)
    ensures Project(e, task).fits
  {
    var candidates := Min(e.maxSteps * e.offspring, e.candidateBudget);
    var paired, frozen := candidates * e.replicates * 2, e.candidateBudget * e.replicates * 2;
    RunsGrow(candidates, e.candidateBudget, e.replicates);
    ProductGrows(paired, frozen, task.modelCalls, e.perRun.modelCalls);
    RealProductGrows(paired, frozen, task.knownCost, e.perRun.knownCost);
    RealProductGrows(paired, frozen, task.estimatedCost, e.perRun.estimatedCost);
  }

  lemma Cancels(n: nat, x: nat, y: nat)
    requires n > 0
    ensures n * x <= n * y <==> x <= y
  {
    if x <= y {
      ProductGrows(n, n, x, y);
    } else {
      ProductGrows(n, n, y + 1, x);
      Distributes(n, y);
    }
  }

  lemma Distributes(n: nat, y: nat)
    ensures n * (y + 1) == n * y + n
  {
  }

  lemma RealCancels(n: nat, x: real, y: real)
    requires n > 0
    ensures n as real * x <= n as real * y <==> x <= y
  {
    var p := n as real;
    if x > y {
      assert p * (x - y) > 0.0;
      assert p * x == p * y + p * (x - y);
    }
  }

  lemma RunsArePositive(budget: nat, replicates: nat)
    requires budget > 0 && replicates > 0
    ensures budget * replicates * 2 > 0
  {
    ProductGrows(1, budget, 1, replicates);
  }

  lemma FitsByProducts(e: Epoch, task: Ceilings, runs: nat)
    requires e.candidateBudget <= e.maxSteps * e.offspring && runs == e.candidateBudget * e.replicates * 2
    ensures Project(e, task).fits <==>
      && runs * task.modelCalls <= runs * e.perRun.modelCalls
      && runs as real * task.knownCost <= runs as real * e.perRun.knownCost
      && runs as real * task.estimatedCost <= runs as real * e.perRun.estimatedCost
  {
    assert Min(e.maxSteps * e.offspring, e.candidateBudget) == e.candidateBudget;
  }

  /** When the search can use its whole candidate budget, the projection fits exactly if calls and costs are within. */
  lemma ProjectionFitsExactly(e: Epoch, task: Ceilings)
    requires ValidEpoch(e) && ValidCeilings(task) && e.candidateBudget <= e.maxSteps * e.offspring
    ensures Project(e, task).fits <==>
      && task.modelCalls <= e.perRun.modelCalls && task.knownCost <= e.perRun.knownCost
      && task.estimatedCost <= e.perRun.estimatedCost
  {
    var runs := e.candidateBudget * e.replicates * 2;
    RunsArePositive(e.candidateBudget, e.replicates);
    FitsByProducts(e, task, runs);
    Cancels(runs, task.modelCalls, e.perRun.modelCalls);
    RealCancels(runs, task.knownCost, e.perRun.knownCost);
    RealCancels(runs, task.estimatedCost, e.perRun.estimatedCost);
  }
}
