/**
 Every generated workflow stays far below the limit of exact doubles, so rounding never bites and
 the public expressions reproduce the private interpreter's answers.
 */
module WorkflowExactness {
  import opened Wrappers
  import opened Expressions
  import opened Workflow
  import opened WorkflowMeaning
  import opened WorkflowGenerator

  // A generated workflow compiles

  lemma {:induction false} GeneratedKeys(difficulty: Difficulty, steps: seq<Step>, i: nat)
    requires Built(difficulty, steps) && i < |steps|
    ensures StepId(i) in Keys(steps) && Keys(steps)[StepId(i)] == Key(i)
  {
    var n := |steps| - 1;
    assert StepAt(difficulty, n, steps[n]);
    if i < n {
      BuiltPrefix(difficulty, steps, n);
      GeneratedKeys(difficulty, steps[..n], i);
      if StepId(i) == StepId(n) {
        StepIdInjective(i, n);
      }
    }
  }

  lemma BuiltPrefix(difficulty: Difficulty, steps: seq<Step>, n: nat)
    requires Built(difficulty, steps) && n <= |steps|
    ensures Built(difficulty, steps[..n])
  {
    forall i | 0 <= i < n ensures StepAt(difficulty, i, steps[..n][i]) {
      assert StepAt(difficulty, i, steps[i]);
    }
  }

  lemma {:induction false} OnlyGeneratedKeys(difficulty: Difficulty, steps: seq<Step>, id: string) returns (i: nat)
    requires Built(difficulty, steps) && id in Keys(steps)
    ensures i < |steps| && id == StepId(i) && Keys(steps)[id] == Key(i)
  {
    var n := |steps| - 1;
    assert StepAt(difficulty, n, steps[n]);
    if id == StepId(n) {
      i := n;
    } else {
      BuiltPrefix(difficulty, steps, n);
      i := OnlyGeneratedKeys(difficulty, steps[..n], id);
    }
  }

  lemma GeneratedKeysAreProper(difficulty: Difficulty, steps: seq<Step>)
    requires Built(difficulty, steps)
    ensures ProperKeys(Keys(steps))
  {
    forall id | id in Keys(steps) ensures Identifier(Keys(steps)[id]) && Keys(steps)[id] !in RESERVED {
      var i := OnlyGeneratedKeys(difficulty, steps, id);
      KeyIsProper(i);
    }
    forall a, b | a in Keys(steps) && b in Keys(steps) && Keys(steps)[a] == Keys(steps)[b] ensures a == b {
      var i := OnlyGeneratedKeys(difficulty, steps, a);
      var j := OnlyGeneratedKeys(difficulty, steps, b);
      KeyInjective(i, j);
    }
  }

  lemma GeneratedStepResolves(difficulty: Difficulty, steps: seq<Step>, i: nat)
    requires difficulty.Valid() && Generated(difficulty, steps) && i < |steps|
    ensures Resolved(steps[i], Keys(steps)) && ProperStep(steps[i])
  {
    assert StepAt(difficulty, i, steps[i]);
    forall k | 0 <= k < |steps[i].dependencies| ensures steps[i].dependencies[k] in Keys(steps) {
      assert Earlier(steps[i].dependencies[k], i);
      var j: nat :| j < i && steps[i].dependencies[k] == StepId(j);
      GeneratedKeys(difficulty, steps, j);
    }
  }

  // Bounds

  /** How large the value of step `i` can be. */
  function Bound(i: nat): nat {
    if i == 0 then 1014 else 4 * Bound(i - 1) + 33
  }

  lemma {:induction false} BoundGrows(i: nat, j: nat)
    requires i <= j
    ensures Bound(i) <= Bound(j)
  {
    if i < j {
      BoundGrows(i, j - 1);
    }
  }

  lemma LastBound()
    ensures Bound(8) == 67174389
  {
    assert Bound(1) == 4089 && Bound(2) == 16389;
    assert Bound(3) == 65589 && Bound(4) == 262389;
    assert Bound(5) == 1049589 && Bound(6) == 4198389;
    assert Bound(7) == 16793589;
  }

  lemma {:induction false} SquaresAreBounded(ns: seq<int>)
    requires forall i :: 0 <= i < |ns| ==> -13 <= ns[i] <= 13
    ensures 0 <= SumOfSquares(ns) <= 169 * |ns|
  {
    if ns != [] {
      SquaresAreBounded(ns[..|ns| - 1]);
      SquareIsBounded(ns[|ns| - 1]);
    }
  }

  lemma SquareIsBounded(n: int)
    requires -13 <= n <= 13
    ensures 0 <= n * n <= 169
  {
    if n >= 0 {
      assert n * n <= 13 * n;
    } else {
      assert n * n == (-n) * (-n) <= 13 * (-n);
    }
  }

  lemma {:induction false} SumIsBounded(dependencies: seq<string>, values: map<string, int>, b: nat)
    requires forall k :: 0 <= k < |dependencies| ==> dependencies[k] in values && Abs(values[dependencies[k]]) <= b
    ensures DependencySum(dependencies, values).Some?
    ensures Abs(DependencySum(dependencies, values).value) <= |dependencies| * b
  {
    if dependencies != [] {
      var n := |dependencies| - 1;
      SumIsBounded(dependencies[..n], values, b);
      assert (n + 1) * b == n * b + b;
    }
  }

  lemma FirstValueIsBounded(difficulty: Difficulty, op: Op)
    requires FirstOp(difficulty, op)
    ensures Compute(op, 0).Some? && Abs(Compute(op, 0).value) <= Bound(0)
  {
    forall i | 0 <= i < |op.numbers| ensures -13 <= op.numbers[i] <= 13 {
      if difficulty.edgeCases {
        assert op.numbers[i] in EDGE_POOL;
      }
    }
    SquaresAreBounded(op.numbers);
  }

  lemma ProductIsBounded(source: int, multiplier: int, b: nat)
    requires Abs(source) <= b && 2 <= multiplier <= 7
    ensures Abs(source * multiplier) <= 7 * b
  {
    if source >= 0 {
      assert 0 <= source * multiplier <= source * 7;
    } else {
      assert source * 7 <= source * multiplier <= 0;
    }
  }

  /** A later value is at most its source and 33 more. */
  lemma LaterValueIsBounded(difficulty: Difficulty, i: nat, op: Op, source: int, b: nat)
    requires i > 0 && OpAt(difficulty, i, op) && Abs(source) <= b
    ensures Compute(op, source).Some? && Abs(Compute(op, source).value) <= b + 33
  {
    if op.MultiplyMod? {
      RemainderIsBounded(source * op.multiplier, op.modulus);
    }
  }

  lemma RemainderIsBounded(a: int, modulus: int)
    requires modulus in MODULI
    ensures Abs(Remainder(a, modulus)) <= 19
  {
  }

  lemma SmallProduct(count: nat, b: nat)
    requires count <= 4
    ensures count * b <= 4 * b
  {
  }

  /** The values of the first `n` steps are known and within their bounds. */
  ghost predicate Bounded(values: map<string, int>, n: nat) {
    forall j: nat :: j < n ==> StepId(j) in values && Abs(values[StepId(j)]) <= Bound(j)
  }

  lemma SourceIsBounded(difficulty: Difficulty, step: Step, i: nat, values: map<string, int>)
    requires difficulty.Valid() && i > 0 && StepAt(difficulty, i, step) && Bounded(values, i)
    ensures DependencySum(step.dependencies, values).Some?
    ensures Abs(DependencySum(step.dependencies, values).value) <= 4 * Bound(i - 1)
  {
    forall k | 0 <= k < |step.dependencies|
      ensures step.dependencies[k] in values && Abs(values[step.dependencies[k]]) <= Bound(i - 1)
    {
      assert Earlier(step.dependencies[k], i);
      var j: nat :| j < i && step.dependencies[k] == StepId(j);
      BoundGrows(j, i - 1);
    }
    SumIsBounded(step.dependencies, values, Bound(i - 1));
    SmallProduct(|step.dependencies|, Bound(i - 1));
  }

  /** One step: its source, its product and its value are all exact, so rounding changes nothing. */
  lemma GeneratedStepIsExact(difficulty: Difficulty, step: Step, i: nat, values: map<string, int>)
    requires difficulty.Valid() && i <= 8 && StepAt(difficulty, i, step) && Bounded(values, i)
    ensures ExactStep(step, values).Some? && Abs(ExactStep(step, values).value) <= Bound(i) < EXACT_LIMIT
    ensures InterpretStep(step, values) == ExactStep(step, values)
    ensures i > 0 ==> Abs(DependencySum(step.dependencies, values).value) < EXACT_LIMIT
    ensures step.op.MultiplyMod? ==>
      Abs(DependencySum(step.dependencies, values).value * step.op.multiplier) < EXACT_LIMIT
  {
    BoundGrows(i, 8);
    LastBound();
    if i == 0 {
      FirstValueIsBounded(difficulty, step.op);
      SmallNumbersAreExact(Compute(step.op, 0).value);
    } else {
      SourceIsBounded(difficulty, step, i, values);
      var source := DependencySum(step.dependencies, values).value;
      SmallNumbersAreExact(source);
      LaterValueIsBounded(difficulty, i, step.op, source, 4 * Bound(i - 1));
      SmallNumbersAreExact(Compute(step.op, source).value);
      if step.op.MultiplyMod? {
        ProductIsBounded(source, step.op.multiplier, 4 * Bound(i - 1));
      }
    }
  }

  lemma BoundedGrows(values: map<string, int>, n: nat, value: int)
    requires Bounded(values, n) && Abs(value) <= Bound(n)
    ensures Bounded(values[StepId(n) := value], n + 1)
  {
    forall j: nat | j < n + 1
      ensures StepId(j) in values[StepId(n) := value] && Abs(values[StepId(n) := value][StepId(j)]) <= Bound(j)
    {
      if j < n && StepId(j) == StepId(n) {
        StepIdInjective(j, n);
      }
    }
  }

  lemma NextValue(difficulty: Difficulty, step: Step, i: nat, before: map<string, int>)
    requires difficulty.Valid() && i <= 8 && StepAt(difficulty, i, step) && Bounded(before, i)
    ensures ExactStep(step, before).Some? && InterpretStep(step, before) == ExactStep(step, before)
    ensures Bounded(before[step.id := ExactStep(step, before).value], i + 1)
  {
    GeneratedStepIsExact(difficulty, step, i, before);
    BoundedGrows(before, i, ExactStep(step, before).value);
  }

  /** Every generated workflow runs through, within its bounds, and rounding changes none of its values. */
  lemma {:induction false} GeneratedValues(difficulty: Difficulty, steps: seq<Step>, n: nat)
    requires difficulty.Valid() && Generated(difficulty, steps) && n <= |steps|
    ensures Values(ExactStep, steps, n).Some? && Bounded(Values(ExactStep, steps, n).value, n)
    ensures Values(InterpretStep, steps, n) == Values(ExactStep, steps, n)
  {
    if n > 0 {
      GeneratedValues(difficulty, steps, n - 1);
      NextValue(difficulty, steps[n - 1], n - 1, Values(ExactStep, steps, n - 1).value);
    }
  }

  // The public workflow has the private answer

  lemma GeneratedCompiles(difficulty: Difficulty, steps: seq<Step>, operations: seq<Operation>)
    requires difficulty.Valid() && Generated(difficulty, steps) && |operations| == |steps|
    requires forall k :: 0 <= k < |steps| ==>
      Resolved(steps[k], Keys(steps)) && operations[k] == OperationOf(steps[k], Keys(steps), k == |steps| - 1)
    ensures Compiled(steps, operations)
  {
    GeneratedKeysAreProper(difficulty, steps);
    forall k | 0 <= k < |steps| ensures ProperStep(steps[k]) && Resolved(steps[k], Keys(steps)) {
      GeneratedStepResolves(difficulty, steps, k);
    }
  }

  /** Evaluating the printed expressions in order gives the interpreter's value at every step. */
  lemma PublicWorkflowMeansPrivate(difficulty: Difficulty, steps: seq<Step>, operations: seq<Operation>, n: nat)
    requires difficulty.Valid() && Generated(difficulty, steps) && Compiled(steps, operations) && n <= |steps|
    ensures Outputs(operations, Keys(steps), n) == Values(InterpretStep, steps, n)
    ensures Outputs(operations, Keys(steps), n).Some?
  {
    PrintedWorkflowMeans(steps, operations, n);
    GeneratedValues(difficulty, steps, n);
  }

  /**
   The challenge as it is made: whatever the draws, operations come out, and evaluating them in
   order ends in the private expected answer.
   */
  method MakeChallenge(rng: Rng, difficulty: Difficulty)
    returns (steps: seq<Step>, operations: seq<Operation>, expected: int)
    requires difficulty.Valid()
    modifies rng
    ensures Generated(difficulty, steps) && Compiled(steps, operations)
    ensures Outputs(operations, Keys(steps), |steps|).Some?
    ensures StepId(|steps| - 1) in Outputs(operations, Keys(steps), |steps|).value
    ensures expected == Outputs(operations, Keys(steps), |steps|).value[StepId(|steps| - 1)]
  {
    steps := BuildSteps(rng, difficulty);
    var values := Interpret(steps);
    GeneratedValues(difficulty, steps, |steps|);
    expected := NumberValue(values.value[steps[|steps| - 1].id]);
    assert StepAt(difficulty, |steps| - 1, steps[|steps| - 1]);
    BoundGrows(|steps| - 1, 8);
    LastBound();
    SmallNumbersAreExact(values.value[StepId(|steps| - 1)]);
    var printed := StepsToOperations(steps);
    forall k | 0 <= k < |steps| ensures Resolved(steps[k], Keys(steps)) {
      GeneratedStepResolves(difficulty, steps, k);
    }
    operations := printed.value;
    GeneratedCompiles(difficulty, steps, operations);
    PublicWorkflowMeansPrivate(difficulty, steps, operations, |steps|);
  }

  // Every step matters

  /** A chain of dependencies from the last of `path` back to its first. */
  ghost predicate DependsAlong(steps: seq<Step>, path: seq<nat>) {
    && path != [] && (forall k :: 0 <= k < |path| ==> path[k] < |steps|)
    && forall k :: 0 <= k < |path| - 1 ==> steps[path[k]].id in steps[path[k + 1]].dependencies
  }

  /** From every step a chain of dependencies leads to the terminal one. */
  lemma {:induction false} EveryStepFeedsTheLast(difficulty: Difficulty, steps: seq<Step>, i: nat) returns (path: seq<nat>)
    requires difficulty.Valid() && Built(difficulty, steps) && i < |steps|
    ensures DependsAlong(steps, path) && path[0] == i && path[|path| - 1] == |steps| - 1
    decreases |steps| - i
  {
    if i == |steps| - 1 {
      path := [i];
    } else {
      var rest := EveryStepFeedsTheLast(difficulty, steps, i + 1);
      assert StepAt(difficulty, i, steps[i]) && StepAt(difficulty, i + 1, steps[i + 1]);
      assert steps[i + 1].dependencies[0] == steps[i].id;
      path := [i] + rest;
    }
  }
}
