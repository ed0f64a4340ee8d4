/**
 Generated tool workflows: steps, their private interpreter, and the expressions they are printed
 as. Evaluating the printed expressions in order gives what the interpreter computes.
 */
module Workflow {
  import opened Wrappers
  import opened Expressions

  datatype Op =
    | SumSquares(numbers: seq<int>)
    | RangeSpan(numbers: seq<int>)
    | AddOffset(offset: int)
    | MultiplyMod(multiplier: int, modulus: int)
    | AbsShift(pivot: int, offset: int)
    | NeutralShift(neutral: int)

  datatype Step = Step(id: string, outputKey: string, op: Op, dependencies: seq<string>)

  datatype Operation = Operation(
    id: string, outputKey: string, expression: string, args: map<string, Value>, dependencies: seq<string>,
    visible: bool)

  predicate TakesSource(op: Op) {
    !op.SumSquares? && !op.RangeSpan?
  }

  // Numbers pass through a double

  const EXACT_LIMIT: nat := 0x20_0000_0000_0000

  /** The spacing of doubles around a magnitude. */
  function Spacing(n: nat): (u: nat)
    ensures u > 0
  {
    if n < EXACT_LIMIT then 1 else 2 * Spacing(n / 2)
  }

  /** The multiple of `u` nearest to `n`, ties to the even one. */
  function NearestMultiple(n: nat, u: nat): nat
    requires u > 0
  {
    var q, r := n / u, n % u;
    if 2 * r > u || (2 * r == u && q % 2 == 1) then (q + 1) * u else q * u
  }

  /** `int(float(value))`. */
  function NumberValue(value: int): int {
    if value < 0 then -(NearestMultiple(-value, Spacing(-value)) as int) else NearestMultiple(value, Spacing(value))
  }

  lemma SmallNumbersAreExact(value: int)
    requires Abs(value) < EXACT_LIMIT
    ensures NumberValue(value) == value
  {
  }

  lemma LargeNumbersAreNot()
    ensures NumberValue(EXACT_LIMIT + 1) == EXACT_LIMIT
  {
    assert Spacing(EXACT_LIMIT + 1) == 2 * Spacing(0x10_0000_0000_0000) == 2;
    assert (EXACT_LIMIT + 1) / 2 == 0x10_0000_0000_0000 && (EXACT_LIMIT + 1) % 2 == 1;
  }

  // The interpreter

  function SumOfSquares(ns: seq<int>): int {
    if ns == [] then 0 else SumOfSquares(ns[..|ns| - 1]) + ns[|ns| - 1] * ns[|ns| - 1]
  }

  /** The sum of the dependencies' values; a missing one raises. */
  function DependencySum(dependencies: seq<string>, values: map<string, int>): Option<int> {
    if dependencies == [] then Some(0)
    else
      var n := |dependencies| - 1;
      var before := DependencySum(dependencies[..n], values);
      if before.None? || dependencies[n] !in values then None else Some(before.value + values[dependencies[n]])
  }

  /** What an operation computes from its source, before any rounding. */
  function Compute(op: Op, source: int): Option<int> {
    match op
    case SumSquares(ns) => Some(SumOfSquares(ns))
    case RangeSpan(ns) => if ns == [] then None else Some(Greatest(ns) - Least(ns))
    case AddOffset(offset) => Some(source + offset)
    case MultiplyMod(multiplier, modulus) => if modulus == 0 then None else Some(Remainder(source * multiplier, modulus))
    case AbsShift(pivot, offset) => Some(Abs(source - pivot) + offset)
    case NeutralShift(neutral) => Some(source + neutral - neutral)
  }

  function Rounded(value: Option<int>): Option<int> {
    if value.Some? then Some(NumberValue(value.value)) else None
  }

  function InterpretStep(step: Step, values: map<string, int>): Option<int> {
    if !TakesSource(step.op) then Rounded(Compute(step.op, 0))
    else
      var source := DependencySum(step.dependencies, values);
      if source.None? then None else Rounded(Compute(step.op, NumberValue(source.value)))
  }

  /** The same without rounding anywhere. */
  function ExactStep(step: Step, values: map<string, int>): Option<int> {
    if !TakesSource(step.op) then Compute(step.op, 0)
    else
      var source := DependencySum(step.dependencies, values);
      if source.None? then None else Compute(step.op, source.value)
  }

  /** The values of the first `n` steps, by step id. */
  function Values(run: (Step, map<string, int>) -> Option<int>, steps: seq<Step>, n: nat): Option<map<string, int>>
    requires n <= |steps|
  {
    if n == 0 then Some(map[])
    else
      var before := Values(run, steps, n - 1);
      if before.None? then None
      else
        var value := run(steps[n - 1], before.value);
        if value.None? then None else Some(before.value[steps[n - 1].id := value.value])
  }

  /** The private interpreter's loop. */
  method Interpret(steps: seq<Step>) returns (values: Option<map<string, int>>)
    ensures values == Values(InterpretStep, steps, |steps|)
  {
    var found: map<string, int> := map[];
    for k := 0 to |steps|
      invariant Values(InterpretStep, steps, k) == Some(found)
      invariant forall n :: k < n <= |steps| && Values(InterpretStep, steps, k).None? ==> Values(InterpretStep, steps, n).None?
    {
      var value := InterpretStep(steps[k], found);
      if value.None? {
        FailureLasts(InterpretStep, steps, k + 1, |steps|);
        return None;
      }
      found := found[steps[k].id := value.value];
    }
    values := Some(found);
  }

  lemma {:induction false} FailureLasts(run: (Step, map<string, int>) -> Option<int>, steps: seq<Step>, k: nat, n: nat)
    requires k <= n <= |steps| && Values(run, steps, k).None?
    ensures Values(run, steps, n).None?
  {
    if k < n {
      FailureLasts(run, steps, k, n - 1);
    }
  }

  // The printed expressions

  function Join(sources: seq<string>): string {
    if sources == [] then ""
    else if |sources| == 1 then sources[0]
    else Join(sources[..|sources| - 1]) + " + " + sources[|sources| - 1]
  }

  function DependencyText(sources: seq<string>): string {
    if |sources| == 1 then sources[0] else "(" + Join(sources) + ")"
  }

  function StepText(op: Op, sources: seq<string>): string {
    match op
    case SumSquares(_) => "sum(x*x for x in numbers)"
    case RangeSpan(_) => "max(numbers) - min(numbers)"
    case AddOffset(_) => DependencyText(sources) + " + offset"
    case MultiplyMod(_, _) => "(" + DependencyText(sources) + " * multiplier) % modulus"
    case AbsShift(_, _) => "abs(" + DependencyText(sources) + " - pivot) + offset"
    case NeutralShift(_) => "(" + DependencyText(sources) + " + neutral) - neutral"
  }

  function Args(op: Op): map<string, Value> {
    match op
    case SumSquares(ns) => map["numbers" := Nums(ns)]
    case RangeSpan(ns) => map["numbers" := Nums(ns)]
    case AddOffset(offset) => map["offset" := Num(offset)]
    case MultiplyMod(multiplier, modulus) => map["multiplier" := Num(multiplier), "modulus" := Num(modulus)]
    case AbsShift(pivot, offset) => map["pivot" := Num(pivot), "offset" := Num(offset)]
    case NeutralShift(neutral) => map["neutral" := Num(neutral)]
  }

  /** `{step.step_id: step.output_key for step in steps}`. */
  function Keys(steps: seq<Step>): map<string, string> {
    if steps == [] then map[]
    else Keys(steps[..|steps| - 1])[steps[|steps| - 1].id := steps[|steps| - 1].outputKey]
  }

  function Sources(dependencies: seq<string>, keys: map<string, string>): (sources: seq<string>)
    requires forall i :: 0 <= i < |dependencies| ==> dependencies[i] in keys
    ensures |sources| == |dependencies|
    ensures forall i :: 0 <= i < |dependencies| ==> sources[i] == keys[dependencies[i]]
  {
    seq(|dependencies|, i requires 0 <= i < |dependencies| => keys[dependencies[i]])
  }

  predicate Resolved(step: Step, keys: map<string, string>) {
    forall i :: 0 <= i < |step.dependencies| ==> step.dependencies[i] in keys
  }

  function OperationOf(step: Step, keys: map<string, string>, last: bool): Operation
    requires Resolved(step, keys)
  {
    Operation(step.id, step.outputKey, StepText(step.op, Sources(step.dependencies, keys)), Args(step.op),
              step.dependencies, last)
  }

  /** The public operations, unless a dependency names no step. */
  method StepsToOperations(steps: seq<Step>) returns (operations: Option<seq<Operation>>)
    ensures operations.Some? <==> forall k :: 0 <= k < |steps| ==> Resolved(steps[k], Keys(steps))
    ensures operations.Some? ==> |operations.value| == |steps|
    ensures operations.Some? ==> forall k :: 0 <= k < |steps| ==>
      operations.value[k] == OperationOf(steps[k], Keys(steps), k == |steps| - 1)
  {
    var keys := Keys(steps);
    var built: seq<Operation> := [];
    for k := 0 to |steps|
      invariant |built| == k
      invariant forall j :: 0 <= j < k ==> Resolved(steps[j], keys)
      invariant forall j :: 0 <= j < k ==> built[j] == OperationOf(steps[j], keys, j == |steps| - 1)
    {
      if !Resolved(steps[k], keys) {
        return None;
      }
      built := built + [OperationOf(steps[k], keys, k == |steps| - 1)];
    }
    operations := Some(built);
  }

  // Running the public operations

  /** The arguments of an operation, extended with its dependencies' outputs. */
  function Environment(args: map<string, Value>, dependencies: seq<string>, keys: map<string, string>,
                       values: map<string, int>): Option<map<string, Value>>
  {
    if dependencies == [] then Some(args)
    else
      var n := |dependencies| - 1;
      var before := Environment(args, dependencies[..n], keys, values);
      if before.None? || dependencies[n] !in keys || dependencies[n] !in values then None
      else Some(before.value[keys[dependencies[n]] := Num(values[dependencies[n]])])
  }

  function RunOperation(operation: Operation, keys: map<string, string>, values: map<string, int>): Option<int> {
    var env := Environment(operation.args, operation.dependencies, keys, values);
    if env.None? then None
    else
      var value := Evaluate(operation.expression, env.value);
      if value.Some? && value.value.Num? then Some(value.value.n) else None
  }

  /** What a solver of the public workflow computes: each printed expression, in order. */
  function Outputs(operations: seq<Operation>, keys: map<string, string>, n: nat): Option<map<string, int>>
    requires n <= |operations|
  {
    if n == 0 then Some(map[])
    else
      var before := Outputs(operations, keys, n - 1);
      if before.None? then None
      else
        var value := RunOperation(operations[n - 1], keys, before.value);
        if value.None? then None else Some(before.value[operations[n - 1].id := value.value])
  }
}
