/**
 The workflow generator, for every outcome of its random draws: which steps it builds, why its
 numbers stay exact, and why the public expressions therefore give the private answer.
 */
module WorkflowGenerator {
  import opened Wrappers
  import opened Expressions
  import opened Workflow
  import opened WorkflowMeaning

  datatype Difficulty = Difficulty(depth: nat, width: nat, edgeCases: bool, metamorphic: bool) {
    predicate Valid() {
      1 <= depth <= 8 && 1 <= width <= 4
    }

    function StepCount(): nat {
      depth + if metamorphic then 1 else 0
    }
  }

  /** A random generator: any stream of numbers, read one after the other. */
  class Rng {
    const stream: nat -> nat
    var position: nat

    constructor (stream: nat -> nat)
      ensures this.stream == stream && position == 0
    {
      this.stream := stream;
      position := 0;
    }

    /** `randint(low, high)`: the next number of the stream, brought into range. */
    method Between(low: int, high: int) returns (x: int)
      requires low <= high
      modifies this
      ensures low <= x <= high && x == low + stream(old(position)) % (high - low + 1)
      ensures position == old(position) + 1
    {
      x := low + stream(position) % (high - low + 1);
      position := position + 1;
    }

    method Choice(options: seq<int>) returns (x: int)
      requires options != []
      modifies this
      ensures x in options && position == old(position) + 1
    {
      var k := Between(0, |options| - 1);
      x := options[k];
    }

    /** Exchanges each place, from the last down, with a place not after it. */
    method Shuffle(xs: seq<string>) returns (ys: seq<string>)
      modifies this
      ensures |ys| == |xs| && multiset(ys) == multiset(xs)
    {
      ys := xs;
      var i := |xs| - 1;
      while i > 0
        invariant |ys| == |xs| && multiset(ys) == multiset(xs)
        invariant i < |xs|
      {
        var j := Between(0, i);
        ys := ys[i := ys[j]][j := ys[i]];
        i := i - 1;
      }
    }
  }

  // Names

  function DecimalText(n: nat): string {
    if n < 10 then [('0' as int + n) as char] else DecimalText(n / 10) + [('0' as int + n % 10) as char]
  }

  function StepId(i: nat): string {
    "step_" + DecimalText(i)
  }

  function Key(i: nat): string {
    "value_" + DecimalText(i)
  }

  lemma {:induction false} DecimalTextInjective(m: nat, n: nat)
    requires DecimalText(m) == DecimalText(n)
    ensures m == n
  {
    var a, b := DecimalText(m), DecimalText(n);
    assert a[|a| - 1] == ('0' as int + m % 10) as char && b[|b| - 1] == ('0' as int + n % 10) as char;
    if m >= 10 && n >= 10 {
      assert a[..|a| - 1] == DecimalText(m / 10) && b[..|b| - 1] == DecimalText(n / 10);
      DecimalTextInjective(m / 10, n / 10);
    }
  }

  lemma StepIdInjective(i: nat, j: nat)
    requires StepId(i) == StepId(j)
    ensures i == j
  {
    assert StepId(i)[5..] == DecimalText(i) && StepId(j)[5..] == DecimalText(j);
    DecimalTextInjective(i, j);
  }

  lemma KeyInjective(i: nat, j: nat)
    requires Key(i) == Key(j)
    ensures i == j
  {
    assert Key(i)[6..] == DecimalText(i) && Key(j)[6..] == DecimalText(j);
    DecimalTextInjective(i, j);
  }

  lemma {:induction false} DecimalTextParts(n: nat)
    ensures forall i :: 0 <= i < |DecimalText(n)| ==> NamePart(DecimalText(n)[i])
  {
    if n >= 10 {
      DecimalTextParts(n / 10);
    }
  }

  lemma KeyIsProper(i: nat)
    ensures Identifier(Key(i)) && Key(i) !in RESERVED
  {
    DecimalTextParts(i);
    assert Key(i)[0] == 'v';
    assert forall k :: 0 <= k < 6 ==> NamePart("value_"[k]);
    NoReservedStartsWithV(Key(i));
  }

  lemma NoReservedStartsWithV(s: string)
    requires s != "" && s[0] == 'v'
    ensures s !in RESERVED && s !in KEYWORDS
  {
  }

  // What is built

  const EDGE_POOL: seq<int> := [-7, -3, -1, 0, 1, 2, 5, 8, 13]
  const MODULI: seq<int> := [5, 7, 11, 13, 17, 19]

  predicate FirstOp(difficulty: Difficulty, op: Op) {
    && !TakesSource(op) && 3 <= |op.numbers| <= 6
    && forall i :: 0 <= i < |op.numbers| ==> if difficulty.edgeCases then op.numbers[i] in EDGE_POOL else 1 <= op.numbers[i] <= 9
  }

  predicate MiddleOp(op: Op) {
    match op
    case AddOffset(offset) => -9 <= offset <= 17
    case MultiplyMod(multiplier, modulus) => 2 <= multiplier <= 7 && modulus in MODULI
    case AbsShift(pivot, offset) => -12 <= pivot <= 24 && 0 <= offset <= 9
    case _ => false
  }

  predicate OpAt(difficulty: Difficulty, i: nat, op: Op) {
    if i == 0 then FirstOp(difficulty, op)
    else if i < difficulty.depth then MiddleOp(op)
    else op.NeutralShift? && 3 <= op.neutral <= 31
  }

  ghost predicate Earlier(id: string, i: nat) {
    exists j: nat :: j < i && id == StepId(j)
  }

  ghost predicate Distinct(ids: seq<string>) {
    forall a, b :: 0 <= a < b < |ids| ==> ids[a] != ids[b]
  }

  function Min(a: nat, b: nat): nat {
    if a < b then a else b
  }

  /** The first step stands alone; every other depends on its predecessor and on distinct earlier ones. */
  ghost predicate DependenciesAt(width: nat, i: nat, dependencies: seq<string>) {
    && |dependencies| == Min(width, i) && Distinct(dependencies)
    && (i > 0 && width > 0 ==> dependencies[0] == StepId(i - 1))
    && forall k :: 0 <= k < |dependencies| ==> Earlier(dependencies[k], i)
  }

  ghost predicate StepAt(difficulty: Difficulty, i: nat, step: Step) {
    && step.id == StepId(i) && step.outputKey == Key(i)
    && OpAt(difficulty, i, step.op) && DependenciesAt(difficulty.width, i, step.dependencies)
  }

  ghost predicate Built(difficulty: Difficulty, steps: seq<Step>) {
    forall i :: 0 <= i < |steps| ==> StepAt(difficulty, i, steps[i])
  }

  ghost predicate Generated(difficulty: Difficulty, steps: seq<Step>) {
    |steps| == difficulty.StepCount() && Built(difficulty, steps)
  }

  lemma BuiltGrows(difficulty: Difficulty, steps: seq<Step>, step: Step)
    requires Built(difficulty, steps) && StepAt(difficulty, |steps|, step)
    ensures Built(difficulty, steps + [step])
  {
  }

  lemma BuiltIds(difficulty: Difficulty, steps: seq<Step>)
    requires Built(difficulty, steps)
    ensures forall i :: 0 <= i < |steps| ==> steps[i].id == StepId(i)
  {
    forall i | 0 <= i < |steps| ensures steps[i].id == StepId(i) {
      assert StepAt(difficulty, i, steps[i]);
    }
  }

  function Ids(steps: seq<Step>): (ids: seq<string>)
    ensures |ids| == |steps| && forall i :: 0 <= i < |ids| ==> ids[i] == steps[i].id
  {
    seq(|steps|, i requires 0 <= i < |steps| => steps[i].id)
  }

  lemma CountsOnce(ids: seq<string>, x: string)
    requires Distinct(ids)
    ensures multiset(ids)[x] <= 1
  {
    if x in ids {
      var k :| 0 <= k < |ids| && ids[k] == x;
      assert ids == ids[..k] + [x] + ids[k + 1..];
      assert x !in ids[..k] && x !in ids[k + 1..];
    }
  }

  lemma ShuffledDistinct(ids: seq<string>, shuffled: seq<string>)
    requires Distinct(ids) && multiset(ids) == multiset(shuffled)
    ensures Distinct(shuffled)
  {
    forall a, b | 0 <= a < b < |shuffled| ensures shuffled[a] != shuffled[b] {
      CountsOnce(ids, shuffled[a]);
      assert shuffled == shuffled[..b] + [shuffled[b]] + shuffled[b + 1..];
      assert shuffled[..b][a] == shuffled[a];
    }
  }

  lemma IdsAreDistinct(ids: seq<string>)
    requires forall i :: 0 <= i < |ids| ==> ids[i] == StepId(i)
    ensures Distinct(ids)
  {
    forall a, b | 0 <= a < b < |ids| ensures ids[a] != ids[b] {
      if ids[a] == ids[b] {
        StepIdInjective(a, b);
      }
    }
  }

  lemma ShuffledIsEarlier(ids: seq<string>, shuffled: seq<string>, k: nat)
    requires forall i :: 0 <= i < |ids| ==> ids[i] == StepId(i)
    requires multiset(shuffled) == multiset(ids) && k < |shuffled|
    ensures Earlier(shuffled[k], |ids| + 1) && shuffled[k] != StepId(|ids|)
  {
    assert shuffled[k] in multiset(ids);
    var j: nat :| j < |ids| && ids[j] == shuffled[k];
    assert shuffled[k] == StepId(j);
    if shuffled[k] == StepId(|ids|) {
      StepIdInjective(j, |ids|);
    }
  }

  /** The predecessor followed by some of the shuffled earlier steps is what a step may depend on. */
  lemma ChosenDependencies(width: nat, ids: seq<string>, shuffled: seq<string>)
    requires width > 0 && forall i :: 0 <= i < |ids| ==> ids[i] == StepId(i)
    requires multiset(shuffled) == multiset(ids)
    ensures Min(width, |ids| + 1) - 1 <= |shuffled|
    ensures DependenciesAt(width, |ids| + 1, [StepId(|ids|)] + shuffled[..Min(width, |ids| + 1) - 1])
  {
    assert |shuffled| == |multiset(shuffled)| == |ids|;
    IdsAreDistinct(ids);
    ShuffledDistinct(ids, shuffled);
    forall k | 0 <= k < |shuffled| ensures Earlier(shuffled[k], |ids| + 1) && shuffled[k] != StepId(|ids|) {
      ShuffledIsEarlier(ids, shuffled, k);
    }
    assert Earlier(StepId(|ids|), |ids| + 1);
  }

  method ChooseNumbers(rng: Rng, edgeCases: bool) returns (numbers: seq<int>)
    modifies rng
    ensures 3 <= |numbers| <= 6
    ensures forall i :: 0 <= i < |numbers| ==> if edgeCases then numbers[i] in EDGE_POOL else 1 <= numbers[i] <= 9
  {
    var count := rng.Between(3, 6);
    numbers := [];
    while |numbers| < count
      invariant |numbers| <= count
      invariant forall i :: 0 <= i < |numbers| ==> if edgeCases then numbers[i] in EDGE_POOL else 1 <= numbers[i] <= 9
    {
      var x;
      if edgeCases {
        x := rng.Choice(EDGE_POOL);
      } else {
        x := rng.Between(1, 9);
      }
      numbers := numbers + [x];
    }
  }

  method ChooseOp(rng: Rng) returns (op: Op)
    modifies rng
    ensures MiddleOp(op)
  {
    var kind := rng.Between(0, 2);
    if kind == 0 {
      var offset := rng.Between(-9, 17);
      op := AddOffset(offset);
    } else if kind == 1 {
      var multiplier := rng.Between(2, 7);
      var modulus := rng.Choice(MODULI);
      op := MultiplyMod(multiplier, modulus);
    } else {
      var pivot := rng.Between(-12, 24);
      var offset := rng.Between(0, 9);
      op := AbsShift(pivot, offset);
    }
  }

  method ChooseDependencies(rng: Rng, difficulty: Difficulty, steps: seq<Step>) returns (dependencies: seq<string>)
    requires steps != [] && difficulty.Valid()
    requires forall i :: 0 <= i < |steps| ==> steps[i].id == StepId(i)
    modifies rng
    ensures DependenciesAt(difficulty.width, |steps|, dependencies)
  {
    var count := Min(difficulty.width, |steps|);
    var shuffled := rng.Shuffle(Ids(steps[..|steps| - 1]));
    ChosenDependencies(difficulty.width, Ids(steps[..|steps| - 1]), shuffled);
    dependencies := [steps[|steps| - 1].id] + shuffled[..count - 1];
  }

  /** Whatever the draws, the generator builds a workflow of the stated shape. */
  method BuildSteps(rng: Rng, difficulty: Difficulty) returns (steps: seq<Step>)
    requires difficulty.Valid()
    modifies rng
    ensures Generated(difficulty, steps)
  {
    var coin := rng.Between(0, 99);
    var numbers := ChooseNumbers(rng, difficulty.edgeCases);
    steps := [Step(StepId(0), Key(0), if coin < 65 then SumSquares(numbers) else RangeSpan(numbers), [])];
    while |steps| < difficulty.depth
      invariant 1 <= |steps| <= difficulty.depth
      invariant Built(difficulty, steps)
    {
      BuiltIds(difficulty, steps);
      var dependencies := ChooseDependencies(rng, difficulty, steps);
      var op := ChooseOp(rng);
      BuiltGrows(difficulty, steps, Step(StepId(|steps|), Key(|steps|), op, dependencies));
      steps := steps + [Step(StepId(|steps|), Key(|steps|), op, dependencies)];
    }
    if difficulty.metamorphic {
      BuiltIds(difficulty, steps);
      var dependencies := ChooseDependencies(rng, difficulty, steps);
      var neutral := rng.Between(3, 31);
      BuiltGrows(difficulty, steps, Step(StepId(|steps|), Key(|steps|), NeutralShift(neutral), dependencies));
      steps := steps + [Step(StepId(|steps|), Key(|steps|), NeutralShift(neutral), dependencies)];
    }
  }
}
