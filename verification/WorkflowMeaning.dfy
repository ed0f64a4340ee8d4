/**
 Printing preserves meaning: for every workflow with proper output keys, evaluating the printed
 expressions in order gives exactly the unrounded values of its steps.
 */
module WorkflowMeaning {
  import opened Wrappers
  import opened Expressions
  import opened Workflow

  // Texts that spell tokens

  ghost predicate Prints(text: string, tokens: seq<Token>) {
    exists pieces :: Spaced(pieces) && Spell(pieces) == text && Tokens(pieces) == tokens
  }

  lemma SpellOne(p: Piece)
    ensures Spell([p]) == Text(p) && Tokens([p]) == TokensOf(p)
  {
    assert [p][1..] == [];
  }

  lemma PrintsName(n: string)
    requires IsName(n)
    ensures Prints(n, [Name(n)])
  {
    SpellOne(Word(n));
    assert Spaced([Word(n)]);
  }

  lemma SpacedAround(a: seq<Piece>, middle: seq<Piece>, b: seq<Piece>)
    requires Spaced(a) && Spaced(middle) && Spaced(b)
    requires middle != [] && !middle[0].Word? && !middle[|middle| - 1].Word?
    ensures Spaced(a + middle + b)
  {
    var all := a + middle + b;
    forall i | 0 <= i < |all| - 1 && all[i].Word? ensures !all[i + 1].Word? {
      if i < |a| - 1 {
        assert all[i] == a[i] && all[i + 1] == a[i + 1];
      } else if |a| <= i < |a| + |middle| - 1 {
        assert all[i] == middle[i - |a|] && all[i + 1] == middle[i + 1 - |a|];
      } else if |a| + |middle| <= i {
        assert all[i] == b[i - |a| - |middle|] && all[i + 1] == b[i + 1 - |a| - |middle|];
      }
    }
  }

  /** Two printed texts around a separator that starts and ends without a word. */
  lemma PrintsAround(a: string, ta: seq<Token>, middle: seq<Piece>, b: string, tb: seq<Token>)
    requires Prints(a, ta) && Prints(b, tb) && Spaced(middle)
    requires middle != [] && !middle[0].Word? && !middle[|middle| - 1].Word?
    ensures Prints(a + Spell(middle) + b, ta + Tokens(middle) + tb)
  {
    var pa :| Spaced(pa) && Spell(pa) == a && Tokens(pa) == ta;
    var pb :| Spaced(pb) && Spell(pb) == b && Tokens(pb) == tb;
    SpacedAround(pa, middle, pb);
    SpellAround(pa, middle, pb);
    PrintsBy(pa + middle + pb, a + Spell(middle) + b, ta + Tokens(middle) + tb);
  }

  lemma SpellAround(a: seq<Piece>, middle: seq<Piece>, b: seq<Piece>)
    ensures Spell(a + middle + b) == Spell(a) + Spell(middle) + Spell(b)
    ensures Tokens(a + middle + b) == Tokens(a) + Tokens(middle) + Tokens(b)
  {
    SpellAppend(a + middle, b);
    SpellAppend(a, middle);
  }

  lemma PrintsBy(pieces: seq<Piece>, text: string, tokens: seq<Token>)
    requires Spaced(pieces) && Spell(pieces) == text && Tokens(pieces) == tokens
    ensures Prints(text, tokens)
  {
  }

  lemma PrintsNothing()
    ensures Prints("", [])
  {
    assert Spaced([]) && Spell([]) == "" && Tokens([]) == [];
  }

  lemma SpellMark(c: char)
    requires c in SIGNS
    ensures Spaced([Mark(c)]) && Spell([Mark(c)]) == [c] && Tokens([Mark(c)]) == [Symbol(c)]
  {
    SpellOne(Mark(c));
  }

  lemma SpacedMark(c: char)
    requires c in SIGNS
    ensures Spaced([Blank] + [Mark(c)] + [Blank])
  {
  }

  lemma SpellSpacedMark(c: char)
    requires c in SIGNS
    ensures Spell([Blank] + [Mark(c)] + [Blank]) == " " + [c] + " "
    ensures Tokens([Blank] + [Mark(c)] + [Blank]) == [] + [Symbol(c)] + []
  {
    SpellOne(Blank);
    SpellOne(Mark(c));
    SpellAround([Blank], [Mark(c)], [Blank]);
  }

  lemma BlanksAround(c: char)
    ensures " " + [c] + " " == [' ', c, ' '] && [] + [Symbol(c)] + [] == [Symbol(c)]
  {
  }

  /** An operator with blanks around it. */
  lemma PrintsInfix(a: string, ta: seq<Token>, c: char, b: string, tb: seq<Token>)
    requires Prints(a, ta) && Prints(b, tb) && c in SIGNS
    ensures Prints(a + [' ', c, ' '] + b, ta + [Symbol(c)] + tb)
  {
    SpacedMark(c);
    SpellSpacedMark(c);
    PrintsAround(a, ta, [Blank] + [Mark(c)] + [Blank], b, tb);
    BlanksAround(c);
  }

  // Texts that show expressions, rule by rule

  ghost predicate ShowsExpr(text: string, e: Expr) {
    Prints(text, ExprTokens(e)) && ProperExpr(e)
  }

  ghost predicate ShowsTerm(text: string, t: Term) {
    Prints(text, TermTokens(t)) && ProperTerm(t)
  }

  ghost predicate ShowsFactor(text: string, f: Factor) {
    Prints(text, FactorTokens(f)) && ProperFactor(f)
  }

  lemma ShowsVariable(n: string)
    requires Identifier(n)
    ensures ShowsFactor(n, Var(n)) && ShowsTerm(n, Single(Var(n))) && ShowsExpr(n, Only(Single(Var(n))))
  {
    PrintsName(n);
  }

  lemma ShowsWhole(text: string, f: Factor)
    requires ShowsFactor(text, f)
    ensures ShowsTerm(text, Single(f)) && ShowsExpr(text, Only(Single(f)))
  {
  }

  function SignChar(sign: Sign): char {
    if sign.Plus? then '+' else '-'
  }

  function ScaleChar(scale: Scale): char {
    if scale.Times? then '*' else '%'
  }

  lemma ShowsChain(a: string, l: Expr, sign: Sign, b: string, r: Term)
    requires ShowsExpr(a, l) && ShowsTerm(b, r)
    ensures ShowsExpr(a + [' ', SignChar(sign), ' '] + b, Chain(l, sign, r))
  {
    PrintsInfix(a, ExprTokens(l), SignChar(sign), b, TermTokens(r));
  }

  lemma ShowsProduct(a: string, h: Term, scale: Scale, b: string, f: Factor)
    requires ShowsTerm(a, h) && ShowsFactor(b, f)
    ensures ShowsTerm(a + [' ', ScaleChar(scale), ' '] + b, Product(h, scale, f))
    ensures ShowsExpr(a + [' ', ScaleChar(scale), ' '] + b, Only(Product(h, scale, f)))
  {
    PrintsInfix(a, TermTokens(h), ScaleChar(scale), b, FactorTokens(f));
  }

  lemma ShowsTightProduct(a: string, h: Term, scale: Scale, b: string, f: Factor)
    requires ShowsTerm(a, h) && ShowsFactor(b, f)
    ensures ShowsTerm(a + [ScaleChar(scale)] + b, Product(h, scale, f))
    ensures ShowsExpr(a + [ScaleChar(scale)] + b, Only(Product(h, scale, f)))
  {
    SpellMark(ScaleChar(scale));
    PrintsAround(a, TermTokens(h), [Mark(ScaleChar(scale))], b, FactorTokens(f));
  }

  lemma PrintsEnclosed(before: string, tb: seq<Token>, a: string, ta: seq<Token>)
    requires Prints(before, tb) && Prints(a, ta)
    ensures Prints(before + "(" + a + ")", tb + [Symbol('(')] + ta + [Symbol(')')])
  {
    PrintsNothing();
    SpellMark('(');
    SpellMark(')');
    PrintsAround(before, tb, [Mark('(')], a, ta);
    PrintsAround(before + "(" + a, tb + [Symbol('(')] + ta, [Mark(')')], "", []);
    assert before + "(" + a + [')'] + "" == before + "(" + a + ")";
    assert tb + [Symbol('(')] + ta + [Symbol(')')] + [] == tb + [Symbol('(')] + ta + [Symbol(')')];
  }

  lemma ShowsGroup(a: string, e: Expr)
    requires ShowsExpr(a, e)
    ensures ShowsFactor("(" + a + ")", Group(e))
  {
    PrintsNothing();
    PrintsEnclosed("", [], a, ExprTokens(e));
    NothingBefore(a, ExprTokens(e));
  }

  lemma NothingBefore(a: string, ta: seq<Token>)
    ensures "" + "(" + a + ")" == "(" + a + ")"
    ensures [] + [Symbol('(')] + ta + [Symbol(')')] == [Symbol('(')] + ta + [Symbol(')')]
  {
  }

  lemma ShowsApply(n: string, a: string, e: Expr)
    requires Identifier(n) && ShowsExpr(a, e)
    ensures ShowsFactor(n + "(" + a + ")", Apply(n, e))
  {
    PrintsName(n);
    PrintsEnclosed(n, [Name(n)], a, ExprTokens(e));
    assert [Name(n)] + [Symbol('(')] + ExprTokens(e) + [Symbol(')')] == FactorTokens(Apply(n, e));
  }

  /** `word` after a blank. */
  lemma SpellWord(n: string)
    ensures Spell([Blank] + [Word(n)]) == " " + n && Tokens([Blank] + [Word(n)]) == [] + [Name(n)]
  {
    SpellOne(Blank);
    SpellOne(Word(n));
    SpellAppend([Blank], [Word(n)]);
  }

  function ForPieces(v: string): seq<Piece> {
    [Blank] + [Word("for")] + ([Blank] + [Word(v)]) + (([Blank] + [Word("in")]) + [Blank])
  }

  lemma SpacedFor(v: string)
    requires Identifier(v)
    ensures Spaced(ForPieces(v))
  {
    KeywordsAreNames();
    assert ForPieces(v) == [Blank, Word("for"), Blank, Word(v), Blank, Word("in"), Blank];
  }

  lemma SpellFor(v: string)
    ensures Spell(ForPieces(v)) == (" " + "for") + (" " + v) + ((" " + "in") + " ")
    ensures Tokens(ForPieces(v)) == ([] + [Name("for")]) + ([] + [Name(v)]) + (([] + [Name("in")]) + [])
  {
    SpellWord("for");
    SpellWord(v);
    SpellWord("in");
    SpellOne(Blank);
    SpellAppend([Blank] + [Word("in")], [Blank]);
    SpellAround([Blank] + [Word("for")], [Blank] + [Word(v)], ([Blank] + [Word("in")]) + [Blank]);
  }

  lemma ForTokens(v: string)
    ensures ([] + [Name("for")]) + ([] + [Name(v)]) + (([] + [Name("in")]) + []) == [Name("for"), Name(v), Name("in")]
  {
  }

  lemma KeywordsAreNames()
    ensures IsName("for") && IsName("in")
  {
  }

  function ForText(v: string): string {
    (" " + "for") + (" " + v) + ((" " + "in") + " ")
  }

  lemma PrintsFor(a: string, ta: seq<Token>, v: string, b: string, tb: seq<Token>)
    requires Identifier(v) && Prints(a, ta) && Prints(b, tb)
    ensures Prints(a + ForText(v) + b, ta + [Name("for"), Name(v), Name("in")] + tb)
  {
    SpacedFor(v);
    SpellFor(v);
    ForTokens(v);
    PrintsAround(a, ta, ForPieces(v), b, tb);
  }

  lemma ShowsFold(n: string, a: string, e: Expr, v: string, b: string, s: Expr)
    requires Identifier(n) && Identifier(v) && ShowsExpr(a, e) && ShowsExpr(b, s)
    ensures ShowsFactor(n + "(" + (a + ForText(v) + b) + ")", Fold(n, e, v, s))
  {
    PrintsFor(a, ExprTokens(e), v, b, ExprTokens(s));
    PrintsName(n);
    PrintsEnclosed(n, [Name(n)], a + ForText(v) + b, ExprTokens(e) + [Name("for"), Name(v), Name("in")] + ExprTokens(s));
    FoldTokens(n, ExprTokens(e), v, ExprTokens(s));
  }

  lemma FoldTokens(n: string, te: seq<Token>, v: string, ts: seq<Token>)
    ensures [Name(n)] + [Symbol('(')] + (te + [Name("for"), Name(v), Name("in")] + ts) + [Symbol(')')]
      == [Name(n), Symbol('(')] + te + [Name("for"), Name(v), Name("in")] + ts + [Symbol(')')]
  {
  }

  lemma PrintedExpression(text: string, e: Expr, env: map<string, Value>)
    requires ShowsExpr(text, e)
    ensures Evaluate(text, env) == EvalExpr(e, env)
  {
    var pieces :| Spaced(pieces) && Spell(pieces) == text && Tokens(pieces) == ExprTokens(e);
    SpelledExpression(pieces, e, env);
  }

  // The expressions of the six operations

  function Variable(n: string): Term {
    Single(Var(n))
  }

  function Sum(sources: seq<string>): Expr
    requires sources != []
  {
    var n := |sources| - 1;
    if n == 0 then Only(Variable(sources[0])) else Chain(Sum(sources[..n]), Plus, Variable(sources[n]))
  }

  function DependencyFactor(sources: seq<string>): Factor
    requires sources != []
  {
    if |sources| == 1 then Var(sources[0]) else Group(Sum(sources))
  }

  function StepExpr(op: Op, sources: seq<string>): Expr
    requires TakesSource(op) ==> sources != []
  {
    match op
    case SumSquares(_) =>
      Only(Single(Fold("sum", Only(Product(Variable("x"), Times, Var("x"))), "x", Only(Variable("numbers")))))
    case RangeSpan(_) =>
      Chain(Only(Single(Apply("max", Only(Variable("numbers"))))), Minus, Single(Apply("min", Only(Variable("numbers")))))
    case AddOffset(_) => Chain(Only(Single(DependencyFactor(sources))), Plus, Variable("offset"))
    case MultiplyMod(_, _) =>
      Only(Product(Single(Group(Only(Product(Single(DependencyFactor(sources)), Times, Var("multiplier"))))), Modulo, Var("modulus")))
    case AbsShift(_, _) =>
      Chain(Only(Single(Apply("abs", Chain(Only(Single(DependencyFactor(sources))), Minus, Variable("pivot"))))), Plus, Variable("offset"))
    case NeutralShift(_) =>
      Chain(Only(Single(Group(Chain(Only(Single(DependencyFactor(sources))), Plus, Variable("neutral"))))), Minus, Variable("neutral"))
  }

  ghost predicate Identifiers(sources: seq<string>) {
    forall i :: 0 <= i < |sources| ==> Identifier(sources[i])
  }

  lemma {:induction false} JoinShows(sources: seq<string>)
    requires sources != [] && Identifiers(sources)
    ensures ShowsExpr(Join(sources), Sum(sources))
  {
    var n := |sources| - 1;
    ShowsVariable(sources[n]);
    if n > 0 {
      JoinShows(sources[..n]);
      ShowsChain(Join(sources[..n]), Sum(sources[..n]), Plus, sources[n], Variable(sources[n]));
      assert [' ', SignChar(Plus), ' '] == " + ";
    }
  }

  lemma DependencyShows(sources: seq<string>)
    requires sources != [] && Identifiers(sources)
    ensures ShowsFactor(DependencyText(sources), DependencyFactor(sources))
    ensures ShowsTerm(DependencyText(sources), Single(DependencyFactor(sources)))
    ensures ShowsExpr(DependencyText(sources), Only(Single(DependencyFactor(sources))))
  {
    if |sources| == 1 {
      ShowsVariable(sources[0]);
    } else {
      JoinShows(sources);
      ShowsGroup(Join(sources), Sum(sources));
      ShowsWhole(DependencyText(sources), DependencyFactor(sources));
    }
  }

  lemma ArgumentNames()
    ensures Identifier("numbers") && Identifier("offset") && Identifier("multiplier") && Identifier("modulus")
    ensures Identifier("pivot") && Identifier("neutral") && Identifier("x")
    ensures Identifier("sum") && Identifier("max") && Identifier("min") && Identifier("abs")
  {
    LongNames();
    ShortNames();
    BuiltinNames();
  }

  lemma LongNames()
    ensures Identifier("numbers") && Identifier("offset") && Identifier("multiplier") && Identifier("modulus")
  {
  }

  lemma ShortNames()
    ensures Identifier("pivot") && Identifier("neutral") && Identifier("x")
  {
  }

  lemma BuiltinNames()
    ensures Identifier("sum") && Identifier("max") && Identifier("min") && Identifier("abs")
  {
  }

  // The six texts, cut at their operators

  lemma SquaresText()
    ensures "sum" + "(" + (("x" + ['*'] + "x") + ForText("x") + "numbers") + ")"
      == "sum(x*x for x in numbers)"
  {
  }

  lemma SpanText()
    ensures "max" + "(" + "numbers" + ")" + [' ', '-', ' '] + ("min" + "(" + "numbers" + ")") == "max(numbers) - min(numbers)"
  {
  }

  lemma OffsetText(d: string)
    ensures d + [' ', '+', ' '] + "offset" == d + " + offset"
  {
  }

  lemma ModText(d: string)
    ensures "(" + (d + [' ', '*', ' '] + "multiplier") + ")" + [' ', '%', ' '] + "modulus" == "(" + d + " * multiplier) % modulus"
  {
  }

  lemma AbsText(d: string)
    ensures "abs" + "(" + (d + [' ', '-', ' '] + "pivot") + ")" + [' ', '+', ' '] + "offset" == "abs(" + d + " - pivot) + offset"
  {
  }

  lemma NeutralText(d: string)
    ensures "(" + (d + [' ', '+', ' '] + "neutral") + ")" + [' ', '-', ' '] + "neutral" == "(" + d + " + neutral) - neutral"
  {
  }

  lemma SquaresShow(op: Op, sources: seq<string>)
    requires op.SumSquares?
    ensures ShowsExpr(StepText(op, sources), StepExpr(op, sources))
  {
    ArgumentNames();
    ShowsVariable("x");
    ShowsVariable("numbers");
    ShowsTightProduct("x", Variable("x"), Times, "x", Var("x"));
    ShowsFold("sum", "x" + ['*'] + "x", Only(Product(Variable("x"), Times, Var("x"))), "x", "numbers", Only(Variable("numbers")));
    SquaresText();
    ShowsWhole(StepText(op, sources), Fold("sum", Only(Product(Variable("x"), Times, Var("x"))), "x", Only(Variable("numbers"))));
  }

  lemma SpanShows(op: Op, sources: seq<string>)
    requires op.RangeSpan?
    ensures ShowsExpr(StepText(op, sources), StepExpr(op, sources))
  {
    ArgumentNames();
    ShowsVariable("numbers");
    var greatest, least := Apply("max", Only(Variable("numbers"))), Apply("min", Only(Variable("numbers")));
    ShowsApply("max", "numbers", Only(Variable("numbers")));
    ShowsApply("min", "numbers", Only(Variable("numbers")));
    ShowsWhole("max" + "(" + "numbers" + ")", greatest);
    ShowsWhole("min" + "(" + "numbers" + ")", least);
    ShowsChain("max" + "(" + "numbers" + ")", Only(Single(greatest)), Minus, "min" + "(" + "numbers" + ")", Single(least));
    SpanText();
  }

  lemma OffsetShows(op: Op, sources: seq<string>)
    requires op.AddOffset? && sources != [] && Identifiers(sources)
    ensures ShowsExpr(StepText(op, sources), StepExpr(op, sources))
  {
    ArgumentNames();
    ShowsVariable("offset");
    DependencyShows(sources);
    ShowsChain(DependencyText(sources), Only(Single(DependencyFactor(sources))), Plus, "offset", Variable("offset"));
    OffsetText(DependencyText(sources));
  }

  lemma ModShows(op: Op, sources: seq<string>)
    requires op.MultiplyMod? && sources != [] && Identifiers(sources)
    ensures ShowsExpr(StepText(op, sources), StepExpr(op, sources))
  {
    ArgumentNames();
    ShowsVariable("multiplier");
    ShowsVariable("modulus");
    DependencyShows(sources);
    var d := DependencyText(sources);
    var scaled := Only(Product(Single(DependencyFactor(sources)), Times, Var("multiplier")));
    ShowsProduct(d, Single(DependencyFactor(sources)), Times, "multiplier", Var("multiplier"));
    ShowsGroup(d + [' ', '*', ' '] + "multiplier", scaled);
    ShowsWhole("(" + (d + [' ', '*', ' '] + "multiplier") + ")", Group(scaled));
    ShowsProduct("(" + (d + [' ', '*', ' '] + "multiplier") + ")", Single(Group(scaled)), Modulo, "modulus", Var("modulus"));
    ModText(d);
  }

  lemma AbsShows(op: Op, sources: seq<string>)
    requires op.AbsShift? && sources != [] && Identifiers(sources)
    ensures ShowsExpr(StepText(op, sources), StepExpr(op, sources))
  {
    ArgumentNames();
    ShowsVariable("pivot");
    ShowsVariable("offset");
    DependencyShows(sources);
    var d := DependencyText(sources);
    var shifted := Chain(Only(Single(DependencyFactor(sources))), Minus, Variable("pivot"));
    ShowsChain(d, Only(Single(DependencyFactor(sources))), Minus, "pivot", Variable("pivot"));
    ShowsApply("abs", d + [' ', '-', ' '] + "pivot", shifted);
    ShowsWhole("abs" + "(" + (d + [' ', '-', ' '] + "pivot") + ")", Apply("abs", shifted));
    ShowsChain("abs" + "(" + (d + [' ', '-', ' '] + "pivot") + ")", Only(Single(Apply("abs", shifted))), Plus, "offset", Variable("offset"));
    AbsText(d);
  }

  lemma NeutralShows(op: Op, sources: seq<string>)
    requires op.NeutralShift? && sources != [] && Identifiers(sources)
    ensures ShowsExpr(StepText(op, sources), StepExpr(op, sources))
  {
    ArgumentNames();
    ShowsVariable("neutral");
    DependencyShows(sources);
    var d := DependencyText(sources);
    var shifted := Chain(Only(Single(DependencyFactor(sources))), Plus, Variable("neutral"));
    ShowsChain(d, Only(Single(DependencyFactor(sources))), Plus, "neutral", Variable("neutral"));
    ShowsGroup(d + [' ', '+', ' '] + "neutral", shifted);
    ShowsWhole("(" + (d + [' ', '+', ' '] + "neutral") + ")", Group(shifted));
    ShowsChain("(" + (d + [' ', '+', ' '] + "neutral") + ")", Only(Single(Group(shifted))), Minus, "neutral", Variable("neutral"));
    NeutralText(d);
  }

  /** Every operation's text parses as its expression. */
  lemma StepShows(op: Op, sources: seq<string>)
    requires Identifiers(sources) && (TakesSource(op) ==> sources != [])
    ensures ShowsExpr(StepText(op, sources), StepExpr(op, sources))
  {
    match op
    case SumSquares(_) => SquaresShow(op, sources);
    case RangeSpan(_) => SpanShows(op, sources);
    case AddOffset(_) => OffsetShows(op, sources);
    case MultiplyMod(_, _) => ModShows(op, sources);
    case AbsShift(_, _) => AbsShows(op, sources);
    case NeutralShift(_) => NeutralShows(op, sources);
  }

  // What the expressions evaluate to

  const RESERVED: set<string> :=
    {"numbers", "offset", "multiplier", "modulus", "pivot", "neutral", "x", "sum", "max", "min", "abs"}

  /** Output keys are identifiers of their own: no argument's, no builtin's and no other step's. */
  ghost predicate ProperKeys(keys: map<string, string>) {
    && (forall id :: id in keys ==> Identifier(keys[id]) && keys[id] !in RESERVED)
    && forall a, b :: a in keys && b in keys && keys[a] == keys[b] ==> a == b
  }

  ghost predicate Agrees(
      env: map<string, Value>, args: map<string, Value>, dependencies: seq<string>, keys: map<string, string>,
      values: map<string, int>)
  {
    && (forall name :: name in RESERVED ==> (name in env <==> name in args) && (name in args ==> env[name] == args[name]))
    && forall i :: 0 <= i < |dependencies| ==>
         && dependencies[i] in keys && dependencies[i] in values
         && keys[dependencies[i]] in env && env[keys[dependencies[i]]] == Num(values[dependencies[i]])
  }

  lemma {:induction false} EnvironmentAgrees(
      args: map<string, Value>, dependencies: seq<string>, keys: map<string, string>, values: map<string, int>)
    requires ProperKeys(keys) && forall i :: 0 <= i < |dependencies| ==> dependencies[i] in keys
    ensures Environment(args, dependencies, keys, values).Some? <==> DependencySum(dependencies, values).Some?
    ensures Environment(args, dependencies, keys, values).Some? ==>
      Agrees(Environment(args, dependencies, keys, values).value, args, dependencies, keys, values)
  {
    if dependencies != [] {
      var n := |dependencies| - 1;
      EnvironmentAgrees(args, dependencies[..n], keys, values);
      var before := Environment(args, dependencies[..n], keys, values);
      if before.Some? && dependencies[n] in values {
        ExtendedAgrees(before.value, args, dependencies, keys, values);
      }
    }
  }

  lemma ExtendedAgrees(
      env: map<string, Value>, args: map<string, Value>, dependencies: seq<string>, keys: map<string, string>,
      values: map<string, int>)
    requires ProperKeys(keys) && dependencies != []
    requires Agrees(env, args, dependencies[..|dependencies| - 1], keys, values)
    requires dependencies[|dependencies| - 1] in keys && dependencies[|dependencies| - 1] in values
    ensures var d := dependencies[|dependencies| - 1];
      Agrees(env[keys[d] := Num(values[d])], args, dependencies, keys, values)
  {
    var n := |dependencies| - 1;
    forall i | 0 <= i < |dependencies|
      ensures dependencies[i] in keys && dependencies[i] in values
      ensures env[keys[dependencies[n]] := Num(values[dependencies[n]])][keys[dependencies[i]]] == Num(values[dependencies[i]])
    {
      if i < n {
        assert dependencies[..n][i] == dependencies[i];
      }
    }
  }

  lemma {:induction false} SumMeans(
      env: map<string, Value>, args: map<string, Value>, dependencies: seq<string>, keys: map<string, string>,
      values: map<string, int>)
    requires Agrees(env, args, dependencies, keys, values) && dependencies != []
    ensures DependencySum(dependencies, values).Some?
    ensures EvalExpr(Sum(Sources(dependencies, keys)), env) == Some(Num(DependencySum(dependencies, values).value))
  {
    var n := |dependencies| - 1;
    var sources := Sources(dependencies, keys);
    assert dependencies[n] in values && sources[n] in env;
    VariableMeans(sources[n], env);
    if n == 0 {
      assert dependencies[..0] == [];
    } else {
      assert Agrees(env, args, dependencies[..n], keys, values);
      SumMeans(env, args, dependencies[..n], keys, values);
      assert sources[..n] == Sources(dependencies[..n], keys);
    }
  }

  lemma SourceMeans(
      env: map<string, Value>, args: map<string, Value>, dependencies: seq<string>, keys: map<string, string>,
      values: map<string, int>)
    requires Agrees(env, args, dependencies, keys, values) && dependencies != []
    ensures DependencySum(dependencies, values).Some?
    ensures EvalFactor(DependencyFactor(Sources(dependencies, keys)), env)
      == Some(Num(DependencySum(dependencies, values).value))
  {
    SumMeans(env, args, dependencies, keys, values);
  }

  lemma {:induction false} SquaresMean(ns: seq<int>, env: map<string, Value>)
    ensures SumElements(Only(Product(Variable("x"), Times, Var("x"))), "x", ns, env) == Some(Num(SumOfSquares(ns)))
  {
    if ns != [] {
      SquaresMean(ns[..|ns| - 1], env);
      SquareMeans(ns[|ns| - 1], env);
    }
  }

  lemma SquareMeans(n: int, env: map<string, Value>)
    ensures EvalExpr(Only(Product(Variable("x"), Times, Var("x"))), env["x" := Num(n)]) == Some(Num(n * n))
  {
    var inner := env["x" := Num(n)];
    assert EvalTerm(Variable("x"), inner) == Some(Num(n)) && EvalFactor(Var("x"), inner) == Some(Num(n));
  }

  /** An operation without a source. */
  lemma PlainStepMeans(op: Op, env: map<string, Value>)
    requires !TakesSource(op)
    requires forall name :: name in RESERVED ==>
      (name in env <==> name in Args(op)) && (name in Args(op) ==> env[name] == Args(op)[name])
    ensures EvalExpr(StepExpr(op, []), env) == if Compute(op, 0).Some? then Some(Num(Compute(op, 0).value)) else None
  {
    assert "numbers" in RESERVED && "numbers" in Args(op);
    assert "sum" in RESERVED && "max" in RESERVED && "min" in RESERVED;
    assert EvalExpr(Only(Variable("numbers")), env) == Some(Nums(op.numbers));
    match op
    case SumSquares(ns) =>
      SquaresMean(ns, env);
    case RangeSpan(ns) =>
      assert EvalFactor(Apply("max", Only(Variable("numbers"))), env) == Builtin("max", Nums(ns));
      assert EvalFactor(Apply("min", Only(Variable("numbers"))), env) == Builtin("min", Nums(ns));
  }

  lemma VariableMeans(n: string, env: map<string, Value>)
    requires n in env
    ensures EvalTerm(Variable(n), env) == Some(env[n]) && EvalFactor(Var(n), env) == Some(env[n])
    ensures EvalExpr(Only(Variable(n)), env) == Some(env[n])
  {
  }

  /** An operation over a source, given what the source's factor evaluates to. */
  lemma SourcedStepMeans(op: Op, sources: seq<string>, source: int, env: map<string, Value>)
    requires TakesSource(op) && sources != []
    requires forall name :: name in RESERVED ==>
      (name in env <==> name in Args(op)) && (name in Args(op) ==> env[name] == Args(op)[name])
    requires EvalFactor(DependencyFactor(sources), env) == Some(Num(source))
    ensures EvalExpr(StepExpr(op, sources), env)
      == if Compute(op, source).Some? then Some(Num(Compute(op, source).value)) else None
  {
    var d := DependencyFactor(sources);
    assert EvalTerm(Single(d), env) == Some(Num(source));
    assert EvalExpr(Only(Single(d)), env) == Some(Num(source));
    match op
    case AddOffset(offset) =>
      VariableMeans("offset", env);
    case MultiplyMod(multiplier, modulus) =>
      VariableMeans("multiplier", env);
      VariableMeans("modulus", env);
      ModMeans(d, source, multiplier, modulus, env);
    case AbsShift(pivot, offset) =>
      VariableMeans("pivot", env);
      VariableMeans("offset", env);
      AbsMeans(d, source, pivot, offset, env);
    case NeutralShift(neutral) =>
      VariableMeans("neutral", env);
      NeutralMeans(d, source, neutral, env);
  }

  lemma ModMeans(d: Factor, source: int, multiplier: int, modulus: int, env: map<string, Value>)
    requires EvalTerm(Single(d), env) == Some(Num(source))
    requires EvalFactor(Var("multiplier"), env) == Some(Num(multiplier)) && EvalFactor(Var("modulus"), env) == Some(Num(modulus))
    ensures EvalExpr(Only(Product(Single(Group(Only(Product(Single(d), Times, Var("multiplier"))))), Modulo, Var("modulus"))), env)
      == if modulus == 0 then None else Some(Num(Remainder(source * multiplier, modulus)))
  {
    var scaled := Only(Product(Single(d), Times, Var("multiplier")));
    assert EvalTerm(scaled.term, env) == Some(Num(source * multiplier));
    assert EvalExpr(scaled, env) == Some(Num(source * multiplier));
    assert EvalFactor(Group(scaled), env) == Some(Num(source * multiplier));
    assert EvalTerm(Single(Group(scaled)), env) == Some(Num(source * multiplier));
  }

  lemma AbsMeans(d: Factor, source: int, pivot: int, offset: int, env: map<string, Value>)
    requires EvalExpr(Only(Single(d)), env) == Some(Num(source)) && "abs" !in env
    requires EvalTerm(Variable("pivot"), env) == Some(Num(pivot)) && EvalTerm(Variable("offset"), env) == Some(Num(offset))
    ensures EvalExpr(Chain(Only(Single(Apply("abs", Chain(Only(Single(d)), Minus, Variable("pivot"))))), Plus, Variable("offset")), env)
      == Some(Num(Abs(source - pivot) + offset))
  {
    var shifted := Chain(Only(Single(d)), Minus, Variable("pivot"));
    assert EvalExpr(shifted, env) == Some(Num(source - pivot));
    assert EvalFactor(Apply("abs", shifted), env) == Builtin("abs", Num(source - pivot));
    assert EvalTerm(Single(Apply("abs", shifted)), env) == Some(Num(Abs(source - pivot)));
    assert EvalExpr(Only(Single(Apply("abs", shifted))), env) == Some(Num(Abs(source - pivot)));
  }

  lemma NeutralMeans(d: Factor, source: int, neutral: int, env: map<string, Value>)
    requires EvalExpr(Only(Single(d)), env) == Some(Num(source))
    requires EvalTerm(Variable("neutral"), env) == Some(Num(neutral))
    ensures EvalExpr(Chain(Only(Single(Group(Chain(Only(Single(d)), Plus, Variable("neutral"))))), Minus, Variable("neutral")), env)
      == Some(Num(source + neutral - neutral))
  {
    var shifted := Chain(Only(Single(d)), Plus, Variable("neutral"));
    assert EvalExpr(shifted, env) == Some(Num(source + neutral));
    assert EvalFactor(Group(shifted), env) == Some(Num(source + neutral));
    assert EvalTerm(Single(Group(shifted)), env) == Some(Num(source + neutral));
    assert EvalExpr(Only(Single(Group(shifted))), env) == Some(Num(source + neutral));
  }

  // The compiler is correct

  /** A step is proper when it has dependencies exactly if it uses them. */
  predicate ProperStep(step: Step) {
    TakesSource(step.op) <==> step.dependencies != []
  }

  /** Running a printed operation gives the step's unrounded value, or fails with it. */
  lemma PrintedStepMeans(step: Step, keys: map<string, string>, last: bool, values: map<string, int>)
    requires ProperKeys(keys) && Resolved(step, keys) && ProperStep(step)
    ensures RunOperation(OperationOf(step, keys, last), keys, values) == ExactStep(step, values)
  {
    var sources := Sources(step.dependencies, keys);
    EnvironmentAgrees(Args(step.op), step.dependencies, keys, values);
    var env := Environment(Args(step.op), step.dependencies, keys, values);
    StepShows(step.op, sources);
    if env.Some? {
      PrintedExpression(StepText(step.op, sources), StepExpr(step.op, sources), env.value);
      if TakesSource(step.op) {
        SourceMeans(env.value, Args(step.op), step.dependencies, keys, values);
        SourcedStepMeans(step.op, sources, DependencySum(step.dependencies, values).value, env.value);
      } else {
        PlainStepMeans(step.op, env.value);
      }
    }
  }

  /** Steps whose dependencies resolve to proper keys, with the operations printed for them. */
  ghost predicate Compiled(steps: seq<Step>, operations: seq<Operation>) {
    && ProperKeys(Keys(steps)) && |operations| == |steps|
    && (forall k :: 0 <= k < |steps| ==> ProperStep(steps[k]) && Resolved(steps[k], Keys(steps)))
    && forall k :: 0 <= k < |steps| ==> operations[k] == OperationOf(steps[k], Keys(steps), k == |steps| - 1)
  }

  lemma CompiledStepMeans(steps: seq<Step>, operations: seq<Operation>, k: nat, values: map<string, int>)
    requires Compiled(steps, operations) && k < |steps|
    ensures operations[k].id == steps[k].id
    ensures RunOperation(operations[k], Keys(steps), values) == ExactStep(steps[k], values)
  {
    PrintedStepMeans(steps[k], Keys(steps), k == |steps| - 1, values);
  }

  /** Each operation computes what its step does, from any values. */
  ghost predicate StepwiseEqual(steps: seq<Step>, operations: seq<Operation>, keys: map<string, string>) {
    |operations| == |steps| && forall k, values :: 0 <= k < |steps| ==> SameStep(steps[k], operations[k], keys, values)
  }

  ghost predicate SameStep(step: Step, operation: Operation, keys: map<string, string>, values: map<string, int>) {
    operation.id == step.id && RunOperation(operation, keys, values) == ExactStep(step, values)
  }

  lemma {:induction false} StepwiseEqualRuns(
      steps: seq<Step>, operations: seq<Operation>, keys: map<string, string>, n: nat)
    requires StepwiseEqual(steps, operations, keys) && n <= |steps|
    ensures Outputs(operations, keys, n) == Values(ExactStep, steps, n)
  {
    if n > 0 {
      StepwiseEqualRuns(steps, operations, keys, n - 1);
      var before := Outputs(operations, keys, n - 1);
      if before.Some? {
        assert SameStep(steps[n - 1], operations[n - 1], keys, before.value);
      }
    }
  }

  /** The whole workflow: its printed expressions, evaluated in order, give its unrounded values at every step. */
  lemma PrintedWorkflowMeans(steps: seq<Step>, operations: seq<Operation>, n: nat)
    requires Compiled(steps, operations) && n <= |steps|
    ensures Outputs(operations, Keys(steps), n) == Values(ExactStep, steps, n)
  {
    forall k, values | 0 <= k < |steps| ensures SameStep(steps[k], operations[k], Keys(steps), values) {
      CompiledStepMeans(steps, operations, k, values);
    }
    StepwiseEqualRuns(steps, operations, Keys(steps), n);
  }
}
