/**
 The arithmetic expressions that generated workflows are printed in: a lexer, a parser and an
 evaluator for their fragment of Python, and the proof that the parser reads back every expression.
 */
module Expressions {
  import opened Wrappers

  datatype Token = Name(text: string) | Symbol(sign: char)

  datatype Sign = Plus | Minus
  datatype Scale = Times | Modulo

  datatype Expr = Only(term: Term) | Chain(left: Expr, sign: Sign, right: Term)
  datatype Term = Single(factor: Factor) | Product(head: Term, scale: Scale, last: Factor)
  datatype Factor =
    | Var(name: string)
    | Group(inner: Expr)
    | Apply(callee: string, argument: Expr)
    | Fold(callee: string, element: Expr, variable: string, source: Expr)

  const KEYWORDS: set<string> := {"for", "in", "if", "else", "and", "or", "not", "is", "lambda", "None", "True", "False"}
  const SIGNS: string := "()+-*%"

  predicate NameStart(c: char) {
    'a' <= c <= 'z' || 'A' <= c <= 'Z' || c == '_'
  }

  predicate NamePart(c: char) {
    NameStart(c) || '0' <= c <= '9'
  }

  predicate IsName(s: string) {
    s != "" && NameStart(s[0]) && forall i :: 0 <= i < |s| ==> NamePart(s[i])
  }

  predicate Identifier(s: string) {
    IsName(s) && s !in KEYWORDS
  }

  // Lexer

  function NameLength(s: string): (n: nat)
    ensures n <= |s| && (n < |s| ==> !NamePart(s[n]))
    ensures forall i :: 0 <= i < n ==> NamePart(s[i])
  {
    if s == "" || !NamePart(s[0]) then 0 else 1 + NameLength(s[1..])
  }

  function Prepend(t: Token, ts: Option<seq<Token>>): Option<seq<Token>> {
    if ts.Some? then Some([t] + ts.value) else None
  }

  /** Maximal munch; blanks separate. */
  function Lex(s: string): Option<seq<Token>>
    decreases |s|
  {
    if s == "" then Some([])
    else if s[0] == ' ' then Lex(s[1..])
    else if s[0] in SIGNS then Prepend(Symbol(s[0]), Lex(s[1..]))
    else if NameStart(s[0]) then
      var n := NameLength(s);
      assert n > 0;
      Prepend(Name(s[..n]), Lex(s[n..]))
    else None
  }

  // Parser: recursive descent, operators of one level associating to the left.

  function SignOf(t: Token): Option<Sign> {
    if t == Symbol('+') then Some(Plus) else if t == Symbol('-') then Some(Minus) else None
  }

  function ScaleOf(t: Token): Option<Scale> {
    if t == Symbol('*') then Some(Times) else if t == Symbol('%') then Some(Modulo) else None
  }

  predicate Starts(ts: seq<Token>, t: Token) {
    ts != [] && ts[0] == t
  }

  function ParseExpr(ts: seq<Token>): (r: Option<(Expr, seq<Token>)>)
    ensures r.Some? ==> |r.value.1| < |ts|
    decreases |ts|, 3
  {
    var t := ParseTerm(ts);
    if t.None? then None else ExprTail(Only(t.value.0), t.value.1)
  }

  function ExprTail(left: Expr, ts: seq<Token>): (r: Option<(Expr, seq<Token>)>)
    ensures r.Some? ==> |r.value.1| <= |ts|
    decreases |ts|, 4
  {
    if ts == [] || SignOf(ts[0]).None? then Some((left, ts))
    else
      var t := ParseTerm(ts[1..]);
      if t.None? then None else ExprTail(Chain(left, SignOf(ts[0]).value, t.value.0), t.value.1)
  }

  function ParseTerm(ts: seq<Token>): (r: Option<(Term, seq<Token>)>)
    ensures r.Some? ==> |r.value.1| < |ts|
    decreases |ts|, 2
  {
    var f := ParseFactor(ts);
    if f.None? then None else TermTail(Single(f.value.0), f.value.1)
  }

  function TermTail(head: Term, ts: seq<Token>): (r: Option<(Term, seq<Token>)>)
    ensures r.Some? ==> |r.value.1| <= |ts|
    decreases |ts|, 3
  {
    if ts == [] || ScaleOf(ts[0]).None? then Some((head, ts))
    else
      var f := ParseFactor(ts[1..]);
      if f.None? then None else TermTail(Product(head, ScaleOf(ts[0]).value, f.value.0), f.value.1)
  }

  function ParseFactor(ts: seq<Token>): (r: Option<(Factor, seq<Token>)>)
    ensures r.Some? ==> |r.value.1| < |ts|
    decreases |ts|, 1
  {
    if ts == [] then None
    else if ts[0] == Symbol('(') then
      var e := ParseExpr(ts[1..]);
      if e.None? || !Starts(e.value.1, Symbol(')')) then None else Some((Group(e.value.0), e.value.1[1..]))
    else if ts[0].Symbol? || ts[0].text in KEYWORDS then None
    else if Starts(ts[1..], Symbol('(')) then
      var e := ParseExpr(ts[2..]);
      if e.None? then None
      else if Starts(e.value.1, Symbol(')')) then Some((Apply(ts[0].text, e.value.0), e.value.1[1..]))
      else ParseFold(ts[0].text, e.value.0, e.value.1)
    else Some((Var(ts[0].text), ts[1..]))
  }

  /** `for variable in source)`, after the element. */
  function ParseFold(callee: string, element: Expr, ts: seq<Token>): (r: Option<(Factor, seq<Token>)>)
    ensures r.Some? ==> |r.value.1| < |ts|
    decreases |ts|, 4
  {
    if |ts| < 4 || ts[0] != Name("for") || !ts[1].Name? || ts[1].text in KEYWORDS || ts[2] != Name("in") then None
    else
      var s := ParseExpr(ts[3..]);
      if s.None? || !Starts(s.value.1, Symbol(')')) then None
      else Some((Fold(callee, element, ts[1].text, s.value.0), s.value.1[1..]))
  }

  function Parse(s: string): Option<Expr> {
    var ts := Lex(s);
    if ts.None? then None
    else
      var e := ParseExpr(ts.value);
      if e.None? || e.value.1 != [] then None else Some(e.value.0)
  }

  // Printing to tokens, and reading back

  function SignToken(sign: Sign): Token {
    Symbol(if sign.Plus? then '+' else '-')
  }

  function ScaleToken(scale: Scale): Token {
    Symbol(if scale.Times? then '*' else '%')
  }

  function ExprTokens(e: Expr): seq<Token> {
    match e
    case Only(t) => TermTokens(t)
    case Chain(l, sign, r) => ExprTokens(l) + [SignToken(sign)] + TermTokens(r)
  }

  function TermTokens(t: Term): seq<Token> {
    match t
    case Single(f) => FactorTokens(f)
    case Product(h, scale, l) => TermTokens(h) + [ScaleToken(scale)] + FactorTokens(l)
  }

  function FactorTokens(f: Factor): seq<Token> {
    match f
    case Var(n) => [Name(n)]
    case Group(e) => [Symbol('(')] + ExprTokens(e) + [Symbol(')')]
    case Apply(n, e) => [Name(n), Symbol('(')] + ExprTokens(e) + [Symbol(')')]
    case Fold(n, e, v, s) =>
      [Name(n), Symbol('(')] + ExprTokens(e) + [Name("for"), Name(v), Name("in")] + ExprTokens(s) + [Symbol(')')]
  }

  predicate ProperExpr(e: Expr) {
    match e
    case Only(t) => ProperTerm(t)
    case Chain(l, _, r) => ProperExpr(l) && ProperTerm(r)
  }

  predicate ProperTerm(t: Term) {
    match t
    case Single(f) => ProperFactor(f)
    case Product(h, _, l) => ProperTerm(h) && ProperFactor(l)
  }

  /** Names are not keywords. */
  predicate ProperFactor(f: Factor) {
    match f
    case Var(n) => n !in KEYWORDS
    case Group(e) => ProperExpr(e)
    case Apply(n, e) => n !in KEYWORDS && ProperExpr(e)
    case Fold(n, e, v, s) => n !in KEYWORDS && v !in KEYWORDS && ProperExpr(e) && ProperExpr(s)
  }

  predicate StopsFactor(ts: seq<Token>) {
    !Starts(ts, Symbol('('))
  }

  predicate StopsTerm(ts: seq<Token>) {
    StopsFactor(ts) && (ts == [] || ScaleOf(ts[0]).None?)
  }

  const CLOSE: seq<Token> := [Symbol(')')]

  lemma {:induction false} ParseFactorTokens(f: Factor, rest: seq<Token>)
    requires ProperFactor(f) && StopsFactor(rest)
    ensures ParseFactor(FactorTokens(f) + rest) == Some((f, rest))
    decreases f, 0
  {
    match f
    case Var(n) =>
      assert (FactorTokens(f) + rest)[1..] == rest;
    case Group(e) =>
      ParseWholeExpr(e, CLOSE + rest);
      ParseGroupTokens(e, rest);
    case Apply(n, e) =>
      ParseWholeExpr(e, CLOSE + rest);
      ParseApplyTokens(n, e, rest);
    case Fold(n, e, v, s) =>
      ParseWholeExpr(s, CLOSE + rest);
      ParseFoldTokens(n, e, v, s, rest);
      ParseWholeExpr(e, ForClause(v, s, rest));
      ParseForTokens(n, e, v, s, rest);
  }

  function ForClause(v: string, s: Expr, rest: seq<Token>): seq<Token> {
    [Name("for"), Name(v), Name("in")] + (ExprTokens(s) + (CLOSE + rest))
  }

  lemma ParseGroupTokens(e: Expr, rest: seq<Token>)
    requires ParseExpr(ExprTokens(e) + (CLOSE + rest)) == Some((e, CLOSE + rest))
    ensures ParseFactor(FactorTokens(Group(e)) + rest) == Some((Group(e), rest))
  {
    assert (FactorTokens(Group(e)) + rest)[1..] == ExprTokens(e) + (CLOSE + rest);
    assert (CLOSE + rest)[1..] == rest;
  }

  lemma ParseApplyTokens(n: string, e: Expr, rest: seq<Token>)
    requires n !in KEYWORDS && ParseExpr(ExprTokens(e) + (CLOSE + rest)) == Some((e, CLOSE + rest))
    ensures ParseFactor(FactorTokens(Apply(n, e)) + rest) == Some((Apply(n, e), rest))
  {
    var ts := FactorTokens(Apply(n, e)) + rest;
    assert ts[2..] == ExprTokens(e) + (CLOSE + rest) && ts[1..][0] == Symbol('(');
    assert (CLOSE + rest)[1..] == rest;
  }

  lemma ParseForTokens(n: string, e: Expr, v: string, s: Expr, rest: seq<Token>)
    requires n !in KEYWORDS && ParseExpr(ExprTokens(e) + ForClause(v, s, rest)) == Some((e, ForClause(v, s, rest)))
    requires ParseFold(n, e, ForClause(v, s, rest)) == Some((Fold(n, e, v, s), rest))
    ensures ParseFactor(FactorTokens(Fold(n, e, v, s)) + rest) == Some((Fold(n, e, v, s), rest))
  {
    var ts := FactorTokens(Fold(n, e, v, s)) + rest;
    assert ts[2..] == ExprTokens(e) + ForClause(v, s, rest) && ts[1..][0] == Symbol('(');
  }

  lemma ParseFoldTokens(callee: string, element: Expr, v: string, s: Expr, rest: seq<Token>)
    requires v !in KEYWORDS && ParseExpr(ExprTokens(s) + (CLOSE + rest)) == Some((s, CLOSE + rest))
    ensures ParseFold(callee, element, ForClause(v, s, rest)) == Some((Fold(callee, element, v, s), rest))
  {
    var ts := ForClause(v, s, rest);
    assert ts[3..] == ExprTokens(s) + (CLOSE + rest) && |ts| == 4 + |ExprTokens(s)| + |rest|;
    assert (CLOSE + rest)[1..] == rest;
  }

  /** Reading a printed term leaves the parser where it has the term and the rest before it. */
  lemma {:induction false} ParseTermTokens(t: Term, rest: seq<Token>)
    requires ProperTerm(t) && StopsFactor(rest)
    ensures ParseTerm(TermTokens(t) + rest) == TermTail(t, rest)
    decreases t, 0
  {
    match t
    case Single(f) =>
      ParseFactorTokens(f, rest);
    case Product(h, scale, l) =>
      var after := [ScaleToken(scale)] + (FactorTokens(l) + rest);
      assert TermTokens(t) + rest == TermTokens(h) + after;
      ParseTermTokens(h, after);
      ParseFactorTokens(l, rest);
      assert after[1..] == FactorTokens(l) + rest;
  }

  lemma {:induction false} ParseExprTokens(e: Expr, rest: seq<Token>)
    requires ProperExpr(e) && StopsTerm(rest)
    ensures ParseExpr(ExprTokens(e) + rest) == ExprTail(e, rest)
    decreases e, 0
  {
    match e
    case Only(t) =>
      ParseTermTokens(t, rest);
    case Chain(l, sign, r) =>
      var after := [SignToken(sign)] + (TermTokens(r) + rest);
      assert ExprTokens(e) + rest == ExprTokens(l) + after;
      ParseExprTokens(l, after);
      ParseTermTokens(r, rest);
      assert after[1..] == TermTokens(r) + rest;
  }

  lemma {:induction false} ParseWholeExpr(e: Expr, rest: seq<Token>)
    requires ProperExpr(e) && StopsTerm(rest) && (rest == [] || SignOf(rest[0]).None?)
    ensures ParseExpr(ExprTokens(e) + rest) == Some((e, rest))
    decreases e, 1
  {
    ParseExprTokens(e, rest);
  }

  // Spelling tokens out

  datatype Piece = Word(name: string) | Mark(sign: char) | Blank

  function Text(p: Piece): string {
    match p
    case Word(n) => n
    case Mark(c) => [c]
    case Blank => " "
  }

  function TokensOf(p: Piece): seq<Token> {
    match p
    case Word(n) => [Name(n)]
    case Mark(c) => [Symbol(c)]
    case Blank => []
  }

  function Spell(pieces: seq<Piece>): string {
    if pieces == [] then "" else Text(pieces[0]) + Spell(pieces[1..])
  }

  function Tokens(pieces: seq<Piece>): seq<Token> {
    if pieces == [] then [] else TokensOf(pieces[0]) + Tokens(pieces[1..])
  }

  /** Words are names, marks are signs, and no two words touch. */
  predicate Spaced(pieces: seq<Piece>) {
    && (forall i :: 0 <= i < |pieces| && pieces[i].Word? ==> IsName(pieces[i].name))
    && (forall i :: 0 <= i < |pieces| && pieces[i].Mark? ==> pieces[i].sign in SIGNS)
    && (forall i :: 0 <= i < |pieces| - 1 ==> pieces[i].Word? ==> !pieces[i + 1].Word?)
  }

  lemma {:induction false} SpellAppend(a: seq<Piece>, b: seq<Piece>)
    ensures Spell(a + b) == Spell(a) + Spell(b)
    ensures Tokens(a + b) == Tokens(a) + Tokens(b)
  {
    if a == [] {
      assert a + b == b;
    } else {
      assert (a + b)[1..] == a[1..] + b && (a + b)[0] == a[0];
      SpellAppend(a[1..], b);
      Associate(Text(a[0]), Spell(a[1..]), Spell(b));
      Associate(TokensOf(a[0]), Tokens(a[1..]), Tokens(b));
    }
  }

  lemma Associate<T>(a: seq<T>, b: seq<T>, c: seq<T>)
    ensures a + (b + c) == (a + b) + c
  {
  }

  lemma {:induction false} NameLengthStops(n: string, s: string)
    requires (forall i :: 0 <= i < |n| ==> NamePart(n[i])) && (s == "" || !NamePart(s[0]))
    ensures NameLength(n + s) == |n|
  {
    if n == "" {
      assert n + s == s;
    } else {
      assert (n + s)[1..] == n[1..] + s;
      NameLengthStops(n[1..], s);
    }
  }

  /** The lexer recovers the tokens from a well-spaced spelling. */
  lemma {:induction false} LexSpelling(pieces: seq<Piece>)
    requires Spaced(pieces)
    ensures Lex(Spell(pieces)) == Some(Tokens(pieces))
  {
    if pieces != [] {
      var tail := pieces[1..];
      LexSpelling(tail);
      match pieces[0]
      case Word(n) =>
        SpellingStartsClean(pieces);
        NameLengthStops(n, Spell(tail));
        assert (n + Spell(tail))[..|n|] == n && (n + Spell(tail))[|n|..] == Spell(tail);
        NameIsNoSign(n[0]);
      case Mark(c) =>
        assert ([c] + Spell(tail))[1..] == Spell(tail);
        SignIsNoBlank(c);
      case Blank =>
        assert Spell(pieces) == " " + Spell(tail) && Spell(pieces)[0] == ' ';
        assert Spell(pieces)[1..] == Spell(tail);
        assert Tokens(pieces) == Tokens(tail);
    }
  }

  lemma NameIsNoSign(c: char)
    requires NameStart(c)
    ensures c !in SIGNS && c != ' '
  {
  }

  lemma SignIsNoBlank(c: char)
    requires c in SIGNS
    ensures c != ' ' && !NamePart(c)
  {
  }

  lemma SpellingStartsClean(pieces: seq<Piece>)
    requires Spaced(pieces) && pieces != [] && pieces[0].Word?
    ensures Spell(pieces[1..]) == "" || !NamePart(Spell(pieces[1..])[0])
  {
    if |pieces| > 1 {
      assert !pieces[1].Word?;
      if pieces[1].Mark? {
        SignIsNoBlank(pieces[1].sign);
      }
    }
  }

  // Evaluator

  datatype Value = Num(n: int) | Nums(ns: seq<int>)

  /** Python's `%`: the remainder takes the sign of the divisor. */
  function Remainder(a: int, b: int): int
    requires b != 0
  {
    if b > 0 then a % b else -((-a) % (-b))
  }

  function EvalExpr(e: Expr, env: map<string, Value>): Option<Value>
    decreases e, 0
  {
    match e
    case Only(t) => EvalTerm(t, env)
    case Chain(l, sign, r) =>
      var a, b := EvalExpr(l, env), EvalTerm(r, env);
      if a.Some? && a.value.Num? && b.Some? && b.value.Num?
      then Some(Num(if sign.Plus? then a.value.n + b.value.n else a.value.n - b.value.n)) else None
  }

  function EvalTerm(t: Term, env: map<string, Value>): Option<Value>
    decreases t, 0
  {
    match t
    case Single(f) => EvalFactor(f, env)
    case Product(h, scale, l) =>
      var a, b := EvalTerm(h, env), EvalFactor(l, env);
      if a.None? || a.value.Nums? || b.None? || b.value.Nums? then None
      else if scale.Times? then Some(Num(a.value.n * b.value.n))
      else if b.value.n == 0 then None
      else Some(Num(Remainder(a.value.n, b.value.n)))
  }

  /** A name in the environment hides a builtin of that name. */
  function EvalFactor(f: Factor, env: map<string, Value>): Option<Value>
    decreases f, 0
  {
    match f
    case Var(n) => if n in env then Some(env[n]) else None
    case Group(e) => EvalExpr(e, env)
    case Apply(n, e) => var v := EvalExpr(e, env); if v.None? || n in env then None else Builtin(n, v.value)
    case Fold(n, e, v, s) =>
      var source := EvalExpr(s, env);
      if source.None? || source.value.Num? || n != "sum" || n in env then None
      else SumElements(e, v, source.value.ns, env)
  }

  function SumElements(e: Expr, v: string, ns: seq<int>, env: map<string, Value>): Option<Value>
    decreases e, |ns|
  {
    if ns == [] then Some(Num(0))
    else
      var before, x := SumElements(e, v, ns[..|ns| - 1], env), EvalExpr(e, env[v := Num(ns[|ns| - 1])]);
      if before.Some? && before.value.Num? && x.Some? && x.value.Num? then Some(Num(before.value.n + x.value.n)) else None
  }

  function Greatest(ns: seq<int>): (m: int)
    requires ns != []
    ensures m in ns && forall i :: 0 <= i < |ns| ==> ns[i] <= m
  {
    if |ns| == 1 then ns[0]
    else
      var m := Greatest(ns[..|ns| - 1]);
      if m < ns[|ns| - 1] then ns[|ns| - 1] else m
  }

  function Least(ns: seq<int>): (m: int)
    requires ns != []
    ensures m in ns && forall i :: 0 <= i < |ns| ==> m <= ns[i]
  {
    if |ns| == 1 then ns[0]
    else
      var m := Least(ns[..|ns| - 1]);
      if ns[|ns| - 1] < m then ns[|ns| - 1] else m
  }

  function Abs(n: int): nat {
    if n < 0 then -n else n
  }

  function Builtin(name: string, v: Value): Option<Value> {
    if name == "abs" && v.Num? then Some(Num(Abs(v.n)))
    else if name == "max" && v.Nums? && v.ns != [] then Some(Num(Greatest(v.ns)))
    else if name == "min" && v.Nums? && v.ns != [] then Some(Num(Least(v.ns)))
    else None
  }

  /** What the text means: nothing if it does not parse or its evaluation raises. */
  function Evaluate(s: string, env: map<string, Value>): Option<Value> {
    var e := Parse(s);
    if e.None? then None else EvalExpr(e.value, env)
  }

  /** Whatever was spelled out for an expression evaluates as the expression. */
  lemma SpelledExpression(pieces: seq<Piece>, e: Expr, env: map<string, Value>)
    requires Spaced(pieces) && ProperExpr(e) && Tokens(pieces) == ExprTokens(e)
    ensures Evaluate(Spell(pieces), env) == EvalExpr(e, env)
  {
    LexSpelling(pieces);
    ParseWholeExpr(e, []);
    assert ExprTokens(e) + [] == ExprTokens(e);
  }
}
