/**
  The Swift rewrite rules for the node kinds of module Ast. Each rule takes
  the context with its cursor at the start of the node, consumes the node's
  source text and appends its Swift text, or stops with a Diagnostic where the
  Java rule throws. Intermediate contexts are named so that each step's
  contract can be chained explicitly.
 */
module SwiftWriters {
  import opened Results
  import opened Context
  import opened PrimitiveTypes
  import opened Ast
  import opened TypeWriters
  import opened TypeFacts
  import NumberLiterals

  // ---- types ----

  /** writeType: how a type is written where it is used. A primitive is
      written bare; a reference type gets a trailing `*` as a raw pointer,
      or is wrapped in `ptr< ... >` otherwise. */
  function WriteTypeUse(c: Ctx, t: TypeNode, useRawPointer: bool): (r: Outcome)
    requires c.Valid()
    ensures r.Ok? ==> Appends(c, r.value)
    ensures r.Ok? && t.PrimitiveType? ==> IsValueType(t.code) && r.value.output == c.output + SwiftName(t.code)
    ensures r.Ok? && !t.PrimitiveType? && useRawPointer ==>
              |r.value.output| > |c.output| && r.value.output[|r.value.output| - 1] == '*'
    ensures r.Ok? && !t.PrimitiveType? && !useRawPointer ==>
              && c.output + "ptr< " <= r.value.output
              && |r.value.output| >= |c.output| + 7
              && r.value.output[|r.value.output| - 2..] == " >"
  {
    if t.PrimitiveType? then WriteType(c, t)
    else if useRawPointer then
      var c1 :- WriteType(c, t);
      Ok(Write(c1, "*"))
    else
      var c1 :- WriteType(Write(c, "ptr< "), t);
      Ok(Write(c1, " >"))
  }

  /** A compactly written type is consumed exactly: a primitive writes its
      Swift text, a reference type that text followed by `*`, or wrapped in
      `ptr< ... >`. */
  lemma TypeUseCompact(c: Ctx, t: TypeNode, useRawPointer: bool)
    requires CompactType(c, t)
    ensures WriteTypeUse(c, t, useRawPointer) == Ok(Consumed(c, JavaTypeText(t),
              if t.PrimitiveType? then SwiftTypeText(t)
              else if useRawPointer then SwiftTypeText(t) + "*"
              else "ptr< " + SwiftTypeText(t) + " >"))
  {
    if t.PrimitiveType? {
      WriteTypeCompact(c, t);
    } else if useRawPointer {
      TypeThenWrite(c, t, "*");
    } else {
      WrappedType(c, t, "ptr< ", " >");
    }
  }

  // ---- expressions ----

  /** The NumberLiteral rule with the octal test of NumberLiterals.SwiftNumber:
      the Swift spelling is written, then exactly the Java token is matched. */
  function WriteNumberLiteral(c: Ctx, token: string): (r: Outcome)
    requires c.Valid()
    ensures r.Ok? <==> HasAt(c, token)
    ensures r.Ok? ==> r.value == c.(pos := c.pos + |token|, output := c.output + NumberLiterals.SwiftNumber(token))
    ensures r.Ok? ==> Advances(c, r.value)
    ensures r.Fail? ==> r.error == InvalidAst(c.pos)
  {
    var c1 := Write(c, NumberLiterals.SwiftNumber(token));
    assert HasAt(c1, token) <==> HasAt(c, token);
    Match(c1, token)
  }

  /** The source holds e written compactly at the cursor: no trivia
      between its tokens, and every leaf token starts with a visible character. */
  predicate Compact(c: Ctx, e: Expr) {
    c.Valid() && WellFormedExpr(e) && HasAt(c, JavaExprText(e))
  }

  /** The context once e's compact Java text is consumed and its Swift text written. */
  function ExprConsumed(c: Ctx, e: Expr): Ctx
    requires WellFormedExpr(e)
  {
    c.(pos := c.pos + |JavaExprText(e)|, output := c.output + SwiftExprText(e))
  }

  /** Compact number token: consumed exactly, its Swift spelling written. */
  lemma NumberLiteralCompact(c: Ctx, token: string)
    requires c.Valid()
    ensures Compact(c, NumberLiteral(token)) ==> WriteNumberLiteral(c, token) == Ok(ExprConsumed(c, NumberLiteral(token)))
  {
  }

  /** The SimpleName, literal, PrefixExpression and PostfixExpression rules.
      The output is the expression's Swift text whatever trivia the source
      holds; every failure is a tree/source mismatch; compact source text is
      consumed exactly. */
  function WriteExpr(c: Ctx, e: Expr): (r: Outcome)
    requires c.Valid()
    ensures r.Ok? ==> Advances(c, r.value) && KnownOperators(e)
    ensures r.Ok? ==> r.value.output == c.output + SwiftExprText(e)
    ensures r.Fail? ==> r.error.InvalidAst?
    ensures Compact(c, e) ==> r == Ok(ExprConsumed(c, e))
    decreases e, 0
  {
    match e
    case Identifier(id) => MatchAndWrite(c, id, id)
    case NumberLiteral(token) =>
      NumberLiteralCompact(c, token);
      WriteNumberLiteral(c, token)
    case BooleanLiteral(b) => MatchAndWrite(c, BooleanText(b), BooleanText(b))
    case NullLiteral => MatchAndWrite(c, "null", "nil")
    case Prefix(op, x) => WritePrefix(c, op, x)
    case Postfix(x, op) => WritePostfix(c, x, op)
  }

  /** The PrefixExpression rule: trivia between the operator and its operand
      is skipped, never copied. */
  function WritePrefix(c: Ctx, op: PrefixOperator, x: Expr): (r: Outcome)
    requires c.Valid()
    ensures r.Ok? ==> Advances(c, r.value) && KnownOperators(Prefix(op, x))
    ensures r.Ok? ==> r.value.output == c.output + SwiftExprText(Prefix(op, x))
    ensures r.Fail? ==> r.error.InvalidAst?
    ensures Compact(c, Prefix(op, x)) ==> r == Ok(ExprConsumed(c, Prefix(op, x)))
    decreases x, 1
  {
    if op.OtherPrefix? then Fail(InvalidAst(c.pos))
    else
      PrefixCompactStep(c, op, x);
      var c1 :- MatchAndWrite(c, PrefixToken(op), PrefixToken(op));
      var t1 := SkipTrivia(c1);
      var r :- WriteExpr(t1, x);
      AdvancesTransitive(c, c1, t1);
      AdvancesTransitive(c, t1, r);
      AppendAssoc(c.output, PrefixToken(op), SwiftExprText(x));
      Ok(r)
  }

  /** Compact prefix source: the operator is matched, the cursor then sits on
      the compact operand, and the two steps consume the whole expression. */
  lemma PrefixCompactStep(c: Ctx, op: PrefixOperator, x: Expr)
    requires c.Valid()
    ensures Compact(c, Prefix(op, x)) ==>
      && MatchAndWrite(c, PrefixToken(op), PrefixToken(op)).Ok?
      && var c1 := MatchAndWrite(c, PrefixToken(op), PrefixToken(op)).value;
      && Compact(c1, x) && SkipTrivia(c1) == c1
      && ExprConsumed(c1, x) == ExprConsumed(c, Prefix(op, x))
  {
    if Compact(c, Prefix(op, x)) {
      var tok, jx, sx := PrefixToken(op), JavaExprText(x), SwiftExprText(x);
      JavaExprTextIsSolid(x);
      StepOverPrefix(c, tok, tok, jx, sx);
    }
  }

  /** Source text a + b with b solid: once a is consumed (and w written for
      it) the cursor sits on b, and consuming b as well (writing v for it)
      consumes a + b and writes w + v. */
  lemma StepOverPrefix(c: Ctx, a: string, w: string, b: string, v: string)
    requires c.Valid() && HasAt(c, a + b) && IsSolidToken(b)
    ensures HasAt(c, a)
    ensures var c1 := c.(pos := c.pos + |a|, output := c.output + w);
      && c1.Valid() && HasAt(c1, b) && SkipTrivia(c1) == c1
      && c1.(pos := c1.pos + |b|, output := c1.output + v)
         == c.(pos := c.pos + |a + b|, output := c.output + (w + v))
  {
    HasAtSplit(c, a, b);
    var c1 := c.(pos := c.pos + |a|, output := c.output + w);
    AtSolid(c1, b);
    AppendAssoc(c.output, w, v);
  }

  /** The PostfixExpression rule: trivia between the operand and the
      operator is skipped, never copied. */
  function WritePostfix(c: Ctx, x: Expr, op: PostfixOperator): (r: Outcome)
    requires c.Valid()
    ensures r.Ok? ==> Advances(c, r.value) && KnownOperators(Postfix(x, op))
    ensures r.Ok? ==> r.value.output == c.output + SwiftExprText(Postfix(x, op))
    ensures r.Fail? ==> r.error.InvalidAst?
    ensures Compact(c, Postfix(x, op)) ==> r == Ok(ExprConsumed(c, Postfix(x, op)))
    decreases x, 1
  {
    PostfixCompactStep(c, x, op);
    var c1 :- WriteExpr(c, x);
    var t1 := SkipTrivia(c1);
    if op.OtherPostfix? then Fail(InvalidAst(t1.pos))
    else
      var r :- MatchAndWrite(t1, PostfixToken(op), PostfixToken(op));
      AdvancesTransitive(c, c1, t1);
      AdvancesTransitive(c, t1, r);
      AppendAssoc(c.output, SwiftExprText(x), PostfixToken(op));
      Ok(r)
  }

  /** Compact postfix source: once the compact operand is consumed, the cursor
      sits on the operator, and matching it consumes the whole expression. */
  lemma PostfixCompactStep(c: Ctx, x: Expr, op: PostfixOperator)
    requires c.Valid()
    ensures Compact(c, Postfix(x, op)) ==>
      var c1 := ExprConsumed(c, x);
      && Compact(c, x) && !op.OtherPostfix? && HasAt(c1, PostfixToken(op)) && c1.Valid() && SkipTrivia(c1) == c1
      && c1.(pos := c1.pos + |PostfixToken(op)|, output := c1.output + PostfixToken(op)) == ExprConsumed(c, Postfix(x, op))
  {
    if Compact(c, Postfix(x, op)) {
      var tok, jx, sx := PostfixToken(op), JavaExprText(x), SwiftExprText(x);
      StepOverPrefix(c, jx, sx, tok, tok);
    }
  }

  /** writeConditionNoParens: the parentheses around a condition are matched
      and dropped, and the trivia just inside them is skipped. */
  function WriteConditionNoParens(c: Ctx, e: Expr): (r: Outcome)
    requires c.Valid()
    ensures r.Ok? ==> Advances(c, r.value) && KnownOperators(e)
    ensures r.Ok? ==> r.value.output == c.output + SwiftExprText(e)
    ensures r.Ok? ==> HasAt(c, "(") && c.pos + 2 <= r.value.pos && c.source[r.value.pos - 1..r.value.pos] == ")"
    ensures r.Fail? ==> r.error.InvalidAst?
  {
    var c1 :- Match(c, "(");
    var t1 := SkipTrivia(c1);
    var c2 :- WriteExpr(t1, e);
    var t2 := SkipTrivia(c2);
    var r :- Match(t2, ")");
    AdvancesTransitive(c, c1, t1);
    AdvancesTransitive(c, t1, c2);
    AdvancesTransitive(c, c2, t2);
    AdvancesTransitive(c, t2, r);
    Ok(r)
  }

  // ---- statements ----

  /** A labeled break or continue, or a delegating constructor call: the
      rules reject these before matching anything. */
  predicate IsRejectedConstruct(s: Stmt) {
    || (s.Break? && s.breakLabel.Some?)
    || (s.Continue? && s.continueLabel.Some?)
    || s.ConstructorInvocation?
  }

  /** out ends with the ` }` of an inline `{ body }`. */
  predicate ClosesInline(out: string) {
    |out| >= 2 && out[|out| - 2..] == " }"
  }

  /** out ends with a `}` written in column col. */
  predicate ClosesAt(out: string, col: nat) {
    |out| > 0 && out[|out| - 1] == '}' && Column(out[..|out| - 1]) == col
  }

  /** out[..k] ends with a synthesized `}` (in column col or inline) and the
      keyword starts at m, no earlier than k. */
  predicate ClosedThen(out: string, k: nat, m: nat, col: nat, keyword: string) {
    && k <= m && m + |keyword| <= |out|
    && (ClosesAt(out[..k], col) || ClosesInline(out[..k]))
    && out[m..m + |keyword|] == keyword
  }

  /** Past its first n characters, out holds a synthesized `}` and, at or
      after the end of that, the given keyword. */
  predicate ClosedBefore(out: string, n: nat, col: nat, keyword: string) {
    exists k: nat, m: nat | n < k <= m <= |out| :: ClosedThen(out, k, m, col, keyword)
  }

  /** A brace closed in body, then keyword written after some more text. */
  lemma ClosedBeforeIntro(out: string, n: nat, col: nat, keyword: string, body: string, more: string)
    requires n < |body| && body <= more && more + keyword <= out
    ensures ClosesAt(body, col) || ClosesInline(body) ==> ClosedBefore(out, n, col, keyword)
  {
    var k, m := |body|, |more|;
    assert out[..k] == body;
    assert out[m..m + |keyword|] == keyword;
    if ClosesAt(body, col) || ClosesInline(body) {
      assert ClosedThen(out, k, m, col, keyword);
    }
  }

  /** The tail shared by the two multi-line bracing cases: copy the trivia
      left on the line, mark it processed, start a new line, pad to col and
      close the brace there. */
  function CloseOnOwnLine(c: Ctx, col: nat): (r: Ctx)
    requires c.Valid()
    ensures Advances(c, r) && r.trailingProcessed
    ensures ClosesAt(r.output, col)
  {
    var t := CopyTriviaUntilEol(c).(trailingProcessed := true);
    var c1 := Writeln(t);
    ColumnAfterLineBreak(t.output);
    var c2 := WriteSpacesUntilColumn(c1, col);
    var r := Write(c2, "}");
    assert r.output[..|r.output| - 1] == c2.output;
    r
  }

  /** Dispatch on the statement kind; rejected constructs fail before any
      token is matched. */
  function WriteStmt(c: Ctx, s: Stmt): (r: Outcome)
    requires c.Valid()
    ensures r.Ok? ==> Advances(c, r.value) && Supported(s)
    ensures IsRejectedConstruct(s) ==> r == Fail(SourceNotSupported(c.pos))
    decreases StmtSize(s), 1
  {
    match s
    case Block(ss) => WriteBlock(c, ss)
    case EmptyStatement => MatchAndWrite(c, ";", ";")
    case ExpressionStatement(e) => WriteExpressionStatement(c, e)
    case If(cond, thenS, elseS) => WriteIf(c, cond, thenS, elseS)
    case While(cond, body) => WriteWhile(c, cond, body)
    case Do(body, cond) => WriteDo(c, body, cond)
    case Break(l) => WriteJump(c, "break", l)
    case Continue(l) => WriteJump(c, "continue", l)
    case ConstructorInvocation => Fail(SourceNotSupported(c.pos))
  }

  /** The ExpressionStatement rule. */
  function WriteExpressionStatement(c: Ctx, e: Expr): (r: Outcome)
    requires c.Valid()
    ensures r.Ok? ==> Advances(c, r.value) && KnownOperators(e)
    ensures r.Ok? ==> c.output + SwiftExprText(e) <= r.value.output
    ensures r.Ok? ==> |r.value.output| > |c.output| + |SwiftExprText(e)| && r.value.output[|r.value.output| - 1] == ';'
  {
    var c1 :- WriteExpr(c, e);
    var t1 := CopyTrivia(c1);
    var r :- MatchAndWrite(t1, ";", ";");
    AdvancesTransitive(c, c1, t1);
    AdvancesTransitive(c, t1, r);
    assert r.output == t1.output + ";";
    Ok(r)
  }

  /** The Block rule: trivia before each statement and before `}` is copied. */
  function WriteBlock(c: Ctx, ss: seq<Stmt>): (r: Outcome)
    requires c.Valid()
    ensures r.Ok? ==> Advances(c, r.value) && AllSupported(ss)
    ensures r.Ok? ==> c.output + "{" <= r.value.output
    ensures r.Ok? ==> |r.value.output| > |c.output| + 1 && r.value.output[|r.value.output| - 1] == '}'
    decreases 1 + StmtsSize(ss), 0
  {
    var c1 :- MatchAndWrite(c, "{", "{");
    var c2 :- WriteStmts(c1, ss);
    var t2 := CopyTrivia(c2);
    var r :- MatchAndWrite(t2, "}", "}");
    AdvancesTransitive(c1, c2, t2);
    AdvancesTransitive(c1, t2, r);
    AdvancesTransitive(c, c1, r);
    assert r.output == t2.output + "}";
    Ok(r)
  }

  /** The statement loop of the Block rule. */
  function WriteStmts(c: Ctx, ss: seq<Stmt>): (r: Outcome)
    requires c.Valid()
    ensures r.Ok? ==> Advances(c, r.value) && AllSupported(ss)
    decreases StmtsSize(ss), 4
  {
    if ss == [] then Ok(c)
    else
      var t := CopyTrivia(c);
      var c1 :- WriteStmt(t, ss[0]);
      var r :- WriteStmts(c1, ss[1..]);
      AdvancesTransitive(c, t, c1);
      AdvancesTransitive(c, c1, r);
      Ok(r)
  }

  /** The IfStatement rule: both bodies close at the column the `if` was
      written in; only the else body is forced onto lines of its own. */
  function WriteIf(c: Ctx, cond: Expr, thenS: Stmt, elseS: Option<Stmt>): (r: Outcome)
    requires c.Valid()
    ensures r.Ok? ==> Advances(c, r.value) && Supported(thenS) && (elseS.Some? ==> Supported(elseS.value))
    ensures r.Ok? ==> c.output + "if" <= r.value.output
    ensures r.Ok? && elseS.None? && !thenS.Block? ==>
              ClosesAt(r.value.output, TargetColumn(c)) || ClosesInline(r.value.output)
    ensures r.Ok? && elseS.Some? && !thenS.Block? ==> ClosedBefore(r.value.output, |c.output|, TargetColumn(c), "else")
    ensures r.Ok? && elseS.Some? && !elseS.value.Block? ==> ClosesAt(r.value.output, TargetColumn(c))
    decreases StmtSize(If(cond, thenS, elseS)), 0
  {
    var ifColumn := TargetColumn(c);
    var c1 :- MatchAndWrite(c, "if", "if");
    var t1 := CopyTriviaEnsuringDelimiter(c1);
    var c2 :- WriteConditionNoParens(t1, cond);
    var c3 :- WriteBraced(c2, ifColumn, false, thenS);
    AdvancesTransitive(c1, t1, c2);
    AdvancesTransitive(c1, c2, c3);
    AdvancesTransitive(c, c1, c3);
    if elseS.None? then Ok(c3)
    else
      var r :- WriteElse(c3, ifColumn, elseS.value);
      AdvancesTransitive(c, c3, r);
      ClosedBeforeIntro(r.output, |c.output|, ifColumn, "else", c3.output, CopyTrivia(c3).output);
      Ok(r)
  }

  /** The else part of the IfStatement rule: the copied trivia, `else`, and
      the else body forced onto lines of its own. */
  function WriteElse(c: Ctx, col: nat, s: Stmt): (r: Outcome)
    requires c.Valid()
    ensures r.Ok? ==> Advances(c, r.value) && Supported(s)
    ensures r.Ok? ==> CopyTrivia(c).output + "else" <= r.value.output
    ensures r.Ok? && !s.Block? ==> ClosesAt(r.value.output, col)
    decreases StmtSize(s), 4
  {
    var t := CopyTrivia(c);
    var c1 :- MatchAndWrite(t, "else", "else");
    var r :- WriteBraced(c1, col, true, s);
    AdvancesTransitive(c, t, c1);
    AdvancesTransitive(c, c1, r);
    Ok(r)
  }

  /** The WhileStatement rule: a body that is not a Block closes at the
      column the `while` was written in, or inline. */
  function WriteWhile(c: Ctx, cond: Expr, body: Stmt): (r: Outcome)
    requires c.Valid()
    ensures r.Ok? ==> Advances(c, r.value) && Supported(body)
    ensures r.Ok? && !body.Block? ==>
              ClosesAt(r.value.output, TargetColumn(c)) || ClosesInline(r.value.output)
    ensures r.Ok? ==> c.output + "while" <= r.value.output
    decreases StmtSize(While(cond, body)), 0
  {
    var whileColumn := TargetColumn(c);
    var c1 :- MatchAndWrite(c, "while", "while");
    var t1 := CopyTriviaEnsuringDelimiter(c1);
    var c2 :- WriteConditionNoParens(t1, cond);
    var r :- WriteBraced(c2, whileColumn, false, body);
    AdvancesTransitive(c1, t1, c2);
    AdvancesTransitive(c1, c2, r);
    AdvancesTransitive(c, c1, r);
    Ok(r)
  }

  /** The DoStatement rule. */
  function WriteDo(c: Ctx, body: Stmt, cond: Expr): (r: Outcome)
    requires c.Valid()
    ensures r.Ok? ==> Advances(c, r.value) && Supported(body)
    ensures r.Ok? ==> c.output + "do" <= r.value.output && EndsWith(r.value.output, ";")
    ensures r.Ok? && !body.Block? ==> ClosedBefore(r.value.output, |c.output|, TargetColumn(c), "while")
    decreases StmtSize(Do(body, cond)), 0
  {
    var doColumn := TargetColumn(c);
    var c1 :- MatchAndWrite(c, "do", "do");
    var c2 :- WriteBraced(c1, doColumn, false, body);
    var r :- WriteDoCondition(c2, cond);
    AdvancesTransitive(c1, c2, r);
    AdvancesTransitive(c, c1, r);
    ClosedBeforeIntro(r.output, |c.output|, doColumn, "while", c2.output, CopyTrivia(c2).output);
    Ok(r)
  }

  /** The part of the DoStatement rule after the body: `while`, the
      condition without its parentheses and `;`, each after copied trivia. */
  function WriteDoCondition(c: Ctx, cond: Expr): (r: Outcome)
    requires c.Valid()
    ensures r.Ok? ==> Advances(c, r.value)
    ensures r.Ok? ==> CopyTrivia(c).output + "while" <= r.value.output
    ensures r.Ok? ==> EndsWith(r.value.output, ";")
  {
    var t := CopyTrivia(c);
    var c1 :- MatchAndWrite(t, "while", "while");
    var t1 := CopyTrivia(c1);
    var c2 :- WriteConditionNoParens(t1, cond);
    var t2 := CopyTrivia(c2);
    var r :- MatchAndWrite(t2, ";", ";");
    AdvancesTransitive(c1, t1, c2);
    AdvancesTransitive(c1, c2, t2);
    AdvancesTransitive(c1, t2, r);
    AdvancesTransitive(c, t, c1);
    AdvancesTransitive(c, c1, r);
    assert r.output == t2.output + ";";
    Ok(r)
  }

  /** The BreakStatement and ContinueStatement rules: a label is rejected. */
  function WriteJump(c: Ctx, keyword: string, l: Option<string>): (r: Outcome)
    requires c.Valid()
    ensures r.Ok? ==> Advances(c, r.value) && l.None?
    ensures r.Ok? ==> c.output + keyword <= r.value.output
    ensures r.Ok? ==> |r.value.output| > 0 && r.value.output[|r.value.output| - 1] == ';'
    ensures l.Some? ==> r == Fail(SourceNotSupported(c.pos))
  {
    if l.Some? then Fail(SourceNotSupported(c.pos))
    else
      var c1 :- MatchAndWrite(c, keyword, keyword);
      var t1 := CopyTrivia(c1);
      var r :- MatchAndWrite(t1, ";", ";");
      AdvancesTransitive(c, c1, t1);
      AdvancesTransitive(c, t1, r);
      Ok(r)
  }

  /** writeStatementEnsuringBraces. A Block body is written as it is. Any
      other body gets one synthesized pair of braces: inline as `{ body }`
      when it starts on the keyword's line and no separate line is forced,
      otherwise with the `}` on a line of its own in column col. */
  function WriteBraced(c: Ctx, col: nat, forceSeparateLine: bool, s: Stmt): (r: Outcome)
    requires c.Valid()
    ensures r.Ok? ==> Advances(c, r.value) && Supported(s)
    ensures s.Block? ==> r == WriteStmt(CopyTrivia(c), s)
    ensures r.Ok? && !s.Block? && (forceSeparateLine || !StartsOnSameLine(c)) ==> ClosesAt(r.value.output, col)
    ensures r.Ok? && !s.Block? && !forceSeparateLine && StartsOnSameLine(c) ==> ClosesInline(r.value.output)
    ensures r.Ok? && !s.Block? && forceSeparateLine && StartsOnSameLine(c) ==> c.output + " {\n" <= r.value.output
    ensures r.Ok? && !s.Block? && !forceSeparateLine && StartsOnSameLine(c) ==>
              CopyTriviaEnsuringDelimiter(c).output + "{ " <= r.value.output
    ensures r.Ok? && !s.Block? && !StartsOnSameLine(c) ==> c.output + " {" <= r.value.output
    decreases StmtSize(s), 3
  {
    if s.Block? then
      var t := CopyTrivia(c);
      var r :- WriteStmt(t, s);
      AdvancesTransitive(c, t, r);
      Ok(r)
    else if StartsOnSameLine(c) then
      if forceSeparateLine then WriteOnSeparateLine(c, col, s)
      else WriteInline(c, s)
    else WriteOnNextLine(c, col, s)
  }

  /** The inline case: `{ body }` after the trivia, with a delimiter. */
  function WriteInline(c: Ctx, s: Stmt): (r: Outcome)
    requires c.Valid()
    ensures r.Ok? ==> Advances(c, r.value) && Supported(s)
    ensures r.Ok? ==> ClosesInline(r.value.output)
    ensures r.Ok? ==> CopyTriviaEnsuringDelimiter(c).output + "{ " <= r.value.output
    decreases StmtSize(s), 2
  {
    var t := CopyTriviaEnsuringDelimiter(c);
    var w := Write(t, "{ ");
    var c1 :- WriteStmt(w, s);
    var r := Write(c1, " }");
    AdvancesTransitive(w, c1, r);
    AdvancesTransitive(t, w, r);
    AdvancesTransitive(c, t, r);
    Ok(r)
  }

  /** The case of a body on a later line: ` {` at the end of the keyword's
      line, the body with its trivia, the `}` on a line of its own. */
  function WriteOnNextLine(c: Ctx, col: nat, s: Stmt): (r: Outcome)
    requires c.Valid()
    ensures r.Ok? ==> Advances(c, r.value) && Supported(s)
    ensures r.Ok? ==> ClosesAt(r.value.output, col)
    ensures r.Ok? ==> c.output + " {" <= r.value.output
    decreases StmtSize(s), 2
  {
    var w := Write(c, " {");
    var t := CopyTrivia(w);
    var c1 :- WriteStmt(t, s);
    var r := CloseOnOwnLine(c1, col);
    AdvancesTransitive(w, t, c1);
    AdvancesTransitive(w, c1, r);
    AdvancesTransitive(c, w, r);
    Ok(r)
  }

  /** The forced-separate-line case: open the brace, start a new line
      indented one step past col, write the body, close at col. */
  function WriteOnSeparateLine(c: Ctx, col: nat, s: Stmt): (r: Outcome)
    requires c.Valid()
    ensures r.Ok? ==> Advances(c, r.value) && Supported(s)
    ensures r.Ok? ==> ClosesAt(r.value.output, col)
    ensures r.Ok? ==> c.output + " {\n" <= r.value.output
    decreases StmtSize(s), 2
  {
    var w := Write(c, " {\n");
    var p := WriteSpacesUntilColumn(w, col);
    var q := WriteSpaces(p, c.indent);
    var k := SkipSpacesAndTabs(q);
    var t := CopyTrivia(k);
    var c1 :- WriteStmt(t, s);
    var r := CloseOnOwnLine(c1, col);
    AdvancesTransitive(w, p, q);
    AdvancesTransitive(w, q, k);
    AdvancesTransitive(w, k, t);
    AdvancesTransitive(w, t, c1);
    AdvancesTransitive(w, c1, r);
    AdvancesTransitive(c, w, r);
    Ok(r)
  }

  // ---- declarations ----

  /** What a variable name is preceded by in the output. */
  function StarFor(c: Ctx): string {
    if c.needsStar then "*" else ""
  }

  /** The VariableDeclarationFragment rule: C-style extra dimensions are
      rejected; a `*` precedes the name while the declaration needs one;
      an initializer keeps its `=` and surrounding trivia. */
  function WriteVariableFragment(c: Ctx, f: VariableFragment): (r: Outcome)
    requires c.Valid()
    ensures r.Ok? ==> Advances(c, r.value)
    ensures f.extraDimensions > 0 ==> r == Fail(SourceNotSupported(c.pos))
    ensures r.Ok? ==> c.output + StarFor(c) + f.fragmentName <= r.value.output
    ensures r.Ok? && f.initializer.None? ==> r.value.output == c.output + StarFor(c) + f.fragmentName
  {
    if f.extraDimensions > 0 then Fail(SourceNotSupported(c.pos))
    else
      var c1 := Write(c, StarFor(c));
      var c2 :- MatchAndWrite(c1, f.fragmentName, f.fragmentName);
      AdvancesTransitive(c, c1, c2);
      if f.initializer.None? then Ok(c2)
      else
        var t2 := CopyTrivia(c2);
        var c3 :- MatchAndWrite(t2, "=", "=");
        var t3 := CopyTrivia(c3);
        var r :- WriteExpr(t3, f.initializer.value);
        AdvancesTransitive(c2, t2, c3);
        AdvancesTransitive(c2, c3, t3);
        AdvancesTransitive(c2, t3, r);
        AdvancesTransitive(c, c2, r);
        Ok(r)
  }

  /** The SingleVariableDeclaration rule: Java's `Type name` is written in
      Swift order as `name: Type`. The cursor jumps to the type and back, and
      ends just past the name. An initializer is an internal error. */
  function WriteSingleVariable(c: Ctx, v: SingleVariable): (r: Outcome)
    requires c.Valid()
    ensures r.Ok? ==> Appends(c, r.value) && r.value.pos == v.nameStart + |v.variableName|
    ensures r.Ok? ==> !v.hasInitializer && c.output + v.variableName + ": " <= r.value.output
    ensures v.hasInitializer ==> r.Fail?
    ensures v.dimensions > 0 ==> r == Fail(SourceNotSupported(c.pos))
  {
    if v.dimensions > 0 then Fail(SourceNotSupported(c.pos))
    else
      var c1 :- SetPosition(c, v.nameStart);
      var c2 :- MatchAndWrite(c1, v.variableName, v.variableName);
      var c3 := Write(c2, ": ");
      var endOfName := c3.pos;
      var c4 :- SetPosition(c3, v.typeStart);
      var c5 :- WriteType(c4, v.variableType);
      var c6 :- SetPosition(c5, endOfName);
      AppendsTransitive(c3, c4, c5);
      AppendsTransitive(c3, c5, c6);
      if v.hasInitializer then Fail(Internal(c6.pos)) else Ok(c6)
  }

  /** The source holds the parameter's name at its name offset and its type,
      written compactly, at its type offset. */
  predicate CompactVariable(c: Ctx, v: SingleVariable) {
    && v.dimensions == 0
    && v.nameStart <= |c.source| && HasAt(c.(pos := v.nameStart), v.variableName)
    && v.typeStart <= |c.source| && CompactType(c.(pos := v.typeStart), v.variableType)
  }

  lemma SingleVariableUnfold(c: Ctx, v: SingleVariable, c2: Ctx, c5: Ctx)
    requires c.Valid() && v.dimensions == 0 && v.nameStart <= |c.source|
    requires MatchAndWrite(c.(pos := v.nameStart), v.variableName, v.variableName) == Ok(c2)
    requires v.typeStart <= |c.source| && c2.source == c.source
    requires WriteType(Write(c2, ": ").(pos := v.typeStart), v.variableType) == Ok(c5)
    requires c5.source == c.source && c2.pos <= |c.source|
    ensures WriteSingleVariable(c, v)
            == if v.hasInitializer then Fail(Internal(c2.pos)) else Ok(c5.(pos := c2.pos))
  {
  }

  /** A compactly written parameter becomes exactly `name: Type`, with the
      type's Swift text, and the cursor ends just past the name; with an
      initializer the rule fails with the internal error there instead. */
  lemma SingleVariableCompact(c: Ctx, v: SingleVariable)
    requires c.Valid() && CompactVariable(c, v)
    ensures WriteSingleVariable(c, v)
            == if v.hasInitializer then Fail(Internal(v.nameStart + |v.variableName|))
               else Ok(Consumed(c.(pos := v.nameStart), v.variableName, v.variableName + ": " + SwiftTypeText(v.variableType)))
  {
    var name, t := v.variableName, v.variableType;
    var c2 := Consumed(c.(pos := v.nameStart), name, name);
    var c4 := Write(c2, ": ").(pos := v.typeStart);
    HasAtSameCursor(c.(pos := v.typeStart), c4, JavaTypeText(t));
    WriteTypeCompact(c4, t);
    SingleVariableUnfold(c, v, c2, TypeConsumed(c4, t));
    AppendAssoc(c.output + name, ": ", SwiftTypeText(t));
    AppendAssoc(c.output, name, ": " + SwiftTypeText(t));
    AppendAssoc(name, ": ", SwiftTypeText(t));
  }
}
