/**
  The Swift rewrite rules for type nodes: primitive, simple, array and
  parameterized types. Each rule consumes the type's source text at the
  cursor and appends its Swift spelling.
 */
module TypeWriters {
  import opened Results
  import opened Context
  import opened PrimitiveTypes
  import opened Ast

  /** The PrimitiveType rule: each value type's keyword is matched and
      replaced by its Swift name; `void` and unknown codes fail. */
  function WritePrimitiveType(c: Ctx, code: PrimitiveCode): (r: Outcome)
    requires c.Valid()
    ensures r.Ok? <==> IsValueType(code) && HasAt(c, JavaKeyword(code))
    ensures r.Ok? ==> r.value == c.(pos := c.pos + |JavaKeyword(code)|, output := c.output + SwiftName(code))
    ensures code.Void? ==> r == Fail(Internal(c.pos))
    ensures !code.Void? ==> r.Fail? ==> r == Fail(InvalidAst(c.pos))
  {
    if IsValueType(code) then MatchAndWrite(c, JavaKeyword(code), SwiftName(code))
    else if code.Void? then Fail(Internal(c.pos))
    else Fail(InvalidAst(c.pos))
  }

  /** s ends with t. */
  predicate EndsWith(s: string, t: string) {
    |t| <= |s| && s[|s| - |t|..] == t
  }

  /** The SimpleType, ArrayType and ParameterizedType rules. A qualified name
      is written as its namespace name + "::" + identifier. */
  function WriteType(c: Ctx, t: TypeNode): (r: Outcome)
    requires c.Valid()
    ensures r.Ok? ==> Appends(c, r.value)
    ensures r.Fail? ==> r.error.InvalidAst? || r.error.Internal?
    decreases TypeSize(t), 1
  {
    match t
    case PrimitiveType(code) => WritePrimitiveType(c, code)
    case SimpleType(n) => WriteSimpleType(c, n)
    case ArrayType(e, d) => WriteArrayType(c, e, d)
    case ParameterizedType(b, args) => WriteParameterizedType(c, b, args)
  }

  /** The SimpleType rule. */
  function WriteSimpleType(c: Ctx, n: Name): (r: Outcome)
    requires c.Valid()
    ensures r.Ok? ==> Appends(c, r.value)
    ensures r.Ok? && n.SimpleName? ==> r.value.output == c.output + n.identifier
    ensures r.Ok? && n.QualifiedName? ==>
              && c.output + n.namespaceName <= r.value.output
              && EndsWith(r.value.output, "::" + n.identifier)
              && r.value.pos >= n.qualifierEnd + 1 + |n.identifier|
    ensures r.Fail? ==> r.error.InvalidAst?
  {
    match n
    case SimpleName(id) => MatchAndWrite(c, id, id)
    case QualifiedName(_, qualifierEnd, ns, id) =>
      var c1 :- SetPosition(Write(c, ns), qualifierEnd);
      var t1 := CopyTrivia(c1);
      var c2 :- MatchAndWrite(t1, ".", "::");
      var r :- MatchAndWrite(c2, id, id);
      AppendsTransitive(c, c1, t1);
      AppendsTransitive(c, t1, c2);
      AppendsTransitive(c, c2, r);
      assert r.output == t1.output + ("::" + id);
      Ok(r)
  }

  /** The ArrayType rule, as evidently intended: an element type with d
      dimensions becomes d nested `Array< ... >`; each `[]` pair is matched
      and the trivia around it skipped. */
  function WriteArrayType(c: Ctx, e: TypeNode, dims: nat): (r: Outcome)
    requires c.Valid()
    ensures r.Ok? ==> Appends(c, r.value)
    ensures r.Ok? ==> c.output + Repeat("Array<", dims) <= r.value.output
    ensures r.Fail? ==> r.error.InvalidAst? || r.error.Internal?
    decreases TypeSize(ArrayType(e, dims)), 0
  {
    var w0 := Write(c, Repeat("Array<", dims));
    var c1 :- WriteType(w0, e);
    var r :- WriteDimensions(c1, dims);
    AppendsTransitive(w0, c1, r);
    Ok(r)
  }

  /** The `[]` pairs after an array's element type, one `>` for each. */
  function WriteDimensions(c: Ctx, n: nat): (r: Outcome)
    requires c.Valid()
    ensures r.Ok? ==> Advances(c, r.value)
    ensures r.Fail? ==> r.error.InvalidAst?
    decreases n
  {
    if n == 0 then Ok(c)
    else
      var c1 :- WriteDimension(c);
      var r :- WriteDimensions(c1, n - 1);
      AdvancesTransitive(c, c1, r);
      Ok(r)
  }

  /** One `[]` pair: the trivia before `[` and inside the pair is skipped,
      and a `>` is written. */
  function WriteDimension(c: Ctx): (r: Outcome)
    requires c.Valid()
    ensures r.Ok? ==> Advances(c, r.value) && r.value.output == c.output + ">"
    ensures r.Fail? ==> r.error.InvalidAst?
  {
    var w := Write(SkipTrivia(c), ">");
    var c1 :- Match(w, "[");
    var r :- Match(SkipTrivia(c1), "]");
    AdvancesTransitive(c, w, c1);
    AdvancesTransitive(c, c1, r);
    Ok(r)
  }

  /** The ArrayType rule exactly as the Java source writes it. The element
      type it writes is never an array type, and it writes one `Array<` and
      one `>` and matches one `[]`, whatever the number of dimensions. */
  function WriteArrayTypeAsWritten(c: Ctx, e: TypeNode, dims: nat): Outcome
    requires c.Valid()
  {
    var w0 := Write(c, "Array<");
    var c1 :- WriteType(w0, e);
    WriteDimension(c1)
  }

  /** The ParameterizedType rule: the base type, then its argument list. */
  function WriteParameterizedType(c: Ctx, b: TypeNode, args: seq<TypeNode>): (r: Outcome)
    requires c.Valid()
    ensures r.Ok? ==> Appends(c, r.value)
    ensures r.Ok? ==> |r.value.output| > |c.output| && r.value.output[|r.value.output| - 1] == '>'
    ensures r.Fail? ==> r.error.InvalidAst? || r.error.Internal?
    decreases TypeSize(ParameterizedType(b, args)), 0
  {
    var c1 :- WriteType(c, b);
    var r :- WriteTypeArgumentList(c1, args);
    AppendsTransitive(c, c1, r);
    Ok(r)
  }

  /** `<`, the comma-separated arguments and `>`. Trivia before `<` is copied;
      the `>` is matched right after the last argument, without copying
      trivia first. */
  function WriteTypeArgumentList(c: Ctx, args: seq<TypeNode>): (r: Outcome)
    requires c.Valid()
    ensures r.Ok? ==> Appends(c, r.value)
    ensures r.Ok? ==> |r.value.output| > |c.output| && r.value.output[|r.value.output| - 1] == '>'
    ensures r.Fail? ==> r.error.InvalidAst? || r.error.Internal?
    decreases TypesSize(args), 3
  {
    var t1 := CopyTrivia(c);
    var c2 :- MatchAndWrite(t1, "<", "<");
    var c3 :- WriteTypeArguments(c2, args, true);
    var r :- MatchAndWrite(c3, ">", ">");
    AppendsTransitive(c, t1, c2);
    AppendsTransitive(c, c2, c3);
    AppendsTransitive(c, c3, r);
    Ok(r)
  }

  /** The type-argument loop of the ParameterizedType rule; first says no
      comma is expected before ts[0]. */
  function WriteTypeArguments(c: Ctx, ts: seq<TypeNode>, first: bool): (r: Outcome)
    requires c.Valid()
    ensures r.Ok? ==> Appends(c, r.value)
    ensures r.Fail? ==> r.error.InvalidAst? || r.error.Internal?
    decreases TypesSize(ts), 2
  {
    if ts == [] then Ok(c)
    else
      var c1 :- if first then Ok(c) else MatchAndWrite(CopyTrivia(c), ",", ",");
      var t1 := CopyTrivia(c1);
      var c2 :- WriteType(t1, ts[0]);
      var r :- WriteTypeArguments(c2, ts[1..], false);
      AppendsTransitive(c, c1, t1);
      AppendsTransitive(c, t1, c2);
      AppendsTransitive(c, c2, r);
      Ok(r)
  }
}
