/**
  The closed set of Java tree nodes the Swift rewrite rules handle, with the
  text each node has when written compactly in Java and the Swift text the
  rules produce for it. Every other node kind is outside this model.
 */
module Ast {
  import opened Results
  import opened PrimitiveTypes
  import NumberLiterals
  import Context

  // ---- expressions ----

  datatype PrefixOperator = Increment | Decrement | Plus | Minus | Complement | Not | OtherPrefix(spelling: string)

  datatype PostfixOperator = PostIncrement | PostDecrement | OtherPostfix(spelling: string)

  function PrefixToken(op: PrefixOperator): string
    requires !op.OtherPrefix?
  {
    match op
    case Increment => "++"
    case Decrement => "--"
    case Plus => "+"
    case Minus => "-"
    case Complement => "~"
    case Not => "!"
  }

  function PostfixToken(op: PostfixOperator): string
    requires !op.OtherPostfix?
  {
    match op
    case PostIncrement => "++"
    case PostDecrement => "--"
  }

  /** Identifier is a SimpleName used as an expression. */
  datatype Expr =
    | Identifier(identifier: string)
    | NumberLiteral(token: string)
    | BooleanLiteral(value: bool)
    | NullLiteral
    | Prefix(op: PrefixOperator, operand: Expr)
    | Postfix(operand: Expr, postOp: PostfixOperator)

  /** Every operator in e is one the rules know. */
  predicate KnownOperators(e: Expr) {
    match e
    case Prefix(op, x) => !op.OtherPrefix? && KnownOperators(x)
    case Postfix(x, op) => !op.OtherPostfix? && KnownOperators(x)
    case _ => true
  }

  /** Every identifier and number token in e starts with a visible character. */
  predicate SolidLeaves(e: Expr) {
    match e
    case Identifier(id) => Context.IsSolidToken(id)
    case NumberLiteral(t) => Context.IsSolidToken(t)
    case Prefix(_, x) => SolidLeaves(x)
    case Postfix(x, _) => SolidLeaves(x)
    case _ => true
  }

  predicate WellFormedExpr(e: Expr) {
    KnownOperators(e) && SolidLeaves(e)
  }

  /** A boolean literal is spelled the same in Java and Swift. */
  function BooleanText(b: bool): string {
    if b then "true" else "false"
  }

  /** The expression written in Java with no trivia between its tokens. */
  function JavaExprText(e: Expr): string
    requires KnownOperators(e)
  {
    match e
    case Identifier(id) => id
    case NumberLiteral(t) => t
    case BooleanLiteral(b) => BooleanText(b)
    case NullLiteral => "null"
    case Prefix(op, x) => PrefixToken(op) + JavaExprText(x)
    case Postfix(x, op) => JavaExprText(x) + PostfixToken(op)
  }

  /** A well-formed expression's Java text starts with a visible character. */
  lemma {:induction false} JavaExprTextIsSolid(e: Expr)
    requires WellFormedExpr(e)
    ensures Context.IsSolidToken(JavaExprText(e))
  {
    match e
    case Postfix(x, _) =>
      JavaExprTextIsSolid(x);
      assert JavaExprText(e)[0] == JavaExprText(x)[0];
    case _ =>
  }

  /** The Swift text of an expression: operators keep their spelling and stay
      glued to their operand, `null` becomes `nil`, number tokens get the
      Swift octal spelling. */
  function SwiftExprText(e: Expr): string
    requires KnownOperators(e)
  {
    match e
    case Identifier(id) => id
    case NumberLiteral(t) => NumberLiterals.SwiftNumber(t)
    case BooleanLiteral(b) => BooleanText(b)
    case NullLiteral => "nil"
    case Prefix(op, x) => PrefixToken(op) + SwiftExprText(x)
    case Postfix(x, op) => SwiftExprText(x) + PostfixToken(op)
  }

  // ---- statements ----

  datatype Stmt =
    | Block(statements: seq<Stmt>)
    | EmptyStatement
    | ExpressionStatement(expression: Expr)
    | If(condition: Expr, thenStatement: Stmt, elseStatement: Option<Stmt>)
    | While(condition: Expr, body: Stmt)
    | Do(body: Stmt, doCondition: Expr)
    | Break(breakLabel: Option<string>)
    | Continue(continueLabel: Option<string>)
    | ConstructorInvocation

  function StmtSize(s: Stmt): (n: nat)
    ensures n >= 1
  {
    match s
    case Block(ss) => 1 + StmtsSize(ss)
    case If(_, t, e) => 1 + StmtSize(t) + (if e.Some? then StmtSize(e.value) else 0)
    case While(_, b) => 1 + StmtSize(b)
    case Do(b, _) => 1 + StmtSize(b)
    case _ => 1
  }

  function StmtsSize(ss: seq<Stmt>): (n: nat)
    ensures ss != [] ==> StmtSize(ss[0]) <= n && StmtsSize(ss[1..]) < n
  {
    if ss == [] then 0 else StmtSize(ss[0]) + StmtsSize(ss[1..])
  }

  /** No statement in s is one the rules reject as unsupported: a labeled
      break or continue, or a delegating constructor call. */
  predicate Supported(s: Stmt)
    decreases StmtSize(s), 0
  {
    match s
    case Block(ss) => AllSupported(ss)
    case If(_, t, e) => Supported(t) && (e.Some? ==> Supported(e.value))
    case While(_, b) => Supported(b)
    case Do(b, _) => Supported(b)
    case Break(l) => l.None?
    case Continue(l) => l.None?
    case ConstructorInvocation => false
    case _ => true
  }

  predicate AllSupported(ss: seq<Stmt>)
    decreases StmtsSize(ss), 1
  {
    ss != [] ==> Supported(ss[0]) && AllSupported(ss[1..])
  }

  // ---- types ----

  /** qualifierEnd is the source offset just past the qualifier node.
      namespaceName is the Swift namespace the translator derives from the
      qualifier's package name; that derivation (ASTWriterUtil) is not part
      of this model, so the tree carries its result. */
  datatype Name =
    | SimpleName(identifier: string)
    | QualifiedName(qualifier: Name, qualifierEnd: nat, namespaceName: string, identifier: string)

  /** An array type is its element type, which is never itself an array
      type, with the number of `[]` pairs written after it. */
  datatype TypeNode =
    | PrimitiveType(code: PrimitiveCode)
    | SimpleType(name: Name)
    | ArrayType(elementType: TypeNode, dimensions: nat)
    | ParameterizedType(baseType: TypeNode, typeArguments: seq<TypeNode>)

  function TypeSize(t: TypeNode): (n: nat)
    ensures n >= 1
  {
    match t
    case ArrayType(e, _) => 1 + TypeSize(e)
    case ParameterizedType(b, args) => 1 + TypeSize(b) + TypesSize(args)
    case _ => 1
  }

  function TypesSize(ts: seq<TypeNode>): (n: nat)
    ensures ts != [] ==> TypeSize(ts[0]) <= n && TypesSize(ts[1..]) < n
  {
    if ts == [] then 0 else TypeSize(ts[0]) + TypesSize(ts[1..])
  }

  /** Value-type primitives, simple names with solid identifiers, arrays of
      at least one dimension over a non-array element, and no qualified names
      (whose source extent the tree alone does not give). */
  predicate WellFormedType(t: TypeNode)
    decreases TypeSize(t), 0
  {
    match t
    case PrimitiveType(code) => IsValueType(code)
    case SimpleType(n) => n.SimpleName? && Context.IsSolidToken(n.identifier)
    case ArrayType(e, d) => d >= 1 && !e.ArrayType? && WellFormedType(e)
    case ParameterizedType(b, args) => WellFormedType(b) && WellFormedTypes(args)
  }

  predicate WellFormedTypes(ts: seq<TypeNode>)
    decreases TypesSize(ts), 1
  {
    ts != [] ==> WellFormedType(ts[0]) && WellFormedTypes(ts[1..])
  }

  /** s written n times. */
  function Repeat(s: string, n: nat): string {
    if n == 0 then "" else s + Repeat(s, n - 1)
  }

  /** The type written in Java with no trivia between its tokens. */
  function JavaTypeText(t: TypeNode): string
    requires WellFormedType(t)
    decreases TypeSize(t), 0
  {
    match t
    case PrimitiveType(code) => JavaKeyword(code)
    case SimpleType(n) => n.identifier
    case ArrayType(e, d) => JavaTypeText(e) + Repeat("[]", d)
    case ParameterizedType(b, args) => JavaTypeText(b) + "<" + JavaTypesText(args, true) + ">"
  }

  /** Type arguments separated by commas; first says no comma goes before ts[0]. */
  function JavaTypesText(ts: seq<TypeNode>, first: bool): string
    requires WellFormedTypes(ts)
    decreases TypesSize(ts), 1
  {
    if ts == [] then ""
    else (if first then "" else ",") + JavaTypeText(ts[0]) + JavaTypesText(ts[1..], false)
  }

  /** A well-formed type's Java text starts with a visible character. */
  lemma JavaTypeTextIsSolid(t: TypeNode)
    requires WellFormedType(t)
    ensures Context.IsSolidToken(JavaTypeText(t))
    decreases TypeSize(t)
  {
    match t
    case ArrayType(e, d) =>
      JavaTypeTextIsSolid(e);
      assert JavaTypeText(t)[0] == JavaTypeText(e)[0];
    case ParameterizedType(b, args) =>
      JavaTypeTextIsSolid(b);
      assert JavaTypeText(t)[0] == JavaTypeText(b)[0];
    case _ =>
  }

  /** The Swift text of a type: primitives by their Swift name, an array of
      d dimensions as d nested `Array< ... >`, generic arguments kept in order. */
  function SwiftTypeText(t: TypeNode): string
    requires WellFormedType(t)
    decreases TypeSize(t), 0
  {
    match t
    case PrimitiveType(code) => SwiftName(code)
    case SimpleType(n) => n.identifier
    case ArrayType(e, d) => Repeat("Array<", d) + SwiftTypeText(e) + Repeat(">", d)
    case ParameterizedType(b, args) => SwiftTypeText(b) + "<" + SwiftTypesText(args, true) + ">"
  }

  function SwiftTypesText(ts: seq<TypeNode>, first: bool): string
    requires WellFormedTypes(ts)
    decreases TypesSize(ts), 1
  {
    if ts == [] then ""
    else (if first then "" else ",") + SwiftTypeText(ts[0]) + SwiftTypesText(ts[1..], false)
  }

  // ---- declarations ----

  /** One `name = initializer` of a field or local variable declaration;
      extraDimensions counts C-style `[]` after the name. */
  datatype VariableFragment = VariableFragment(fragmentName: string, extraDimensions: nat, initializer: Option<Expr>)

  /** A parameter or catch-clause variable, with the source offsets of its
      name and of its type. */
  datatype SingleVariable = SingleVariable(
    nameStart: nat, variableName: string, typeStart: nat, variableType: TypeNode,
    dimensions: nat, hasInitializer: bool)
}
