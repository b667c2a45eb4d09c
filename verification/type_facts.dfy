/**
  Types written compactly: when the source holds a well-formed type's Java
  text at the cursor with no trivia inside, the type rules consume exactly
  that text and write exactly its Swift text.

  Each rule's proof has the same three parts: a split lemma finds the parts
  of the Java text at the cursor, the rule's own steps are put together by an
  unfold lemma, and the consumed and written texts are regrouped by
  ConsumedThen.
 */
module TypeFacts {
  import opened Results
  import opened Context
  import opened Ast
  import opened TypeWriters

  /** c once j is consumed from the source and s written. */
  function Consumed(c: Ctx, j: string, s: string): Ctx {
    c.(pos := c.pos + |j|, output := c.output + s)
  }

  /** Consuming in two steps is consuming the concatenations. */
  lemma ConsumedThen(c: Ctx, j1: string, s1: string, j2: string, s2: string)
    ensures Consumed(Consumed(c, j1, s1), j2, s2) == Consumed(c, j1 + j2, s1 + s2)
  {
    AppendAssoc(c.output, s1, s2);
  }

  lemma ConsumedNothing(c: Ctx)
    ensures Consumed(c, "", "") == c
  {
    assert c.output + "" == c.output;
  }

  /** Text at the cursor, split in two: once the first part is consumed the
      second is at the cursor. */
  lemma SplitAt(c: Ctx, a: string, b: string, s: string)
    requires HasAt(c, a + b)
    ensures HasAt(c, a) && HasAt(Consumed(c, a, s), b) && Consumed(c, a, s).Valid()
  {
    HasAtSplit(c, a, b);
  }

  /** HasAt reads only the source and the cursor. */
  lemma HasAtSameCursor(c: Ctx, d: Ctx, s: string)
    requires HasAt(c, s) && d.source == c.source && d.pos == c.pos
    ensures HasAt(d, s)
  {
  }

  /** The source holds t written compactly at the cursor. */
  predicate CompactType(c: Ctx, t: TypeNode) {
    c.Valid() && WellFormedType(t) && HasAt(c, JavaTypeText(t))
  }

  /** The context once t's compact Java text is consumed and its Swift text written. */
  function TypeConsumed(c: Ctx, t: TypeNode): Ctx
    requires WellFormedType(t)
  {
    Consumed(c, JavaTypeText(t), SwiftTypeText(t))
  }

  // ---- all type rules ----

  /** A compactly written type is consumed exactly and its Swift text written:
      the type rules and the independent text definitions agree. */
  lemma WriteTypeCompact(c: Ctx, t: TypeNode)
    requires CompactType(c, t)
    ensures WriteType(c, t) == Ok(TypeConsumed(c, t))
    decreases TypeSize(t), 1
  {
    match t
    case PrimitiveType(_) =>
    case SimpleType(_) =>
    case ArrayType(e, d) => ArrayTypeCompact(c, e, d);
    case ParameterizedType(b, args) => ParameterizedTypeCompact(c, b, args);
  }

  /** The same, for a caller that does not know whether t is compact. */
  lemma WriteTypeCompactIf(c: Ctx, t: TypeNode)
    requires c.Valid()
    ensures CompactType(c, t) ==> WriteType(c, t) == Ok(TypeConsumed(c, t))
  {
    if CompactType(c, t) {
      WriteTypeCompact(c, t);
    }
  }

  /** A compact type, then fixed text written after it. */
  lemma TypeThenWrite(c: Ctx, t: TypeNode, post: string)
    requires CompactType(c, t)
    ensures WriteType(c, t) == Ok(TypeConsumed(c, t))
    ensures Write(TypeConsumed(c, t), post) == Consumed(c, JavaTypeText(t), SwiftTypeText(t) + post)
  {
    WriteTypeCompact(c, t);
    AppendAssoc(c.output, SwiftTypeText(t), post);
  }

  /** A compact type with fixed text written before and after it. */
  lemma WrappedType(c: Ctx, t: TypeNode, pre: string, post: string)
    requires CompactType(c, t)
    ensures WriteType(Write(c, pre), t) == Ok(TypeConsumed(Write(c, pre), t))
    ensures Write(TypeConsumed(Write(c, pre), t), post) == Consumed(c, JavaTypeText(t), pre + SwiftTypeText(t) + post)
  {
    var jt, st := JavaTypeText(t), SwiftTypeText(t);
    var w := Write(c, pre);
    HasAtSameCursor(c, w, jt);
    TypeThenWrite(w, t, post);
    assert w == Consumed(c, "", pre);
    ConsumedThen(c, "", pre, jt, st + post);
    assert "" + jt == jt;
    AppendAssoc(pre, st, post);
  }

  // ---- array types ----

  /** At a compact `[]` exactly those two characters are consumed. */
  lemma DimensionCompact(c: Ctx)
    requires c.Valid() && HasAt(c, "[]")
    ensures WriteDimension(c) == Ok(Consumed(c, "[]", ">"))
  {
    HasAtSplit(c, "[", "]");
    AtSolid(c, "[");
    AtSolid(c.(pos := c.pos + 1, output := c.output + ">"), "]");
  }

  lemma DimensionsUnfold(c: Ctx, n: nat, c1: Ctx, r: Ctx)
    requires c.Valid() && n > 0
    requires WriteDimension(c) == Ok(c1) && c1.Valid() && WriteDimensions(c1, n - 1) == Ok(r)
    ensures WriteDimensions(c, n) == Ok(r)
  {
  }

  lemma DimensionsSplit(c: Ctx, n: nat)
    requires c.Valid() && n > 0 && HasAt(c, Repeat("[]", n))
    ensures var c1 := Consumed(c, "[]", ">");
            WriteDimension(c) == Ok(c1) && c1.Valid() && HasAt(c1, Repeat("[]", n - 1))
  {
    SplitAt(c, "[]", Repeat("[]", n - 1), ">");
    DimensionCompact(c);
  }

  /** n compact `[]` pairs are consumed exactly, one `>` written for each. */
  lemma {:induction false} DimensionsCompact(c: Ctx, n: nat)
    requires c.Valid() && HasAt(c, Repeat("[]", n))
    ensures WriteDimensions(c, n) == Ok(Consumed(c, Repeat("[]", n), Repeat(">", n)))
    decreases n
  {
    if n == 0 {
      ConsumedNothing(c);
    } else {
      var c1 := Consumed(c, "[]", ">");
      DimensionsSplit(c, n);
      DimensionsCompact(c1, n - 1);
      DimensionsUnfold(c, n, c1, Consumed(c1, Repeat("[]", n - 1), Repeat(">", n - 1)));
      ConsumedThen(c, "[]", ">", Repeat("[]", n - 1), Repeat(">", n - 1));
    }
  }

  lemma ArrayTypeSplit(c: Ctx, e: TypeNode, d: nat)
    requires CompactType(c, ArrayType(e, d))
    ensures var w0 := Write(c, Repeat("Array<", d));
            && w0 == Consumed(c, "", Repeat("Array<", d))
            && CompactType(w0, e)
            && TypeConsumed(w0, e).Valid()
            && HasAt(TypeConsumed(w0, e), Repeat("[]", d))
  {
    var je, brackets := JavaTypeText(e), Repeat("[]", d);
    var w0 := Write(c, Repeat("Array<", d));
    assert JavaTypeText(ArrayType(e, d)) == je + brackets;
    HasAtSameCursor(c, w0, je + brackets);
    SplitAt(w0, je, brackets, SwiftTypeText(e));
  }

  lemma ArrayTypeUnfold(c: Ctx, e: TypeNode, d: nat, c1: Ctx, r: Ctx)
    requires c.Valid()
    requires WriteType(Write(c, Repeat("Array<", d)), e) == Ok(c1) && c1.Valid() && WriteDimensions(c1, d) == Ok(r)
    ensures WriteArrayType(c, e, d) == Ok(r)
  {
  }

  /** The Swift and Java texts of an array type, regrouped. */
  lemma ArrayTypeShape(c: Ctx, e: TypeNode, d: nat)
    requires WellFormedType(ArrayType(e, d))
    ensures Consumed(TypeConsumed(Consumed(c, "", Repeat("Array<", d)), e), Repeat("[]", d), Repeat(">", d))
            == TypeConsumed(c, ArrayType(e, d))
  {
    var je, se := JavaTypeText(e), SwiftTypeText(e);
    var opens, brackets, closes := Repeat("Array<", d), Repeat("[]", d), Repeat(">", d);
    ConsumedThen(c, "", opens, je, se);
    ConsumedThen(c, "" + je, opens + se, brackets, closes);
    assert "" + je == je;
  }

  /** A compact `T[]...[]` of d dimensions becomes d nested `Array< ... >`. */
  lemma ArrayTypeCompact(c: Ctx, e: TypeNode, d: nat)
    requires CompactType(c, ArrayType(e, d))
    ensures WriteArrayType(c, e, d) == Ok(TypeConsumed(c, ArrayType(e, d)))
    decreases TypeSize(ArrayType(e, d)), 0
  {
    var w0 := Write(c, Repeat("Array<", d));
    ArrayTypeSplit(c, e, d);
    WriteTypeCompact(w0, e);
    var c1 := TypeConsumed(w0, e);
    DimensionsCompact(c1, d);
    ArrayTypeUnfold(c, e, d, c1, Consumed(c1, Repeat("[]", d), Repeat(">", d)));
    ArrayTypeShape(c, e, d);
  }

  // ---- parameterized types ----

  lemma ParameterizedTypeSplit(c: Ctx, b: TypeNode, args: seq<TypeNode>)
    requires CompactType(c, ParameterizedType(b, args))
    ensures && CompactType(c, b)
            && WellFormedTypes(args)
            && TypeConsumed(c, b).Valid()
            && HasAt(TypeConsumed(c, b), "<" + JavaTypesText(args, true) + ">")
  {
    var jb, list := JavaTypeText(b), "<" + JavaTypesText(args, true) + ">";
    assert JavaTypeText(ParameterizedType(b, args)) == jb + list;
    SplitAt(c, jb, list, SwiftTypeText(b));
  }

  lemma ParameterizedTypeUnfold(c: Ctx, b: TypeNode, args: seq<TypeNode>, c1: Ctx, r: Ctx)
    requires c.Valid()
    requires WriteType(c, b) == Ok(c1) && c1.Valid() && WriteTypeArgumentList(c1, args) == Ok(r)
    ensures WriteParameterizedType(c, b, args) == Ok(r)
  {
  }

  lemma ParameterizedTypeShape(c: Ctx, b: TypeNode, args: seq<TypeNode>)
    requires WellFormedType(ParameterizedType(b, args))
    ensures Consumed(TypeConsumed(c, b), "<" + JavaTypesText(args, true) + ">", "<" + SwiftTypesText(args, true) + ">")
            == TypeConsumed(c, ParameterizedType(b, args))
  {
    var ja, sa := JavaTypesText(args, true), SwiftTypesText(args, true);
    var jb, sb := JavaTypeText(b), SwiftTypeText(b);
    ConsumedThen(c, jb, sb, "<" + ja + ">", "<" + sa + ">");
    assert jb + ("<" + ja + ">") == jb + "<" + ja + ">";
    assert sb + ("<" + sa + ">") == sb + "<" + sa + ">";
  }

  /** A compact `B<A1,...,An>` is consumed exactly, its arguments in order. */
  lemma ParameterizedTypeCompact(c: Ctx, b: TypeNode, args: seq<TypeNode>)
    requires CompactType(c, ParameterizedType(b, args))
    ensures WriteParameterizedType(c, b, args) == Ok(TypeConsumed(c, ParameterizedType(b, args)))
    decreases TypeSize(ParameterizedType(b, args)), 0
  {
    ParameterizedTypeSplit(c, b, args);
    WriteTypeCompact(c, b);
    var c1 := TypeConsumed(c, b);
    TypeArgumentListCompact(c1, args);
    ParameterizedTypeUnfold(c, b, args, c1,
      Consumed(c1, "<" + JavaTypesText(args, true) + ">", "<" + SwiftTypesText(args, true) + ">"));
    ParameterizedTypeShape(c, b, args);
  }

  lemma TypeArgumentListSplit(c: Ctx, ja: string, s: string)
    requires c.Valid() && HasAt(c, "<" + ja + ">")
    ensures var c2 := Consumed(c, "<", "<");
            && CopyTrivia(c) == c
            && MatchAndWrite(c, "<", "<") == Ok(c2)
            && c2.Valid() && HasAt(c2, ja)
            && Consumed(c2, ja, s).Valid() && HasAt(Consumed(c2, ja, s), ">")
  {
    SplitAt(c, "<", ja + ">", "<");
    assert "<" + ja + ">" == "<" + (ja + ">");
    AtSolid(c, "<");
    SplitAt(Consumed(c, "<", "<"), ja, ">", s);
  }

  lemma TypeArgumentListUnfold(c: Ctx, args: seq<TypeNode>, c2: Ctx, c3: Ctx, r: Ctx)
    requires c.Valid() && CopyTrivia(c) == c
    requires MatchAndWrite(c, "<", "<") == Ok(c2) && c2.Valid()
    requires WriteTypeArguments(c2, args, true) == Ok(c3) && c3.Valid()
    requires MatchAndWrite(c3, ">", ">") == Ok(r)
    ensures WriteTypeArgumentList(c, args) == Ok(r)
  {
  }

  /** A compact `<A1,...,An>`: the brackets kept, the arguments in order. */
  lemma TypeArgumentListCompact(c: Ctx, args: seq<TypeNode>)
    requires c.Valid() && WellFormedTypes(args) && HasAt(c, "<" + JavaTypesText(args, true) + ">")
    ensures WriteTypeArgumentList(c, args)
            == Ok(Consumed(c, "<" + JavaTypesText(args, true) + ">", "<" + SwiftTypesText(args, true) + ">"))
    decreases TypesSize(args), 3
  {
    var ja, sa := JavaTypesText(args, true), SwiftTypesText(args, true);
    TypeArgumentListSplit(c, ja, sa);
    var c2 := Consumed(c, "<", "<");
    TypeArgumentsCompact(c2, args, true);
    var c3 := Consumed(c2, ja, sa);
    TypeArgumentListUnfold(c, args, c2, c3, Consumed(c3, ">", ">"));
    ConsumedThen(c, "<", "<", ja, sa);
    ConsumedThen(c, "<" + ja, "<" + sa, ">", ">");
  }

  /** The separator before ts[0]. */
  function Separator(first: bool): string {
    if first then "" else ","
  }

  /** The separator before an argument: nothing before the first, a
      matched `,` before any other. */
  lemma SeparatorStep(c: Ctx, first: bool, rest: string)
    requires c.Valid() && HasAt(c, Separator(first) + rest)
    ensures var c1 := Consumed(c, Separator(first), Separator(first));
            && (if first then Ok(c) else MatchAndWrite(CopyTrivia(c), ",", ",")) == Ok(c1)
            && c1.Valid() && HasAt(c1, rest)
  {
    var sep := Separator(first);
    SplitAt(c, sep, rest, sep);
    if first {
      ConsumedNothing(c);
    } else {
      AtSolid(c, ",");
    }
  }

  /** A compact type followed by more text. */
  lemma TypeThenText(c: Ctx, t: TypeNode, rest: string)
    requires c.Valid() && WellFormedType(t) && HasAt(c, JavaTypeText(t) + rest)
    ensures CompactType(c, t) && CopyTrivia(c) == c
    ensures TypeConsumed(c, t).Valid() && HasAt(TypeConsumed(c, t), rest)
  {
    var jt := JavaTypeText(t);
    SplitAt(c, jt, rest, SwiftTypeText(t));
    JavaTypeTextIsSolid(t);
    AtSolid(c, jt);
  }

  lemma JavaTypesTextSplit(ts: seq<TypeNode>, first: bool)
    requires WellFormedTypes(ts) && ts != []
    ensures WellFormedType(ts[0]) && WellFormedTypes(ts[1..])
    ensures JavaTypesText(ts, first) == Separator(first) + (JavaTypeText(ts[0]) + JavaTypesText(ts[1..], false))
  {
  }

  lemma TypeArgumentsUnfold(c: Ctx, ts: seq<TypeNode>, first: bool, c1: Ctx, c2: Ctx, r: Ctx)
    requires c.Valid() && ts != []
    requires (if first then Ok(c) else MatchAndWrite(CopyTrivia(c), ",", ",")) == Ok(c1)
    requires c1.Valid() && CopyTrivia(c1) == c1 && WriteType(c1, ts[0]) == Ok(c2)
    requires c2.Valid() && WriteTypeArguments(c2, ts[1..], false) == Ok(r)
    ensures WriteTypeArguments(c, ts, first) == Ok(r)
  {
  }

  lemma TypeArgumentsShape(c: Ctx, ts: seq<TypeNode>, first: bool)
    requires WellFormedTypes(ts) && ts != []
    ensures Consumed(TypeConsumed(Consumed(c, Separator(first), Separator(first)), ts[0]),
                     JavaTypesText(ts[1..], false), SwiftTypesText(ts[1..], false))
            == Consumed(c, JavaTypesText(ts, first), SwiftTypesText(ts, first))
  {
    var sep := Separator(first);
    var j0, jr := JavaTypeText(ts[0]), JavaTypesText(ts[1..], false);
    var s0, sr := SwiftTypeText(ts[0]), SwiftTypesText(ts[1..], false);
    ConsumedThen(c, sep, sep, j0, s0);
    ConsumedThen(c, sep + j0, sep + s0, jr, sr);
    assert JavaTypesText(ts, first) == sep + j0 + jr;
    assert SwiftTypesText(ts, first) == sep + s0 + sr;
  }

  /** Compact comma-separated arguments, each written as its Swift text. */
  lemma {:induction false} TypeArgumentsCompact(c: Ctx, ts: seq<TypeNode>, first: bool)
    requires c.Valid() && WellFormedTypes(ts) && HasAt(c, JavaTypesText(ts, first))
    ensures WriteTypeArguments(c, ts, first)
            == Ok(Consumed(c, JavaTypesText(ts, first), SwiftTypesText(ts, first)))
    decreases TypesSize(ts), 2
  {
    if ts == [] {
      ConsumedNothing(c);
    } else {
      var jr, sr := JavaTypesText(ts[1..], false), SwiftTypesText(ts[1..], false);
      JavaTypesTextSplit(ts, first);
      SeparatorStep(c, first, JavaTypeText(ts[0]) + jr);
      var c1 := Consumed(c, Separator(first), Separator(first));
      TypeThenText(c1, ts[0], jr);
      WriteTypeCompact(c1, ts[0]);
      var c2 := TypeConsumed(c1, ts[0]);
      TypeArgumentsCompact(c2, ts[1..], false);
      TypeArgumentsUnfold(c, ts, first, c1, c2, Consumed(c2, jr, sr));
      TypeArgumentsShape(c, ts, first);
    }
  }

  // ---- the array rule as written ----

  lemma AsWrittenSplit(c: Ctx, e: TypeNode, d: nat)
    requires CompactType(c, ArrayType(e, d)) && d >= 2
    ensures var w0 := Write(c, "Array<");
            && w0 == Consumed(c, "", "Array<")
            && CompactType(w0, e)
            && TypeConsumed(w0, e).Valid()
            && HasAt(TypeConsumed(w0, e), "[]")
            && HasAt(Consumed(TypeConsumed(w0, e), "[]", ">"), "[]")
  {
    var je, rest := JavaTypeText(e), Repeat("[]", d - 2);
    var w0 := Write(c, "Array<");
    assert Repeat("[]", d) == "[]" + ("[]" + rest);
    assert JavaTypeText(ArrayType(e, d)) == je + Repeat("[]", d);
    HasAtSameCursor(c, w0, je + Repeat("[]", d));
    SplitAt(w0, je, Repeat("[]", d), SwiftTypeText(e));
    var c1 := TypeConsumed(w0, e);
    SplitAt(c1, "[]", "[]" + rest, ">");
    SplitAt(Consumed(c1, "[]", ">"), "[]", rest, "");
  }

  lemma AsWrittenUnfold(c: Ctx, e: TypeNode, d: nat, c1: Ctx, r: Ctx)
    requires c.Valid()
    requires WriteType(Write(c, "Array<"), e) == Ok(c1) && c1.Valid() && WriteDimension(c1) == Ok(r)
    ensures WriteArrayTypeAsWritten(c, e, d) == Ok(r)
  {
  }

  /** Two or more nested `Array<` are longer than one. */
  lemma AsWrittenShorter(e: TypeNode, d: nat)
    requires WellFormedType(ArrayType(e, d)) && d >= 2
    ensures "Array<" + SwiftTypeText(e) + ">" != SwiftTypeText(ArrayType(e, d))
  {
    var se := SwiftTypeText(e);
    assert Repeat("Array<", d) == "Array<" + ("Array<" + Repeat("Array<", d - 2));
    assert |SwiftTypeText(ArrayType(e, d))| >= 12 + |se|;
  }

  /** Finding: the rule as written drops every dimension after the first. A
      compact `T[][]` is written as `Array<T>` and only `T[]` is consumed, so
      the cursor stops on the second `[]`. */
  lemma ArrayAsWrittenDropsDimensions(c: Ctx, e: TypeNode, d: nat)
    requires CompactType(c, ArrayType(e, d)) && d >= 2
    ensures var r := Consumed(c, JavaTypeText(e) + "[]", "Array<" + SwiftTypeText(e) + ">");
            && WriteArrayTypeAsWritten(c, e, d) == Ok(r)
            && HasAt(r, "[]")
    ensures "Array<" + SwiftTypeText(e) + ">" != SwiftTypeText(ArrayType(e, d))
  {
    var je, se := JavaTypeText(e), SwiftTypeText(e);
    var w0 := Write(c, "Array<");
    AsWrittenSplit(c, e, d);
    WriteTypeCompact(w0, e);
    var c1 := TypeConsumed(w0, e);
    DimensionCompact(c1);
    AsWrittenUnfold(c, e, d, c1, Consumed(c1, "[]", ">"));
    ConsumedThen(c, "", "Array<", je, se);
    ConsumedThen(c, "" + je, "Array<" + se, "[]", ">");
    assert "" + je == je;
    AsWrittenShorter(e, d);
  }
}
