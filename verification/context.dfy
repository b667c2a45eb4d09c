/**
  The translation context the Swift rewrite rules thread through every call:
  a read-only source text with a cursor into it, and an append-only target
  buffer. The Java class behind it is not part of this model; each operation
  the rules use is given the plain semantics its name promises.
 */
module Context {
  import opened Results

  /** Why a rewrite rule stopped. InvalidAst: the source text does not hold
      the token the tree says is there. SourceNotSupported: the construct has
      no Swift mapping. Internal: the rule threw a plain JUniversalException. */
  datatype Diagnostic = InvalidAst(pos: nat) | SourceNotSupported(pos: nat) | Internal(pos: nat)

  /** source and pos: the Java text and the cursor into it.
      output: the Swift text written so far; its column is derived from it.
      indent: the preferred indent width.
      needsStar: set while a declaration needs a `*` before each variable.
      trailingProcessed: set once a rule has knowingly copied trailing trivia. */
  datatype Ctx = Ctx(source: string, pos: nat, output: string, indent: nat,
                     needsStar: bool, trailingProcessed: bool)
  {
    predicate Valid() {
      pos <= |source|
    }
  }

  type Outcome = Result<Ctx, Diagnostic>

  /** d is what c may become after a rule that only moves forward: same source
      and settings, cursor not moved back, output only appended to. */
  predicate Advances(c: Ctx, d: Ctx) {
    && d.source == c.source
    && d.indent == c.indent
    && d.needsStar == c.needsStar
    && c.pos <= d.pos <= |d.source|
    && c.output <= d.output
  }

  /** Like Advances, but the cursor may land anywhere inside the source
      (rules that reposition to a node start). */
  predicate Appends(c: Ctx, d: Ctx) {
    && d.source == c.source
    && d.indent == c.indent
    && d.needsStar == c.needsStar
    && d.pos <= |d.source|
    && c.output <= d.output
  }

  /** Chaining steps; rules call these explicitly at each step. */
  lemma AdvancesTransitive(c: Ctx, d: Ctx, e: Ctx)
    requires Advances(c, d) && Advances(d, e)
    ensures Advances(c, e)
  {
  }

  lemma AppendsTransitive(c: Ctx, d: Ctx, e: Ctx)
    requires Appends(c, d) && Appends(d, e)
    ensures Appends(c, e)
  {
  }

  /** Appending in two steps is appending the concatenation; rules call this
      where an output is built piecewise. */
  lemma AppendAssoc(a: string, b: string, c: string)
    ensures a + b + c == a + (b + c)
  {
  }

  predicate IsLineBreak(ch: char) {
    ch == '\n' || ch == '\r'
  }

  /** Trivia is whitespace here; comments are not modelled. */
  predicate IsTrivia(ch: char) {
    ch == ' ' || ch == '\t' || IsLineBreak(ch)
  }

  predicate IsSpaceOrTab(ch: char) {
    ch == ' ' || ch == '\t'
  }

  predicate IsSameLineTrivia(ch: char) {
    IsTrivia(ch) && !IsLineBreak(ch)
  }

  /** A token that the cursor can match without first skipping trivia. */
  predicate IsSolidToken(s: string) {
    |s| > 0 && !IsTrivia(s[0])
  }

  /** The runs of characters the cursor can skip or copy. */
  datatype CharClass = Trivia | SameLineTrivia | SpaceOrTab

  predicate InClass(ch: char, cls: CharClass) {
    match cls
    case Trivia => IsTrivia(ch)
    case SameLineTrivia => IsSameLineTrivia(ch)
    case SpaceOrTab => IsSpaceOrTab(ch)
  }

  /** The end of the longest run of characters of class cls that starts at i. */
  function ScanWhile(s: string, i: nat, cls: CharClass): (j: nat)
    requires i <= |s|
    ensures i <= j <= |s|
    ensures forall k | i <= k < j :: InClass(s[k], cls)
    ensures j < |s| ==> !InClass(s[j], cls)
    decreases |s| - i
  {
    if i == |s| || !InClass(s[i], cls) then i else ScanWhile(s, i + 1, cls)
  }

  function TriviaEnd(c: Ctx): nat
    requires c.Valid()
  {
    ScanWhile(c.source, c.pos, Trivia)
  }

  /** The column the next written character lands in. */
  function Column(s: string): nat
    decreases |s|
  {
    if s == [] then 0
    else if s[|s| - 1] == '\n' then 0
    else Column(s[..|s| - 1]) + 1
  }

  function TargetColumn(c: Ctx): nat {
    Column(c.output)
  }

  function Spaces(n: nat): (r: string)
    ensures |r| == n && forall k | 0 <= k < n :: r[k] == ' '
  {
    seq(n, _ => ' ')
  }

  // ---- operations of the context used by the rules ----

  /** The source holds s at the cursor. */
  predicate HasAt(c: Ctx, s: string) {
    c.pos + |s| <= |c.source| && c.source[c.pos..c.pos + |s|] == s
  }

  /** match(s): the source must hold s at the cursor; the cursor moves past it. */
  function Match(c: Ctx, s: string): (r: Outcome)
    requires c.Valid()
    ensures r.Ok? <==> HasAt(c, s)
    ensures r.Ok? ==> r.value == c.(pos := c.pos + |s|) && Advances(c, r.value)
    ensures r.Fail? ==> r.error == InvalidAst(c.pos)
  {
    if HasAt(c, s) then Ok(c.(pos := c.pos + |s|)) else Fail(InvalidAst(c.pos))
  }

  /** matchAndWrite(s, replacement): match s, and write the replacement in its place. */
  function MatchAndWrite(c: Ctx, s: string, replacement: string): (r: Outcome)
    requires c.Valid()
    ensures r.Ok? <==> HasAt(c, s)
    ensures r.Ok? ==> r.value == c.(pos := c.pos + |s|, output := c.output + replacement) && Advances(c, r.value)
    ensures r.Fail? ==> r.error == InvalidAst(c.pos)
  {
    var c1 :- Match(c, s);
    Ok(c1.(output := c1.output + replacement))
  }

  /** write(text) */
  function Write(c: Ctx, text: string): Ctx {
    c.(output := c.output + text)
  }

  /** writeln() */
  function Writeln(c: Ctx): Ctx {
    Write(c, "\n")
  }

  /** writeSpaces(n) */
  function WriteSpaces(c: Ctx, n: nat): Ctx {
    Write(c, Spaces(n))
  }

  /** writeSpacesUntilColumn(col): pad with spaces up to col, never past it. */
  function WriteSpacesUntilColumn(c: Ctx, col: nat): (r: Ctx)
    ensures r == c.(output := r.output)
    ensures |c.output| <= |r.output| && r.output == c.output + Spaces(|r.output| - |c.output|)
    ensures TargetColumn(r) == if TargetColumn(c) < col then col else TargetColumn(c)
  {
    var column := TargetColumn(c);
    var n := if column < col then col - column else 0;
    ColumnAfterSpaces(c.output, n);
    WriteSpaces(c, n)
  }

  /** skipSpaceAndComments() */
  function SkipTrivia(c: Ctx): (r: Ctx)
    requires c.Valid()
    ensures Advances(c, r) && r == c.(pos := r.pos)
    ensures forall k | c.pos <= k < r.pos :: IsTrivia(c.source[k])
  {
    c.(pos := TriviaEnd(c))
  }

  /** copySpaceAndComments() */
  function CopyTrivia(c: Ctx): (r: Ctx)
    requires c.Valid()
    ensures Advances(c, r) && r == c.(pos := r.pos, output := r.output)
    ensures r.output == c.output + c.source[c.pos..r.pos]
  {
    var end := TriviaEnd(c);
    c.(pos := end, output := c.output + c.source[c.pos..end])
  }

  /** copySpaceAndCommentsEnsuringDelimiter(): a space stands in for trivia
      the source did not have. */
  function CopyTriviaEnsuringDelimiter(c: Ctx): (r: Ctx)
    requires c.Valid()
    ensures Advances(c, r) && r == c.(pos := r.pos, output := r.output)
    ensures |r.output| > |c.output|
  {
    if TriviaEnd(c) == c.pos then Write(c, " ") else CopyTrivia(c)
  }

  /** copySpaceAndCommentsUntilEOL(): copy trivia up to the line break. */
  function CopyTriviaUntilEol(c: Ctx): (r: Ctx)
    requires c.Valid()
    ensures Advances(c, r) && r == c.(pos := r.pos, output := r.output)
    ensures r.output == c.output + c.source[c.pos..r.pos]
    ensures forall k | c.pos <= k < r.pos :: IsSameLineTrivia(c.source[k])
  {
    var end := ScanWhile(c.source, c.pos, SameLineTrivia);
    c.(pos := end, output := c.output + c.source[c.pos..end])
  }

  /** skipSpacesAndTabs() */
  function SkipSpacesAndTabs(c: Ctx): (r: Ctx)
    requires c.Valid()
    ensures Advances(c, r) && r == c.(pos := r.pos)
    ensures forall k | c.pos <= k < r.pos :: IsSpaceOrTab(c.source[k])
  {
    c.(pos := ScanWhile(c.source, c.pos, SpaceOrTab))
  }

  /** setPosition(p): a position outside the source is a tree/source mismatch. */
  function SetPosition(c: Ctx, p: nat): Outcome {
    if p <= |c.source| then Ok(c.(pos := p)) else Fail(InvalidAst(c.pos))
  }

  /** startsOnSameLine(node) for the node that starts after the trivia at the cursor. */
  predicate StartsOnSameLine(c: Ctx)
    requires c.Valid()
  {
    forall k | c.pos <= k < TriviaEnd(c) :: !IsLineBreak(c.source[k])
  }

  // ---- facts about the cursor ----

  /** Matching a concatenation is matching its parts one after the other. */
  lemma HasAtConcat(c: Ctx, a: string, b: string)
    requires c.Valid()
    ensures HasAt(c, a + b) <==> HasAt(c, a) && HasAt(c.(pos := c.pos + |a|), b)
  {
    if HasAt(c, a + b) {
      HasAtSplit(c, a, b);
    }
    if HasAt(c, a) && HasAt(c.(pos := c.pos + |a|), b) {
      var s, p := c.source, c.pos;
      assert s[p..p + |a| + |b|] == s[p..p + |a|] + s[p + |a|..p + |a| + |b|];
    }
  }

  lemma HasAtSplit(c: Ctx, a: string, b: string)
    requires HasAt(c, a + b)
    ensures HasAt(c, a) && HasAt(c.(pos := c.pos + |a|), b)
  {
    var s, p := c.source, c.pos;
    var w := s[p..p + |a| + |b|];
    assert s[p..p + |a|] == w[..|a|] && (a + b)[..|a|] == a;
    assert s[p + |a|..p + |a| + |b|] == w[|a|..] && (a + b)[|a|..] == b;
  }

  /** At a character that is not trivia, skipping or copying trivia does nothing. */
  lemma TriviaAtSolid(c: Ctx)
    requires c.Valid() && c.pos < |c.source| && !IsTrivia(c.source[c.pos])
    ensures SkipTrivia(c) == c && CopyTrivia(c) == c
  {
    assert c.source[c.pos..c.pos] == [];
    assert c.output + [] == c.output;
  }

  /** Stepping past a solid token leaves the cursor on a non-trivia character. */
  lemma AtSolid(c: Ctx, s: string)
    requires c.Valid() && HasAt(c, s) && IsSolidToken(s)
    ensures c.pos < |c.source| && !IsTrivia(c.source[c.pos])
    ensures SkipTrivia(c) == c && CopyTrivia(c) == c
  {
    assert c.source[c.pos] == c.source[c.pos..c.pos + |s|][0];
    TriviaAtSolid(c);
  }

  // ---- facts about columns ----

  lemma {:induction false} ColumnAfterSpaces(s: string, n: nat)
    ensures Column(s + Spaces(n)) == Column(s) + n
    decreases n
  {
    if n > 0 {
      var t := s + Spaces(n - 1);
      assert s + Spaces(n) == t + [' '];
      assert (t + [' '])[..|t|] == t;
      ColumnAfterSpaces(s, n - 1);
    } else {
      assert s + Spaces(0) == s;
    }
  }

  lemma ColumnAfterLineBreak(s: string)
    ensures Column(s + "\n") == 0
  {
  }
}
