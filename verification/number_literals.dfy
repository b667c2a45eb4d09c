/**
  Java number tokens and their Swift spelling. Java marks an octal integer
  with a leading `0` (section 3.10.1 of the Java Language Specification);
  Swift marks it with `0o` and reads a leading `0` as an ordinary decimal digit.
 */
module NumberLiterals {

  predicate IsDigit(ch: char) {
    '0' <= ch <= '9'
  }

  predicate IsOctalDigit(ch: char) {
    '0' <= ch <= '7'
  }

  predicate IsDigitOrUnderscore(ch: char) {
    IsDigit(ch) || ch == '_'
  }

  /** The test the NumberLiteral rule applies: a `0` followed by an octal digit. */
  predicate LooksOctal(token: string) {
    |token| >= 2 && token[0] == '0' && IsOctalDigit(token[1])
  }

  /** The NumberLiteral rule's rewrite exactly as the Java source spells it. */
  function OctalRewriteAsWritten(token: string): string {
    if LooksOctal(token) then "0o" + token[1..] else token
  }

  // ---- Java and Swift integer numerals ----

  /** OctalNumeral of section 3.10.1: `0`, then octal digits in which
      underscores may appear anywhere except at the end. */
  predicate IsOctalNumeral(s: string) {
    && |s| >= 2
    && s[0] == '0'
    && (forall k | 1 <= k < |s| :: IsOctalDigit(s[k]) || s[k] == '_')
    && s[|s| - 1] != '_'
  }

  /** DecimalNumeral of section 3.10.1: `0`, or a non-zero digit followed by
      digits in which underscores may appear anywhere except at the end. */
  predicate IsDecimalNumeral(s: string) {
    || s == "0"
    || (&& |s| >= 1
        && '1' <= s[0] <= '9'
        && (forall k | 0 <= k < |s| :: IsDigitOrUnderscore(s[k]))
        && s[|s| - 1] != '_')
  }

  /** The token without an `l`/`L` type suffix. */
  function Body(token: string): (b: string)
    ensures b <= token
  {
    if |token| > 0 && (token[|token| - 1] == 'l' || token[|token| - 1] == 'L')
    then token[..|token| - 1]
    else token
  }

  function DropLeadingUnderscores(s: string): (r: string)
    ensures |r| <= |s|
    ensures r == s[|s| - |r|..]
    ensures forall k | 0 <= k < |s| - |r| :: s[k] == '_'
    ensures |r| > 0 ==> r[0] != '_'
    decreases |s|
  {
    if |s| > 0 && s[0] == '_' then DropLeadingUnderscores(s[1..]) else s
  }

  /** The octal test the rule evidently intends: the token, apart from its
      type suffix, is an OctalNumeral. The underscores right after the
      leading `0` are dropped because a Swift `0o` must be followed by a digit. */
  function SwiftNumber(token: string): (r: string)
    ensures IsOctalNumeral(Body(token)) ==> |r| >= 3 && r[..2] == "0o" && IsOctalDigit(r[2])
    ensures !IsOctalNumeral(Body(token)) ==> r == token
  {
    var body := Body(token);
    if IsOctalNumeral(body)
    then "0o" + DropLeadingUnderscores(body[1..]) + token[|body|..]
    else token
  }

  function DigitValue(ch: char): int {
    ch as int - '0' as int
  }

  /** The value of a run of digits in the given base; underscores carry no value. */
  function DigitsValue(s: string, base: nat): int
    decreases |s|
  {
    if s == [] then 0
    else if s[|s| - 1] == '_' then DigitsValue(s[..|s| - 1], base)
    else DigitsValue(s[..|s| - 1], base) * base + DigitValue(s[|s| - 1])
  }

  /** What a Java integer numeral without suffix denotes. */
  function JavaIntegerValue(s: string): int {
    if IsOctalNumeral(s) then DigitsValue(s[1..], 8) else DigitsValue(s, 10)
  }

  /** What a Swift integer literal made of digits, underscores and an optional
      `0o` prefix denotes. */
  function SwiftIntegerValue(s: string): int {
    if |s| >= 2 && s[..2] == "0o" then DigitsValue(s[2..], 8) else DigitsValue(s, 10)
  }

  // ---- properties ----

  lemma {:induction false} LeadingUnderscoreHasNoValue(s: string, base: nat)
    ensures DigitsValue("_" + s, base) == DigitsValue(s, base)
    decreases |s|
  {
    if s != [] {
      var t := "_" + s;
      assert t[..|t| - 1] == "_" + s[..|s| - 1];
      LeadingUnderscoreHasNoValue(s[..|s| - 1], base);
    } else {
      assert ("_" + s)[..0] == [];
    }
  }

  lemma {:induction false} DropLeadingUnderscoresKeepsValue(s: string, base: nat)
    ensures DigitsValue(DropLeadingUnderscores(s), base) == DigitsValue(s, base)
    decreases |s|
  {
    if |s| > 0 && s[0] == '_' {
      assert s == "_" + s[1..];
      LeadingUnderscoreHasNoValue(s[1..], base);
      DropLeadingUnderscoresKeepsValue(s[1..], base);
    }
  }

  /** The corrected rewrite never changes what a Java decimal or octal
      integer numeral denotes. */
  lemma SwiftNumberKeepsValue(s: string)
    requires IsDecimalNumeral(s) || IsOctalNumeral(s)
    ensures SwiftIntegerValue(SwiftNumber(s)) == JavaIntegerValue(s)
  {
    assert Body(s) == s;
    if IsOctalNumeral(s) {
      var r := SwiftNumber(s);
      assert s[|s|..] == [];
      assert r == "0o" + DropLeadingUnderscores(s[1..]);
      assert r[2..] == DropLeadingUnderscores(s[1..]);
      DropLeadingUnderscoresKeepsValue(s[1..], 8);
    } else {
      assert SwiftNumber(s) == s;
      assert |s| >= 2 ==> s[1] != 'o';
      assert |s| >= 2 ==> s[..2] != "0o";
    }
  }

  /** The rule as written and the corrected rule agree on every token except
      an octal numeral with an underscore right after its `0`, and a token
      that passes the as-written test without being an octal numeral. */
  lemma AsWrittenAgreesOutsideFindings(token: string)
    requires LooksOctal(token) ==> IsOctalNumeral(Body(token))
    requires IsOctalNumeral(Body(token)) ==> token[1] != '_'
    ensures SwiftNumber(token) == OctalRewriteAsWritten(token)
  {
    var body := Body(token);
    if LooksOctal(token) {
      assert body[1] == token[1];
      assert DropLeadingUnderscores(body[1..]) == body[1..];
      assert body[1..] + token[|body|..] == token[1..];
    } else {
      if |body| >= 2 {
        assert body[0] == token[0] && body[1] == token[1];
      }
    }
  }

  lemma JavaReadsUnderscoreOctal()
    ensures IsOctalNumeral("0_17") && JavaIntegerValue("0_17") == 15
  {
    var t := "0_17";
    assert t[1..] == "_17";
    assert "_17"[..2] == "_1" && "_1"[..1] == "_" && "_"[..0] == [];
    assert DigitsValue("_", 8) == 0;
    assert DigitsValue("_1", 8) == 1;
  }

  lemma SwiftReadsUnderscoreDecimal()
    ensures SwiftIntegerValue("0_17") == 17
  {
    var t := "0_17";
    assert t[..2][1] == '_';
    assert t[..3] == "0_1" && "0_1"[..2] == "0_" && "0_"[..1] == "0" && "0"[..0] == [];
    assert DigitsValue("0", 10) == 0;
    assert DigitsValue("0_", 10) == 0;
    assert DigitsValue("0_1", 10) == 1;
  }

  /** Finding: `0_17` is an octal numeral worth 15, but the rule as written
      leaves it alone and Swift reads it as the decimal 17. */
  lemma UnderscoreOctalMisread()
    ensures IsOctalNumeral("0_17") && JavaIntegerValue("0_17") == 15
    ensures OctalRewriteAsWritten("0_17") == "0_17"
    ensures SwiftIntegerValue(OctalRewriteAsWritten("0_17")) == 17
    ensures SwiftNumber("0_17") == "0o17"
  {
    var t := "0_17";
    JavaReadsUnderscoreOctal();
    SwiftReadsUnderscoreDecimal();
    assert !LooksOctal(t) by {
      assert t[1] == '_';
    }
    assert Body(t) == t;
    assert t[1..] == "_17" && "_17"[1..] == "17";
    assert DropLeadingUnderscores("_17") == "17";
    assert t[|t|..] == [];
  }

  /** Finding: `01.5` is a decimal floating-point literal (section 3.10.2 of
      the Java Language Specification), which the rule as written turns into
      `0o1.5`; the corrected rule leaves it unchanged. */
  lemma LeadingZeroFloatRewritten()
    ensures OctalRewriteAsWritten("01.5") == "0o1.5"
    ensures SwiftNumber("01.5") == "01.5"
  {
    var t := "01.5";
    assert t[1] == '1' && t[1..] == "1.5";
    assert Body(t) == t;
    assert !IsOctalNumeral(t) by {
      assert t[2] == '.';
    }
  }
}
