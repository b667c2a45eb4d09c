/**
  The primitive type codes of the Java tree and the Swift type each value
  type is rewritten to.
 */
module PrimitiveTypes {
  import opened Results

  /** Unknown stands for any code outside the nine the rule tests for. */
  datatype PrimitiveCode = Byte | Short | Char | Int | Long | Float | Double | Boolean | Void | Unknown

  /** The eight codes that name a value type. */
  predicate IsValueType(code: PrimitiveCode) {
    !code.Void? && !code.Unknown?
  }

  function JavaKeyword(code: PrimitiveCode): string
    requires IsValueType(code)
  {
    match code
    case Byte => "byte"
    case Short => "short"
    case Char => "char"
    case Int => "int"
    case Long => "long"
    case Float => "float"
    case Double => "double"
    case Boolean => "boolean"
  }

  /** Java's 32-bit int becomes Swift's Int, whose width is the platform's. */
  function SwiftName(code: PrimitiveCode): string
    requires IsValueType(code)
  {
    match code
    case Byte => "Int8"
    case Short => "Int16"
    case Char => "Character"
    case Int => "Int"
    case Long => "Int64"
    case Float => "Float"
    case Double => "Double"
    case Boolean => "Bool"
  }

  /** Reverse lookup: the value type a Swift type name stands for, if any. */
  function CodeOfSwiftName(name: string): (r: Option<PrimitiveCode>)
    ensures r.Some? ==> IsValueType(r.value)
  {
    if name == "Int8" then Some(Byte)
    else if name == "Int16" then Some(Short)
    else if name == "Character" then Some(Char)
    else if name == "Int" then Some(Int)
    else if name == "Int64" then Some(Long)
    else if name == "Float" then Some(Float)
    else if name == "Double" then Some(Double)
    else if name == "Bool" then Some(Boolean)
    else None
  }

  /** Reverse lookup: the value type a Java keyword names, if any. */
  function CodeOfJavaKeyword(keyword: string): (r: Option<PrimitiveCode>)
    ensures r.Some? ==> IsValueType(r.value)
  {
    if keyword == "byte" then Some(Byte)
    else if keyword == "short" then Some(Short)
    else if keyword == "char" then Some(Char)
    else if keyword == "int" then Some(Int)
    else if keyword == "long" then Some(Long)
    else if keyword == "float" then Some(Float)
    else if keyword == "double" then Some(Double)
    else if keyword == "boolean" then Some(Boolean)
    else None
  }

  /** Each value type has exactly one Swift spelling and no two share one:
      the Swift name determines the Java code it came from. */
  lemma SwiftNameRoundTrip(code: PrimitiveCode, name: string)
    ensures CodeOfSwiftName(name) == Some(code) <==> IsValueType(code) && SwiftName(code) == name
  {
  }

  lemma JavaKeywordRoundTrip(code: PrimitiveCode, keyword: string)
    ensures CodeOfJavaKeyword(keyword) == Some(code) <==> IsValueType(code) && JavaKeyword(code) == keyword
  {
  }

  /** The rewrite is a bijection between the Java keywords and the Swift names. */
  lemma TranslationIsBijective(a: PrimitiveCode, b: PrimitiveCode)
    requires IsValueType(a) && IsValueType(b)
    ensures SwiftName(a) == SwiftName(b) <==> a == b
    ensures JavaKeyword(a) == JavaKeyword(b) <==> a == b
  {
    SwiftNameRoundTrip(a, SwiftName(a));
    SwiftNameRoundTrip(b, SwiftName(a));
    JavaKeywordRoundTrip(a, JavaKeyword(a));
    JavaKeywordRoundTrip(b, JavaKeyword(a));
  }
}
