# juniversal core in Dafny

A model of two parts of juniversal, with proofs about each.

**The Swift rewrite rules.** The translator rewrites Java to Swift with one rule per node kind. Each rule works on a translation context. The context holds:

- the Java source text;
- a cursor into the source;
- the Swift text written so far.

A rule matches the node's Java tokens at the cursor and moves the cursor past them. It appends Swift text to the output. Where it cannot continue, it throws one of three errors:

- invalid-AST, when the source does not hold the expected token;
- source-not-supported, for a construct with no Swift mapping;
- an internal exception.

In the model:

- The context is the record `Context.Ctx`, with the operations the rules call (`match`, `matchAndWrite`, `write`, the trivia skip and copy operations, `writeSpacesUntilColumn`, `setPosition`).
- The node kinds the rules handle form a closed datatype (module `Ast`).
- Each rule is a pure function from a context to `Ok(context)` or `Fail(diagnostic)` (module `SwiftWriters`).
- The contracts relate each rule's result to the source text it consumes and to the Swift text of the node. The Java and Swift texts are defined independently in module `Ast` (`JavaTypeText`, `SwiftTypeText`, `SwiftExprText`). The lemmas of module `TypeFacts` connect the type rules to them.
- For source written without trivia between tokens, the expression and type rules consume exactly the node's Java text. They write exactly its Swift text.

**The chained hash map** (`ju.util.HashMap`):

- The table is a sequence of chains. A chain is a sequence of entries, head first.
- An entry keeps the hash it was filed under.
- The null key is `None` and lives in bucket 0. Every other key lives in bucket `hash & (length - 1)`.
- `HashMaps.Valid` is the representation invariant:
  - the length is a power of two no larger than 2^30;
  - every entry is in the bucket its hash selects;
  - keys are unique;
  - `elementCount` is the number of entries;
  - `threshold` is recomputed from the length.
- `HashMaps.Contents` abstracts the table to the `map<Option<K>, V>` it stands for.
- Every operation is a pure function from the map before to the map after. Its contract is stated against `Contents`.
- `calculateCapacity` works on the 32 bits of a Java `int` (`bv32`). Its wrap-around on negative arguments and on `1 << 31` is therefore exact.

External calls are parameters:

- `hashCode` is the function `hash: K -> int`.
- `equals` is Dafny equality on keys.
- A qualified name carries in `Name.namespaceName` the Swift namespace that the translator derives from its package. That derivation, `ASTWriterUtil.getNamespaceNameForPackageName`, is not part of this model.

## Model

| member | source | states |
|---|---|---|
| `TypeWriters.WritePrimitiveType` | translator/src/main/java/org/juniversal/translator/swift/astwriters/SwiftASTWriters.java:219-241 | Succeeds exactly when the code is one of the eight value types and its Java keyword is at the cursor. It then consumes exactly the keyword and writes exactly its Swift name. `void` fails with the internal error; an unknown code fails with invalid-AST at the cursor. |
| `PrimitiveTypes.TranslationIsBijective` | translator/src/main/java/org/juniversal/translator/swift/astwriters/SwiftASTWriters.java:220-237 | The keyword-to-name table is one-to-one: two value types share a Swift name, or a Java keyword, only if they are the same type. |
| `PrimitiveTypes.SwiftNameRoundTrip` | translator/src/main/java/org/juniversal/translator/swift/astwriters/SwiftASTWriters.java:220-237 | Looking a Swift name back up gives a value type exactly when that type's Swift name is this name. |
| `PrimitiveTypes.JavaKeywordRoundTrip` | translator/src/main/java/org/juniversal/translator/swift/astwriters/SwiftASTWriters.java:220-237 | Looking a Java keyword back up gives a value type exactly when that type's keyword is this keyword. |
| `TypeWriters.WriteSimpleType` | translator/src/main/java/org/juniversal/translator/swift/astwriters/SwiftASTWriters.java:139-160 | A simple name appends exactly its identifier. A qualified name's output starts with the namespace name of its qualifier and ends with `::` followed by the identifier. The cursor then lies past the qualifier's end, the `.` and the identifier. The rule only appends, and fails only with invalid-AST. |
| `TypeWriters.WriteArrayType` | translator/src/main/java/org/juniversal/translator/swift/astwriters/SwiftASTWriters.java:196-210 | The corrected rule (see Findings): an array of d dimensions starts its output with d copies of `Array<`. The rule only appends, and fails only with invalid-AST or the internal error. |
| `TypeFacts.DimensionsCompact` | translator/src/main/java/org/juniversal/translator/swift/astwriters/SwiftASTWriters.java:206-209 | At compact source, the d `[]` pairs are consumed exactly, and one `>` is written for each. |
| `TypeFacts.ArrayTypeCompact` | translator/src/main/java/org/juniversal/translator/swift/astwriters/SwiftASTWriters.java:196-210 | The corrected rule consumes a compactly written array type exactly, as `T` followed by d `[]`. It writes exactly d nested `Array< ... >` around the element's Swift text. |
| `TypeFacts.ArrayAsWrittenDropsDimensions` | translator/src/main/java/org/juniversal/translator/swift/astwriters/SwiftASTWriters.java:196-210 | The rule as written, on `T[][]` or deeper: it writes `Array<` + the element's Swift text + `>`, which is not the type's Swift text. The cursor stops on a `[]` that is still unconsumed. |
| `TypeWriters.WriteParameterizedType` | translator/src/main/java/org/juniversal/translator/swift/astwriters/SwiftASTWriters.java:164-192 | A generic type's output ends with the matched `>`. The rule only appends, and fails only with invalid-AST or the internal error. |
| `TypeFacts.ParameterizedTypeCompact` | translator/src/main/java/org/juniversal/translator/swift/astwriters/SwiftASTWriters.java:164-192 | A compactly written generic type is consumed exactly. The rule writes the base type's Swift text, then `<`, the arguments' Swift texts separated by commas, and `>`. |
| `TypeFacts.TypeArgumentListCompact` | translator/src/main/java/org/juniversal/translator/swift/astwriters/SwiftASTWriters.java:171-190 | The bracketed argument list `<a,b>` is consumed exactly, and written as `<` + the arguments' Swift texts + `>`. |
| `TypeFacts.TypeArgumentsCompact` | translator/src/main/java/org/juniversal/translator/swift/astwriters/SwiftASTWriters.java:174-188 | The argument loop consumes the comma-separated arguments exactly, commas included. It writes each argument's Swift text with the same commas. |
| `TypeFacts.WriteTypeCompact` | translator/src/main/java/org/juniversal/translator/swift/astwriters/SwiftASTWriters.java:139-241 | Every type rule consumes a compactly written type's Java text exactly, and writes exactly its Swift text. This covers primitives, simple names, arrays and generic types. |
| `SwiftWriters.WriteTypeUse` | translator/src/main/java/org/juniversal/translator/swift/astwriters/SwiftASTWriters.java:846-861 | A primitive is written bare, as its Swift name. With a raw pointer, a reference type's output ends in `*`. Otherwise it is wrapped: the output starts with `ptr< ` and ends with ` >`. |
| `SwiftWriters.TypeUseCompact` | translator/src/main/java/org/juniversal/translator/swift/astwriters/SwiftASTWriters.java:846-861 | On a compactly written type the output gains exactly the type's Swift text: bare for a primitive, followed by `*` with a raw pointer, and otherwise as `ptr< ` + text + ` >`. The type's Java text is consumed exactly. |
| `SwiftWriters.WriteNumberLiteral` | translator/src/main/java/org/juniversal/translator/swift/astwriters/SwiftASTWriters.java:718-734 | Succeeds exactly when the token is at the cursor. It consumes exactly the token and writes its Swift spelling; otherwise it fails with invalid-AST at the cursor. The spelling is the one the corrected octal test gives (see Findings), not the one of the test as written. |
| `NumberLiterals.SwiftNumber` | translator/src/main/java/org/juniversal/translator/swift/astwriters/SwiftASTWriters.java:720-732 | An octal numeral, apart from any `l`/`L` suffix, is written as `0o` followed by an octal digit. Any other token is written unchanged. |
| `NumberLiterals.SwiftNumberKeepsValue` | translator/src/main/java/org/juniversal/translator/swift/astwriters/SwiftASTWriters.java:728-732 | For every Java decimal or octal integer numeral, the value Swift reads from the rewritten token equals the value Java reads from the original. |
| `NumberLiterals.AsWrittenAgreesOutsideFindings` | translator/src/main/java/org/juniversal/translator/swift/astwriters/SwiftASTWriters.java:720-732 | The octal test as written and the corrected one produce the same text for every token except the two classes under Findings. |
| `NumberLiterals.UnderscoreOctalMisread` | translator/src/main/java/org/juniversal/translator/swift/astwriters/SwiftASTWriters.java:720-726 | `0_17` is an octal numeral worth 15. The test as written leaves it unchanged, and Swift reads it as 17. The corrected rewrite gives `0o17`. |
| `NumberLiterals.LeadingZeroFloatRewritten` | translator/src/main/java/org/juniversal/translator/swift/astwriters/SwiftASTWriters.java:720-732 | The test as written turns the decimal floating-point literal `01.5` into `0o1.5`. The corrected rewrite leaves it unchanged. |
| `SwiftWriters.WriteExpr` | translator/src/main/java/org/juniversal/translator/swift/astwriters/SwiftASTWriters.java:496-543 | On success, the output gains exactly the expression's Swift text and the cursor only moves forward. Every failure is invalid-AST. Compactly written source is consumed exactly. |
| `SwiftWriters.WritePrefix` | translator/src/main/java/org/juniversal/translator/swift/astwriters/SwiftASTWriters.java:501-520 | The operator is written unchanged and glued to its operand's Swift text. Trivia between them is skipped, never copied. An unknown operator fails with invalid-AST. Compact source is consumed exactly. Because the operator is glued on, `- -x` is written as `--x`, which Swift reads as a decrement; the model writes what the rule writes. |
| `SwiftWriters.PrefixCompactStep` | translator/src/main/java/org/juniversal/translator/swift/astwriters/SwiftASTWriters.java:501-520 | On compact source, matching the operator leaves the cursor on the compact operand, with no trivia to skip. The two steps together consume the whole prefix expression. |
| `SwiftWriters.WritePostfix` | translator/src/main/java/org/juniversal/translator/swift/astwriters/SwiftASTWriters.java:530-541 | The operand's Swift text is followed directly by the unchanged operator. Trivia between them is skipped, never copied. An unknown operator fails with invalid-AST. Compact source is consumed exactly. |
| `SwiftWriters.PostfixCompactStep` | translator/src/main/java/org/juniversal/translator/swift/astwriters/SwiftASTWriters.java:530-541 | On compact source, once the operand is consumed the cursor sits on the operator. Matching the operator then consumes the whole postfix expression. |
| `SwiftWriters.WriteConditionNoParens` | translator/src/main/java/org/juniversal/translator/swift/astwriters/SwiftASTWriters.java:782-790 | The parentheses are matched but not written. The source held `(` at the cursor and `)` just before the new cursor. The output gains exactly the inner expression's Swift text, so trivia inside the parentheses is not copied. |
| `SwiftWriters.WriteBraced` | translator/src/main/java/org/juniversal/translator/swift/astwriters/SwiftASTWriters.java:792-838 | A Block body gets no synthesized braces: trivia is copied and the block is dispatched as it is. Any other body gets a synthesized `{`. When the body is on the keyword's line and a separate line is forced, the output goes on with ` {` and a line break. When none is forced, it goes on with the trivia (a space ensured) and `{ `, and ends in ` }`. When the body is on a later line, it goes on with ` {`. In the two multi-line cases, the synthesized `}` is written in the given column. |
| `SwiftWriters.WriteOnSeparateLine` | translator/src/main/java/org/juniversal/translator/swift/astwriters/SwiftASTWriters.java:799-815 | In the forced-separate-line case, the output goes on with ` {` and a line break, and ends with a `}` in the block's start column. |
| `SwiftWriters.WriteInline` | translator/src/main/java/org/juniversal/translator/swift/astwriters/SwiftASTWriters.java:816-822 | In the inline case, the output goes on with the trivia (a space ensured) and `{ `, and ends in ` }`. |
| `SwiftWriters.WriteOnNextLine` | translator/src/main/java/org/juniversal/translator/swift/astwriters/SwiftASTWriters.java:823-836 | When the body starts on a later line, the output goes on with ` {` and ends with a `}` in the given column. |
| `SwiftWriters.CloseOnOwnLine` | translator/src/main/java/org/juniversal/translator/swift/astwriters/SwiftASTWriters.java:830-835 | Copying the rest of the line, breaking the line and padding to the column puts the closing `}` in that column. The trailing trivia is marked as processed. |
| `SwiftWriters.WriteIf` | translator/src/main/java/org/juniversal/translator/swift/astwriters/SwiftASTWriters.java:310-325 | The output goes on with `if`. A then body that is not a Block gets a synthesized `}`, in the `if`'s column or inline. Without an else, the output ends with it. With an else, it comes before the `else` that follows. An else body that is not a Block always closes on its own line, in the `if`'s column. Success implies that neither body holds a rejected construct. |
| `SwiftWriters.WriteElse` | translator/src/main/java/org/juniversal/translator/swift/astwriters/SwiftASTWriters.java:320-324 | The output goes on with the copied trivia and `else`. An else body that is not a Block closes on its own line in the given column. |
| `SwiftWriters.WriteWhile` | translator/src/main/java/org/juniversal/translator/swift/astwriters/SwiftASTWriters.java:335-342 | The output goes on with `while`. A body that is not a Block closes in the column the `while` was written in, or inline as ` }`. |
| `SwiftWriters.WriteDo` | translator/src/main/java/org/juniversal/translator/swift/astwriters/SwiftASTWriters.java:352-364 | The output goes on with `do` and ends with the statement's `;`. A body that is not a Block gets a synthesized `}`, in the `do`'s column or inline, and it comes before the `while` that follows. Success implies the body holds no rejected construct. |
| `SwiftWriters.WriteDoCondition` | translator/src/main/java/org/juniversal/translator/swift/astwriters/SwiftASTWriters.java:357-364 | After the body, the output goes on with the copied trivia and `while`, and ends with `;`. |
| `SwiftWriters.WriteJump` | translator/src/main/java/org/juniversal/translator/swift/astwriters/SwiftASTWriters.java:392-399 | A labeled `break` or `continue` fails with source-not-supported at the cursor, before any token is matched. An unlabeled one writes the keyword and ends with `;`. |
| `SwiftWriters.WriteStmt` | translator/src/main/java/org/juniversal/translator/swift/astwriters/SwiftASTWriters.java:451-456 | A labeled jump or a delegating constructor call fails with source-not-supported at the cursor. Success implies the statement holds no rejected construct. |
| `SwiftWriters.WriteBlock` | translator/src/main/java/org/juniversal/translator/swift/astwriters/SwiftASTWriters.java:252-278 | The output goes on with `{` and ends with `}`. A block succeeds only if none of its statements holds a rejected construct. The cursor only moves forward and the output is only appended to. |
| `SwiftWriters.WriteExpressionStatement` | translator/src/main/java/org/juniversal/translator/swift/astwriters/SwiftASTWriters.java:292-302 | The output goes on with the expression's Swift text, then grows by more than that text and ends with `;`. |
| `SwiftWriters.WriteVariableFragment` | translator/src/main/java/org/juniversal/translator/swift/astwriters/SwiftASTWriters.java:79-102 | C-style extra dimensions fail with source-not-supported before anything is written. Otherwise the output gains `*` (while the declaration needs one) and the name. Without an initializer, that is all it gains. |
| `SwiftWriters.WriteSingleVariable` | translator/src/main/java/org/juniversal/translator/swift/astwriters/SwiftASTWriters.java:106-135 | Extra dimensions fail with source-not-supported. Otherwise the output gains `name: ` followed by the type, and the cursor ends just past the name. A parameter with an initializer never succeeds. |
| `SwiftWriters.SingleVariableCompact` | translator/src/main/java/org/juniversal/translator/swift/astwriters/SwiftASTWriters.java:106-135 | When the name and the type are written compactly, a parameter without an initializer writes exactly `name: ` + the type's Swift text, and the cursor ends just past the name. With an initializer the result is the internal error just past the name. |
| `Capacity.CapacityRoundsUp` | cpp-archive/javalib/src/ju/util/HashMap.java:116-130 | For 0 < x <= 2^30 the result is a power of two that is at least x, and half of it is below x. So it is the least power of two not below x. |
| `Capacity.CapacityOfNegative` | cpp-archive/javalib/src/ju/util/HashMap.java:116-130 | A negative argument wraps: MIN_VALUE gives MIN_VALUE, and every other negative value gives 0. |
| `Capacity.TableLength` | cpp-archive/javalib/src/ju/util/HashMap.java:149-153 | The length `init` allocates for a non-negative capacity is a power of two in [1, 2^30]. It is 16 for 0 and 2^30 from 2^30 upwards. |
| `Capacity.TableLengthIsCapacity` | cpp-archive/javalib/src/ju/util/HashMap.java:151-153 | That length is calculateCapacity's 32-bit result read as an int. |
| `Capacity.RehashLength` | cpp-archive/javalib/src/ju/util/HashMap.java:349-350 | The corrected new length is a power of two, at least the old one and at most 2^30. It is strictly larger whenever the old one is below 2^30. |
| `Capacity.RehashLengthMatchesSource` | cpp-archive/javalib/src/ju/util/HashMap.java:349-350 | Below 2^30, the source's `calculateCapacity(capacity << 1)` equals the corrected length. |
| `Capacity.RehashOverflowsAtMaximum` | cpp-archive/javalib/src/ju/util/HashMap.java:349-350 | At length 2^30, `capacity << 1` is MIN_VALUE, and calculateCapacity returns MIN_VALUE, a negative array length. The corrected length stays 2^30. |
| `HashMaps.ComputeThreshold` | cpp-archive/javalib/src/ju/util/HashMap.java:182-184 | The threshold is the non-negative product length × load factor, truncated to an int. It is at most the product and within 1 of it, and saturates at Integer.MAX_VALUE. |
| `HashMaps.Init` | cpp-archive/javalib/src/ju/util/HashMap.java:149-158 | Succeeds exactly when the capacity is non-negative and the load factor positive; otherwise the error is IllegalArgument. On success the map is valid and empty, with both counts 0 and the length calculateCapacity(capacity). |
| `HashMaps.FindNullKeyEntry` | cpp-archive/javalib/src/ju/util/HashMap.java:272-277 | Finds the first entry of the chain whose key is null. None means no entry of the chain has a null key. |
| `HashMaps.FindNonNullKeyEntry` | cpp-archive/javalib/src/ju/util/HashMap.java:263-270 | Finds the first entry of the chain with both the stored hash and the key equal. None means no entry matches on both. |
| `HashMaps.BucketLookup` | cpp-archive/javalib/src/ju/util/HashMap.java:251-261 | In a valid map, only the key's own bucket can hold it. The null key's bucket is 0. That bucket decides both whether the key is present and its value. |
| `HashMaps.NullKeyInBucketZero` | cpp-archive/javalib/src/ju/util/HashMap.java:308-316 | In a valid map, an entry with the null key sits in bucket 0. |
| `HashMaps.GetEntry` | cpp-archive/javalib/src/ju/util/HashMap.java:251-261 | Returns an entry exactly when the key is in the map. The entry has that key and the map's value for it, and it lies in the key's bucket. |
| `HashMaps.Get` | cpp-archive/javalib/src/ju/util/HashMap.java:243-249 | Returns the map's value for the key exactly when the key is present, and None otherwise. |
| `HashMaps.ContainsKey` | cpp-archive/javalib/src/ju/util/HashMap.java:194-198 | True exactly when the key is in the map. |
| `HashMaps.Size` | cpp-archive/javalib/src/ju/util/HashMap.java:447-449 | `elementCount` is the number of keys in the map. |
| `HashMaps.IsEmpty` | cpp-archive/javalib/src/ju/util/HashMap.java:287-289 | True exactly when the map has no mappings. |
| `HashMaps.SetValue` | cpp-archive/javalib/src/ju/util/HashMap.java:330-331 | Overwriting a found entry's value keeps the map valid. It changes only that key's value and leaves both counts and the length alone. |
| `HashMaps.AddEntry` | cpp-archive/javalib/src/ju/util/HashMap.java:342-347 | An absent key gets a new entry at the head of its bucket, filed under hash 0 in bucket 0 for the null key. The map gains exactly that mapping, and both counts go up by one. |
| `HashMaps.Put` | cpp-archive/javalib/src/ju/util/HashMap.java:306-333 | Afterwards the key maps to the value and nothing else changes. It returns the previous value, or None when the key was absent. Only an absent key raises both counts by one. When a new key takes the count past the threshold, the table is rehashed to `RehashLength` of the old length; otherwise the length is unchanged. |
| `HashMaps.Reinsert` | cpp-archive/javalib/src/ju/util/HashMap.java:353-363 | Pushing each entry onto the new table keeps every entry, as a multiset. Each entry lands in the bucket its stored hash selects in the new table. |
| `HashMaps.Rehash` | cpp-archive/javalib/src/ju/util/HashMap.java:349-370 | The new table has the next length and holds the same mappings. The counts are unchanged and the result is valid again, with the threshold recomputed. |
| `HashMaps.Unlink` | cpp-archive/javalib/src/ju/util/HashMap.java:428-438 | Unlinking an entry, at the head or inside its chain, removes exactly its key. `elementCount` goes down by one and `modCount` up by one. |
| `HashMaps.RemoveEntry` | cpp-archive/javalib/src/ju/util/HashMap.java:409-439 | Afterwards the key is absent and every other mapping is unchanged. The removed entry is returned exactly when the key was present; the map is untouched otherwise. |
| `HashMaps.Remove` | cpp-archive/javalib/src/ju/util/HashMap.java:381-387 | Returns the removed value, or None when the key was absent. Afterwards the key is absent and the others are unchanged. The counts change only on a hit. |
| `HashMaps.Clear` | cpp-archive/javalib/src/ju/util/HashMap.java:167-177 | Afterwards every bucket is empty, the map is empty and the count is 0. `modCount` goes up only if the map was non-empty. |
| `HashMaps.RehashOverflowReachable` | cpp-archive/javalib/src/ju/util/HashMap.java:144-158 | `new HashMap(1 << 30, 1e-9f)` is accepted with 2^30 buckets and threshold 1. Its first rehash asks for a negative length where the corrected rehash keeps 2^30. |

## Left out

- Comments in trivia: trivia is spaces, tabs and line breaks. The Context class is not part of this model. Its operations are given the plain semantics their names promise, and `startsOnSameLine` is read as "no line break in the trivia before the node".
- The writers delegated to classes that are not part of this model:
  - compilation units, type and method declarations;
  - method invocations, instance creation and variable declarations;
  - infix expressions.
  Also `ASTWriterUtil.getNamespaceNameForPackageName`, whose result the tree carries in `Name.namespaceName`.
- The string, character, cast, instanceof, conditional, field-access, array-access, qualified-name, parenthesized, `this`, return and throw rules. These are outside the rule set modelled here.
- Treating octal number literals as unsupported: the NumberLiteral rule rewrites them to the `0o` form, and the model follows the rule.
- The Block rule's skip of a leading super-constructor call. That node kind is not in the model.
- The source positions of AST nodes: a qualified name carries the offset of its qualifier's end, and a parameter carries the offsets of its name and type.
- SwiftWriters.WriteWhile: the inline-or-own-line alternative is not resolved for a while body, because the model does not track whether the body starts on the keyword's line after the condition.
- SwiftWriters.WriteDo: states that the body's synthesized `}` comes before the `while`, not its exact offset.
- TypeFacts.WriteTypeCompact: the exact-text lemmas exclude qualified names (`Ast.WellFormedType`). The source extent of a qualified name's qualifier is a node position that the tree gives only as an offset, so its Java text is not a function of the tree.
- Capacity.CapacityRoundsUp: "least power of two not below x" is stated on the 32-bit values, not as an int inequality.
- The float load factor: it is modelled as a real, so float rounding of `length * loadFactor` is not modelled. NaN is not a value of the model.
- Java `null` values: `get` returning null for a stored null value is not distinguished from absence. A value is just a `V`.
- 32-bit wrap-around of `elementCount` and `modCount`: these are unbounded ints.
- `containsValue`, `createEntry`, `removeEntry(Entry)`, iterators and what `modCount` is for (fail-fast iteration). None of them is part of the modelled operations.
- `hash & (length - 1)` is modelled as the Euclidean remainder `hash % length`. For a power-of-two length the two agree on every two's-complement int.
- Concurrency: the Java class is not synchronized, and the model is sequential.

## Findings

| source | as written | input that shows it | evidently intended | confidence | as-written member | corrected member |
|---|---|---|---|---|---|---|
| translator/src/main/java/org/juniversal/translator/swift/astwriters/SwiftASTWriters.java:720-726 | a token is octal when its second character is `0`-`7` | `0_17`, an octal numeral worth 15, is left alone and Swift reads it as decimal 17 | any octal numeral of section 3.10.1 of the Java Language Specification, underscores included, is written with `0o` | not executed | `NumberLiterals.UnderscoreOctalMisread` | `NumberLiterals.SwiftNumberKeepsValue` |
| translator/src/main/java/org/juniversal/translator/swift/astwriters/SwiftASTWriters.java:720-732 | the same test accepts decimal floating-point literals with a leading zero | `01.5` becomes `0o1.5`, which is not a Swift literal | only integer octal numerals are rewritten | not executed | `NumberLiterals.LeadingZeroFloatRewritten` | `NumberLiterals.SwiftNumber` |
| translator/src/main/java/org/juniversal/translator/swift/astwriters/SwiftASTWriters.java:196-210 | the ArrayType rule writes one `Array<` and one `>` around the element type and matches one `[` `]` pair, whatever the number of dimensions | `int[][]` written compactly: the output is `Array<Int>`, and the cursor stops on the second `[]` | d nested `Array< ... >` for d dimensions, with every `[]` consumed | not executed | `TypeFacts.ArrayAsWrittenDropsDimensions` | `TypeFacts.ArrayTypeCompact` |
| cpp-archive/javalib/src/ju/util/HashMap.java:349-350 | `calculateCapacity(capacity << 1)` | a table of 2^30 buckets: `capacity << 1` is MIN_VALUE and calculateCapacity returns MIN_VALUE, a negative array size. It is reachable through `new HashMap(1 << 30, 1e-9f)` and two puts | the table stays at 2^30 buckets | not executed | `Capacity.RehashOverflowsAtMaximum` | `Capacity.RehashLength` |
