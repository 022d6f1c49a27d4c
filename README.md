# Ada mapper tools, modelled in Dafny

The tools generate Ada conversion functions between two type packages. The
source package is `Types_From` and the destination package is `Types_To`.
A `mapping.json` file lists mappings, each naming a destination type `to`,
a source type `from` and how each destination field or literal is filled.
The tools then do four things:

- **Parse the Ada specifications** (`records.py`, `enums.py`, `arrays.py`):
  - the fields of a record (`type T is record … end record;`);
  - the literals of an enumeration (`type T is (A, B, …);`);
  - the element type and dimension of an array (`type T is array (…) of E;`).
- **Emit `Map` overloads** (`generator.py`, `enums.py`, `arrays.py`):
  - a record `Map` is an aggregate of per-field expressions. A nested record
    either descends or delegates to a declared mapping, a nested array
    registers an array overload, and anything else becomes a type conversion;
  - an enumeration `Map` is a `case` expression. It maps literals by name,
    ignoring case, or by the overrides given for that pair of types;
  - an array `Map` is a loop over its ranges;
  - the registered array pairs are closed under their element arrays.
- **Validate `mapping.json`** (`validation.py`) against the type
  specifications and return every problem as a message, in file order.
- **Scaffold `mapping.json`** (`scaffold.py`):
  - write entries for requested destination types, with the source fields
    guessed by name and placeholders `<…>` where nothing matches;
  - follow nested record, array and enumeration fields through a worklist;
  - update an existing file, keeping what the user wrote, filling in
    placeholders and dropping entries no longer suggested.

Each module states what the Python code computes as Dafny functions, and
proves lemmas about those functions:

- round trips: a declaration written out parses back, and `repr` reads back;
- first-match and ordering behaviour of the regular expressions the parsers
  use;
- the error reported for every failure path;
- the invariants the worklist and the merge keep.

Where the Python code has a loop or updates an object, it is a `method` with
a `while` loop. Such a method is proved equal to its specification function.
`MapperGenerator` and `MappingScaffolder` are classes whose fields are the
caches and sets the Python objects update.

Supporting modules:

| module | contents |
|---|---|
| `Wrappers` | `Option` and `Result` |
| `Text` | characters, `strip`, case mapping, `split` and `join` |
| `Assoc` | a Python dictionary as a sequence of pairs in insertion order |
| `Lex` | the pieces of the regular expressions, as scanners |
| `Json` | JSON values with Python's truthiness, `str` and `repr` |
| `Constants` | `DEFAULT_SENTINEL` |
| `Schema` | the types provider: records, arrays and enumerations of each domain |
| `Ada` | the emitted expressions and their text |
| `Lookup` | the `{name.lower(): name}` indexes |

## Model

| member | source | states |
|---|---|---|
| Records.FieldType | tools/records.py:29 | the type group `([^;]+);\s*$` gives a stripped text without `;`, or nothing |
| Records.FieldOf | tools/records.py:40-43 | a field line gives an identifier name and a stripped type without `;` |
| Records.HeaderSearch | tools/records.py:33-36 | the first line at or after a position matching the record header, all lines before it not matching; nothing when none matches |
| Records.HeaderIndex | tools/records.py:27 | the first header line of the whole text, all lines before it not matching |
| Records.BlockEnd | tools/records.py:38-39 | the first `end record;` line after a position, or the end of the text |
| Records.ParseRecordComponents | tools/records.py:18-47 | the line loop returns what `RecordComponents` specifies |
| Records.ComponentLine | tools/records.py:33-44 | one turn of the loop keeps the scan invariant; it stops only at a closing line |
| Records.OutsideLine | tools/records.py:34-37 | a line outside the block enters it exactly when it is a header |
| Records.BlockLine | tools/records.py:38-44 | a line inside the block closes it or adds its field |
| Records.Finish | tools/records.py:45-47 | the end of the loop fails when no field was read, else returns them |
| Records.ScanFieldLine | tools/records.py:40-44 | reading one more line adds its field to the dictionary |
| Records.HeaderPrefixIgnored | tools/records.py:33-37 | the lines before the first header do not affect the result |
| Records.AgreeThroughEnd | tools/records.py:38-39 | the scan stops at the first closing line: texts agreeing up to it give the same result |
| Records.ComponentsByBlock | tools/records.py:31-47 | the result depends only on the field lines of the block |
| Records.FieldLinesFrom | tools/records.py:40-44 | every collected pair is what the field pattern gives for one line of the block |
| Records.FieldsWellFormed | tools/records.py:29-44 | every returned field has an identifier name and a clean type, from a line between the header and the closing line |
| Records.FieldsInDeclarationOrder | tools/records.py:44 | the keys are distinct, in first-declaration order, and each holds the type written last |
| Records.FailsIffNoFields | tools/records.py:45-46 | the parse fails exactly when there is no header or the block has no field line; a success is never empty |
| Records.BlockOfLayout | tools/records.py:22-24 | a text laid out as header, one line per field and closing line has exactly those fields in its block |
| Records.ComponentsOfBlock | tools/records.py:45-47 | a block holding distinct fields parses to them |
| Records.FieldOfDecl | tools/records.py:23 | a written-out field line `Name : Type;` parses back to the field |
| Records.DeclarationLayout | tools/records.py:22-28 | a declaration written out is its header, one line per field and the closing line |
| Records.HeaderOfDeclaration | tools/records.py:27 | `type NAME is record` matches the header pattern |
| Records.EndOfDeclaration | tools/records.py:28 | `end record;` matches the closing pattern |
| Records.RoundTrip | tools/records.py:18-47 | a declaration of distinct clean fields parses back to the same fields in the same order |
| Enums.FirstClose | tools/enums.py:19 | where the lazy `(.*?)` stops: the first `)\s*;` after a position |
| Enums.OpenAt | tools/enums.py:19 | the head `\btype\s+NAME\s+is\s*\(` ends just after a `(` |
| Enums.DeclMatches | tools/enums.py:22 | the match of the pattern at every start position, from which `search` takes the first |
| Enums.CleanLiteralText | tools/enums.py:29-31 | a cleaned piece is stripped and holds no `--` and no comma |
| Enums.Cleaned | tools/enums.py:28-31 | each piece of the body, stripped and cut at `--` |
| Enums.Keep | tools/enums.py:32-35 | an empty piece is dropped and any other is kept |
| Enums.NonEmptyIn | tools/enums.py:28-35 | the kept literals are at most as many as the pieces |
| Enums.EnumLiterals | tools/enums.py:22-36 | a result is never empty, and there is none without a matching declaration |
| Enums.EnumLiteralsClean | tools/enums.py:27-35 | every literal read is non-empty, stripped, without comma or comment |
| Enums.LiteralsOfJoin | tools/enums.py:28-35 | a comma-joined list of pieces gives their cleaned forms in order |
| Enums.DeclarationLiterals | tools/enums.py:18-36 | parsing a declaration listing some pieces yields the literals they clean to, in order |
| Enums.LiteralsRoundTrip | tools/enums.py:9-36 | `type NAME is (L1,L2,…);` of clean literals parses back to the same literals |
| Enums.ParseEnumLiterals | tools/enums.py:9-36 | the parse returns what `EnumLiterals` specifies |
| Enums.CollectLiterals | tools/enums.py:28-35 | the loop over the pieces keeps the non-empty cleaned ones, in order |
| Enums.EnumMapSpec | tools/enums.py:39-41 | the spec is the `Map (E : …)` profile followed by `;` |
| Enums.RawOverride | tools/enums.py:62 | no overrides when either type name is empty or the pair has none |
| Enums.Resolve | tools/enums.py:66-80 | an accepted override pair maps a declared source literal to a declared destination literal |
| Enums.Resolved | tools/enums.py:65-80 | each override pair, checked, in order |
| Enums.Oks | tools/enums.py:65-80 | the good pairs among the first ones |
| Enums.Targets | tools/enums.py:84-87 | the target of each source literal |
| Enums.MissOf | tools/enums.py:88-90 | a literal counts as missing exactly when it has no target |
| Enums.Paired | tools/enums.py:91 | every literal with its target |
| Enums.EnumArms | tools/enums.py:54-57 | either literal list empty gives the "requires visible enum literals" error |
| Enums.Alternatives | tools/enums.py:91 | one `when L => T` per arm |
| Enums.EnumMapBody | tools/enums.py:44-105 | the body starts with the same `Map` profile as the spec |
| Enums.NoneMissing | tools/enums.py:93 | nothing is missing exactly when every literal has a target |
| Enums.BuildOverrides | tools/enums.py:63-80 | the override loop builds the table, or stops at the first bad pair |
| Enums.ResolveArms | tools/enums.py:82-91 | the arms loop lists the missing literals, and with none missing one alternative per literal in order |
| Enums.ResolveArm | tools/enums.py:84-91 | one turn of the arms loop |
| Enums.BuildEnumMapBody | tools/enums.py:44-105 | the loops compute `EnumMapBody` |
| Enums.FirstFailureNone | tools/enums.py:65-69 | no pair is bad exactly when all check |
| Enums.FirstFailureIs | tools/enums.py:65-79 | the first bad pair decides the error |
| Enums.FirstFailureSticks | tools/enums.py:65-79 | later pairs do not change an error already raised |
| Enums.StopsAt | tools/enums.py:66-79 | a bad pair after good ones ends the loop with its error |
| Enums.InsertAllStep | tools/enums.py:80 | a good pair is stored under its source literal |
| Enums.OksFrom | tools/enums.py:65-80 | every stored pair comes from a pair that checks |
| Enums.InsertAllPairs | tools/enums.py:63-80 | the table has one entry per key, each from a checked pair |
| Enums.CaseIndexValues | tools/enums.py:59-60 | a lower-case index only holds the names it was built from |
| Enums.OverridesDeclared | tools/enums.py:70-80 | every accepted override maps a declared source literal to a declared destination literal, at most one per source literal |
| Enums.MissingMembers | tools/enums.py:88-98 | the literals reported missing are exactly those without a target |
| Enums.TargetSpec | tools/enums.py:85-87 | the target is the override if there is one, otherwise the last destination literal with that lower-case name |
| Enums.TargetDeclared | tools/enums.py:85-87 | every target is a declared destination literal |
| Enums.EnumArmsSuccess | tools/enums.py:84-101 | on success there is one arm per source literal, in order, each mapping to its declared target |
| Enums.EnumArmsMissing | tools/enums.py:88-98 | success exactly when every literal has a target; otherwise the error lists exactly the literals without one (no positional fallback) |
| Enums.EnumArmsBadOverride | tools/enums.py:66-78 | the first override pair that is not two strings, or names an unknown literal, decides the error |
| Enums.EnumArmsByName | tools/enums.py:59-91 | without overrides, a destination declaring every source literal maps each literal to itself |
| Arrays.CharFrom | tools/arrays.py:41 | the first occurrence of a character after a position, none before it |
| Arrays.ArrayHead | tools/arrays.py:28 | the head `\btype\s+NAME\s+is\s+array\s*\(` ends at a `(` |
| Arrays.OfClause | tools/arrays.py:28 | `\s*of\s+([^;]+);` after the `)`: a non-empty element text up to the first `;` |
| Arrays.LazyClose | tools/arrays.py:28 | the first `)` before a line break after which the `of` clause matches |
| Arrays.ElementAt | tools/arrays.py:27-30 | the element-type pattern at one position gives text free of `;` ending at a `;` |
| Arrays.ComponentType | tools/arrays.py:15-35 | the element type is stripped and free of `;`, and there is none exactly when no position matches |
| Arrays.IndexListAt | tools/arrays.py:40-43 | the dimension pattern's group ends at the first `)` |
| Arrays.IndexList | tools/arrays.py:44-47 | the index list holds no `)` |
| Arrays.Dimension | tools/arrays.py:38-50 | no dimension exactly when there is no match, else the count of index ranges |
| Arrays.IndexCountRanges | tools/arrays.py:47-50 | the count is the number of comma-separated pieces, so at least 1 (an empty list counts 1) |
| Arrays.LazyCloseAt | tools/arrays.py:28 | the lazy group stops at the first `)` when no line break comes before it |
| Arrays.LaidMatches | tools/arrays.py:28 | a laid-out declaration matches at its head and its `of` clause |
| Arrays.ComponentOfLaid | tools/arrays.py:31-34 | a laid-out declaration gives the stripped text after `of` |
| Arrays.ComponentOfDeclaration | tools/arrays.py:15-35 | a declaration written out gives back its element type, whatever its index list, when the list has no `)` or line break |
| Arrays.IndexListOfLaid | tools/arrays.py:44-47 | a laid-out declaration gives its index list |
| Arrays.DimensionOfDeclaration | tools/arrays.py:38-50 | a declaration with n comma-separated index ranges has dimension n |
| Arrays.ArrayMapSpec | tools/arrays.py:53-55 | the spec is the `Map (A : …)` profile followed by `;` |
| ArrayMaps.EffectiveDims | tools/arrays.py:71-77 | a missing or zero dimension counts as 1, any other is kept |
| ArrayMaps.Indices | tools/arrays.py:79-80 | the first `dims` index names, at most five |
| ArrayMaps.PartValue | tools/arrays.py:96-101 | a field of the same name, else one equal ignoring case, converts that field; with none the whole element is converted |
| ArrayMaps.ElemParts | tools/arrays.py:95-101 | one part per destination field, in destination order |
| ArrayMaps.BuildElemParts | tools/arrays.py:95-101 | the loop builds `ElemParts` |
| ArrayMaps.ElemExpr | tools/arrays.py:83-104 | a declared or needed element pair, or two nested arrays, give `Map(access)`; two records give the aggregate; otherwise a conversion, or the plain access without an element type |
| ArrayMaps.ElemExprFallback | tools/arrays.py:90-104 | without a shortcut, two records with fields give the aggregate and anything else the conversion |
| ArrayMaps.ChooseElemExpr | tools/arrays.py:83-104 | the branches compute `ElemExpr` |
| ArrayMaps.Fors | tools/arrays.py:108-111 | one `for` line per index, outermost first |
| ArrayMaps.Ends | tools/arrays.py:116-118 | one `end loop` line per index, innermost first |
| ArrayMaps.LoopLines | tools/arrays.py:106-118 | the `for` lines, the assignment, then the `end loop` lines |
| ArrayMaps.BuildLoopLines | tools/arrays.py:106-118 | the two loops build `LoopLines` |
| ArrayMaps.LineAt | tools/arrays.py:108-118 | the line at each position of the body |
| ArrayMaps.CountsOfLoopLines | tools/arrays.py:108-118 | before each line, the loops opened are the lesser of the line number and the count of indices, and the loops closed start only after the assignment |
| ArrayMaps.SingleLoop | tools/arrays.py:108-118 | one index gives a `for` line, the assignment and an `end loop` line |
| ArrayMaps.LoopLinesNested | tools/arrays.py:108-118 | the loops are properly nested, one per index |
| ArrayMaps.ArrayMapBody | tools/arrays.py:58-128 | the body text is that of `BodyLines` |
| ArrayMaps.BodyShape | tools/arrays.py:79-118 | one loop per dimension, at most five, properly nested, around one assignment to `R(…)` |
| ArrayMaps.OneDimensional | tools/arrays.py:76-118 | without a usable dimension the body is the single `R'Range` loop over `A(I)` |
| Generator.FieldType | tools/generator.py:76-82 | a segment names a field of the source record exactly when some field equals it ignoring case; the exact name wins; the type is stripped |
| Generator.PathType | tools/generator.py:73-83 | no segments leave the start type; any other result is stripped |
| Generator.PathTypeAppend | tools/generator.py:75-83 | following `a + b` is following `a` then `b` |
| Generator.PathTypeStops | tools/generator.py:77-81 | a path fails for good at the first segment that fails |
| Generator.SourceName | tools/generator.py:95-98 | the exact name when the source has it, else the last one equal ignoring case, else none |
| Generator.SubPair | tools/generator.py:94-103 | a destination field recurses exactly when the source has a field for it |
| Generator.RankHolds | tools/generator.py:90-105 | every record pair `value_expr` descends into is ranked |
| Generator.FieldRankBelow | tools/generator.py:94-103 | the field pairs of a descent rank below it, so the recursion ends |
| Generator.ValueOfDeclared | tools/generator.py:90-92 | a declared record pair gives `Map(expr)` and registers nothing |
| Generator.ValueOfDescends | tools/generator.py:93-105 | two undeclared records give the aggregate of their parts and register what the parts register |
| Generator.PartsSpec | tools/generator.py:94-104 | one part per destination field, in order |
| Generator.ValueOfRecord | tools/generator.py:93-105 | each part names its destination field; without a source field it converts the whole expression, otherwise it descends into `expr.field` |
| Generator.ValueOfArrays | tools/generator.py:107-112 | two arrays give `Map(expr)` and register their stripped pair |
| Generator.ValueOfScalar | tools/generator.py:114-115 | anything else is converted to the destination type, or left as it is without one, and registers nothing |
| Generator.NeededAreArrays | tools/generator.py:107-112 | every registered pair is a pair of arrays |
| Generator.NeededPartsAreArrays | tools/generator.py:94-104 | the parts register only pairs of arrays |
| Generator.NeededAtAreArrays | tools/generator.py:103 | one part registers only pairs of arrays |
| Generator.AssociationAt | tools/generator.py:127-135 | the association at each position is that of the entry at the same position |
| Generator.AssociationsInOrder | tools/generator.py:127-135 | one association per entry, in entry order, for the destination field and the source field or path |
| Generator.AssocTexts | tools/generator.py:135-137 | each association is written `dest => expr` |
| Generator.ElemPair | tools/generator.py:149-154 | the element pair one level down is made of declared element types |
| Generator.ClosedHoldsDescent | tools/generator.py:144-158 | a closed set holds every level of nested arrays below each of its pairs |
| Generator.MapperGenerator.constructor | tools/generator.py:21-32 | the given pairs, no needed arrays and empty caches |
| Generator.MapperGenerator.GetToFields | tools/generator.py:35-46 | the destination record's fields, none for an empty name; a found record is cached |
| Generator.MapperGenerator.GetFromFields | tools/generator.py:48-59 | the same for source records |
| Generator.MapperGenerator.ResolveSrcPathType | tools/generator.py:73-83 | the loop follows the dotted path as `PathType` does |
| Generator.MapperGenerator.ValueExpr | tools/generator.py:86-115 | the expression is `ValueOf`, and exactly `NeededBy` is added to the needed arrays |
| Generator.MapperGenerator.RecordValue | tools/generator.py:88-105 | the record branch |
| Generator.MapperGenerator.LeafValue | tools/generator.py:107-115 | the array and scalar branches |
| Generator.MapperGenerator.BuildParts | tools/generator.py:93-104 | the loop over the destination fields builds the parts |
| Generator.MapperGenerator.PartFor | tools/generator.py:94-104 | one turn of that loop |
| Generator.MapperGenerator.GenRecordFunctionBody | tools/generator.py:118-141 | the text of the associations, and the needed arrays they register |
| Generator.MapperGenerator.BuildAssociations | tools/generator.py:127-135 | the loop over the entries builds the associations |
| Generator.MapperGenerator.AssociationFor | tools/generator.py:128-135 | one turn of that loop |
| Generator.MapperGenerator.ExpandArrayPairsTransitively | tools/generator.py:144-158 | the needed set ends closed, only grows, and grows only by element pairs of its own pairs |
| Generator.MapperGenerator.ExpandOnce | tools/generator.py:147-158 | one pass adds only element pairs of the pairs it started from, and reports a change exactly when it adds one; with no change the set is closed |
| Generator.MapperGenerator.ArrayMapBody | tools/generator.py:166-201 | a single `R'Range` loop around the element expression |
| Generator.MapperGenerator.ArrayElemExpr | tools/generator.py:167-190 | the element expression is the array module's, on `A(I)` |
| Generator.OneLoopText | tools/generator.py:192-201 | the single-loop body written out, line by line |
| Generator.ArrayBodiesAgree | tools/arrays.py:106-127 | for an array of at most one dimension, the generator's body equals the array module's |
| Schema.FieldsOf | tools/generator.py:36-37 | an empty type name has no fields |
| Schema.ElementOf | tools/generator.py:63-64 | an empty type name has no element type |
| Validation.Ctx | tools/validation.py:149 | the entry's name when truthy, else "a mapping entry" |
| Validation.BuildLookupGet | tools/validation.py:22-23 | a lower-case key finds the last field with that lower-case name; the lookup is empty exactly when the record is |
| Validation.CaseIndexKeys | tools/validation.py:107-108 | a key is in `{l.lower(): l}` exactly when some literal lower-cases to it |
| Validation.ConcatMapAppend | tools/validation.py:137-138 | the errors of `a + b` are those of `a` followed by those of `b` |
| Validation.EnumLits | tools/validation.py:26-41 | none for a blank name, else the declared literals of the stripped name |
| Validation.EnumLiteralsCached | tools/validation.py:26-41 | the cache answers what the provider would, and only grows |
| Validation.Resolve | tools/validation.py:54-78 | at most one message, and none when a type is resolved |
| Validation.ResolveField | tools/validation.py:70-78 | a plain name is reported as unknown exactly when no source field equals it ignoring case; a resolved type is that field's stripped type |
| Validation.ResolvePath | tools/validation.py:57-69 | a dotted path without a source type is reported as such; with one it fails exactly when the path does not resolve |
| Validation.ResolveSourceReference | tools/validation.py:44-78 | appends the messages of `Resolve` and answers its type |
| Validation.ResolveDottedReference | tools/validation.py:57-69 | the dotted branch |
| Validation.OverrideRejected | tools/validation.py:91-106 | an `enum_map` that is no object gets exactly one message; so does one whose destination has no literals, whose source is missing or the sentinel, or whose given source type has no literals |
| Validation.OverrideItemReports | tools/validation.py:115-122 | an unknown source key and an unknown target are each reported, independently |
| Validation.ValidateEnumOverride | tools/validation.py:81-122 | appends `OverrideErrors` |
| Validation.CheckOverrideItems | tools/validation.py:109-122 | the loop appends each item's messages in order |
| Validation.CheckOverrideStep | tools/validation.py:109-122 | one turn of that loop |
| Validation.CheckOverrideItem | tools/validation.py:110-122 | the messages of one item |
| Validation.FamilyErrors | tools/validation.py:309-319 | nothing without a source type; a record destination with a non-record source, or an array destination with a non-array source, is reported |
| Validation.PlaceholderSpec | tools/validation.py:229-237 | a placeholder string is the only message for its field; the sentinel is accepted |
| Validation.ObjSpecRejected | tools/validation.py:257-306 | an object without a truthy reference, or with a placeholder reference, and any value neither string nor object, get exactly one message |
| Validation.CheckStrSpec | tools/validation.py:229-255 | appends the messages of a string spec |
| Validation.CheckObjSpec | tools/validation.py:257-302 | appends the messages of an object spec |
| Validation.CheckObjTail | tools/validation.py:292-319 | appends the `enum_map` and type-family messages |
| Validation.ResolveObjReference | tools/validation.py:269-290 | the reference of an object spec, resolved |
| Validation.CheckFamily | tools/validation.py:309-319 | appends `FamilyErrors` |
| Validation.CheckField | tools/validation.py:220-319 | appends the messages of one field |
| Validation.CheckFields | tools/validation.py:220-320 | the loop appends each field's messages, in order |
| Validation.RecordSource | tools/validation.py:178-193 | no source fields without a source type, and at most two messages |
| Validation.MissingFieldNames | tools/validation.py:201-206 | exactly the destination fields no key names ignoring case |
| Validation.ExtraNames | tools/validation.py:212 | exactly the keys naming no destination field |
| Validation.CheckRecordSource | tools/validation.py:178-193 | the source side of a record entry |
| Validation.CheckExtras | tools/validation.py:213-216 | one message per extra key |
| Validation.CheckRecordEntry | tools/validation.py:178-321 | the messages of a record entry |
| Validation.CheckAllFields | tools/validation.py:218-320 | the field loop with this entry's step |
| Validation.EnumSourceOf | tools/validation.py:335-350 | a missing source, the sentinel, and an unknown or placeholder source enumeration are each handled |
| Validation.MissingLiteralNames | tools/validation.py:359 | exactly the destination literals that are no key |
| Validation.LiteralValueErrors | tools/validation.py:371-386 | at most one message: placeholders and non-strings are reported, anything passes when the source has no literals |
| Validation.LiteralItemDest | tools/validation.py:365-370 | an unknown destination literal is reported, and a known one has its value checked |
| Validation.LiteralValueSource | tools/validation.py:379-382 | a plain value is reported exactly when no source literal equals it ignoring case |
| Validation.CheckEnumSource | tools/validation.py:335-350 | the source side of an enumeration entry |
| Validation.CheckLiterals | tools/validation.py:365-386 | the loop appends each literal's messages, in order |
| Validation.ValidateEnumEntry | tools/validation.py:324-388 | the messages of an enumeration entry |
| Validation.EntryRejected | tools/validation.py:151-175 | a missing or blank `to`, and a destination that is neither a record with fields nor an enumeration with literals, give exactly one message |
| Validation.EntryRecord | tools/validation.py:156-200 | a destination record with fields is checked as a record mapping, even when an enumeration has its name |
| Validation.EntryEnum | tools/validation.py:159-171 | otherwise an enumeration with literals is checked as an enumeration mapping |
| Validation.ValidateMappingEntry | tools/validation.py:142-321 | the messages of one entry |
| Validation.MappingPairsMembers | tools/validation.py:129-135 | a pair is collected exactly when some entry gives it |
| Validation.CollectPairs | tools/validation.py:129-134 | the first loop collects the pairs |
| Validation.CheckEntries | tools/validation.py:137-138 | the second loop checks every entry, in order |
| Validation.MappingErrorsAppend | tools/validation.py:137-139 | entries are checked independently: the errors of two lists joined are those of each, in order |
| Validation.MappingErrorsEmpty | tools/validation.py:125-139 | a file passes exactly when every entry passes |
| Validation.ValidateMappings | tools/validation.py:125-139 | every entry's messages, in file order |
| Scaffold.DefaultName | tools/scaffold.py:28-32 | a leading `T_` in either case is dropped from a name longer than two characters, any other name is kept |
| Scaffold.CollapseRuns | tools/scaffold.py:36 | every run of characters outside `[A-Za-z0-9]` becomes one `_`: no two `_` in a row, letters and digits kept |
| Scaffold.StripChar | tools/scaffold.py:36 | no `_` left at either end; empty exactly when the text is all `_` |
| Scaffold.Token | tools/scaffold.py:36 | the token has no `_` at either end |
| Scaffold.TokenShape | tools/scaffold.py:36 | a token is upper-case letters, digits and single underscores |
| Scaffold.Angled | tools/scaffold.py:39 | `<…>` is a placeholder, holding the inner text |
| Scaffold.FieldPlaceholder | tools/scaffold.py:34-39 | a placeholder `<TOKEN_INPUT_FIELD>`, with `FIELD` for an empty token |
| Scaffold.FromPlaceholder | tools/scaffold.py:41-46 | a placeholder `<SOURCE_TYPE_FOR_TOKEN>`, with `TYPE` for an empty token |
| Scaffold.DropPrefix | tools/scaffold.py:368 | the first listed prefix that starts the text is removed, the text is kept when none does |
| Scaffold.CanonicalName | tools/scaffold.py:363-369 | empty for no name; no dot and no capital letter |
| Scaffold.SupportedDeclared | tools/scaffold.py:443-453 | a supported type is a declared record, array or enumeration of its domain |
| Scaffold.EntryAllPlaceholders | tools/scaffold.py:455-469 | the loop computes `AllPlaceholders` |
| Scaffold.NoneSubstantive | tools/scaffold.py:462-469 | the loop answers whether no field value is substantive |
| Scaffold.FieldMark | tools/scaffold.py:379-385 | the field of that exact name, else the first equal ignoring case; none exactly when none is equal ignoring case |
| Scaffold.Walk | tools/scaffold.py:375-389 | a step without a record with fields, or without a field of that name, ends the walk with nothing |
| Scaffold.PathType | tools/scaffold.py:371-373 | nothing for an empty root or path |
| Scaffold.WalkAgrees | tools/scaffold.py:371-389 | the walk agrees with the generator's path resolution when no record or field name is empty |
| Scaffold.ResolvePathType | tools/scaffold.py:371-389 | the loop computes `PathType` |
| Scaffold.Score | tools/scaffold.py:418-424 | the score is at most 3, and 3 exactly when the field names agree |
| Scaffold.FoldBestFirstMax | tools/scaffold.py:425-434 | the search keeps the first candidate of the highest score |
| Scaffold.VisitType | tools/scaffold.py:405-408 | the search from a type only enters new record types, and its best is the best of its candidates |
| Scaffold.VisitFields | tools/scaffold.py:410-435 | the same for the loop over a record's fields |
| Scaffold.OwnCandidates | tools/scaffold.py:413-428 | a field is a candidate only when it is an array that scores |
| Scaffold.VisitStep | tools/scaffold.py:410-434 | the same for one field |
| Scaffold.ArraySourcePath | tools/scaffold.py:398-399 | nothing without a source type |
| Scaffold.ArraySourcePathBest | tools/scaffold.py:403-438 | the search enters each record type at most once and answers with the first candidate of the highest score, or nothing with no candidate |
| Scaffold.SearchType | tools/scaffold.py:405-435 | the recursive `visit`, sharing `visited`, computes `VisitType` |
| Scaffold.SearchField | tools/scaffold.py:410-434 | one turn of its loop |
| Scaffold.ScoreField | tools/scaffold.py:413-428 | the scoring half of that turn |
| Scaffold.FindArraySourcePath | tools/scaffold.py:391-441 | the procedure computes `ArraySourcePath` |
| Scaffold.EntryJson | tools/scaffold.py:355-360 | the entry is written with its `to`, `from` and `fields` |
| Scaffold.SameNameSpec | tools/scaffold.py:252-255 | a value is found exactly when a source field has the destination field's name ignoring case |
| Scaffold.ExistingSpec | tools/scaffold.py:226-255 | a kept existing value is a string or an object |
| Scaffold.FieldSpec | tools/scaffold.py:257-263 | every field gets a value |
| Scaffold.ArrayGuess | tools/scaffold.py:269-280 | only a placeholder is replaced, and only by a path that resolves to a type |
| Scaffold.ArrayRequests | tools/scaffold.py:309-322 | an array field asks for at most one element mapping |
| Scaffold.NestedRequests | tools/scaffold.py:284-353 | a field asks for at most one nested mapping, and the sentinel for none |
| Scaffold.BuildRecordFields | tools/scaffold.py:224-353 | the loop over the destination fields computes `RecordPart` |
| Scaffold.EnumValue | tools/scaffold.py:201-207 | each literal gets a string value |
| Scaffold.EnumValueSpec | tools/scaffold.py:201-207 | a substantive existing string is kept, else the source literal equal ignoring case, else the literal's placeholder |
| Scaffold.EnumPairs | tools/scaffold.py:201-207 | one value per literal, in order |
| Scaffold.BuildEnumFields | tools/scaffold.py:200-207 | the loop over the destination literals builds the dictionary |
| Scaffold.SourceTypeOf | tools/scaffold.py:185-189 | the source type is empty or supported, and a supported given source is kept |
| Scaffold.NestedInKeySpace | tools/scaffold.py:284-353 | a nested request goes to a declared destination record or enumeration |
| Scaffold.RecordPartSpec | tools/scaffold.py:221-282 | one value per destination field, in declaration order, and nested requests of the key space |
| Scaffold.RecordFoldSpec | tools/scaffold.py:224-353 | the field loop gives one value per destination field and keeps its requests in the key space |
| Scaffold.FieldKeepsExisting | tools/scaffold.py:231-238 | a substantive existing string is written back unchanged |
| Scaffold.FieldKeepsSentinel | tools/scaffold.py:235-236 | a value reading as the sentinel is written as the sentinel and asks for nothing |
| Scaffold.FieldWithoutExisting | tools/scaffold.py:251-280 | with no existing value: a source field of the same name ignoring case, else a placeholder or a resolved array path |
| Scaffold.EnumEntrySpec | tools/scaffold.py:191-214 | an enumeration entry has one value per literal and asks for no nested mapping |
| Scaffold.EnumFieldsSpec | tools/scaffold.py:200-207 | one key per literal, each holding that literal's value |
| Scaffold.RecordEntrySpec | tools/scaffold.py:216-282 | a record entry has one value per destination field, in declaration order |
| Scaffold.BuildEntryRejects | tools/scaffold.py:178-181 | a destination neither record nor enumeration is refused, and only record entries fail otherwise |
| Scaffold.BuildEntryWritten | tools/scaffold.py:185-214 | the entry is for the stripped destination, under the preferred name, from a placeholder or a supported type |
| Scaffold.SetDefault | tools/scaffold.py:57 | `setdefault` keeps a present key and adds a missing one |
| Scaffold.SetDefaults | tools/scaffold.py:56-57 | every request's destination gets a name, and names already there stay |
| Scaffold.SetDefaultsFirst | tools/scaffold.py:56-57 | the first request for a type without a name gives it its name |
| Scaffold.DrainSpec | tools/scaffold.py:60-72 | the worklist keeps the processed keys, the entries and their keys in step |
| Scaffold.BuildMapSpec | tools/scaffold.py:52-74 | at most one entry per key, each for its key's destination; the given names stay and an unnamed type keeps its first request's name |
| Scaffold.EntrySource | tools/scaffold.py:91-95 | the `from` of an entry when it is a string naming a supported type other than a placeholder |
| Scaffold.ReadBackStep | tools/scaffold.py:83-105 | reading one more entry records its name and, unless it is all placeholders, its request |
| Scaffold.NamesCover | tools/scaffold.py:82-89 | every destination an entry names gets a name |
| Scaffold.NamesKeeps | tools/scaffold.py:89 | a later entry never drops a destination that has a name |
| Scaffold.NamesNamed | tools/scaffold.py:82-89 | only destinations some entry names get a name |
| Scaffold.RequestsNamed | tools/scaffold.py:90-104 | each request read back goes to a destination its entry names, under its name, from a supported source that is no placeholder |
| Scaffold.FromUpdate | tools/scaffold.py:116-141 | the source is replaced by the suggested one exactly when the existing one is a different string and not both are placeholders |
| Scaffold.FieldUpdate | tools/scaffold.py:146-157 | a substantive suggestion fills a missing, null or placeholder value; a placeholder suggestion replaces a substantive string |
| Scaffold.FieldsFoldValues | tools/scaffold.py:145-157 | each suggested field holds the suggestion when it applies, every other field keeps its value |
| Scaffold.FieldsFoldChanged | tools/scaffold.py:145-157 | a change is reported exactly when some field was overwritten |
| Scaffold.SetFromSpec | tools/scaffold.py:116-141 | only `from` changes |
| Scaffold.FieldsDefaultSpec | tools/scaffold.py:143 | `setdefault("fields", {})` touches only `fields` |
| Scaffold.MergeEntryKeeps | tools/scaffold.py:115-157 | an entry keeps every key but `from` and `fields`, and a `fields` that is not an object |
| Scaffold.MergeEntryReports | tools/scaffold.py:115-157 | a change is reported exactly when the source or a field was overwritten |
| Scaffold.ExistingPairs | tools/scaffold.py:109 | every dictionary with a truthy `to` is indexed under it |
| Scaffold.SuggestedByTo | tools/scaffold.py:108 | each destination once, the last suggestion for it winning |
| Scaffold.ToText | tools/scaffold.py:165 | the destination's text, failing on anything but a dictionary |
| Scaffold.KeepCurrent | tools/scaffold.py:165 | the entries whose destination is not obsolete, in order; it fails on an entry that is not a dictionary |
| Scaffold.MergeAllKeeps | tools/scaffold.py:112-157 | each entry stays in place, as a dictionary exactly when it was one, with its `to` |
| Scaffold.MergeAllAppends | tools/scaffold.py:158-160 | the suggestions without an entry are appended, in order |
| Scaffold.MergeAllMerges | tools/scaffold.py:113-157 | an entry a suggestion points to is merged with it in place |
| Scaffold.MergeAllUntouched | tools/scaffold.py:112-160 | an entry no suggestion points to stays as it is |
| Scaffold.MergeAllAppendChanges | tools/scaffold.py:158-160 | appending a suggestion reports a change |
| Scaffold.MergeAllEntryChanges | tools/scaffold.py:113-157 | merging an entry that changes reports a change |
| Scaffold.MergedListKeeps | tools/scaffold.py:112-157 | an entry of the list keeps its destination at its position in the merged list |
| Scaffold.MergedListAppends | tools/scaffold.py:158-160 | a suggestion without an entry has its own entry in the merged list |
| Scaffold.MergedListHas | tools/scaffold.py:112-160 | each suggested destination has an entry in the merged list |
| Scaffold.ObsoleteEntry | tools/scaffold.py:162-166 | an obsolete destination is that of a dictionary in the merged list |
| Scaffold.EntryJsonsObjects | tools/scaffold.py:355-360 | the entries written for suggestions are dictionaries |
| Scaffold.MergeIntoFails | tools/scaffold.py:163-168 | the merge fails exactly when something must be removed and the list holds a non-dictionary |
| Scaffold.MergeIntoDropsObsolete | tools/scaffold.py:162-168 | after the merge every indexed destination left is a suggested one |
| Scaffold.MergeIntoMembers | tools/scaffold.py:162-168 | the list left is the merged list without the obsolete entries |
| Scaffold.MergeIntoKeepsSuggested | tools/scaffold.py:112-168 | every suggested destination keeps or gains an entry |
| Scaffold.MergeIntoReportsRemoval | tools/scaffold.py:166-168 | removing an entry reports a change |
| Scaffold.MergeIntoReportsAppend | tools/scaffold.py:158-160 | appending an entry reports a change |
| Scaffold.UpdateWithFails | tools/scaffold.py:107-168 | merging fails exactly when building or the removal fails |
| Scaffold.UpdateWithLeavesRest | tools/scaffold.py:107-170 | merging changes nothing in the data but the list of mappings, which stays a list |
| Scaffold.UpdateWithCovers | tools/scaffold.py:112-168 | every suggested destination has an entry in the list merging leaves |
| Scaffold.UpdateMapSpec | tools/scaffold.py:76-170 | data without a list is unchanged; otherwise only the list changes, the failures are exactly those of building and removal, and every suggested destination has an entry |
| Scaffold.MergeFields | tools/scaffold.py:144-157 | the loop over the suggested fields computes `FieldsFold` |
| Scaffold.MergeExisting | tools/scaffold.py:115-157 | the merge of one entry computes `MergeEntry` |
| Scaffold.MappingScaffolder.constructor | tools/scaffold.py:23-26 | the provider, nothing processed, no names |
| Scaffold.MappingScaffolder.BuildEntry | tools/scaffold.py:172-361 | `_build_entry` computes `BuildEntryOf` |
| Scaffold.MappingScaffolder.RecordNames | tools/scaffold.py:70-71 | records each request's name with `setdefault` |
| Scaffold.MappingScaffolder.BuildMap | tools/scaffold.py:52-74 | the worklist computes `BuildMapOf`, with the processed keys and names it leaves |
| Scaffold.MappingScaffolder.UpdateMap | tools/scaffold.py:76-170 | computes `UpdateMapOf`, and leaves the state of the `build_map` it ran |
| Scaffold.MappingScaffolder.ReadBack | tools/scaffold.py:83-105 | the loop reads back the names and requests |
| Scaffold.ApplySuggestions | tools/scaffold.py:107-170 | the merge and removal compute `UpdateWith` |
| Scaffold.MergeList | tools/scaffold.py:111-160 | the loop over the suggestions computes the merged list and its changed flag |
| Scaffold.MergeOne | tools/scaffold.py:112-160 | one turn of that loop |
| Json.Member | tools/validation.py:146-148 | `get` finds a value exactly when the dictionary has the key |
| Json.Or | tools/validation.py:258 | `a or b` is the first truthy operand, else the second |
| Json.QuoteForSpec | tools/validation.py:112 | `repr` uses double quotes exactly when the string holds a single quote and no double quote |
| Json.ReprStrRoundTrip | tools/validation.py:112 | the text between the quotes of `repr(s)` reads back to `s` |
| Json.Str | tools/validation.py:269 | `str` of a string is itself |

## Left out

- **The types provider**:
  - `types_provider.py` is not part of this model. The provider is an
    abstract map from type names to records, arrays and enumerations in
    each of the two domains.
  - The parsers are proved about text on their own. Nothing ties the
    provider's answers to what they would parse from a file.
  - File reading is left out: the parsers take the text, or its lines.
- **The generator's parser calls**: `generator.py:13` imports
  `parse_record_components` from a `parser` module that is not part of this
  model. `get_to_fields`, `get_from_fields`, `to_array_elem` and
  `from_array_elem` ask the provider instead. An exception from the parser
  (`generator.py:42`) is a missing record.
- **Calling conventions the code does not meet**:
  - `validation.py:127` calls `MapperGenerator(provider, set())`, but
    `generator.py:21-26` takes two file paths and the pairs.
    Validation.ValidateMappings builds the generator from the provider and
    the collected pairs. Python assigns the pairs after construction
    (`validation.py:135`), and nothing reads them before that.
  - `enums.py` and `arrays.py` reach for `mg.provider`, `mg.enum_overrides`,
    `mg.provider.get_array_dimension` and `mg.format_record_aggregate`,
    which `generator.py` does not define. The model takes the provider, the
    overrides and the dimension as parameters. It keeps the aggregate as a
    structure, written the way `generator.py:188` writes it.
- **Regular expressions** are modelled as scanners. They are not a general
  regex engine.
  - `\s+NAME` takes the longest run of white space before the name. It
    differs from the regex only for a name that starts with white space or
    is empty.
  - Case-insensitive matching and `lower`/`upper` use ASCII case mapping.
    `str.lower` on non-ASCII letters is not modelled.
- **Floats**:
  - A JSON float is kept as the text Python's `repr` gives it.
  - Parsing JSON text into values is left out.
- **Json.ReprStr**: it writes `\x` escapes for the non-printable characters
  of Latin-1 only. Python's `\u`/`\U` escapes for non-printable characters
  above `\xff` are not modelled.
- **Exact text of emitted bodies**: the generated Ada is a structure plus a
  rendering function. Only the shapes proved above are claimed about the
  text.
- **Generator.ValueOf (and the methods that require `Ranked`)**:
  - `Ranked` is a condition on the whole provider: every undeclared record
    pair with a matching source field, anywhere in the two schemas, must be
    rankable, not only the pairs a given call reaches.
  - So one cycle of undeclared record pairs (destination `A.next : A`,
    source `S.next : S`, `(S, A)` not declared) excludes the provider from
    `ValueExpr` and `GenRecordFunctionBody`, even for calls on unrelated
    types that Python completes.
  - Python raises `RecursionError` (`generator.py:103`) only when
    `value_expr` actually reaches such a cycle. That path is not modelled.
  - A cycle broken by a declared pair in `mapping_pairs` is ranked like any
    other.
- **Constants.DefaultSentinel**: the value of `DEFAULT_SENTINEL` is an
  upper-case string the model does not fix (`constants.py` is not part of
  this model). Only the fact that it is stripped and upper-case is used.
- **Tests**: `tests/test_generation_enums.py:63-97` expects a positional
  fallback that `enums.py` does not have, and it is not modelled.
  `tests/test_scaffold.py:271-318` is not part of this model.
- **Scaffold.MappingScaffolder.UpdateMap**:
  - Python merges `from`, the `fields` dictionaries and appended
    suggestions into the caller's `data` in place (`scaffold.py:112-160`).
    The model returns the new data as a value, and does not model the
    aliasing with the caller's object.
  - On the `AttributeError` of `scaffold.py:165` the model returns only the
    error. The partly merged data Python leaves behind is not modelled.
- **Scaffold.MergeInto**: on a non-dictionary entry during removal it returns
  the error alone, without the list merged so far.
- **Scaffold.ApplySuggestions**: the same. It returns the data as a new value
  and, on failure, only the error.
- **Scaffold.MappingScaffolder.BuildMap**: after a `_build_entry` error its
  contract does not state `processed` and `preferredNames`. Python leaves
  them partly updated.
- **Scaffold.MappingScaffolder.BuildEntry**: the `ValueError` messages are
  modelled as strings. Python raises exceptions.
- **Validation.EnumLiteralsCached**: the cache is keyed by domain and stripped
  name, as in Python. Converting a list to a tuple (`validation.py:38-39`) has
  no counterpart, because literals are sequences.
