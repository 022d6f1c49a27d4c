// The validator of mapping files: every entry is checked against the
// declarations of both domains and each problem found is appended, in entry
// order and without stopping early, to one list of error messages.
//
// Each check is written twice: a function giving the defects an input has,
// and a method that collects them step by step, as the validator does, and
// is proved to produce the function's list.  Each kind of message has its
// own function giving the validator's text.

module Validation {
  import opened Wrappers
  import opened Text
  import opened Assoc
  import opened Lookup
  import opened Json
  import Constants
  import Schema
  import Generator

  /** A mapping entry: a JSON object's members. */
  type Entry = Dict<string, Json>

  /** `{name.lower(): (name, type)}` over a record's fields. */
  type FieldLookup = Dict<string, (string, string)>

  /** Per domain, the literals already looked up for each type name. */
  type EnumCache = map<Schema.Domain, map<string, seq<string>>>

  /** An optional string as an f-string prints it. */
  function OptText(o: Option<string>): string {
    if o.Some? then o.value else "None"
  }

  // The messages, one function per kind, each `ctx: ` followed by its text.

  function MissingTo(ctx: string): string {
    ctx + ": destination type ('to') is missing or empty"
  }

  function UnknownDestination(ctx: string, toType: string): string {
    ctx + ": destination type '" + toType + "' not found or is not a record in destination specs"
  }

  function MissingFrom(ctx: string): string {
    ctx + ": source type ('from') is missing"
  }

  function PlaceholderFrom(ctx: string, raw: string): string {
    ctx + ": source type is still a placeholder '" + raw + "'"
  }

  function UnknownSourceRecord(ctx: string, fromType: string): string {
    ctx + ": source type '" + fromType + "' not found or is not a record in source specs"
  }

  function FieldsNotObject(ctx: string): string {
    ctx + ": 'fields' must be an object mapping destination fields to sources"
  }

  function MissingFields(ctx: string, names: seq<string>, toType: string): string {
    ctx + ": missing mappings for destination fields " + Join(names, ", ") + " in type '" + toType + "'"
  }

  function ExtraField(ctx: string, name: string, toType: string): string {
    ctx + ": destination field '" + name + "' does not exist in type '" + toType + "'"
  }

  function PlaceholderValue(ctx: string, field: string, value: string): string {
    ctx + ": field '" + field + "' still uses placeholder value '" + value + "'"
  }

  function DottedWithoutSource(ctx: string, field: string, path: string): string {
    ctx + ": field '" + field + "' uses dotted path '" + path + "' but source type is missing"
  }

  function UnknownSourcePath(ctx: string, field: string, path: string): string {
    ctx + ": field '" + field + "' references unknown source path '" + path + "'"
  }

  function UnknownSourceField(ctx: string, field: string, reference: string, inType: Option<string>): string {
    ctx + ": field '" + field + "' references unknown source field '" + reference + "' in type '" + OptText(inType) + "'"
  }

  function MissingSourceRef(ctx: string, field: string): string {
    ctx + ": field '" + field + "' mapping object must include 'from'/'source'/'path'"
  }

  function EnumMapNotObject(ctx: string, field: string): string {
    ctx + ": field '" + field + "' has 'enum_map' but it must be an object"
  }

  function EnumMapNotEnums(ctx: string, field: string, sourceType: Option<string>, destType: string): string {
    ctx + ": field '" + field + "' provides 'enum_map' but either source '" + OptText(sourceType) + "' or destination '" + destType + "' is not an enum"
  }

  function EnumMapNonString(ctx: string, field: string, key: string, item: Json): string {
    ctx + ": field '" + field + "' has non-string enum_map entry " + ReprStr(key) + ": " + Repr(item)
  }

  function EnumMapUnknownSource(ctx: string, field: string, literal: string): string {
    ctx + ": field '" + field + "' enum_map references unknown source literal '" + literal + "'"
  }

  function EnumMapUnknownTarget(ctx: string, field: string, literal: string): string {
    ctx + ": field '" + field + "' enum_map targets unknown destination literal '" + literal + "'"
  }

  function UnsupportedValue(ctx: string, field: string, spec: Json): string {
    ctx + ": field '" + field + "' has unsupported mapping value " + Repr(spec)
  }

  function NotRecordSource(ctx: string, field: string, destType: string, resolvedType: string): string {
    ctx + ": field '" + field + "' expects record type '" + destType + "' but source expression resolves to '" + resolvedType + "', which is not a record"
  }

  function NotArraySource(ctx: string, field: string, destType: string, resolvedType: string): string {
    ctx + ": field '" + field + "' expects array type '" + destType + "' but source expression resolves to '" + resolvedType + "', which is not an array"
  }

  function MissingEnumFrom(ctx: string): string {
    ctx + ": source type ('from') is missing for enum mapping"
  }

  function UnknownSourceEnum(ctx: string, fromType: string): string {
    ctx + ": source type '" + fromType + "' not found or is not an enum in source specs"
  }

  function EnumFieldsNotObject(ctx: string): string {
    ctx + ": 'fields' must be an object mapping enum literals"
  }

  function MissingLiterals(ctx: string, literals: seq<string>, toType: string): string {
    ctx + ": missing mappings for enum literals " + Join(literals, ", ") + " in '" + toType + "'"
  }

  function UnknownDestLiteral(ctx: string, literal: string, toType: string): string {
    ctx + ": destination literal '" + literal + "' does not exist in enum '" + toType + "'"
  }

  function PlaceholderLiteral(ctx: string, literal: string, raw: string): string {
    ctx + ": literal '" + literal + "' still uses placeholder value '" + raw + "'"
  }

  function UnknownSourceLiteral(ctx: string, literal: string, raw: string): string {
    ctx + ": literal '" + literal + "' references unknown source literal '" + raw + "'"
  }

  function UnsupportedLiteralValue(ctx: string, literal: string, spec: Json): string {
    ctx + ": literal '" + literal + "' has unsupported mapping value " + Repr(spec)
  }

  // ---------------------------------------------------------------------
  // Shared tests

  /** `is_placeholder`: a string that starts with `<` and ends with `>`. */
  predicate IsPlaceholderStr(s: string) {
    StartsWith(s, "<") && EndsWith(s, ">")
  }

  predicate IsPlaceholder(v: Json) {
    v.JStr? && IsPlaceholderStr(v.s)
  }

  /** `is_default_sentinel`: the stripped, upper-cased text is the sentinel. */
  predicate IsDefaultSentinel(s: string) {
    UpperStr(Strip(s)) == Constants.DefaultSentinel
  }

  /** A source type that can be resolved against: truthy and not the
      sentinel. */
  predicate HasSource(t: Option<string>) {
    t.Some? && t.value != [] && t.value != Constants.DefaultSentinel
  }

  /** `"a mapping entry"`, or the entry's name when it has a truthy one. */
  function Ctx(entry: Entry): (ctx: string)
    ensures IsStr(Get(entry, "name")) && Get(entry, "name").value.s != [] ==>
              ctx == "mapping '" + Get(entry, "name").value.s + "'"
    ensures Get(entry, "name").None? ==> ctx == "a mapping entry"
  {
    match Get(entry, "name")
    case None => "a mapping entry"
    case Some(n) => if Truthy(n) then "mapping '" + Str(n) + "'" else "a mapping entry"
  }

  function LowerKeyed(fields: Schema.Fields): (ps: seq<(string, (string, string))>)
    ensures |ps| == |fields| && forall i :: 0 <= i < |fields| ==> ps[i] == (LowerStr(fields[i].0), fields[i])
  {
    seq(|fields|, i requires 0 <= i < |fields| => (LowerStr(fields[i].0), fields[i]))
  }

  /** `_build_lookup`: each lower-cased field name keyed to the field. */
  function BuildLookup(fields: Schema.Fields): FieldLookup {
    FromPairs(LowerKeyed(fields))
  }

  /** A key finds the last field whose name lower-cases to it, and nothing
      when there is none; the lookup is empty exactly when the record is. */
  lemma BuildLookupGet(fields: Schema.Fields, key: string)
    ensures Get(BuildLookup(fields), key).Some? ==>
              Get(BuildLookup(fields), key).value in fields && LowerStr(Get(BuildLookup(fields), key).value.0) == key
    ensures Get(BuildLookup(fields), key).None? <==> forall i :: 0 <= i < |fields| ==> LowerStr(fields[i].0) != key
    ensures BuildLookup(fields) == [] <==> fields == []
  {
    FromPairsSpec(LowerKeyed(fields));
    FromPairsFrom(LowerKeyed(fields));
    LastKeyed(fields, key);
  }

  lemma {:induction false} LastKeyed(fields: Schema.Fields, key: string)
    ensures LastValue(LowerKeyed(fields), key).Some? ==>
              LastValue(LowerKeyed(fields), key).value in fields && LowerStr(LastValue(LowerKeyed(fields), key).value.0) == key
    ensures LastValue(LowerKeyed(fields), key).None? <==> forall i :: 0 <= i < |fields| ==> LowerStr(fields[i].0) != key
    decreases |fields|
  {
    if fields != [] {
      var init := fields[..|fields| - 1];
      LastKeyed(init, key);
      assert LowerKeyed(fields)[..|fields| - 1] == LowerKeyed(init);
    }
  }

  /** A lower-case key is a key of `{l.lower(): l}` exactly when some literal
      lower-cases to it. */
  lemma CaseIndexKeys(lits: seq<string>, key: string)
    ensures key in Keys(CaseIndex(lits)) <==> exists i :: 0 <= i < |lits| && LowerStr(lits[i]) == key
  {
    CaseIndexGet(lits, key);
    GetKey(CaseIndex(lits), key);
  }

  lemma GetKey<V>(d: Dict<string, V>, k: string)
    ensures Get(d, k).Some? <==> k in Keys(d)
  {
  }

  /** The errors of the first `n` items of `xs`, each item's in turn. */
  function ConcatMap<T, U>(f: T -> seq<U>, xs: seq<T>, n: nat): seq<U>
    requires n <= |xs|
  {
    if n == 0 then [] else ConcatMap(f, xs, n - 1) + f(xs[n - 1])
  }

  /** The first `n` items' errors depend on those items only. */
  lemma {:induction false} ConcatMapPrefix<T, U>(f: T -> seq<U>, xs: seq<T>, n: nat)
    requires n <= |xs|
    ensures ConcatMap(f, xs, n) == ConcatMap(f, xs[..n], n)
    decreases n
  {
    if n > 0 {
      ConcatMapPrefix(f, xs, n - 1);
      ConcatMapPrefix(f, xs[..n], n - 1);
      assert xs[..n][..n - 1] == xs[..n - 1];
    }
  }

  /** Every item contributes its own errors, in item order: the errors of
      `a + b` are those of `a` followed by those of `b`. */
  lemma {:induction false} ConcatMapAppend<T, U>(f: T -> seq<U>, a: seq<T>, b: seq<T>)
    ensures ConcatMap(f, a + b, |a + b|) == ConcatMap(f, a, |a|) + ConcatMap(f, b, |b|)
    decreases |b|
  {
    if b == [] {
      assert a + b == a;
    } else {
      var b' := b[..|b| - 1];
      assert (a + b)[..|a + b| - 1] == a + b';
      ConcatMapPrefix(f, a + b, |a + b| - 1);
      ConcatMapPrefix(f, b, |b| - 1);
      ConcatMapAppend(f, a, b');
      assert (a + b)[|a + b| - 1] == b[|b| - 1];
      Append3(ConcatMap(f, a, |a|), ConcatMap(f, b', |b'|), f(b[|b| - 1]));
    }
  }

  /** One more item in a loop that collects `acc + ConcatMap(f, xs, n)`. */
  lemma ConcatMapStep<T, U>(f: T -> seq<U>, xs: seq<T>, n: nat, acc: seq<U>, found: seq<U>)
    requires n < |xs| && found == f(xs[n])
    ensures acc + ConcatMap(f, xs, n + 1) == (acc + ConcatMap(f, xs, n)) + found
  {
  }

  lemma Append3<T>(a: seq<T>, b: seq<T>, c: seq<T>)
    ensures (a + b) + c == a + (b + c)
  {
  }

  // ---------------------------------------------------------------------
  // `_enum_literals` and its cache

  /** The literals of an enumeration type in a domain: none for a blank
      name, else what the provider declares, or none. */
  function EnumLits(p: Schema.Provider, d: Schema.Domain, name: string): (r: seq<string>)
    ensures Strip(name) == [] ==> r == []
    ensures Strip(name) != [] && Strip(name) in Schema.SideOf(p, d).enums ==> r == Schema.SideOf(p, d).enums[Strip(name)]
    ensures Strip(name) !in Schema.SideOf(p, d).enums ==> r == []
  {
    var key := Strip(name);
    if key == [] then [] else Schema.OrEmpty(Schema.EnumLiterals(p, d, key))
  }

  /** Every cached answer is the provider's. */
  ghost predicate CacheValid(p: Schema.Provider, cache: EnumCache) {
    forall d, t | d in cache && t in cache[d] :: cache[d][t] == Schema.OrEmpty(Schema.EnumLiterals(p, d, t))
  }

  /** `_enum_literals`: answers from the cache, and records what it asks the
      provider. */
  method EnumLiteralsCached(p: Schema.Provider, d: Schema.Domain, name: string, cache: EnumCache)
    returns (lits: seq<string>, cache': EnumCache)
    requires CacheValid(p, cache)
    ensures CacheValid(p, cache')
    ensures lits == EnumLits(p, d, name)
    ensures cache'.Keys >= cache.Keys
  {
    var key := Strip(name);
    if key == [] {
      return [], cache;
    }
    var dc := if d in cache then cache[d] else map[];
    if key in dc {
      return dc[key], cache[d := dc];
    }
    lits := Schema.OrEmpty(Schema.EnumLiterals(p, d, key));
    cache' := cache[d := dc[key := lits]];
  }

  // ---------------------------------------------------------------------
  // `_resolve_source_reference`

  /** The defects found while resolving a reference, and the type it
      resolves to, if any. */
  datatype Resolution = Resolution(errors: seq<string>, sourceType: Option<string>)

  function Resolve(p: Schema.Provider, ctx: string, field: string, fromType: Option<string>,
                   fromLookup: FieldLookup, reference: string): (r: Resolution)
    ensures |r.errors| <= 1
    ensures r.sourceType.Some? ==> r.errors == []
  {
    var clean := Strip(reference);
    if IsDefaultSentinel(clean) then Resolution([], Some(Constants.DefaultSentinel))
    else if '.' in clean then ResolveDotted(p, ctx, field, fromType, reference)
    else ResolveName(ctx, field, fromType, fromLookup, reference)
  }

  /** A dotted reference is followed from the source type. */
  function ResolveDotted(p: Schema.Provider, ctx: string, field: string, fromType: Option<string>,
                         reference: string): Resolution
  {
    if HasSource(fromType) then
      match Generator.PathType(p, fromType.value, SplitOn(Strip(reference), '.'))
      case None => Resolution([UnknownSourcePath(ctx, field, reference)], None)
      case Some(t) => Resolution([], Some(Strip(t)))
    else Resolution([DottedWithoutSource(ctx, field, reference)], None)
  }

  /** A plain reference is looked up, ignoring case, among the source
      record's fields, when it has any. */
  function ResolveName(ctx: string, field: string, fromType: Option<string>, fromLookup: FieldLookup,
                       reference: string): Resolution
  {
    if fromLookup == [] then Resolution([], None)
    else
      match Get(fromLookup, LowerStr(Strip(reference)))
      case None => Resolution([UnknownSourceField(ctx, field, reference, fromType)], None)
      case Some(m) => Resolution([], Some(Strip(m.1)))
  }

  /** A plain name is found in the source record, ignoring case, or reported
      with the name and the source type. */
  lemma ResolveField(p: Schema.Provider, ctx: string, field: string, fromType: Option<string>,
                     fromFields: Schema.Fields, reference: string)
    requires '.' !in Strip(reference) && !IsDefaultSentinel(Strip(reference)) && fromFields != []
    ensures var r := Resolve(p, ctx, field, fromType, BuildLookup(fromFields), reference);
            (forall i :: 0 <= i < |fromFields| ==> !EqualsIgnoreCase(fromFields[i].0, Strip(reference))) <==>
              r == Resolution([UnknownSourceField(ctx, field, reference, fromType)], None)
    ensures var r := Resolve(p, ctx, field, fromType, BuildLookup(fromFields), reference);
            r.sourceType.Some? ==>
              exists i :: 0 <= i < |fromFields| && EqualsIgnoreCase(fromFields[i].0, Strip(reference)) &&
                          r.sourceType.value == Strip(fromFields[i].1)
  {
    var key := LowerStr(Strip(reference));
    LowerStrIdempotent(Strip(reference));
    BuildLookupGet(fromFields, key);
    forall i | 0 <= i < |fromFields| ensures EqualsIgnoreCase(fromFields[i].0, Strip(reference)) <==> LowerStr(fromFields[i].0) == key {
      LowerStrIdempotent(fromFields[i].0);
    }
    var m := Get(BuildLookup(fromFields), key);
    if m.Some? {
      var i :| 0 <= i < |fromFields| && fromFields[i] == m.value;
      assert EqualsIgnoreCase(fromFields[i].0, Strip(reference));
    }
  }

  /** A dotted path is followed from a usable source type, and reported with
      the path when it does not resolve; with no usable source type it is
      reported as such. */
  lemma ResolvePath(p: Schema.Provider, ctx: string, field: string, fromType: Option<string>,
                    fromLookup: FieldLookup, reference: string)
    requires '.' in Strip(reference) && !IsDefaultSentinel(Strip(reference))
    ensures var r := Resolve(p, ctx, field, fromType, fromLookup, reference);
            !HasSource(fromType) ==> r == Resolution([DottedWithoutSource(ctx, field, reference)], None)
    ensures var r := Resolve(p, ctx, field, fromType, fromLookup, reference);
            HasSource(fromType) ==>
              (r.sourceType.None? <==> Generator.PathType(p, fromType.value, SplitOn(Strip(reference), '.')).None?) &&
              (r.sourceType.None? ==> r.errors == [UnknownSourcePath(ctx, field, reference)])
  {
  }

  /** `_resolve_source_reference`: appends at most one message and answers
      the type the reference resolves to. */
  method ResolveSourceReference(mg: Generator.MapperGenerator, reference: string, ctx: string, field: string,
                                fromType: Option<string>, fromLookup: FieldLookup, errors: seq<string>)
    returns (resolved: Option<string>, errors': seq<string>)
    requires mg.Valid()
    modifies mg`parsedFrom
    ensures mg.Valid()
    ensures resolved == Resolve(mg.provider, ctx, field, fromType, fromLookup, reference).sourceType
    ensures errors' == errors + Resolve(mg.provider, ctx, field, fromType, fromLookup, reference).errors
  {
    var clean := Strip(reference);
    var r: Resolution;
    if IsDefaultSentinel(clean) {
      r := Resolution([], Some(Constants.DefaultSentinel));
    } else if '.' in clean {
      r := ResolveDottedReference(mg, reference, ctx, field, fromType);
    } else {
      r := ResolveName(ctx, field, fromType, fromLookup, reference);
    }
    resolved, errors' := r.sourceType, errors + r.errors;
  }

  /** The dotted branch, asking the generator to follow the path. */
  method ResolveDottedReference(mg: Generator.MapperGenerator, reference: string, ctx: string, field: string,
                                fromType: Option<string>)
    returns (r: Resolution)
    requires mg.Valid()
    modifies mg`parsedFrom
    ensures mg.Valid()
    ensures r == ResolveDotted(mg.provider, ctx, field, fromType, reference)
  {
    if !HasSource(fromType) {
      return Resolution([DottedWithoutSource(ctx, field, reference)], None);
    }
    var t := mg.ResolveSrcPathType(fromType.value, Strip(reference));
    r := if t.None? then Resolution([UnknownSourcePath(ctx, field, reference)], None) else Resolution([], Some(Strip(t.value)));
  }

  // ---------------------------------------------------------------------
  // `_validate_enum_override`

  /** One `enum_map` item: a non-string target is reported with both sides;
      otherwise the source key and the target are checked independently,
      ignoring case, against the two enumerations. */
  function OverrideItem(ctx: string, field: string, srcIdx: Dict<string, string>, dstIdx: Dict<string, string>,
                        item: (string, Json)): seq<string>
  {
    if !item.1.JStr? then [EnumMapNonString(ctx, field, item.0, item.1)]
    else
      (if LowerStr(item.0) !in Keys(srcIdx) then [EnumMapUnknownSource(ctx, field, item.0)] else []) +
      (if LowerStr(item.1.s) !in Keys(dstIdx) then [EnumMapUnknownTarget(ctx, field, item.1.s)] else [])
  }

  function OverrideItemFn(ctx: string, field: string, srcIdx: Dict<string, string>, dstIdx: Dict<string, string>)
    : ((string, Json)) -> seq<string>
  {
    item => OverrideItem(ctx, field, srcIdx, dstIdx, item)
  }

  function OverrideErrors(p: Schema.Provider, ctx: string, field: string, enumMap: Json, destType: string,
                           sourceType: Option<string>): seq<string>
  {
    if !enumMap.JObj? then [EnumMapNotObject(ctx, field)]
    else
      var dl := EnumLits(p, Schema.To, destType);
      var sl := if HasSource(sourceType) then EnumLits(p, Schema.From, sourceType.value) else [];
      if dl == [] || sl == [] then [EnumMapNotEnums(ctx, field, sourceType, destType)]
      else ConcatMap(OverrideItemFn(ctx, field, CaseIndex(sl), CaseIndex(dl)), enumMap.members, |enumMap.members|)
  }

  /** An `enum_map` that is no object, or that does not connect two
      enumerations, gets exactly one message. */
  lemma OverrideRejected(p: Schema.Provider, ctx: string, field: string, enumMap: Json, destType: string,
                         sourceType: Option<string>)
    ensures !enumMap.JObj? ==> OverrideErrors(p, ctx, field, enumMap, destType, sourceType) == [EnumMapNotObject(ctx, field)]
    ensures enumMap.JObj? && (EnumLits(p, Schema.To, destType) == [] || !HasSource(sourceType) ||
                              (HasSource(sourceType) && EnumLits(p, Schema.From, sourceType.value) == [])) ==>
              OverrideErrors(p, ctx, field, enumMap, destType, sourceType) == [EnumMapNotEnums(ctx, field, sourceType, destType)]
  {
  }

  /** For a string target, an unknown source key and an unknown target are
      each reported, independently of one another. */
  lemma OverrideItemReports(ctx: string, field: string, srcLits: seq<string>, dstLits: seq<string>, key: string, target: string)
    ensures OverrideItem(ctx, field, CaseIndex(srcLits), CaseIndex(dstLits), (key, JStr(target))) ==
            (if forall i :: 0 <= i < |srcLits| ==> !EqualsIgnoreCase(srcLits[i], key)
             then [EnumMapUnknownSource(ctx, field, key)] else []) +
            (if forall i :: 0 <= i < |dstLits| ==> !EqualsIgnoreCase(dstLits[i], target)
             then [EnumMapUnknownTarget(ctx, field, target)] else [])
  {
    CaseIndexKeys(srcLits, LowerStr(key));
    CaseIndexKeys(dstLits, LowerStr(target));
  }

  /** `_validate_enum_override`. */
  method ValidateEnumOverride(p: Schema.Provider, ctx: string, field: string, enumMap: Json, destType: string,
                              sourceType: Option<string>, cache: EnumCache, errors: seq<string>)
    returns (cache': EnumCache, errors': seq<string>)
    requires CacheValid(p, cache)
    ensures CacheValid(p, cache')
    ensures errors' == errors + OverrideErrors(p, ctx, field, enumMap, destType, sourceType)
  {
    cache', errors' := cache, errors;
    if !enumMap.JObj? {
      errors' := errors' + [EnumMapNotObject(ctx, field)];
      return;
    }
    var dl;
    dl, cache' := EnumLiteralsCached(p, Schema.To, destType, cache');
    var sl := [];
    if HasSource(sourceType) {
      sl, cache' := EnumLiteralsCached(p, Schema.From, sourceType.value, cache');
    }
    if dl == [] || sl == [] {
      errors' := errors' + [EnumMapNotEnums(ctx, field, sourceType, destType)];
      return;
    }
    errors' := CheckOverrideItems(ctx, field, CaseIndex(sl), CaseIndex(dl), enumMap.members, errors');
  }

  /** The loop over the pairs of an enum override map. */
  method CheckOverrideItems(ctx: string, field: string, srcIdx: Dict<string, string>, dstIdx: Dict<string, string>,
                            items: Dict<string, Json>, errors: seq<string>)
    returns (errors': seq<string>)
    ensures errors' == errors + ConcatMap(OverrideItemFn(ctx, field, srcIdx, dstIdx), items, |items|)
  {
    errors' := errors;
    var i := 0;
    while i < |items|
      invariant i <= |items|
      invariant errors' == errors + ConcatMap(OverrideItemFn(ctx, field, srcIdx, dstIdx), items, i)
    {
      errors' := CheckOverrideStep(ctx, field, srcIdx, dstIdx, items, i, errors, errors');
      i := i + 1;
    }
  }

  /** One turn of that loop: the messages of item `i` added. */
  method CheckOverrideStep(ctx: string, field: string, srcIdx: Dict<string, string>, dstIdx: Dict<string, string>,
                           items: Dict<string, Json>, i: nat, errors: seq<string>, acc: seq<string>)
    returns (acc': seq<string>)
    requires i < |items| && acc == errors + ConcatMap(OverrideItemFn(ctx, field, srcIdx, dstIdx), items, i)
    ensures acc' == errors + ConcatMap(OverrideItemFn(ctx, field, srcIdx, dstIdx), items, i + 1)
  {
    var found := CheckOverrideItem(ctx, field, srcIdx, dstIdx, items[i]);
    ConcatMapStep(OverrideItemFn(ctx, field, srcIdx, dstIdx), items, i, errors, found);
    acc' := acc + found;
  }

  /** The body of that loop: the messages for one item. */
  method CheckOverrideItem(ctx: string, field: string, srcIdx: Dict<string, string>, dstIdx: Dict<string, string>,
                           item: (string, Json))
    returns (found: seq<string>)
    ensures found == OverrideItemFn(ctx, field, srcIdx, dstIdx)(item)
  {
    var (k, v) := item;
    found := [];
    if !v.JStr? {
      found := [EnumMapNonString(ctx, field, k, v)];
    } else {
      if LowerStr(k) !in Keys(srcIdx) {
        found := found + [EnumMapUnknownSource(ctx, field, k)];
      }
      if LowerStr(v.s) !in Keys(dstIdx) {
        found := found + [EnumMapUnknownTarget(ctx, field, v.s)];
      }
    }
  }

  // ---------------------------------------------------------------------
  // One field of a record mapping

  /** The type-family check: a source type that resolved to something other
      than the sentinel must be a record when the destination field's type
      is one, and an array when it is one. */
  function FamilyErrors(p: Schema.Provider, ctx: string, field: string, destType: string, sourceType: Option<string>): (r: seq<string>)
    ensures !HasSource(sourceType) ==> r == []
    ensures HasSource(sourceType) && Schema.Present(Schema.FieldsOf(p, Schema.To, destType)) &&
            !Schema.Present(Schema.FieldsOf(p, Schema.From, sourceType.value)) ==>
              NotRecordSource(ctx, field, destType, sourceType.value) in r
    ensures HasSource(sourceType) && Schema.Present(Schema.ElementOf(p, Schema.To, destType)) &&
            !Schema.Present(Schema.ElementOf(p, Schema.From, sourceType.value)) ==>
              NotArraySource(ctx, field, destType, sourceType.value) in r
    ensures |r| <= 2
  {
    if HasSource(sourceType) then
      var s := sourceType.value;
      (if Schema.Present(Schema.FieldsOf(p, Schema.To, destType)) && !Schema.Present(Schema.FieldsOf(p, Schema.From, s))
       then [NotRecordSource(ctx, field, destType, s)] else []) +
      (if Schema.Present(Schema.ElementOf(p, Schema.To, destType)) && !Schema.Present(Schema.ElementOf(p, Schema.From, s))
       then [NotArraySource(ctx, field, destType, s)] else [])
    else []
  }

  /** A string source expression. */
  function StrSpecErrors(p: Schema.Provider, ctx: string, fromType: Option<string>, fromLookup: FieldLookup,
                          field: string, destType: string, spec: string): seq<string>
  {
    var v := Strip(spec);
    if IsPlaceholderStr(v) then [PlaceholderValue(ctx, field, v)]
    else if IsDefaultSentinel(v) then []
    else if '.' in v && !HasSource(fromType) then [DottedWithoutSource(ctx, field, v)]
    else if '.' !in v && fromLookup == [] then []
    else
      var r := Resolve(p, ctx, field, fromType, fromLookup, v);
      r.errors + FamilyErrors(p, ctx, field, destType, r.sourceType)
  }

  /** The spec's `from` member, else its `source`, else its `path`, each
      passed over when it is falsy. */
  function SourceRef(spec: Json): Option<Json> {
    Or(Or(Member(spec, "from"), Member(spec, "source")), Member(spec, "path"))
  }

  /** How an object source expression's reference resolves, before the
      `enum_map` and type-family checks. */
  function ObjResolution(p: Schema.Provider, ctx: string, fromType: Option<string>, fromLookup: FieldLookup,
                         field: string, s: string): Resolution
  {
    if IsDefaultSentinel(s) then Resolution([], Some(Constants.DefaultSentinel))
    else if '.' in s && !HasSource(fromType) then Resolution([DottedWithoutSource(ctx, field, s)], None)
    else if '.' !in s && fromLookup == [] then Resolution([], None)
    else Resolve(p, ctx, field, fromType, fromLookup, s)
  }

  /** An object source expression `{"from": …, "enum_map": …}`. */
  function ObjSpecErrors(p: Schema.Provider, ctx: string, fromType: Option<string>, fromLookup: FieldLookup,
                          field: string, destType: string, spec: Json): seq<string>
    requires spec.JObj?
  {
    var ref := SourceRef(spec);
    if !(ref.Some? && Truthy(ref.value)) then [MissingSourceRef(ctx, field)]
    else if IsPlaceholder(ref.value) then [PlaceholderValue(ctx, field, ref.value.s)]
    else
      var r := ObjResolution(p, ctx, fromType, fromLookup, field, Strip(Str(ref.value)));
      r.errors + ObjTail(p, ctx, field, destType, spec, r.sourceType)
  }

  /** The checks after the reference is resolved: the `enum_map` override,
      when given, then the type family. */
  function ObjTail(p: Schema.Provider, ctx: string, field: string, destType: string, spec: Json,
                   sourceType: Option<string>): seq<string>
    requires spec.JObj?
  {
    (if "enum_map" in Keys(spec.members) then OverrideErrors(p, ctx, field, Member(spec, "enum_map").value, destType, sourceType) else []) +
    FamilyErrors(p, ctx, field, destType, sourceType)
  }

  /** The defects of one destination field's source expression. */
  function FieldErrors(p: Schema.Provider, ctx: string, fromType: Option<string>, fromLookup: FieldLookup,
                        field: string, destType: string, spec: Json): seq<string>
  {
    if spec.JStr? then StrSpecErrors(p, ctx, fromType, fromLookup, field, destType, spec.s)
    else if spec.JObj? then ObjSpecErrors(p, ctx, fromType, fromLookup, field, destType, spec)
    else [UnsupportedValue(ctx, field, spec)]
  }

  /** A placeholder string is reported, quoting the field and the stripped
      value, and nothing else is checked; the sentinel is accepted as is. */
  lemma PlaceholderSpec(p: Schema.Provider, ctx: string, fromType: Option<string>, fromLookup: FieldLookup,
                        field: string, destType: string, spec: string)
    ensures IsPlaceholderStr(Strip(spec)) ==>
              FieldErrors(p, ctx, fromType, fromLookup, field, destType, JStr(spec)) == [PlaceholderValue(ctx, field, Strip(spec))]
    ensures !IsPlaceholderStr(Strip(spec)) && IsDefaultSentinel(spec) ==>
              FieldErrors(p, ctx, fromType, fromLookup, field, destType, JStr(spec)) == []
  {
    StripIdempotent(spec);
  }

  /** A mapping object must name its source, and a placeholder source is
      reported with the raw value; a value that is neither a string nor an
      object is reported as unsupported. */
  lemma ObjSpecRejected(p: Schema.Provider, ctx: string, fromType: Option<string>, fromLookup: FieldLookup,
                        field: string, destType: string, spec: Json)
    ensures spec.JObj? && !(SourceRef(spec).Some? && Truthy(SourceRef(spec).value)) ==>
              FieldErrors(p, ctx, fromType, fromLookup, field, destType, spec) == [MissingSourceRef(ctx, field)]
    ensures spec.JObj? && SourceRef(spec).Some? && IsPlaceholder(SourceRef(spec).value) ==>
              FieldErrors(p, ctx, fromType, fromLookup, field, destType, spec) == [PlaceholderValue(ctx, field, SourceRef(spec).value.s)]
    ensures !spec.JStr? && !spec.JObj? ==>
              FieldErrors(p, ctx, fromType, fromLookup, field, destType, spec) == [UnsupportedValue(ctx, field, spec)]
  {
  }

  /** One item of `fields`: a key that names no destination field is
      skipped here (it is reported as extra). */
  function FieldStep(p: Schema.Provider, ctx: string, fromType: Option<string>, fromLookup: FieldLookup,
                     destLookup: FieldLookup, item: (string, Json)): seq<string>
  {
    match Get(destLookup, LowerStr(item.0))
    case None => []
    case Some(l) => FieldErrors(p, ctx, fromType, fromLookup, l.0, Strip(l.1), item.1)
  }

  /** The checks of one string source expression. */
  method CheckStrSpec(mg: Generator.MapperGenerator, ctx: string, fromType: Option<string>, fromLookup: FieldLookup,
                      field: string, destType: string, spec: string, errors: seq<string>)
    returns (errors': seq<string>)
    requires mg.Valid()
    modifies mg`parsedTo, mg`parsedFrom
    ensures mg.Valid()
    ensures errors' == errors + StrSpecErrors(mg.provider, ctx, fromType, fromLookup, field, destType, spec)
  {
    errors' := errors;
    var v := Strip(spec);
    if IsPlaceholderStr(v) {
      errors' := errors' + [PlaceholderValue(ctx, field, v)];
      return;
    }
    if IsDefaultSentinel(v) {
      return;
    }
    if '.' in v && !HasSource(fromType) {
      errors' := errors' + [DottedWithoutSource(ctx, field, v)];
      return;
    }
    if '.' !in v && fromLookup == [] {
      return;
    }
    ghost var r := Resolve(mg.provider, ctx, field, fromType, fromLookup, v);
    assert StrSpecErrors(mg.provider, ctx, fromType, fromLookup, field, destType, spec) ==
           r.errors + FamilyErrors(mg.provider, ctx, field, destType, r.sourceType);
    var resolved;
    resolved, errors' := ResolveSourceReference(mg, v, ctx, field, fromType, fromLookup, errors');
    ghost var mid := errors';
    errors' := CheckFamily(mg, ctx, field, destType, resolved, errors');
    Append3(errors, r.errors, FamilyErrors(mg.provider, ctx, field, destType, r.sourceType));
  }

  /** The checks of one object source expression. */
  method CheckObjSpec(mg: Generator.MapperGenerator, ctx: string, fromType: Option<string>, fromLookup: FieldLookup,
                      field: string, destType: string, spec: Json, cache: EnumCache, errors: seq<string>)
    returns (cache': EnumCache, errors': seq<string>)
    requires spec.JObj? && mg.Valid() && CacheValid(mg.provider, cache)
    modifies mg`parsedTo, mg`parsedFrom
    ensures mg.Valid() && CacheValid(mg.provider, cache')
    ensures errors' == errors + ObjSpecErrors(mg.provider, ctx, fromType, fromLookup, field, destType, spec)
  {
    cache', errors' := cache, errors;
    var ref := SourceRef(spec);
    if !(ref.Some? && Truthy(ref.value)) {
      errors' := errors' + [MissingSourceRef(ctx, field)];
      return;
    }
    if IsPlaceholder(ref.value) {
      errors' := errors' + [PlaceholderValue(ctx, field, ref.value.s)];
      return;
    }
    var s := Strip(Str(ref.value));
    ghost var before := errors';
    var sourceType;
    sourceType, errors' := ResolveObjReference(mg, ctx, fromType, fromLookup, field, s, errors');
    ghost var r := ObjResolution(mg.provider, ctx, fromType, fromLookup, field, s);
    cache', errors' := CheckObjTail(mg, ctx, field, destType, spec, sourceType, cache', errors');
    Append3(before, r.errors, ObjTail(mg.provider, ctx, field, destType, spec, sourceType));
  }

  /** The `enum_map` and type-family checks of an object source expression. */
  method CheckObjTail(mg: Generator.MapperGenerator, ctx: string, field: string, destType: string, spec: Json,
                      sourceType: Option<string>, cache: EnumCache, errors: seq<string>)
    returns (cache': EnumCache, errors': seq<string>)
    requires spec.JObj? && mg.Valid() && CacheValid(mg.provider, cache)
    modifies mg`parsedTo, mg`parsedFrom
    ensures mg.Valid() && CacheValid(mg.provider, cache')
    ensures errors' == errors + ObjTail(mg.provider, ctx, field, destType, spec, sourceType)
  {
    cache', errors' := cache, errors;
    ghost var overrides: seq<string> := [];
    if "enum_map" in Keys(spec.members) {
      overrides := OverrideErrors(mg.provider, ctx, field, Member(spec, "enum_map").value, destType, sourceType);
      cache', errors' := ValidateEnumOverride(mg.provider, ctx, field, Member(spec, "enum_map").value, destType, sourceType, cache', errors');
    }
    ghost var family := FamilyErrors(mg.provider, ctx, field, destType, sourceType);
    errors' := CheckFamily(mg, ctx, field, destType, sourceType, errors');
    Append3(errors, overrides, family);
  }

  /** The reference of an object source expression, resolved. */
  method ResolveObjReference(mg: Generator.MapperGenerator, ctx: string, fromType: Option<string>, fromLookup: FieldLookup,
                             field: string, s: string, errors: seq<string>)
    returns (sourceType: Option<string>, errors': seq<string>)
    requires mg.Valid()
    modifies mg`parsedFrom
    ensures mg.Valid()
    ensures sourceType == ObjResolution(mg.provider, ctx, fromType, fromLookup, field, s).sourceType
    ensures errors' == errors + ObjResolution(mg.provider, ctx, fromType, fromLookup, field, s).errors
  {
    sourceType, errors' := None, errors;
    if IsDefaultSentinel(s) {
      sourceType := Some(Constants.DefaultSentinel);
    } else if '.' in s && !HasSource(fromType) {
      errors' := errors' + [DottedWithoutSource(ctx, field, s)];
    } else if '.' in s || fromLookup != [] {
      sourceType, errors' := ResolveSourceReference(mg, s, ctx, field, fromType, fromLookup, errors');
    }
  }

  /** The type-family check, asking the generator for both records. */
  method CheckFamily(mg: Generator.MapperGenerator, ctx: string, field: string, destType: string,
                     sourceType: Option<string>, errors: seq<string>)
    returns (errors': seq<string>)
    requires mg.Valid()
    modifies mg`parsedTo, mg`parsedFrom
    ensures mg.Valid()
    ensures errors' == errors + FamilyErrors(mg.provider, ctx, field, destType, sourceType)
  {
    errors' := errors;
    if HasSource(sourceType) {
      var s := sourceType.value;
      var destRecord := mg.GetToFields(destType);
      var srcRecord := mg.GetFromFields(s);
      if Schema.Present(destRecord) && !Schema.Present(srcRecord) {
        errors' := errors' + [NotRecordSource(ctx, field, destType, s)];
      }
      var destArray := Schema.ElementOf(mg.provider, Schema.To, destType);
      if Schema.Present(destArray) && !Schema.Present(Schema.ElementOf(mg.provider, Schema.From, s)) {
        errors' := errors' + [NotArraySource(ctx, field, destType, s)];
      }
    }
  }

  /** `step` gives the errors of one item of `fields`. */
  ghost predicate FieldStepIs(step: ((string, Json)) -> seq<string>, p: Schema.Provider, ctx: string,
                              fromType: Option<string>, fromLookup: FieldLookup, destLookup: FieldLookup)
  {
    forall x {:trigger FieldStep(p, ctx, fromType, fromLookup, destLookup, x)} ::
      step(x) == FieldStep(p, ctx, fromType, fromLookup, destLookup, x)
  }

  function FieldStepFn(p: Schema.Provider, ctx: string, fromType: Option<string>, fromLookup: FieldLookup,
                       destLookup: FieldLookup): ((string, Json)) -> seq<string>
  {
    item => FieldStep(p, ctx, fromType, fromLookup, destLookup, item)
  }

  lemma FieldStepFnIs(p: Schema.Provider, ctx: string, fromType: Option<string>, fromLookup: FieldLookup, destLookup: FieldLookup)
    ensures FieldStepIs(FieldStepFn(p, ctx, fromType, fromLookup, destLookup), p, ctx, fromType, fromLookup, destLookup)
  {
  }

  /** One item of `fields_entry`. */
  method CheckField(mg: Generator.MapperGenerator, ctx: string, fromType: Option<string>, fromLookup: FieldLookup,
                    destLookup: FieldLookup, item: (string, Json), cache: EnumCache, errors: seq<string>,
                    ghost step: ((string, Json)) -> seq<string>)
    returns (cache': EnumCache, errors': seq<string>)
    requires mg.Valid() && CacheValid(mg.provider, cache)
    requires FieldStepIs(step, mg.provider, ctx, fromType, fromLookup, destLookup)
    modifies mg`parsedTo, mg`parsedFrom
    ensures mg.Valid() && CacheValid(mg.provider, cache')
    ensures errors' == errors + step(item)
  {
    cache', errors' := cache, errors;
    var (key, spec) := item;
    var lookup := Get(destLookup, LowerStr(key));
    assert step(item) == FieldStep(mg.provider, ctx, fromType, fromLookup, destLookup, item);
    if lookup.None? {
      return;
    }
    var field, destType := lookup.value.0, Strip(lookup.value.1);
    if spec.JStr? {
      errors' := CheckStrSpec(mg, ctx, fromType, fromLookup, field, destType, spec.s, errors');
    } else if spec.JObj? {
      cache', errors' := CheckObjSpec(mg, ctx, fromType, fromLookup, field, destType, spec, cache', errors');
    } else {
      errors' := errors' + [UnsupportedValue(ctx, field, spec)];
    }
  }

  /** The loop over the pairs of an entry's field dictionary. */
  method CheckFields(mg: Generator.MapperGenerator, ctx: string, fromType: Option<string>, fromLookup: FieldLookup,
                     destLookup: FieldLookup, items: Dict<string, Json>, cache: EnumCache, errors: seq<string>,
                     ghost step: ((string, Json)) -> seq<string>)
    returns (cache': EnumCache, errors': seq<string>)
    requires mg.Valid() && CacheValid(mg.provider, cache)
    requires FieldStepIs(step, mg.provider, ctx, fromType, fromLookup, destLookup)
    modifies mg`parsedTo, mg`parsedFrom
    ensures mg.Valid() && CacheValid(mg.provider, cache')
    ensures errors' == errors + ConcatMap(step, items, |items|)
  {
    cache', errors' := cache, errors;
    var i := 0;
    while i < |items|
      invariant i <= |items| && mg.Valid() && CacheValid(mg.provider, cache')
      invariant errors' == errors + ConcatMap(step, items, i)
    {
      cache', errors' := CheckField(mg, ctx, fromType, fromLookup, destLookup, items[i], cache', errors', step);
      Append3(errors, ConcatMap(step, items, i), step(items[i]));
      i := i + 1;
    }
  }

  // ---------------------------------------------------------------------
  // A record mapping entry

  /** The entry's source side: the errors found, the source type (the
      sentinel when the entry asks for defaults, nothing when it is missing)
      and the source record's fields. */
  datatype Source = Source(errors: seq<string>, fromType: Option<string>, fromFields: Schema.Fields)

  function RecordSource(p: Schema.Provider, ctx: string, fromRaw: Option<Json>): (r: Source)
    ensures !HasSource(r.fromType) ==> r.fromFields == []
    ensures |r.errors| <= 2
  {
    if !(IsStr(fromRaw) && Strip(fromRaw.value.s) != []) then Source([MissingFrom(ctx)], None, [])
    else if IsDefaultSentinel(fromRaw.value.s) then Source([], Some(Constants.DefaultSentinel), [])
    else
      var raw := fromRaw.value.s;
      var t := Strip(raw);
      var ff := Schema.OrEmpty(Schema.FieldsOf(p, Schema.From, t));
      var errs := (if IsPlaceholderStr(raw) then [PlaceholderFrom(ctx, raw)] else []) +
                  (if ff == [] then [UnknownSourceRecord(ctx, t)] else []);
      Source(errs, Some(t), ff)
  }

  /** The lower-cased names of an entry's fields. */
  function LowerKeys(items: Dict<string, Json>): set<string> {
    set i | 0 <= i < |items| :: LowerStr(items[i].0)
  }

  /** The destination fields no key of `fields` names, ignoring case, in
      declaration order. */
  function MissingFieldNames(fields: Schema.Fields, lowered: set<string>): (r: seq<string>)
    ensures forall x :: x in r <==> exists i :: 0 <= i < |fields| && fields[i].0 == x && LowerStr(x) !in lowered
    decreases |fields|
  {
    if fields == [] then []
    else
      var init := MissingFieldNames(fields[..|fields| - 1], lowered);
      var last := fields[|fields| - 1].0;
      assert forall i :: 0 <= i < |fields| - 1 ==> fields[..|fields| - 1][i] == fields[i];
      if LowerStr(last) !in lowered then init + [last] else init
  }

  /** The keys of `fields` that name no destination field, in key order. */
  function ExtraNames(items: Dict<string, Json>, destLookup: FieldLookup): (r: seq<string>)
    ensures forall x :: x in r <==> exists i :: 0 <= i < |items| && items[i].0 == x && LowerStr(x) !in Keys(destLookup)
    decreases |items|
  {
    if items == [] then []
    else
      var init := ExtraNames(items[..|items| - 1], destLookup);
      var last := items[|items| - 1].0;
      assert forall i :: 0 <= i < |items| - 1 ==> items[..|items| - 1][i] == items[i];
      if LowerStr(last) !in Keys(destLookup) then init + [last] else init
  }

  function ExtraFn(ctx: string, toType: string): string -> seq<string> {
    name => [ExtraField(ctx, name, toType)]
  }

  /** The errors of a record mapping entry whose destination type `toType`
      has the fields `destFields`. */
  function RecordEntryErrors(p: Schema.Provider, ctx: string, toType: string, destFields: Schema.Fields,
                             fromRaw: Option<Json>, fieldsRaw: Option<Json>): seq<string>
  {
    var src := RecordSource(p, ctx, fromRaw);
    if !(fieldsRaw.Some? && fieldsRaw.value.JObj?) then src.errors + [FieldsNotObject(ctx)]
    else
      var items := fieldsRaw.value.members;
      var destLookup := BuildLookup(destFields);
      var missing := MissingFieldNames(destFields, LowerKeys(items));
      var extra := ExtraNames(items, destLookup);
      src.errors +
      (if missing != [] then [MissingFields(ctx, missing, toType)] else []) +
      ConcatMap(ExtraFn(ctx, toType), extra, |extra|) +
      ConcatMap(FieldStepFn(p, ctx, src.fromType, BuildLookup(src.fromFields), destLookup), items, |items|)
  }

  /** The source side, asking the generator for the source record. */
  method CheckRecordSource(mg: Generator.MapperGenerator, ctx: string, fromRaw: Option<Json>)
    returns (src: Source)
    requires mg.Valid()
    modifies mg`parsedFrom
    ensures mg.Valid()
    ensures src == RecordSource(mg.provider, ctx, fromRaw)
  {
    if !(IsStr(fromRaw) && Strip(fromRaw.value.s) != []) {
      return Source([MissingFrom(ctx)], None, []);
    }
    var raw := fromRaw.value.s;
    if IsDefaultSentinel(raw) {
      return Source([], Some(Constants.DefaultSentinel), []);
    }
    var placeholder := if IsPlaceholderStr(raw) then [PlaceholderFrom(ctx, raw)] else [];
    var fromType := Strip(raw);
    var ff := mg.GetFromFields(fromType);
    var fromFields := Schema.OrEmpty(ff);
    var unknown := if fromFields == [] then [UnknownSourceRecord(ctx, fromType)] else [];
    src := Source(placeholder + unknown, Some(fromType), fromFields);
  }

  /** The loop reporting each extra key. */
  method CheckExtras(ctx: string, toType: string, extra: seq<string>, errors: seq<string>) returns (errors': seq<string>)
    ensures errors' == errors + ConcatMap(ExtraFn(ctx, toType), extra, |extra|)
  {
    errors' := errors;
    var i := 0;
    while i < |extra|
      invariant i <= |extra|
      invariant errors' == errors + ConcatMap(ExtraFn(ctx, toType), extra, i)
    {
      Append3(errors, ConcatMap(ExtraFn(ctx, toType), extra, i), [ExtraField(ctx, extra[i], toType)]);
      errors' := errors' + [ExtraField(ctx, extra[i], toType)];
      i := i + 1;
    }
  }

  /** The part of `_validate_mapping_entry` after the destination record is
      found. */
  method CheckRecordEntry(mg: Generator.MapperGenerator, ctx: string, toType: string, destFields: Schema.Fields,
                          fromRaw: Option<Json>, fieldsRaw: Option<Json>, cache: EnumCache)
    returns (errors: seq<string>)
    requires mg.Valid() && CacheValid(mg.provider, cache)
    modifies mg`parsedTo, mg`parsedFrom
    ensures mg.Valid()
    ensures errors == RecordEntryErrors(mg.provider, ctx, toType, destFields, fromRaw, fieldsRaw)
  {
    var src := CheckRecordSource(mg, ctx, fromRaw);
    errors := src.errors;
    if !(fieldsRaw.Some? && fieldsRaw.value.JObj?) {
      errors := errors + [FieldsNotObject(ctx)];
      return;
    }
    var items := fieldsRaw.value.members;
    var destLookup := BuildLookup(destFields);
    var missing := MissingFieldNames(destFields, LowerKeys(items));
    var flagged: seq<string> := if missing != [] then [MissingFields(ctx, missing, toType)] else [];
    errors := errors + flagged;
    var extra := ExtraNames(items, destLookup);
    errors := CheckExtras(ctx, toType, extra, errors);
    var fromLookup := BuildLookup(src.fromFields);
    errors := CheckAllFields(mg, ctx, src.fromType, fromLookup, destLookup, items, cache, errors);
    Append3(src.errors, flagged, ConcatMap(ExtraFn(ctx, toType), extra, |extra|));
    Append3(src.errors + flagged, ConcatMap(ExtraFn(ctx, toType), extra, |extra|),
            ConcatMap(FieldStepFn(mg.provider, ctx, src.fromType, fromLookup, destLookup), items, |items|));
  }

  /** The field checks with the step function of this entry. */
  method CheckAllFields(mg: Generator.MapperGenerator, ctx: string, fromType: Option<string>, fromLookup: FieldLookup,
                        destLookup: FieldLookup, items: Dict<string, Json>, cache: EnumCache, errors: seq<string>)
    returns (errors': seq<string>)
    requires mg.Valid() && CacheValid(mg.provider, cache)
    modifies mg`parsedTo, mg`parsedFrom
    ensures mg.Valid()
    ensures errors' == errors + ConcatMap(FieldStepFn(mg.provider, ctx, fromType, fromLookup, destLookup), items, |items|)
  {
    FieldStepFnIs(mg.provider, ctx, fromType, fromLookup, destLookup);
    var cache';
    cache', errors' := CheckFields(mg, ctx, fromType, fromLookup, destLookup, items, cache, errors,
                                   FieldStepFn(mg.provider, ctx, fromType, fromLookup, destLookup));
  }

  // ---------------------------------------------------------------------
  // `_validate_enum_entry`

  /** The defects of an enumeration mapping's source type, and its literals. */
  datatype EnumSource = EnumSource(errors: seq<string>, literals: seq<string>)

  function EnumSourceOf(p: Schema.Provider, ctx: string, fromRaw: Option<Json>): (r: EnumSource)
    ensures !(IsStr(fromRaw) && Strip(fromRaw.value.s) != []) ==> r == EnumSource([MissingEnumFrom(ctx)], [])
    ensures IsStr(fromRaw) && Strip(fromRaw.value.s) != [] && IsDefaultSentinel(fromRaw.value.s) ==> r == EnumSource([], [])
    ensures IsStr(fromRaw) && Strip(fromRaw.value.s) != [] && !IsDefaultSentinel(fromRaw.value.s) ==>
              r.literals == Schema.OrEmpty(Schema.EnumLiterals(p, Schema.From, Strip(fromRaw.value.s))) &&
              (r.literals == [] ==> UnknownSourceEnum(ctx, Strip(fromRaw.value.s)) in r.errors) &&
              (r.literals != [] && !IsPlaceholderStr(fromRaw.value.s) ==> r.errors == [])
    ensures |r.errors| <= 2
  {
    if !(IsStr(fromRaw) && Strip(fromRaw.value.s) != []) then EnumSource([MissingEnumFrom(ctx)], [])
    else
      var raw := fromRaw.value.s;
      if IsDefaultSentinel(raw) then EnumSource([], [])
      else
        var lits := EnumLits(p, Schema.From, Strip(raw));
        StripIdempotent(raw);
        EnumSource((if IsPlaceholderStr(raw) then [PlaceholderFrom(ctx, raw)] else []) +
                   (if lits == [] then [UnknownSourceEnum(ctx, Strip(raw))] else []), lits)
  }

  /** The destination literals that are no key of `fields`, compared
      exactly, in declaration order. */
  function MissingLiteralNames(literals: seq<string>, keys: seq<string>): (r: seq<string>)
    ensures forall x :: x in r <==> x in literals && x !in keys
    decreases |literals|
  {
    if literals == [] then []
    else
      var init := MissingLiteralNames(literals[..|literals| - 1], keys);
      var last := literals[|literals| - 1];
      assert literals == literals[..|literals| - 1] + [last];
      if last !in keys then init + [last] else init
  }

  /** The checks of a value mapped to a destination literal that exists: a
      placeholder is reported, the sentinel accepted, and any other string
      must name a source literal, ignoring case, when the source has any. */
  function LiteralValueErrors(ctx: string, literal: string, fromIdx: Dict<string, string>, spec: Json): (r: seq<string>)
    ensures |r| <= 1
    ensures spec.JStr? && fromIdx == [] && !IsPlaceholderStr(Strip(spec.s)) ==> r == []
    ensures spec.JStr? && IsPlaceholderStr(Strip(spec.s)) ==> r == [PlaceholderLiteral(ctx, literal, spec.s)]
    ensures !spec.JStr? ==> r == [UnsupportedLiteralValue(ctx, literal, spec)]
  {
    if spec.JStr? then
      var clean := Strip(spec.s);
      if IsPlaceholderStr(clean) then [PlaceholderLiteral(ctx, literal, spec.s)]
      else if IsDefaultSentinel(clean) then []
      else if fromIdx != [] && LowerStr(clean) !in Keys(fromIdx) then [UnknownSourceLiteral(ctx, literal, spec.s)]
      else []
    else [UnsupportedLiteralValue(ctx, literal, spec)]
  }

  /** One `fields` item of an enumeration mapping: its key must be one of
      the destination index's literals. */
  function LiteralItem(ctx: string, toType: string, destIdx: Dict<string, string>, fromIdx: Dict<string, string>,
                       item: (string, Json)): seq<string>
  {
    if item.0 !in Values(destIdx) then [UnknownDestLiteral(ctx, item.0, toType)]
    else LiteralValueErrors(ctx, item.0, fromIdx, item.1)
  }

  function LiteralFn(ctx: string, toType: string, destIdx: Dict<string, string>, fromIdx: Dict<string, string>)
    : ((string, Json)) -> seq<string>
  {
    item => LiteralItem(ctx, toType, destIdx, fromIdx, item)
  }

  /** The errors of an enumeration mapping entry whose destination type
      `toType` declares `destLits`. */
  function EnumEntryErrors(p: Schema.Provider, ctx: string, toType: string, destLits: seq<string>,
                           fromRaw: Option<Json>, fieldsRaw: Option<Json>): seq<string>
  {
    var src := EnumSourceOf(p, ctx, fromRaw);
    if !(fieldsRaw.Some? && fieldsRaw.value.JObj?) then src.errors + [EnumFieldsNotObject(ctx)]
    else
      var items := fieldsRaw.value.members;
      var missing := MissingLiteralNames(destLits, Keys(items));
      src.errors +
      (if missing != [] then [MissingLiterals(ctx, missing, toType)] else []) +
      ConcatMap(LiteralFn(ctx, toType, CaseIndex(destLits), CaseIndex(src.literals)), items, |items|)
  }

  /** A key names a destination literal exactly when it is one of the
      declared literals and the last of those with its lower-case form (the
      index keeps only that one), whatever the value mapped to it. */
  lemma LiteralItemDest(ctx: string, toType: string, destLits: seq<string>, fromIdx: Dict<string, string>,
                        literal: string, spec: Json)
    ensures LiteralItem(ctx, toType, CaseIndex(destLits), fromIdx, (literal, spec)) ==
            if literal in destLits && LastLower(destLits, LowerStr(literal)) == Some(literal)
            then LiteralValueErrors(ctx, literal, fromIdx, spec)
            else [UnknownDestLiteral(ctx, literal, toType)]
  {
    CaseIndexValues(destLits, literal);
  }

  /** When the source enumeration has literals, a plain string value is
      reported exactly when no source literal equals it ignoring case. */
  lemma LiteralValueSource(ctx: string, literal: string, fromLits: seq<string>, raw: string)
    requires fromLits != []
    requires !IsPlaceholderStr(Strip(raw)) && !IsDefaultSentinel(Strip(raw))
    ensures LiteralValueErrors(ctx, literal, CaseIndex(fromLits), JStr(raw)) ==
            if forall i :: 0 <= i < |fromLits| ==> !EqualsIgnoreCase(fromLits[i], Strip(raw))
            then [UnknownSourceLiteral(ctx, literal, raw)] else []
  {
    CaseIndexKeys(fromLits, LowerStr(Strip(raw)));
    FromPairsFrom(LowerPairs(fromLits));
  }

  /** The source side of an enumeration mapping, through the cache. */
  method CheckEnumSource(p: Schema.Provider, ctx: string, fromRaw: Option<Json>, cache: EnumCache)
    returns (src: EnumSource, cache': EnumCache)
    requires CacheValid(p, cache)
    ensures CacheValid(p, cache')
    ensures src == EnumSourceOf(p, ctx, fromRaw)
  {
    cache' := cache;
    if !(IsStr(fromRaw) && Strip(fromRaw.value.s) != []) {
      return EnumSource([MissingEnumFrom(ctx)], []), cache';
    }
    var raw := fromRaw.value.s;
    if IsDefaultSentinel(raw) {
      return EnumSource([], []), cache';
    }
    var placeholder := if IsPlaceholderStr(raw) then [PlaceholderFrom(ctx, raw)] else [];
    var lits;
    lits, cache' := EnumLiteralsCached(p, Schema.From, Strip(raw), cache');
    var unknown := if lits == [] then [UnknownSourceEnum(ctx, Strip(raw))] else [];
    src := EnumSource(placeholder + unknown, lits);
  }

  /** The messages of one literal item: an unknown destination literal, a
      placeholder, an unknown source literal or a non-string value. */
  method CheckLiteral(ctx: string, toType: string, destIdx: Dict<string, string>, fromIdx: Dict<string, string>,
                      item: (string, Json))
    returns (found: seq<string>)
    ensures found == LiteralItem(ctx, toType, destIdx, fromIdx, item)
  {
    var (lit, spec) := item;
    if lit !in Values(destIdx) {
      found := [UnknownDestLiteral(ctx, lit, toType)];
    } else if spec.JStr? {
      var clean := Strip(spec.s);
      if IsPlaceholderStr(clean) {
        found := [PlaceholderLiteral(ctx, lit, spec.s)];
      } else if IsDefaultSentinel(clean) {
        found := [];
      } else if fromIdx != [] && LowerStr(clean) !in Keys(fromIdx) {
        found := [UnknownSourceLiteral(ctx, lit, spec.s)];
      } else {
        found := [];
      }
    } else {
      found := [UnsupportedLiteralValue(ctx, lit, spec)];
    }
  }

  /** The loop over the literal items. */
  method CheckLiterals(ctx: string, toType: string, destIdx: Dict<string, string>, fromIdx: Dict<string, string>,
                       items: Dict<string, Json>, errors: seq<string>)
    returns (errors': seq<string>)
    ensures errors' == errors + ConcatMap(LiteralFn(ctx, toType, destIdx, fromIdx), items, |items|)
  {
    ghost var step := LiteralFn(ctx, toType, destIdx, fromIdx);
    errors' := errors;
    var i := 0;
    while i < |items|
      invariant i <= |items|
      invariant errors' == errors + ConcatMap(step, items, i)
    {
      var found := CheckLiteral(ctx, toType, destIdx, fromIdx, items[i]);
      assert found == step(items[i]);
      ConcatMapStep(step, items, i, errors, found);
      errors' := errors' + found;
      i := i + 1;
    }
  }

  /** `_validate_enum_entry`. */
  method ValidateEnumEntry(p: Schema.Provider, ctx: string, toType: string, fromRaw: Option<Json>,
                           fieldsRaw: Option<Json>, destLits: seq<string>, cache: EnumCache)
    returns (errors: seq<string>, cache': EnumCache)
    requires CacheValid(p, cache)
    ensures CacheValid(p, cache')
    ensures errors == EnumEntryErrors(p, ctx, toType, destLits, fromRaw, fieldsRaw)
  {
    var src;
    src, cache' := CheckEnumSource(p, ctx, fromRaw, cache);
    errors := src.errors;
    if !(fieldsRaw.Some? && fieldsRaw.value.JObj?) {
      errors := errors + [EnumFieldsNotObject(ctx)];
      return;
    }
    var items := fieldsRaw.value.members;
    var missing := MissingLiteralNames(destLits, Keys(items));
    var flagged: seq<string> := if missing != [] then [MissingLiterals(ctx, missing, toType)] else [];
    errors := errors + flagged;
    errors := CheckLiterals(ctx, toType, CaseIndex(destLits), CaseIndex(src.literals), items, errors);
    Append3(src.errors, flagged, ConcatMap(LiteralFn(ctx, toType, CaseIndex(destLits), CaseIndex(src.literals)), items, |items|));
  }

  // ---------------------------------------------------------------------
  // `_validate_mapping_entry` and `validate_mappings`

  /** The errors of one mapping entry: its destination type must be given,
      and be a record or an enumeration of the destination domain; a
      record wins over an enumeration of the same name. */
  function EntryErrors(p: Schema.Provider, entry: Entry): seq<string>
  {
    var ctx := Ctx(entry);
    var toRaw := Get(entry, "to");
    if !(IsStr(toRaw) && Strip(toRaw.value.s) != []) then [MissingTo(ctx)]
    else
      var toType := Strip(toRaw.value.s);
      var destFields := Schema.OrEmpty(Schema.FieldsOf(p, Schema.To, toType));
      var destLits := EnumLits(p, Schema.To, toType);
      if destFields == [] then
        if destLits != [] then EnumEntryErrors(p, ctx, toType, destLits, Get(entry, "from"), Get(entry, "fields"))
        else [UnknownDestination(ctx, toType)]
      else RecordEntryErrors(p, ctx, toType, destFields, Get(entry, "from"), Get(entry, "fields"))
  }

  /** An entry without a destination type, or whose destination type is
      neither a record with fields nor an enumeration with literals, gets
      exactly one message. */
  lemma EntryRejected(p: Schema.Provider, entry: Entry)
    ensures !(IsStr(Get(entry, "to")) && Strip(Get(entry, "to").value.s) != []) ==>
              EntryErrors(p, entry) == [MissingTo(Ctx(entry))]
    ensures IsStr(Get(entry, "to")) && Strip(Get(entry, "to").value.s) != [] ==>
              var toType := Strip(Get(entry, "to").value.s);
              (toType !in p.to.records || p.to.records[toType] == []) &&
              (toType !in p.to.enums || p.to.enums[toType] == []) ==>
                EntryErrors(p, entry) == [UnknownDestination(Ctx(entry), toType)]
  {
    if IsStr(Get(entry, "to")) && Strip(Get(entry, "to").value.s) != [] {
      StripIdempotent(Get(entry, "to").value.s);
    }
  }

  /** An entry whose destination type is a record with fields is checked as
      a record mapping, even when an enumeration has the same name. */
  lemma EntryRecord(p: Schema.Provider, entry: Entry)
    ensures IsStr(Get(entry, "to")) && Strip(Get(entry, "to").value.s) != [] ==>
              var toType := Strip(Get(entry, "to").value.s);
              toType in p.to.records && p.to.records[toType] != [] ==>
                EntryErrors(p, entry) ==
                RecordEntryErrors(p, Ctx(entry), toType, p.to.records[toType], Get(entry, "from"), Get(entry, "fields"))
  {
    if IsStr(Get(entry, "to")) && Strip(Get(entry, "to").value.s) != [] {
      StripIdempotent(Get(entry, "to").value.s);
    }
  }

  /** An entry whose destination type is no record with fields but an
      enumeration with literals is checked as an enumeration mapping. */
  lemma EntryEnum(p: Schema.Provider, entry: Entry)
    ensures IsStr(Get(entry, "to")) && Strip(Get(entry, "to").value.s) != [] ==>
              var toType := Strip(Get(entry, "to").value.s);
              (toType !in p.to.records || p.to.records[toType] == []) && toType in p.to.enums && p.to.enums[toType] != [] ==>
                EntryErrors(p, entry) ==
                EnumEntryErrors(p, Ctx(entry), toType, p.to.enums[toType], Get(entry, "from"), Get(entry, "fields"))
  {
    if IsStr(Get(entry, "to")) && Strip(Get(entry, "to").value.s) != [] {
      StripIdempotent(Get(entry, "to").value.s);
    }
  }

  /** `_validate_mapping_entry`, with a fresh enumeration cache. */
  method ValidateMappingEntry(entry: Entry, mg: Generator.MapperGenerator) returns (errors: seq<string>)
    requires mg.Valid()
    modifies mg`parsedTo, mg`parsedFrom
    ensures mg.Valid()
    ensures errors == EntryErrors(mg.provider, entry)
  {
    var cache: EnumCache := map[Schema.To := map[], Schema.From := map[]];
    var ctx := Ctx(entry);
    var toRaw := Get(entry, "to");
    if !(IsStr(toRaw) && Strip(toRaw.value.s) != []) {
      return [MissingTo(ctx)];
    }
    var toType := Strip(toRaw.value.s);
    var df := mg.GetToFields(toType);
    var destFields := Schema.OrEmpty(df);
    var destLits;
    destLits, cache := EnumLiteralsCached(mg.provider, Schema.To, toType, cache);
    if destFields == [] {
      if destLits != [] {
        errors, cache := ValidateEnumEntry(mg.provider, ctx, toType, Get(entry, "from"), Get(entry, "fields"), destLits, cache);
      } else {
        errors := [UnknownDestination(ctx, toType)];
      }
      return;
    }
    errors := CheckRecordEntry(mg, ctx, toType, destFields, Get(entry, "from"), Get(entry, "fields"), cache);
  }

  /** The `(from, to)` pair an entry contributes to `mapping_pairs`: both
      sides strings and the source no placeholder, each stripped. */
  function PairOf(entry: Entry): Option<Generator.Pair> {
    var src := Get(entry, "from");
    var dst := Get(entry, "to");
    if IsStr(src) && IsStr(dst) && !IsPlaceholderStr(src.value.s) then Some((Strip(src.value.s), Strip(dst.value.s)))
    else None
  }

  /** The values `f` gives for the first `n` items of `xs`, as a set. */
  function CollectSet<T, U>(f: T -> Option<U>, xs: seq<T>, n: nat): set<U>
    requires n <= |xs|
  {
    if n == 0 then {}
    else
      var y := f(xs[n - 1]);
      CollectSet(f, xs, n - 1) + if y.Some? then {y.value} else {}
  }

  lemma {:induction false} CollectSetMembers<T, U>(f: T -> Option<U>, xs: seq<T>, n: nat, x: U)
    requires n <= |xs|
    ensures x in CollectSet(f, xs, n) <==> exists i :: 0 <= i < n && f(xs[i]) == Some(x)
    decreases n
  {
    if n > 0 {
      CollectSetMembers(f, xs, n - 1, x);
    }
  }

  function PairFn(): Entry -> Option<Generator.Pair> {
    entry => PairOf(entry)
  }

  /** `mapping_pairs`: the pairs of all entries. */
  function MappingPairs(mappings: seq<Entry>): set<Generator.Pair> {
    CollectSet(PairFn(), mappings, |mappings|)
  }

  /** A pair is collected exactly when some entry contributes it. */
  lemma MappingPairsMembers(mappings: seq<Entry>, x: Generator.Pair)
    ensures x in MappingPairs(mappings) <==> exists i :: 0 <= i < |mappings| && PairOf(mappings[i]) == Some(x)
  {
    CollectSetMembers(PairFn(), mappings, |mappings|, x);
  }

  ghost predicate PairStepIs(step: Entry -> Option<Generator.Pair>) {
    forall entry {:trigger PairOf(entry)} :: step(entry) == PairOf(entry)
  }

  lemma PairFnIs()
    ensures PairStepIs(PairFn())
  {
  }

  method EntryPair(entry: Entry, ghost step: Entry -> Option<Generator.Pair>) returns (pair: Option<Generator.Pair>)
    requires PairStepIs(step)
    ensures pair == step(entry)
  {
    pair := PairOf(entry);
  }

  /** The first loop of `validate_mappings`. */
  method CollectPairs(mappings: seq<Entry>, ghost step: Entry -> Option<Generator.Pair>) returns (pairs: set<Generator.Pair>)
    requires PairStepIs(step)
    ensures pairs == CollectSet(step, mappings, |mappings|)
  {
    pairs := {};
    var i := 0;
    while i < |mappings|
      invariant i <= |mappings|
      invariant pairs == CollectSet(step, mappings, i)
    {
      var pair := EntryPair(mappings[i], step);
      if pair.Some? {
        pairs := pairs + {pair.value};
      }
      i := i + 1;
    }
  }

  function EntryFn(p: Schema.Provider): Entry -> seq<string> {
    entry => EntryErrors(p, entry)
  }

  /** The errors of a mapping file: each entry's, in file order. */
  function MappingErrors(p: Schema.Provider, mappings: seq<Entry>): seq<string> {
    ConcatMap(EntryFn(p), mappings, |mappings|)
  }

  /** Entries are checked independently: the errors of two files joined are
      those of the first followed by those of the second. */
  lemma MappingErrorsAppend(p: Schema.Provider, a: seq<Entry>, b: seq<Entry>)
    ensures MappingErrors(p, a + b) == MappingErrors(p, a) + MappingErrors(p, b)
  {
    ConcatMapAppend(EntryFn(p), a, b);
  }

  /** A mapping file passes exactly when every entry passes. */
  lemma MappingErrorsEmpty(p: Schema.Provider, mappings: seq<Entry>)
    ensures MappingErrors(p, mappings) == [] <==> forall i :: 0 <= i < |mappings| ==> EntryErrors(p, mappings[i]) == []
  {
    ConcatMapEmpty(EntryFn(p), mappings, |mappings|);
  }

  lemma {:induction false} ConcatMapEmpty<T, U>(f: T -> seq<U>, xs: seq<T>, n: nat)
    requires n <= |xs|
    ensures ConcatMap(f, xs, n) == [] <==> forall i :: 0 <= i < n ==> f(xs[i]) == []
    decreases n
  {
    if n > 0 {
      ConcatMapEmpty(f, xs, n - 1);
      var a, b := ConcatMap(f, xs, n - 1), f(xs[n - 1]);
      assert |a + b| == |a| + |b|;
    }
  }

  ghost predicate EntryStepIs(step: Entry -> seq<string>, p: Schema.Provider) {
    forall entry {:trigger EntryErrors(p, entry)} :: step(entry) == EntryErrors(p, entry)
  }

  lemma EntryFnIs(p: Schema.Provider)
    ensures EntryStepIs(EntryFn(p), p)
  {
  }

  method ValidateEntryStep(entry: Entry, mg: Generator.MapperGenerator, ghost step: Entry -> seq<string>)
    returns (errors: seq<string>)
    requires mg.Valid() && EntryStepIs(step, mg.provider)
    modifies mg`parsedTo, mg`parsedFrom
    ensures mg.Valid()
    ensures errors == step(entry)
  {
    errors := ValidateMappingEntry(entry, mg);
  }

  /** The second loop of `validate_mappings`. */
  method CheckEntries(mg: Generator.MapperGenerator, mappings: seq<Entry>, ghost step: Entry -> seq<string>)
    returns (errors: seq<string>)
    requires mg.Valid() && EntryStepIs(step, mg.provider)
    modifies mg`parsedTo, mg`parsedFrom
    ensures mg.Valid()
    ensures errors == ConcatMap(step, mappings, |mappings|)
  {
    errors := [];
    var i := 0;
    while i < |mappings|
      invariant i <= |mappings| && mg.Valid()
      invariant errors == ConcatMap(step, mappings, i)
    {
      var found := ValidateEntryStep(mappings[i], mg, step);
      errors := errors + found;
      i := i + 1;
    }
  }

  /** `validate_mappings`: every entry's errors, in file order, checked
      against one generator whose `mapping_pairs` are the file's pairs. */
  method ValidateMappings(p: Schema.Provider, mappings: seq<Entry>) returns (errors: seq<string>)
    ensures errors == MappingErrors(p, mappings)
  {
    PairFnIs();
    var pairs := CollectPairs(mappings, PairFn());
    var mg := new Generator.MapperGenerator(p, pairs);
    EntryFnIs(p);
    errors := CheckEntries(mg, mappings, EntryFn(p));
  }
}
