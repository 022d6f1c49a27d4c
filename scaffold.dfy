// The scaffolder: it writes a first mapping for a destination type and for
// every record, array-element and enumeration type reached from its fields,
// filling each value it cannot derive with a placeholder `<...>`, and merges
// such suggestions into an existing mapping list.

module Scaffold {
  import opened Wrappers
  import opened Text
  import opened Assoc
  import opened Lookup
  import opened Json
  import Constants
  import Schema
  import Generator
  import Validation

  // ---------------------------------------------------------------------
  // Names and placeholders

  /** `_default_name`: a leading `T_`, in either case, is dropped from a
      name longer than two characters. */
  function DefaultName(t: string): (r: string)
    ensures |t| > 2 && (t[0] == 'T' || t[0] == 't') && t[1] == '_' ==> r == t[2..]
    ensures !(|t| > 2 && (t[0] == 'T' || t[0] == 't') && t[1] == '_') ==> r == t
  {
    var u := UpperStr(t);
    assert |t| >= 2 ==> (StartsWith(u, "T_") <==> u[0] == 'T' && u[1] == '_');
    if StartsWith(u, "T_") && |t| > 2 then t[2..] else t
  }

  /** Every maximal run of characters outside `[A-Za-z0-9]` becomes a
      single `_`. */
  function CollapseRuns(s: string): (r: string)
    ensures forall i :: 0 <= i < |r| ==> IsAlnum(r[i]) || r[i] == '_'
    ensures forall i :: 0 <= i < |r| && IsAlnum(r[i]) ==> r[i] in s
    ensures forall i :: 0 <= i < |r| - 1 ==> !(r[i] == '_' && r[i + 1] == '_')
    ensures r == [] <==> s == []
    ensures s != [] ==> (r[|r| - 1] == '_' <==> !IsAlnum(s[|s| - 1]))
    decreases |s|
  {
    if s == [] then []
    else
      var init := s[..|s| - 1];
      var c := s[|s| - 1];
      var r := CollapseRuns(init);
      if IsAlnum(c) then r + [c]
      else if init != [] && !IsAlnum(init[|init| - 1]) then r
      else r + ['_']
  }

  /** How many copies of `c` start `s`. */
  function Lead(s: string, c: char): (n: nat)
    ensures n <= |s| && (n == |s| || s[n] != c)
    ensures forall j :: 0 <= j < n ==> s[j] == c
    decreases |s|
  {
    if s != [] && s[0] == c then 1 + Lead(s[1..], c) else 0
  }

  /** How many copies of `c` end `s`. */
  function Trail(s: string, c: char): (n: nat)
    ensures n <= |s| && (n == |s| || s[|s| - 1 - n] != c)
    ensures forall j :: |s| - n <= j < |s| ==> s[j] == c
    decreases |s|
  {
    if s != [] && s[|s| - 1] == c then 1 + Trail(s[..|s| - 1], c) else 0
  }

  /** `s.strip(c)`: `s` without the copies of `c` at either end. */
  function StripChar(s: string, c: char): (r: string)
    ensures r == [] || (r[0] != c && r[|r| - 1] != c)
    ensures (forall j :: 0 <= j < |s| ==> s[j] == c) <==> r == []
    ensures r == [] || (Lead(s, c) < |s| - Trail(s, c) && r == s[Lead(s, c)..|s| - Trail(s, c)])
  {
    var a := Lead(s, c);
    if a == |s| then []
    else
      var t := Trail(s, c);
      assert t <= |s| - 1 - a;
      s[a..|s| - t]
  }

  /** The token of a placeholder: the upper-cased name with every run of
      other characters turned into one `_`, without `_` at either end. */
  function Token(name: string): (r: string)
    ensures r == [] || (r[0] != '_' && r[|r| - 1] != '_')
  {
    StripChar(CollapseRuns(UpperStr(name)), '_')
  }

  /** Upper-case letters, digits and underscores, never two underscores
      in a row. */
  predicate TokenText(t: string) {
    (forall i :: 0 <= i < |t| ==> ('A' <= t[i] <= 'Z') || IsDigit(t[i]) || t[i] == '_') &&
    (forall i :: 0 <= i < |t| - 1 ==> !(t[i] == '_' && t[i + 1] == '_'))
  }

  lemma CollapsedUpper(name: string)
    ensures TokenText(CollapseRuns(UpperStr(name)))
  {
    var u := UpperStr(name);
    var c := CollapseRuns(u);
    forall i | 0 <= i < |c| ensures ('A' <= c[i] <= 'Z') || IsDigit(c[i]) || c[i] == '_' {
      if IsAlnum(c[i]) {
        assert c[i] in u;
      }
    }
  }

  lemma TokenTextSlice(t: string, a: nat, b: nat)
    requires TokenText(t) && a <= b <= |t|
    ensures TokenText(t[a..b])
  {
    var s := t[a..b];
    assert forall i :: 0 <= i < |s| ==> s[i] == t[a + i];
  }

  /** A token is made of upper-case letters, digits and single
      underscores (and, by its contract, has no underscore at either end). */
  lemma TokenShape(name: string)
    ensures TokenText(Token(name))
  {
    var c := CollapseRuns(UpperStr(name));
    CollapsedUpper(name);
    var r := StripChar(c, '_');
    assert Token(name) == r;
    if r != [] {
      var a, b := Lead(c, '_'), |c| - Trail(c, '_');
      assert a < b && r == c[a..b];
      TokenTextSlice(c, a, b);
    }
  }

  /** The placeholder token, or `default` when the name has none. */
  function TokenOr(name: string, default: string): string {
    var t := Token(name);
    if t == [] then default else t
  }

  /** `<inner>`: a placeholder whatever `inner` is. */
  function Angled(inner: string): (r: string)
    ensures Validation.IsPlaceholderStr(r)
    ensures |r| == |inner| + 2 && r[1..|r| - 1] == inner
  {
    var r := "<" + inner + ">";
    assert r[..1] == "<" && r[|r| - 1..] == ">";
    r
  }

  /** `_field_placeholder`. */
  function FieldPlaceholder(name: string): (r: string)
    ensures Validation.IsPlaceholderStr(r)
    ensures r == Angled(TokenOr(name, "FIELD") + "_INPUT_FIELD")
    ensures Token(name) == [] ==> r == "<FIELD_INPUT_FIELD>"
  {
    Angled(TokenOr(name, "FIELD") + "_INPUT_FIELD")
  }

  /** `_from_placeholder`. */
  function FromPlaceholder(t: string): (r: string)
    ensures Validation.IsPlaceholderStr(r)
    ensures r == Angled("SOURCE_TYPE_FOR_" + TokenOr(t, "TYPE"))
    ensures Token(t) == [] ==> r == "<SOURCE_TYPE_FOR_TYPE>"
  {
    Angled("SOURCE_TYPE_FOR_" + TokenOr(t, "TYPE"))
  }

  /** The prefixes `_canonical_name` removes, in the order the pattern tries
      them. */
  const CanonicalPrefixes: seq<string> := ["t_", "e_", "p_", "fr_", "fs_", "gs_", "l_", "r_", "m_", "n_"]

  /** The anchored alternation of the prefixes, replaced by nothing: the first
      of `prefixes` that starts `s` is removed. */
  function DropPrefix(s: string, prefixes: seq<string>): (r: string)
    ensures |r| <= |s| && r == s[|s| - |r|..]
    ensures forall k :: (0 <= k < |prefixes| && StartsWith(s, prefixes[k]) &&
                         forall j :: 0 <= j < k ==> !StartsWith(s, prefixes[j])) ==> r == s[|prefixes[k]|..]
    ensures (forall k :: 0 <= k < |prefixes| ==> !StartsWith(s, prefixes[k])) ==> r == s
    decreases |prefixes|
  {
    if prefixes == [] then s
    else if StartsWith(s, prefixes[0]) then s[|prefixes[0]|..]
    else
      var r := DropPrefix(s, prefixes[1..]);
      assert forall k :: 0 <= k < |prefixes| - 1 ==> prefixes[1..][k] == prefixes[k + 1];
      r
  }

  /** `_canonical_name`: the last dotted segment, lower-cased, without one
      of the usual Ada type prefixes. */
  function CanonicalName(value: Option<string>): (r: string)
    ensures value.None? || value.value == [] ==> r == []
    ensures '.' !in r
    ensures forall i :: 0 <= i < |r| ==> !('A' <= r[i] <= 'Z')
  {
    if value.None? || value.value == [] then []
    else
      var parts := SplitOn(value.value, '.');
      var base := LowerStr(parts[|parts| - 1]);
      var r := DropPrefix(base, CanonicalPrefixes);
      LowerSuffix(parts[|parts| - 1], r);
      r
  }

  /** A suffix of a lower-cased segment holds neither a dot nor a capital. */
  lemma LowerSuffix(part: string, r: string)
    requires '.' !in part && |r| <= |part| && r == LowerStr(part)[|part| - |r|..]
    ensures '.' !in r && forall i :: 0 <= i < |r| ==> !('A' <= r[i] <= 'Z')
  {
    forall i | 0 <= i < |r|
      ensures r[i] != '.' && !('A' <= r[i] <= 'Z')
    {
      var c := part[|part| - |r| + i];
      assert r[i] == Lower(c);
      assert c in part;
    }
  }

  // ---------------------------------------------------------------------
  // Questions put to the provider

  /** `_has_supported_type`: a non-empty name that is a record, an array
      with an element type, or an enumeration with literals. */
  predicate HasSupportedType(p: Schema.Provider, d: Schema.Domain, name: string) {
    name != [] &&
    (Schema.RecordFields(p, d, name).Some? ||
     (Schema.ArrayElement(p, d, name).Some? && Schema.ArrayElement(p, d, name).value != []) ||
     Schema.Present(Schema.EnumLiterals(p, d, name)))
  }

  /** A supported name is declared in its domain. */
  lemma SupportedDeclared(p: Schema.Provider, d: Schema.Domain, name: string)
    ensures HasSupportedType(p, d, name) ==>
              var s := Schema.SideOf(p, d);
              name in s.records || name in s.elements || name in s.enums
  {
  }

  // ---------------------------------------------------------------------
  // `_entry_all_placeholders`

  /** A value that already says where a field comes from: a dictionary, or
      a non-empty string that is neither a placeholder nor the sentinel. */
  predicate Substantive(v: Json) {
    v.JObj? ||
    (v.JStr? && Strip(v.s) != [] && !Validation.IsPlaceholderStr(Strip(v.s)) &&
     UpperStr(Strip(v.s)) != Constants.DefaultSentinel)
  }

  /** An entry still entirely made of placeholders: its source is no
      string, a placeholder or the sentinel, and no field value is
      substantive (when `fields` is no dictionary at all, it counts as one
      of placeholders). */
  predicate AllPlaceholders(entry: Validation.Entry) {
    var from := Get(entry, "from");
    !(IsStr(from) && !(Validation.IsPlaceholderStr(from.value.s) ||
                        UpperStr(Strip(from.value.s)) == Constants.DefaultSentinel)) &&
    (IsObject(Get(entry, "fields")) ==>
       forall i :: 0 <= i < |Get(entry, "fields").value.members| ==> !Substantive(Get(entry, "fields").value.members[i].1))
  }

  predicate IsObject(x: Option<Json>) { x.Some? && x.value.JObj? }

  /** `_entry_all_placeholders`. */
  method EntryAllPlaceholders(entry: Validation.Entry) returns (r: bool)
    ensures r == AllPlaceholders(entry)
  {
    var from := Get(entry, "from");
    if IsStr(from) && !(Validation.IsPlaceholderStr(from.value.s) ||
                         UpperStr(Strip(from.value.s)) == Constants.DefaultSentinel) {
      return false;
    }
    var fields := Get(entry, "fields");
    if !IsObject(fields) {
      return true;
    }
    r := NoneSubstantive(fields.value.members);
  }

  /** The loop over the field values of `_entry_all_placeholders`, which
      stops at the first substantive one. */
  method NoneSubstantive(values: Dict<string, Json>) returns (r: bool)
    ensures r <==> forall i :: 0 <= i < |values| ==> !Substantive(values[i].1)
  {
    var i := 0;
    while i < |values|
      invariant i <= |values|
      invariant forall j :: 0 <= j < i ==> !Substantive(values[j].1)
    {
      var v := values[i].1;
      if v.JStr? {
        var cleaned := Strip(v.s);
        if cleaned != [] && !Validation.IsPlaceholderStr(cleaned) && UpperStr(cleaned) != Constants.DefaultSentinel {
          return false;
        }
      } else if v.JObj? {
        return false;
      }
      i := i + 1;
    }
    return true;
  }

  // ---------------------------------------------------------------------
  // `_resolve_path_type`

  /** The declared type of the field `seg` of a record's fields: the field
      of that exact name, else the first equal to it ignoring case. */
  function FieldMark(fields: Schema.Fields, seg: string): (r: Option<string>)
    ensures r.None? <==> forall i :: 0 <= i < |fields| ==> !EqualsIgnoreCase(fields[i].0, seg)
    ensures seg in Keys(fields) ==> r == Get(fields, seg)
  {
    match ExactOrFirstLower(fields, seg)
    case None => None
    case Some(k) => Get(fields, k)
  }

  /** Following the segments from the source type `t`: each step needs a
      record with fields and a field of that name. */
  function Walk(p: Schema.Provider, t: string, segs: seq<string>): (r: Option<string>)
    ensures segs != [] && !Schema.Present(Schema.RecordFields(p, Schema.From, t)) ==> r == None
    ensures (segs != [] && Schema.Present(Schema.RecordFields(p, Schema.From, t)) &&
             FieldMark(Schema.RecordFields(p, Schema.From, t).value, segs[0]).None?) ==> r == None
    decreases |segs|
  {
    if segs == [] then Some(t)
    else
      var fields := Schema.RecordFields(p, Schema.From, t);
      if !Schema.Present(fields) then None
      else
        match FieldMark(fields.value, segs[0])
        case None => None
        case Some(mark) => Walk(p, Strip(mark), segs[1..])
  }

  /** `_resolve_path_type`, as specified: nothing for an empty root or
      path, else the walk along the dotted segments. */
  function PathType(p: Schema.Provider, root: Option<string>, path: string): (r: Option<string>)
    ensures root.None? || root.value == [] || path == [] ==> r == None
  {
    if root.None? || root.value == [] || path == [] then None
    else Walk(p, root.value, SplitOn(path, '.'))
  }

  /** The walk agrees with the generator's `resolve_src_path_type` when no
      source type and no source field has an empty name: the two differ
      only in that the generator refuses empty names. */
  lemma {:induction false} WalkAgrees(p: Schema.Provider, t: string, segs: seq<string>)
    requires "" !in p.from.records
    requires forall n :: n in p.from.records ==> "" !in Keys(p.from.records[n])
    ensures Walk(p, t, segs) == Generator.PathType(p, t, segs)
    decreases |segs|
  {
    if segs != [] {
      var fields := Schema.RecordFields(p, Schema.From, t);
      if Schema.Present(fields) {
        match ExactOrFirstLower(fields.value, segs[0])
        case None =>
        case Some(k) =>
          assert k != [];
          WalkAgrees(p, Strip(Get(fields.value, k).value), segs[1..]);
      }
    }
  }

  /** `_resolve_path_type`: the loop over `path.split('.')`. */
  method ResolvePathType(p: Schema.Provider, root: Option<string>, path: string) returns (r: Option<string>)
    ensures r == PathType(p, root, path)
  {
    if root.None? || root.value == [] || path == [] {
      return None;
    }
    var segs := SplitOn(path, '.');
    var current := root.value;
    var i := 0;
    while i < |segs|
      invariant i <= |segs|
      invariant Walk(p, root.value, segs) == Walk(p, current, segs[i..])
    {
      assert segs[i..][1..] == segs[i + 1..];
      var fields := Schema.RecordFields(p, Schema.From, current);
      if !Schema.Present(fields) {
        return None;
      }
      var mark := FieldMark(fields.value, segs[i]);
      if mark.None? {
        return None;
      }
      current := Strip(mark.value);
      i := i + 1;
    }
    assert segs[i..] == [];
    return Some(current);
  }

  // ---------------------------------------------------------------------
  // `_find_array_source_path`

  /** The canonical names the search compares against: of the destination
      field, of the destination array type and of its element type. */
  datatype Canon = Canon(field: string, arrayType: string, elem: string)

  /** A source array field found by the search: its dotted path, its
      stripped type and how well it matches. */
  datatype Candidate = Candidate(path: string, mark: string, score: nat)

  /** The state of the depth-first search after some fields: the best
      candidate so far and the set of record types already entered, with
      (for the proofs) the types entered and the candidates met, in order. */
  datatype Visit = Visit(best: Option<Candidate>, visited: set<string>,
                         entered: seq<string>, candidates: seq<Candidate>)

  /** How well a source array field matches: 3 for the same field name, 2
      for the same array type, 1 for the same element type, 0 otherwise. */
  function Score(canon: Canon, field: string, mark: string, elem: string): (r: nat)
    ensures r <= 3
    ensures r == 3 <==> CanonicalName(Some(field)) == canon.field
  {
    if CanonicalName(Some(field)) == canon.field then 3
    else if CanonicalName(Some(mark)) == canon.arrayType then 2
    else if canon.elem != [] && CanonicalName(Some(elem)) == canon.elem then 1
    else 0
  }

  /** A candidate replaces the best so far when there is none yet or its score
      is strictly higher; ties keep the earlier one. */
  function Improve(best: Option<Candidate>, c: Candidate): (r: Option<Candidate>)
    ensures r.Some?
  {
    if best.None? || c.score > best.value.score then Some(c) else best
  }

  /** A child search's result, when there is one, competes with the best so
      far under the same rule. */
  function Combine(best: Option<Candidate>, child: Option<Candidate>): Option<Candidate> {
    if child.Some? then Improve(best, child.value) else best
  }

  /** The best of `cs` met in order after `best`: a later candidate
      replaces the current one only with a strictly higher score. */
  function FoldBest(best: Option<Candidate>, cs: seq<Candidate>): Option<Candidate>
    decreases |cs|
  {
    if cs == [] then best else Improve(FoldBest(best, cs[..|cs| - 1]), cs[|cs| - 1])
  }

  lemma {:induction false} FoldBestAppend(b: Option<Candidate>, cs: seq<Candidate>, ds: seq<Candidate>)
    ensures FoldBest(b, cs + ds) == FoldBest(FoldBest(b, cs), ds)
    decreases |ds|
  {
    if ds == [] {
      assert cs + ds == cs;
    } else {
      assert (cs + ds)[..|cs + ds| - 1] == cs + ds[..|ds| - 1];
      FoldBestAppend(b, cs, ds[..|ds| - 1]);
    }
  }

  lemma {:induction false} FoldBestCombine(b: Option<Candidate>, m: Option<Candidate>, cs: seq<Candidate>)
    ensures FoldBest(Combine(b, m), cs) == Combine(b, FoldBest(m, cs))
    decreases |cs|
  {
    if cs != [] {
      FoldBestCombine(b, m, cs[..|cs| - 1]);
    }
  }

  /** Continuing after the best of a nested search is continuing after its
      candidates: `Combine(b, FoldBest(None, cs)) == FoldBest(b, cs)`. */
  lemma FoldBestNested(b: Option<Candidate>, cs: seq<Candidate>)
    ensures Combine(b, FoldBest(None, cs)) == FoldBest(b, cs)
  {
    FoldBestCombine(b, None, cs);
  }

  /** `cs[k]` has the highest score of `cs`, and is the first to have it. */
  predicate FirstMaxAt(cs: seq<Candidate>, k: int) {
    0 <= k < |cs| &&
    (forall j :: 0 <= j < |cs| ==> cs[j].score <= cs[k].score) &&
    (forall j :: 0 <= j < k ==> cs[j].score < cs[k].score)
  }

  lemma FirstMaxSnoc(cs: seq<Candidate>, c: Candidate, k: int)
    requires FirstMaxAt(cs, k)
    ensures c.score > cs[k].score ==> FirstMaxAt(cs + [c], |cs|)
    ensures c.score <= cs[k].score ==> FirstMaxAt(cs + [c], k)
  {
    var ds := cs + [c];
    assert forall j :: 0 <= j < |cs| ==> ds[j] == cs[j];
  }

  /** The search keeps the first candidate of the highest score: nothing
      scores more, and every candidate before it scores strictly less. */
  lemma {:induction false} FoldBestFirstMax(cs: seq<Candidate>)
    ensures FoldBest(None, cs).None? <==> cs == []
    ensures FoldBest(None, cs).Some? ==> exists k :: FirstMaxAt(cs, k) && cs[k] == FoldBest(None, cs).value
    decreases |cs|
  {
    if cs != [] {
      var init := cs[..|cs| - 1];
      var c := cs[|cs| - 1];
      assert cs == init + [c];
      FoldBestFirstMax(init);
      if FoldBest(None, init).Some? {
        var k :| FirstMaxAt(init, k) && init[k] == FoldBest(None, init).value;
        FirstMaxSnoc(init, c, k);
        if c.score > init[k].score {
          assert FirstMaxAt(cs, |init|);
        } else {
          assert FirstMaxAt(cs, k) && cs[k] == init[k];
        }
      } else {
        assert FirstMaxAt(cs, 0);
      }
    }
  }

  function Elems(s: seq<string>): set<string> {
    set x | x in s
  }

  /** No repetition, nothing from `visited`, and only record types. */
  predicate FreshTypes(p: Schema.Provider, entered: seq<string>, visited: set<string>) {
    (forall a, b :: 0 <= a < b < |entered| ==> entered[a] != entered[b]) &&
    (forall x :: x in entered ==> x !in visited && x in p.from.records)
  }

  /** The state a search step can end in: it only adds record types it
      entered, once each, and the candidates it met, each an array field
      with an element type and a positive score. */
  predicate Grows(p: Schema.Provider, visited: set<string>, r: Visit) {
    r.visited == visited + Elems(r.entered) && FreshTypes(p, r.entered, visited) &&
    (forall c :: c in r.candidates ==> c.score > 0 && Schema.Present(Schema.ArrayElement(p, Schema.From, c.mark)))
  }

  lemma FewerLeft(k: set<string>, a: set<string>, b: set<string>)
    requires a <= b
    ensures |k - b| <= |k - a|
  {
    var x := (k - a) - (k - b);
    assert k - a == (k - b) + x;
  }

  lemma FewerLeftStrict(k: set<string>, a: set<string>, x: string, b: set<string>)
    requires a + {x} <= b && x in k && x !in a
    ensures |k - b| < |k - a|
  {
    FewerLeft(k, a + {x}, b);
    assert k - a == (k - (a + {x})) + {x};
  }

  lemma GrowsConcat(p: Schema.Provider, visited: set<string>, s: Visit, rest: Visit)
    requires Grows(p, visited, s) && Grows(p, s.visited, rest)
    ensures Grows(p, visited, Visit(rest.best, rest.visited, s.entered + rest.entered, s.candidates + rest.candidates))
  {
    var e := s.entered + rest.entered;
    assert Elems(e) == Elems(s.entered) + Elems(rest.entered);
    forall a, b | 0 <= a < b < |e| ensures e[a] != e[b] {
      if b >= |s.entered| {
        assert e[b] == rest.entered[b - |s.entered|];
        if a >= |s.entered| {
          assert e[a] == rest.entered[a - |s.entered|];
        } else {
          assert e[a] == s.entered[a] && s.entered[a] in Elems(s.entered);
        }
      } else {
        assert e[a] == s.entered[a] && e[b] == s.entered[b];
      }
    }
  }

  lemma GrowsFreshAfter(p: Schema.Provider, visited: set<string>, x: string, r: Visit)
    requires x in p.from.records && x !in visited && Grows(p, visited + {x}, r)
    ensures Grows(p, visited, Visit(r.best, r.visited, [x] + r.entered, r.candidates))
  {
    var e := [x] + r.entered;
    forall a, b | 0 <= a < b < |e| ensures e[a] != e[b] {
      if a == 0 { assert e[b] == r.entered[b - 1]; }
    }
    assert Elems(e) == {x} + Elems(r.entered);
  }

  /** `visit(type_name, prefix)`: nothing for a type without fields, else
      the search over its fields. */
  function VisitType(p: Schema.Provider, canon: Canon, t: string, prefix: string, visited: set<string>): (r: Visit)
    ensures Grows(p, visited, r)
    ensures r.best == FoldBest(None, r.candidates)
    decreases |p.from.records.Keys - visited|, 2, 0
  {
    var fields := Schema.RecordFields(p, Schema.From, t);
    if !Schema.Present(fields) then
      assert Elems([]) == {};
      Visit(None, visited, [], [])
    else VisitFields(p, canon, fields.value, 0, prefix, None, visited)
  }

  /** The loop over the fields of one record type, from field `i` on. */
  function VisitFields(p: Schema.Provider, canon: Canon, fields: Schema.Fields, i: nat, prefix: string,
                       best: Option<Candidate>, visited: set<string>): (r: Visit)
    requires i <= |fields|
    ensures Grows(p, visited, r)
    ensures r.best == FoldBest(best, r.candidates)
    decreases |p.from.records.Keys - visited|, 1, |fields| - i
  {
    if i == |fields| then
      assert Elems([]) == {};
      Visit(best, visited, [], [])
    else
      var s := VisitStep(p, canon, fields, i, prefix, best, visited);
      FewerLeft(p.from.records.Keys, visited, s.visited);
      var rest := VisitFields(p, canon, fields, i + 1, prefix, s.best, s.visited);
      FoldBestAppend(best, s.candidates, rest.candidates);
      GrowsConcat(p, visited, s, rest);
      Visit(rest.best, rest.visited, s.entered + rest.entered, s.candidates + rest.candidates)
  }

  /** The candidate a field is, if its type is an array with an element
      type and it scores. */
  function OwnCandidates(p: Schema.Provider, canon: Canon, field: string, mark: string, path: string): (r: seq<Candidate>)
    ensures |r| <= 1
    ensures forall c :: c in r ==> c.score > 0 && c.mark == mark && Schema.Present(Schema.ArrayElement(p, Schema.From, mark))
  {
    var elem := Schema.ArrayElement(p, Schema.From, mark);
    var score := if elem.Some? && elem.value != [] then Score(canon, field, mark, elem.value) else 0;
    if score > 0 then [Candidate(path, mark, score)] else []
  }

  /** One field of the loop: score it if its type is an array with an
      element type, then enter its type if that is a record not entered
      yet. */
  function VisitStep(p: Schema.Provider, canon: Canon, fields: Schema.Fields, i: nat, prefix: string,
                     best: Option<Candidate>, visited: set<string>): (r: Visit)
    requires i < |fields|
    ensures Grows(p, visited, r)
    ensures r.best == FoldBest(best, r.candidates)
    decreases |p.from.records.Keys - visited|, 0, 0
  {
    var field := fields[i].0;
    var mark := Strip(fields[i].1);
    var path := if prefix != [] then prefix + field else field;
    var own := OwnCandidates(p, canon, field, mark, path);
    var best1 := FoldBest(best, own);
    if mark in p.from.records && mark !in visited then
      FewerLeftStrict(p.from.records.Keys, visited, mark, visited + {mark});
      var child := VisitType(p, canon, mark, path + ".", visited + {mark});
      GrowsFreshAfter(p, visited, mark, child);
      FoldBestNested(best1, child.candidates);
      FoldBestAppend(best, own, child.candidates);
      Visit(Combine(best1, child.best), child.visited, [mark] + child.entered, own + child.candidates)
    else
      assert Elems([]) == {};
      Visit(best1, visited, [], own)
  }

  /** `_find_array_source_path`, as specified: the path and type of the
      best candidate of the search from the source type. */
  function ArraySourcePath(p: Schema.Provider, source: Option<string>, destField: string,
                           destArray: string, destElem: Option<string>): (r: Option<(string, string)>)
    ensures source.None? || source.value == [] ==> r == None
  {
    if source.None? || source.value == [] then None
    else
      var canon := Canon(CanonicalName(Some(destField)), CanonicalName(Some(destArray)), CanonicalName(destElem));
      var v := VisitType(p, canon, source.value, [], {source.value});
      if v.best.Some? then Some((v.best.value.path, v.best.value.mark)) else None
  }

  /** The search enters the source type and then every record type at most
      once, and answers with the first candidate of the highest score. */
  lemma ArraySourcePathBest(p: Schema.Provider, source: string, canon: Canon)
    ensures var v := VisitType(p, canon, source, [], {source});
      FreshTypes(p, v.entered, {source}) &&
      (v.best.None? <==> v.candidates == []) &&
      (v.best.Some? ==> exists k :: FirstMaxAt(v.candidates, k) && v.candidates[k] == v.best.value)
  {
    var v := VisitType(p, canon, source, [], {source});
    FoldBestFirstMax(v.candidates);
  }

  /** `visit(type_name, prefix)`, which shares `visited` with its recursive
      calls. */
  method SearchType(p: Schema.Provider, canon: Canon, t: string, prefix: string, visited: set<string>)
    returns (best: Option<Candidate>, visitedOut: set<string>)
    ensures best == VisitType(p, canon, t, prefix, visited).best
    ensures visitedOut == VisitType(p, canon, t, prefix, visited).visited
    decreases |p.from.records.Keys - visited|, 2, 0
  {
    var fields := Schema.RecordFields(p, Schema.From, t);
    if !Schema.Present(fields) {
      return None, visited;
    }
    ghost var whole := VisitType(p, canon, t, prefix, visited);
    best, visitedOut := None, visited;
    var i := 0;
    while i < |fields.value|
      invariant i <= |fields.value|
      invariant visited <= visitedOut
      invariant VisitFields(p, canon, fields.value, i, prefix, best, visitedOut).best == whole.best
      invariant VisitFields(p, canon, fields.value, i, prefix, best, visitedOut).visited == whole.visited
    {
      FewerLeft(p.from.records.Keys, visited, visitedOut);
      best, visitedOut := SearchField(p, canon, fields.value, i, prefix, best, visitedOut);
      i := i + 1;
    }
  }

  /** One turn of the loop of `visit`. */
  method SearchField(p: Schema.Provider, canon: Canon, fields: Schema.Fields, i: nat, prefix: string,
                     best: Option<Candidate>, visited: set<string>)
    returns (b: Option<Candidate>, v: set<string>)
    requires i < |fields|
    ensures b == VisitStep(p, canon, fields, i, prefix, best, visited).best
    ensures v == VisitStep(p, canon, fields, i, prefix, best, visited).visited
    decreases |p.from.records.Keys - visited|, 0, 0
  {
    var field := fields[i].0;
    var mark := Strip(fields[i].1);
    var path := if prefix != [] then prefix + field else field;
    b := ScoreField(p, canon, field, mark, path, best);
    v := visited;
    var recordFields := Schema.RecordFields(p, Schema.From, mark);
    if recordFields.Some? && mark !in v {
      v := v + {mark};
      FewerLeftStrict(p.from.records.Keys, visited, mark, v);
      var child;
      child, v := SearchType(p, canon, mark, path + ".", v);
      if child.Some? && (b.None? || child.value.score > b.value.score) {
        b := child;
      }
    }
  }

  /** The scoring half of a turn of the loop of `visit`. */
  method ScoreField(p: Schema.Provider, canon: Canon, field: string, mark: string, path: string,
                    best: Option<Candidate>) returns (b: Option<Candidate>)
    ensures b == FoldBest(best, OwnCandidates(p, canon, field, mark, path))
  {
    b := best;
    var elem := Schema.ArrayElement(p, Schema.From, mark);
    if elem.Some? && elem.value != [] {
      var score := Score(canon, field, mark, elem.value);
      if score > 0 {
        var candidate := Candidate(path, mark, score);
        assert [candidate][..0] == [];
        if b.None? || candidate.score > b.value.score {
          b := Some(candidate);
        }
      }
    }
  }

  /** `_find_array_source_path`. */
  method FindArraySourcePath(p: Schema.Provider, source: Option<string>, destField: string,
                             destArray: string, destElem: Option<string>) returns (r: Option<(string, string)>)
    ensures r == ArraySourcePath(p, source, destField, destArray, destElem)
  {
    if source.None? || source.value == [] {
      return None;
    }
    var canon := Canon(CanonicalName(Some(destField)), CanonicalName(Some(destArray)), CanonicalName(destElem));
    var visited := {source.value};
    var result, _ := SearchType(p, canon, source.value, [], visited);
    if result.Some? {
      return Some((result.value.path, result.value.mark));
    }
    return None;
  }

  // ---------------------------------------------------------------------
  // `_build_entry`

  /** `MappingRequest`: a mapping to write, with the source type it should
      read from and the field values of an existing mapping to keep. */
  datatype Request = Request(name: string, toType: string, fromType: Option<string>,
                             existing: Option<Dict<string, Json>>)

  /** A mapping entry written by the scaffolder: `{"name", "from", "to",
      "fields"}`. */
  datatype Suggestion = Suggestion(name: string, from: string, to: string, fields: Dict<string, Json>)

  /** The entry as the JSON dictionary it is written as. */
  function EntryJson(e: Suggestion): (r: Json)
    ensures r.JObj? && Member(r, "to") == Some(JStr(e.to)) && Member(r, "from") == Some(JStr(e.from))
    ensures Member(r, "fields") == Some(JObj(e.fields))
  {
    var d := [("name", JStr(e.name)), ("from", JStr(e.from)), ("to", JStr(e.to)), ("fields", JObj(e.fields))];
    assert d[0].0 == "name" && d[1].0 == "from" && d[2].0 == "to" && d[3].0 == "fields";
    GetUnique(d, "from");
    GetUnique(d, "to");
    GetUnique(d, "fields");
    JObj(d)
  }

  /** The entries for a list of suggestions. */
  function EntryJsons(ss: seq<Suggestion>): (r: seq<Json>)
    ensures |r| == |ss| && forall k :: 0 <= k < |ss| ==> r[k] == EntryJson(ss[k])
  {
    seq(|ss|, k requires 0 <= k < |ss| => EntryJson(ss[k]))
  }

  /** The name recorded for the type when it is non-empty, else the name
      derived from the type. */
  function NestedName(preferred: map<string, string>, t: string): string {
    if t in preferred && preferred[t] != [] then preferred[t] else DefaultName(t)
  }

  /** What `_build_entry` works with besides the current field: the
      provider, the preferred names, the request's name, the source type
      (empty for none), the existing field values and the source record's
      fields, with `{name.lower(): name}` over them. */
  datatype EntryCtx = EntryCtx(p: Schema.Provider, preferred: map<string, string>, reqName: string,
                               sourceType: string, existing: Dict<string, Json>,
                               fromFields: Schema.Fields, fromLookup: Dict<string, string>)

  /** The state of one destination field after its existing value is read:
      `spec_value`, `src_name`, `src_mark`, and the nested `fields` of an
      existing dictionary value that is kept. */
  datatype Spec = Spec(value: Option<Json>, srcName: Option<string>, srcMark: Option<string>,
                       nestedFields: Option<Dict<string, Json>>)

  const NoSpec: Spec := Spec(None, None, None, None)

  /** The source field's type mark, looked up only for a non-empty source
      name. */
  function SourceMark(c: EntryCtx, name: Option<string>): Option<string> {
    if Schema.Present(name) then Get(c.fromFields, name.value) else None
  }

  /** The source field named like the destination field, ignoring case. */
  function SameNameSpec(c: EntryCtx, destName: string, nestedFields: Option<Dict<string, Json>>): (r: Spec)
    ensures r.value.Some? ==> r.value.value.JStr?
    ensures r.value.Some? <==> LowerStr(destName) in Keys(c.fromLookup)
  {
    var lk := LowerStr(destName);
    if lk in Keys(c.fromLookup) then
      var n := Get(c.fromLookup, lk).value;
      Spec(Some(JStr(n)), Some(n), Get(c.fromFields, n), nestedFields)
    else Spec(None, None, None, nestedFields)
  }

  /** Reading the existing value of a destination field: a placeholder
      string counts as none, the sentinel is kept as the sentinel, any other
      string is kept and names its source field; a dictionary whose `from`,
      `source` or `path` is a string other than a placeholder is kept;
      with no existing value the same-named source field is taken. */
  function ExistingSpec(c: EntryCtx, destName: string): (r: Spec)
    ensures r.value.Some? ==> r.value.value.JStr? || r.value.value.JObj?
  {
    var existing: Option<Json> := Get(c.existing, destName);
    match existing
    case Some(JStr(s)) =>
      var clean := Strip(s);
      if Validation.IsPlaceholderStr(clean) then NoSpec
      else if UpperStr(clean) == Constants.DefaultSentinel then Spec(Some(JStr(Constants.DefaultSentinel)), None, None, None)
      else
        var n := Get(c.fromLookup, LowerStr(clean));
        Spec(Some(JStr(s)), n, SourceMark(c, n), None)
    case Some(JObj(m)) =>
      var ref := Or(Or(Get(m, "from"), Get(m, "source")), Get(m, "path"));
      if IsStr(ref) && !Validation.IsPlaceholderStr(ref.value.s) then
        var n := Get(c.fromLookup, LowerStr(ref.value.s));
        var nested := Get(m, "fields");
        Spec(Some(JObj(m)), n, SourceMark(c, n), if IsObject(nested) then Some(nested.value.members) else None)
      else NoSpec
    case _ => SameNameSpec(c, destName, None)
  }

  /** When no value was found: the same-named source field if no source
      name was found either, else a placeholder for the field. */
  function FieldSpec(c: EntryCtx, destName: string): (r: Spec)
    ensures r.value.Some?
  {
    var s := ExistingSpec(c, destName);
    if s.value.Some? then s
    else
      var t := if s.srcName.None? then SameNameSpec(c, destName, s.nestedFields) else s;
      if t.value.Some? then t
      else Spec(Some(JStr(FieldPlaceholder(destName))), t.srcName, t.srcMark, t.nestedFields)
  }

  /** A placeholder value of an array field is replaced by the path of the
      best matching source array field when that path resolves to a type;
      the result is the value and the source type. */
  function ArrayGuess(c: EntryCtx, destName: string, destMark: string, value: Json, srcMark: Option<string>)
    : (r: (Json, Option<string>))
    ensures !Validation.IsPlaceholder(value) ==> r == (value, srcMark)
    ensures r.0 != value ==>
              (r.0.JStr? && Schema.Present(r.1) && r.1 == PathType(c.p, Some(c.sourceType), r.0.s))
  {
    if !Validation.IsPlaceholder(value) then (value, srcMark)
    else
      var elem := Schema.ArrayElement(c.p, Schema.To, destMark);
      var guess := if Schema.Present(elem) then ArraySourcePath(c.p, Some(c.sourceType), destName, destMark, elem) else None;
      if guess.None? then (value, srcMark)
      else
        var resolved := PathType(c.p, Some(c.sourceType), guess.value.0);
        if Schema.Present(resolved) then (JStr(guess.value.0), resolved) else (value, srcMark)
  }

  /** The request for a nested record: from the source field's record type
      if it has fields, else from the destination type if the sources
      declare it with fields. */
  function RecordRequest(c: EntryCtx, destMark: string, srcMark: Option<string>): Request {
    var f0 := if Schema.Present(srcMark) then Some(Strip(srcMark.value)) else None;
    var f1 := if Schema.Present(f0) && !Schema.Present(Schema.RecordFields(c.p, Schema.From, f0.value)) then None else f0;
    var f := if !Schema.Present(f1) && Schema.Present(Schema.RecordFields(c.p, Schema.From, destMark)) then Some(destMark) else f1;
    Request(NestedName(c.preferred, destMark), destMark, f, None)
  }

  /** The request for the element record of an array, if the destinations
      declare it with fields. */
  function ArrayRequests(c: EntryCtx, elem: string, srcMark: Option<string>): (r: seq<Request>)
    ensures |r| <= 1
  {
    var e0 := if Schema.Present(srcMark) then Schema.ArrayElement(c.p, Schema.From, Strip(srcMark.value)) else None;
    var e1 := if Schema.Present(e0) && !HasSupportedType(c.p, Schema.From, e0.value) then None else e0;
    var e := if !Schema.Present(e1) && Schema.Present(Schema.RecordFields(c.p, Schema.From, elem)) then Some(elem) else e1;
    if Schema.Present(Schema.RecordFields(c.p, Schema.To, elem)) then [Request(NestedName(c.preferred, elem), elem, e, None)]
    else []
  }

  /** The request for a nested enumeration: from the source field's type,
      the entry's source type or the destination type, the first that the
      sources declare with literals. */
  function EnumRequest(c: EntryCtx, destMark: string, srcMark: Option<string>,
                       nestedFields: Option<Dict<string, Json>>): Request {
    var f :=
      if Schema.Present(srcMark) && Schema.Present(Schema.EnumLiterals(c.p, Schema.From, Strip(srcMark.value))) then Some(Strip(srcMark.value))
      else if c.sourceType != [] && Schema.Present(Schema.EnumLiterals(c.p, Schema.From, c.sourceType)) then Some(c.sourceType)
      else if Schema.Present(Schema.EnumLiterals(c.p, Schema.From, destMark)) then Some(destMark)
      else None;
    Request(NestedName(c.preferred, destMark), destMark, f, nestedFields)
  }

  function FieldError(c: EntryCtx, destName: string, what: string, destMark: string, tail: string): string {
    "Unable to scaffold mapping '" + c.reqName + "': field '" + destName + "' references destination " +
    what + " '" + destMark + "' which could not be parsed" + tail
  }

  /** The mappings a destination field needs written next, or the error
      when its source type is a record, array or enumeration and its
      destination type is not parsed as one. */
  function NestedRequests(c: EntryCtx, destName: string, destMark: string, value: Json, srcMark: Option<string>,
                          nestedFields: Option<Dict<string, Json>>): (r: Result<seq<Request>, string>)
    ensures r.Success? ==> |r.value| <= 1
    ensures value.JStr? && UpperStr(value.s) == Constants.DefaultSentinel ==> r == Success([])
  {
    if value.JStr? && UpperStr(value.s) == Constants.DefaultSentinel then Success([])
    else
      var clean := if srcMark.Some? then Some(Strip(srcMark.value)) else None;
      var srcRecord := if Schema.Present(clean) then Schema.RecordFields(c.p, Schema.From, clean.value) else None;
      var elem := Schema.ArrayElement(c.p, Schema.To, destMark);
      if Schema.RecordFields(c.p, Schema.To, destMark).Some? then Success([RecordRequest(c, destMark, srcMark)])
      else if srcRecord.Some? then Failure(FieldError(c, destName, "type", destMark, " as a record"))
      else if Schema.Present(elem) then Success(ArrayRequests(c, elem.value, srcMark))
      else if Schema.Present(clean) && Schema.Present(Schema.ArrayElement(c.p, Schema.From, clean.value)) then
        Failure(FieldError(c, destName, "array type", destMark, ""))
      else if Schema.Present(Schema.EnumLiterals(c.p, Schema.To, destMark)) then
        Success([EnumRequest(c, destMark, srcMark, nestedFields)])
      else if Schema.Present(clean) && Schema.Present(Schema.EnumLiterals(c.p, Schema.From, clean.value)) then
        Failure(FieldError(c, destName, "enum type", destMark, ""))
      else Success([])
  }

  /** One turn of the loop over the destination fields: the value written
      for the field and the mappings it needs. */
  function FieldOutcome(c: EntryCtx, destName: string, destMarkRaw: string): (r: Result<(Json, seq<Request>), string>)
  {
    var destMark := Strip(destMarkRaw);
    var s := FieldSpec(c, destName);
    var (value, srcMark) := ArrayGuess(c, destName, destMark, s.value.value, s.srcMark);
    match NestedRequests(c, destName, destMark, value, srcMark, s.nestedFields)
    case Failure(e) => Failure(e)
    case Success(reqs) => Success((value, reqs))
  }

  /** What one destination field (name, mark) gives: its value and the
      mappings it asks for, or an error. */
  type FieldStep = (string, string) -> Result<(Json, seq<Request>), string>

  /** The field step of `_build_entry` for the context `c`. */
  function FieldOutcomes(c: EntryCtx): FieldStep {
    (destName: string, destMarkRaw: string) => FieldOutcome(c, destName, destMarkRaw)
  }

  /** The loop over the destination fields from field `i` on, given the
      field values and requests so far; it stops at the first error. */
  function RecordFold(field: FieldStep, ds: Schema.Fields, i: nat, pairs: seq<(string, Json)>, nested: seq<Request>)
    : Result<(seq<(string, Json)>, seq<Request>), string>
    requires i <= |ds|
    decreases |ds| - i
  {
    if i == |ds| then Success((pairs, nested))
    else
      match field(ds[i].0, ds[i].1)
      case Failure(e) => Failure(e)
      case Success((v, reqs)) => RecordFold(field, ds, i + 1, pairs + [(ds[i].0, v)], nested + reqs)
  }

  /** The record part of `_build_entry`: the field values, in the order of
      the destination fields, and the mappings they need. */
  function RecordPart(c: EntryCtx, ds: Schema.Fields): Result<(Dict<string, Json>, seq<Request>), string> {
    match RecordFold(FieldOutcomes(c), ds, 0, [], [])
    case Failure(e) => Failure(e)
    case Success((pairs, nested)) => Success((FromPairs(pairs), nested))
  }

  /** The loop of `_build_entry` over the destination fields. */
  method BuildRecordFields(c: EntryCtx, ds: Schema.Fields) returns (r: Result<(Dict<string, Json>, seq<Request>), string>)
    ensures r == RecordPart(c, ds)
  {
    var fields: Dict<string, Json> := [];
    var nested: seq<Request> := [];
    ghost var pairs: seq<(string, Json)> := [];
    var i := 0;
    while i < |ds|
      invariant i <= |ds|
      invariant fields == FromPairs(pairs)
      invariant RecordFold(FieldOutcomes(c), ds, 0, [], []) == RecordFold(FieldOutcomes(c), ds, i, pairs, nested)
    {
      var (destName, destMarkRaw) := ds[i];
      var outcome := FieldOutcome(c, destName, destMarkRaw);
      if outcome.Failure? {
        return Failure(outcome.error);
      }
      var (value, reqs) := outcome.value;
      FromPairsSnoc(pairs, (destName, value));
      fields := Insert(fields, destName, value);
      pairs := pairs + [(destName, value)];
      nested := nested + reqs;
      i := i + 1;
    }
    return Success((fields, nested));
  }

  /** The value of one destination literal of an enumeration entry: the
      existing value if it is a string other than a placeholder, else the
      source literal of the same name ignoring case, else a placeholder. */
  function EnumValue(existing: Dict<string, Json>, srcLookup: Dict<string, string>, lit: string): (r: Json)
    ensures r.JStr?
  {
    var e := Get(existing, lit);
    if IsStr(e) && !Validation.IsPlaceholderStr(e.value.s) then e.value
    else
      var m := Get(srcLookup, LowerStr(lit));
      JStr(if Schema.Present(m) then m.value else FieldPlaceholder(lit))
  }

  /** An existing string value is kept; otherwise the last source literal
      equal to the destination literal ignoring case is taken, and only
      when there is none (or the literal is empty) the placeholder. */
  lemma EnumValueSpec(existing: Dict<string, Json>, srcLits: seq<string>, lit: string)
    ensures var e := Get(existing, lit); var r := EnumValue(existing, CaseIndex(srcLits), lit);
      (IsStr(e) && !Validation.IsPlaceholderStr(e.value.s) ==> r == e.value) &&
      (!(IsStr(e) && !Validation.IsPlaceholderStr(e.value.s)) ==>
        (lit != [] && (exists i :: 0 <= i < |srcLits| && EqualsIgnoreCase(srcLits[i], lit)) ==>
           r == JStr(LastLower(srcLits, LowerStr(lit)).value) && r.s in srcLits && EqualsIgnoreCase(r.s, lit)) &&
        (lit == [] || (forall i :: 0 <= i < |srcLits| ==> !EqualsIgnoreCase(srcLits[i], lit)) ==>
           r == JStr(FieldPlaceholder(lit))))
  {
    CaseIndexGet(srcLits, LowerStr(lit));
    var m := LastLower(srcLits, LowerStr(lit));
    if m.Some? && m.value == [] {
      assert LowerStr(lit) == [];
    }
  }

  function EnumPairs(existing: Dict<string, Json>, srcLookup: Dict<string, string>, lits: seq<string>)
    : (r: seq<(string, Json)>)
    ensures |r| == |lits| && forall j :: 0 <= j < |lits| ==> r[j] == (lits[j], EnumValue(existing, srcLookup, lits[j]))
  {
    seq(|lits|, j requires 0 <= j < |lits| => (lits[j], EnumValue(existing, srcLookup, lits[j])))
  }

  lemma EnumPairsSnoc(existing: Dict<string, Json>, srcLookup: Dict<string, string>, lits: seq<string>, i: nat)
    requires i < |lits|
    ensures EnumPairs(existing, srcLookup, lits[..i + 1]) ==
      EnumPairs(existing, srcLookup, lits[..i]) + [(lits[i], EnumValue(existing, srcLookup, lits[i]))]
  {
    var a, b := EnumPairs(existing, srcLookup, lits[..i + 1]), EnumPairs(existing, srcLookup, lits[..i]);
    var c := b + [(lits[i], EnumValue(existing, srcLookup, lits[i]))];
    forall j | 0 <= j < |a|
      ensures a[j] == c[j]
    {
      if j < i {
        assert lits[..i + 1][j] == lits[..i][j];
      }
    }
  }

  /** The loop of `_build_entry` over the destination literals. */
  method BuildEnumFields(existing: Dict<string, Json>, srcLookup: Dict<string, string>, lits: seq<string>)
    returns (fields: Dict<string, Json>)
    ensures fields == FromPairs(EnumPairs(existing, srcLookup, lits))
  {
    fields := [];
    var i := 0;
    while i < |lits|
      invariant i <= |lits|
      invariant fields == FromPairs(EnumPairs(existing, srcLookup, lits[..i]))
    {
      var lit := lits[i];
      var value := EnumValue(existing, srcLookup, lit);
      EnumPairsSnoc(existing, srcLookup, lits, i);
      FromPairsSnoc(EnumPairs(existing, srcLookup, lits[..i]), (lit, value));
      fields := Insert(fields, lit, value);
      i := i + 1;
    }
    assert lits[..i] == lits;
  }

  /** The source type of an entry: the requested one, stripped, if the
      sources declare it, else the destination type if the sources declare
      that; empty for none. */
  function SourceTypeOf(p: Schema.Provider, fromType: Option<string>, toType: string): (r: string)
    ensures r == [] || HasSupportedType(p, Schema.From, r)
    ensures fromType.Some? && HasSupportedType(p, Schema.From, Strip(fromType.value)) ==> r == Strip(fromType.value)
  {
    var s0 := if fromType.Some? && fromType.value != [] then Strip(fromType.value) else [];
    var s1 := if s0 != [] && !HasSupportedType(p, Schema.From, s0) then [] else s0;
    if s1 == [] && HasSupportedType(p, Schema.From, toType) then toType else s1
  }

  function NotRecordOrEnum(name: string, toType: string): string {
    "Unable to scaffold mapping '" + name + "': destination type '" + toType +
    "' is not a record or enum in destination specs"
  }

  /** `_build_entry`: the entry for a request and the mappings it needs,
      or the error that stops the scaffolding. */
  function BuildEntryOf(p: Schema.Provider, preferred: map<string, string>, req: Request)
    : Result<(Suggestion, seq<Request>), string>
  {
    var toType := Strip(req.toType);
    var raw := Schema.RecordFields(p, Schema.To, toType);
    var destFields := Schema.OrEmpty(raw);
    var destLits := Schema.OrEmpty(Schema.EnumLiterals(p, Schema.To, toType));
    if raw.None? && destLits == [] then Failure(NotRecordOrEnum(req.name, toType))
    else
      var existing := Schema.OrEmpty(req.existing);
      var sourceType := SourceTypeOf(p, req.fromType, toType);
      var from := if sourceType != [] then sourceType else FromPlaceholder(toType);
      var name := if toType in preferred then preferred[toType] else req.name;
      if destLits != [] && destFields == [] then
        var srcLits := if sourceType != [] then Schema.OrEmpty(Schema.EnumLiterals(p, Schema.From, sourceType)) else [];
        Success((Suggestion(name, from, toType, FromPairs(EnumPairs(existing, CaseIndex(srcLits), destLits))), []))
      else
        var fromFields := if sourceType != [] then Schema.OrEmpty(Schema.RecordFields(p, Schema.From, sourceType)) else [];
        var c := EntryCtx(p, preferred, req.name, sourceType, existing, fromFields, CaseIndex(Keys(fromFields)));
        match RecordPart(c, destFields)
        case Failure(e) => Failure(e)
        case Success((fields, nested)) => Success((Suggestion(name, from, toType, fields), nested))
  }

  // ----- what `_build_entry` promises -----

  /** The trimmed source type (empty when there is none) and the trimmed
      destination type: the key under
      which `build_map` writes a request at most once. */
  function Key(r: Request): Generator.Pair {
    (Strip(if r.fromType.Some? then r.fromType.value else []), Strip(r.toType))
  }

  /** The source names a key can hold: none, or a declared source type. */
  function FromNames(p: Schema.Provider): set<string> {
    {[]} + (set k | k in p.from.records.Keys + p.from.elements.Keys + p.from.enums.Keys :: Strip(k))
  }

  /** The destination names a key can hold: declared records and
      enumerations. */
  function ToNames(p: Schema.Provider): set<string> {
    set k | k in p.to.records.Keys + p.to.enums.Keys :: Strip(k)
  }

  /** All keys of nested requests: finitely many, so the worklist ends. */
  function KeySpace(p: Schema.Provider): set<Generator.Pair> {
    set f, t | f in FromNames(p) && t in ToNames(p) :: (f, t)
  }

  lemma InKeySpace(p: Schema.Provider, f: Option<string>, t: string)
    requires f.None? || Strip(f.value) == [] || f.value in p.from.records || f.value in p.from.elements || f.value in p.from.enums
    requires t in p.to.records || t in p.to.enums
    ensures Key(Request([], t, f, None)) in KeySpace(p)
  {
    var k := Key(Request([], t, f, None));
    assert k.1 in ToNames(p);
    if f.Some? && Strip(f.value) != [] {
      assert Strip(f.value) in FromNames(p);
    }
  }

  lemma RecordRequestKey(c: EntryCtx, destMark: string, srcMark: Option<string>)
    requires destMark in c.p.to.records
    ensures Key(RecordRequest(c, destMark, srcMark)) in KeySpace(c.p)
  {
    var q := RecordRequest(c, destMark, srcMark);
    InKeySpace(c.p, q.fromType, destMark);
    assert Key(q) == Key(Request([], destMark, q.fromType, None));
  }

  lemma ArrayRequestsKey(c: EntryCtx, elem: string, srcMark: Option<string>)
    ensures forall q :: q in ArrayRequests(c, elem, srcMark) ==> Key(q) in KeySpace(c.p)
  {
    var rs := ArrayRequests(c, elem, srcMark);
    if rs != [] {
      var q := rs[0];
      if q.fromType.Some? && Strip(q.fromType.value) != [] && q.fromType.value != elem {
        SupportedDeclared(c.p, Schema.From, q.fromType.value);
      }
      InKeySpace(c.p, q.fromType, elem);
      assert Key(q) == Key(Request([], elem, q.fromType, None));
    }
  }

  lemma EnumRequestKey(c: EntryCtx, destMark: string, srcMark: Option<string>, nestedFields: Option<Dict<string, Json>>)
    requires destMark in c.p.to.enums
    ensures Key(EnumRequest(c, destMark, srcMark, nestedFields)) in KeySpace(c.p)
  {
    var q := EnumRequest(c, destMark, srcMark, nestedFields);
    InKeySpace(c.p, q.fromType, destMark);
    assert Key(q) == Key(Request([], destMark, q.fromType, None));
  }

  /** A nested request goes to a declared destination record or
      enumeration, from nothing or a declared source type. */
  lemma NestedInKeySpace(c: EntryCtx, destName: string, destMark: string, value: Json, srcMark: Option<string>,
                         nestedFields: Option<Dict<string, Json>>)
    ensures var r := NestedRequests(c, destName, destMark, value, srcMark, nestedFields);
      r.Success? ==> forall q :: q in r.value ==> Key(q) in KeySpace(c.p)
  {
    var r := NestedRequests(c, destName, destMark, value, srcMark, nestedFields);
    var elem := Schema.ArrayElement(c.p, Schema.To, destMark);
    if r.Success? && r.value != [] {
      if destMark in c.p.to.records {
        assert r.value == [RecordRequest(c, destMark, srcMark)];
        RecordRequestKey(c, destMark, srcMark);
      } else if Schema.Present(elem) {
        assert r.value == ArrayRequests(c, elem.value, srcMark);
        ArrayRequestsKey(c, elem.value, srcMark);
      } else {
        assert r.value == [EnumRequest(c, destMark, srcMark, nestedFields)];
        EnumRequestKey(c, destMark, srcMark, nestedFields);
      }
    }
  }

  /** The field steps ask only for keys of `space`. */
  ghost predicate StaysIn(field: FieldStep, space: set<Generator.Pair>) {
    forall n, m {:trigger field(n, m)} :: field(n, m).Success? ==> forall q :: q in field(n, m).value.1 ==> Key(q) in space
  }

  lemma {:induction false} RecordFoldSpec(field: FieldStep, space: set<Generator.Pair>, ds: Schema.Fields, i: nat,
                                         pairs: seq<(string, Json)>, nested: seq<Request>)
    requires i <= |ds| && |pairs| == i && forall j :: 0 <= j < i ==> pairs[j].0 == ds[j].0
    requires StaysIn(field, space) && forall q :: q in nested ==> Key(q) in space
    ensures var r := RecordFold(field, ds, i, pairs, nested);
      r.Success? ==> Keys(r.value.0) == Keys(ds) && forall q :: q in r.value.1 ==> Key(q) in space
    decreases |ds| - i
  {
    if i == |ds| {
      assert Keys(pairs) == Keys(ds);
    } else {
      var o := field(ds[i].0, ds[i].1);
      if o.Success? {
        var pairs', nested' := pairs + [(ds[i].0, o.value.0)], nested + o.value.1;
        assert forall j :: 0 <= j < i + 1 ==> pairs'[j].0 == ds[j].0 by {
          forall j | 0 <= j < i + 1 ensures pairs'[j].0 == ds[j].0 {
            if j < i {
              assert pairs'[j] == pairs[j];
            }
          }
        }
        RecordFoldSpec(field, space, ds, i + 1, pairs', nested');
        assert RecordFold(field, ds, i, pairs, nested) == RecordFold(field, ds, i + 1, pairs', nested');
      }
    }
  }

  /** The mappings a field asks for are of the key space. */
  lemma FieldOutcomeInKeySpace(c: EntryCtx, destName: string, destMarkRaw: string)
    ensures var r := FieldOutcome(c, destName, destMarkRaw);
      r.Success? ==> forall q :: q in r.value.1 ==> Key(q) in KeySpace(c.p)
  {
    var destMark := Strip(destMarkRaw);
    var sp := FieldSpec(c, destName);
    var (value, srcMark) := ArrayGuess(c, destName, destMark, sp.value.value, sp.srcMark);
    NestedInKeySpace(c, destName, destMark, value, srcMark, sp.nestedFields);
  }

  /** The record part writes one value per destination field, under its
      name and in declaration order, and asks only for keys of the key
      space. */
  lemma RecordPartSpec(c: EntryCtx, ds: Schema.Fields)
    ensures var r := RecordPart(c, ds);
      r.Success? ==> UniqueKeys(r.value.0) && Keys(r.value.0) == Dedup(Keys(ds)) &&
                     forall q :: q in r.value.1 ==> Key(q) in KeySpace(c.p)
  {
    forall n, m ensures var r := FieldOutcomes(c)(n, m);
      r.Success? ==> forall q :: q in r.value.1 ==> Key(q) in KeySpace(c.p) {
      FieldOutcomeInKeySpace(c, n, m);
    }
    RecordFoldSpec(FieldOutcomes(c), KeySpace(c.p), ds, 0, [], []);
    match RecordFold(FieldOutcomes(c), ds, 0, [], [])
    case Failure(_) =>
    case Success((pairs, _)) => FromPairsSpec(pairs);
  }

  /** A string value that is no placeholder after stripping, nor the
      sentinel, is written back unchanged. */
  lemma FieldKeepsExisting(c: EntryCtx, destName: string, destMarkRaw: string, v: string)
    requires Get(c.existing, destName) == Some(JStr(v))
    requires !Validation.IsPlaceholderStr(Strip(v)) && UpperStr(Strip(v)) != Constants.DefaultSentinel
    ensures var r := FieldOutcome(c, destName, destMarkRaw);
      r.Success? ==> r.value.0 == JStr(v)
  {
    PlaceholderStripped(v);
  }

  /** A placeholder has no surrounding whitespace to strip. */
  lemma PlaceholderStripped(v: string)
    ensures Validation.IsPlaceholderStr(v) ==> Strip(v) == v
  {
    if Validation.IsPlaceholderStr(v) {
      assert !IsSpace(v[0]) && !IsSpace(v[|v| - 1]);
      StripNoEdges(v);
    }
  }

  /** A value that reads as the sentinel is written as the sentinel and
      asks for no nested mapping. */
  lemma FieldKeepsSentinel(c: EntryCtx, destName: string, destMarkRaw: string, v: string)
    requires !Validation.IsPlaceholderStr(Constants.DefaultSentinel)
    requires Get(c.existing, destName) == Some(JStr(v))
    requires !Validation.IsPlaceholderStr(Strip(v)) && UpperStr(Strip(v)) == Constants.DefaultSentinel
    ensures FieldOutcome(c, destName, destMarkRaw) == Success((JStr(Constants.DefaultSentinel), []))
  {
  }

  /** A field without an existing value takes the source field of the same
      name ignoring case (the last such), else its placeholder or, for an
      array, the path of a matching source array. */
  lemma FieldWithoutExisting(c: EntryCtx, destName: string, destMarkRaw: string)
    requires Get(c.existing, destName).None?
    requires c.fromLookup == CaseIndex(Keys(c.fromFields))
    ensures var r := FieldOutcome(c, destName, destMarkRaw);
      var m := LastLower(Keys(c.fromFields), LowerStr(destName));
      r.Success? ==>
        (m.Some? ==> r.value.0 == JStr(m.value) || Validation.IsPlaceholderStr(m.value)) &&
        (m.None? ==> r.value.0 == JStr(FieldPlaceholder(destName)) ||
                     (r.value.0.JStr? && Schema.Present(PathType(c.p, Some(c.sourceType), r.value.0.s))))
  {
    CaseIndexGet(Keys(c.fromFields), LowerStr(destName));
  }

  lemma EnumPairsLast(existing: Dict<string, Json>, srcLookup: Dict<string, string>, lits: seq<string>, lit: string)
    requires lit in lits
    ensures LastValue(EnumPairs(existing, srcLookup, lits), lit) == Some(EnumValue(existing, srcLookup, lit))
  {
    LastValueMapped(EnumPairs(existing, srcLookup, lits), lits, l => EnumValue(existing, srcLookup, l), lit);
  }

  /** The literals a source enumeration type offers, none for no type. */
  function SourceLiterals(p: Schema.Provider, sourceType: string): seq<string> {
    if sourceType != [] then Schema.OrEmpty(Schema.EnumLiterals(p, Schema.From, sourceType)) else []
  }

  /** An entry for an enumeration: one value per destination literal, in
      declaration order, each as `EnumValueSpec` describes, and no nested
      mapping. */
  lemma EnumEntrySpec(p: Schema.Provider, preferred: map<string, string>, req: Request)
    requires var t := Strip(req.toType);
      Schema.Present(Schema.EnumLiterals(p, Schema.To, t)) && !Schema.Present(Schema.RecordFields(p, Schema.To, t))
    ensures var t := Strip(req.toType);
      var r := BuildEntryOf(p, preferred, req);
      var lits := Schema.EnumLiterals(p, Schema.To, t).value;
      var lookup := CaseIndex(SourceLiterals(p, SourceTypeOf(p, req.fromType, t)));
      r.Success? && r.value.1 == [] &&
      UniqueKeys(r.value.0.fields) && Keys(r.value.0.fields) == Dedup(lits) &&
      forall lit :: lit in lits ==> Get(r.value.0.fields, lit) == Some(EnumValue(Schema.OrEmpty(req.existing), lookup, lit))
  {
    var t := Strip(req.toType);
    var lits := Schema.EnumLiterals(p, Schema.To, t).value;
    var lookup := CaseIndex(SourceLiterals(p, SourceTypeOf(p, req.fromType, t)));
    var ps := EnumPairs(Schema.OrEmpty(req.existing), lookup, lits);
    assert BuildEntryOf(p, preferred, req).value.0.fields == FromPairs(ps);
    EnumFieldsSpec(Schema.OrEmpty(req.existing), lookup, lits);
  }

  /** The dictionary of an enumeration's values: one key per literal, each
      holding that literal's value. */
  lemma EnumFieldsSpec(existing: Dict<string, Json>, lookup: Dict<string, string>, lits: seq<string>)
    ensures var fs := FromPairs(EnumPairs(existing, lookup, lits));
      UniqueKeys(fs) && Keys(fs) == Dedup(lits) &&
      forall lit :: lit in lits ==> Get(fs, lit) == Some(EnumValue(existing, lookup, lit))
  {
    var ps := EnumPairs(existing, lookup, lits);
    FromPairsSpec(ps);
    assert Keys(ps) == lits;
    forall lit | lit in lits ensures Get(FromPairs(ps), lit) == Some(EnumValue(existing, lookup, lit)) {
      EnumPairsLast(existing, lookup, lits, lit);
    }
  }

  /** An entry for a record: one value per destination field, under its
      name and in declaration order. */
  lemma RecordEntrySpec(p: Schema.Provider, preferred: map<string, string>, req: Request)
    requires Schema.Present(Schema.RecordFields(p, Schema.To, Strip(req.toType)))
    ensures var r := BuildEntryOf(p, preferred, req);
      var fs := Schema.RecordFields(p, Schema.To, Strip(req.toType)).value;
      r.Success? ==> UniqueKeys(r.value.0.fields) && Keys(r.value.0.fields) == Dedup(Keys(fs))
  {
    var t := Strip(req.toType);
    var st := SourceTypeOf(p, req.fromType, t);
    var fromFields := if st != [] then Schema.OrEmpty(Schema.RecordFields(p, Schema.From, st)) else [];
    var c := EntryCtx(p, preferred, req.name, st, Schema.OrEmpty(req.existing), fromFields, CaseIndex(Keys(fromFields)));
    RecordPartSpec(c, Schema.RecordFields(p, Schema.To, t).value);
  }

  /** An entry is refused with the message when the destination is
      neither a record nor an enumeration; otherwise it fails only on a
      field of a record. */
  lemma BuildEntryRejects(p: Schema.Provider, preferred: map<string, string>, req: Request)
    ensures var t := Strip(req.toType);
      var r := BuildEntryOf(p, preferred, req);
      (Schema.RecordFields(p, Schema.To, t).None? && !Schema.Present(Schema.EnumLiterals(p, Schema.To, t)) ==>
         r == Failure(NotRecordOrEnum(req.name, t))) &&
      (r.Failure? ==>
         (Schema.RecordFields(p, Schema.To, t).None? && !Schema.Present(Schema.EnumLiterals(p, Schema.To, t))) ||
         Schema.Present(Schema.RecordFields(p, Schema.To, t)))
  {
    var t := Strip(req.toType);
    var st := SourceTypeOf(p, req.fromType, t);
    var fromFields := if st != [] then Schema.OrEmpty(Schema.RecordFields(p, Schema.From, st)) else [];
    var c := EntryCtx(p, preferred, req.name, st, Schema.OrEmpty(req.existing), fromFields, CaseIndex(Keys(fromFields)));
    assert RecordFold(FieldOutcomes(c), [], 0, [], []).Success?;
  }

  /** A written entry goes to the stripped destination under the preferred
      name, reads from a placeholder or a declared source type, and asks
      only for keys of the key space. */
  lemma BuildEntryWritten(p: Schema.Provider, preferred: map<string, string>, req: Request)
    ensures var t := Strip(req.toType);
      var r := BuildEntryOf(p, preferred, req);
      r.Success? ==>
        r.value.0.to == t && r.value.0.name == (if t in preferred then preferred[t] else req.name) &&
        (Validation.IsPlaceholderStr(r.value.0.from) || HasSupportedType(p, Schema.From, r.value.0.from)) &&
        forall q :: q in r.value.1 ==> Key(q) in KeySpace(p)
  {
    var t := Strip(req.toType);
    var st := SourceTypeOf(p, req.fromType, t);
    var fromFields := if st != [] then Schema.OrEmpty(Schema.RecordFields(p, Schema.From, st)) else [];
    var c := EntryCtx(p, preferred, req.name, st, Schema.OrEmpty(req.existing), fromFields, CaseIndex(Keys(fromFields)));
    RecordPartSpec(c, Schema.OrEmpty(Schema.RecordFields(p, Schema.To, t)));
  }

  // ---------------------------------------------------------------------
  // `build_map`

  /** `m.setdefault(k, v)`. */
  function SetDefault(m: map<string, string>, k: string, v: string): (r: map<string, string>)
    ensures k in r && (k in m ==> r == m)
    ensures forall x :: x in m ==> x in r && r[x] == m[x]
  {
    if k in m then m else m[k := v]
  }

  /** Each request's name recorded for its destination type, unless that
      type already has a name. */
  function SetDefaults(m: map<string, string>, reqs: seq<Request>): (r: map<string, string>)
    ensures forall x :: x in m ==> x in r && r[x] == m[x]
    ensures forall j :: 0 <= j < |reqs| ==> reqs[j].toType in r
    decreases |reqs|
  {
    if reqs == [] then m else SetDefaults(SetDefault(m, reqs[0].toType, reqs[0].name), reqs[1..])
  }

  /** The first name a type was given stays: one given to a type with no
      name yet is the first request's for that type. */
  lemma {:induction false} SetDefaultsFirst(m: map<string, string>, reqs: seq<Request>, i: nat)
    requires i < |reqs| && reqs[i].toType !in m
    requires forall j :: 0 <= j < i ==> reqs[j].toType != reqs[i].toType
    ensures SetDefaults(m, reqs)[reqs[i].toType] == reqs[i].name
    decreases i
  {
    var m1 := SetDefault(m, reqs[0].toType, reqs[0].name);
    if i > 0 {
      SetDefaultsFirst(m1, reqs[1..], i - 1);
    }
  }

  /** The keys the worklist can meet: those of the requests it starts with
      and those of any nested request. */
  function Space(p: Schema.Provider, requests: seq<Request>): (r: set<Generator.Pair>)
    ensures KeySpace(p) <= r && forall q :: q in requests ==> Key(q) in r
  {
    KeySpace(p) + set q | q in requests :: Key(q)
  }

  /** `_build_entry` with the preferred names as they stand. */
  type Builder = (map<string, string>, Request) -> Result<(Suggestion, seq<Request>), string>

  /** A builder whose entries go to the request's stripped destination and
      whose nested requests have keys in `space`. */
  ghost predicate Confined(build: Builder, space: set<Generator.Pair>) {
    forall m, req {:trigger build(m, req)} :: build(m, req).Success? ==>
      build(m, req).value.0.to == Strip(req.toType) &&
      forall q :: q in build(m, req).value.1 ==> Key(q) in space
  }

  function EntryBuilder(p: Schema.Provider): Builder {
    (m: map<string, string>, req: Request) => BuildEntryOf(p, m, req)
  }

  lemma EntryBuilderAt(p: Schema.Provider, m: map<string, string>, req: Request)
    ensures EntryBuilder(p)(m, req) == BuildEntryOf(p, m, req)
  {
  }

  lemma EntryBuilderConfined(p: Schema.Provider, space: set<Generator.Pair>)
    requires KeySpace(p) <= space
    ensures Confined(EntryBuilder(p), space)
  {
    forall m, req ensures EntryBuilder(p)(m, req).Success? ==>
        EntryBuilder(p)(m, req).value.0.to == Strip(req.toType) &&
        forall q :: q in EntryBuilder(p)(m, req).value.1 ==> Key(q) in space {
      BuildEntryWritten(p, m, req);
    }
  }

  /** The state `build_map` ends in: the entries written, the key of each,
      the keys processed and the preferred names. */
  datatype Drained = Drained(entries: seq<Suggestion>, keys: seq<Generator.Pair>,
                             processed: set<Generator.Pair>, preferred: map<string, string>)

  /** The worklist of `build_map`: the first request of the queue is taken;
      its key is skipped if processed, else its entry is written and the
      requests it needs are queued, their names recorded unless the type
      has one. */
  function Drain(build: Builder, space: set<Generator.Pair>, processed: set<Generator.Pair>,
                 preferred: map<string, string>, queue: seq<Request>,
                 entries: seq<Suggestion>, keys: seq<Generator.Pair>): Result<Drained, string>
    requires Confined(build, space)
    requires forall q :: q in queue ==> Key(q) in space
    decreases |space - processed|, |queue|
  {
    if queue == [] then Success(Drained(entries, keys, processed, preferred))
    else
      var req := queue[0];
      var key := Key(req);
      if key in processed then Drain(build, space, processed, preferred, queue[1..], entries, keys)
      else
        var b := build(preferred, req);
        if b.Failure? then Failure(b.error)
        else
          var (entry, nested) := b.value;
          FewerLeftStrictPairs(space, processed, key);
          Drain(build, space, processed + {key}, SetDefaults(preferred, nested), queue[1..] + nested,
                entries + [entry], keys + [key])
  }

  lemma FewerLeftStrictPairs(k: set<Generator.Pair>, a: set<Generator.Pair>, x: Generator.Pair)
    requires x in k && x !in a
    ensures |k - (a + {x})| < |k - a|
  {
    assert k - a == (k - (a + {x})) + {x};
  }

  /** What the worklist keeps, from one state to the next. */
  ghost predicate DrainInv(processed: set<Generator.Pair>, entries: seq<Suggestion>, keys: seq<Generator.Pair>) {
    |entries| == |keys| &&
    (forall i, j :: 0 <= i < j < |keys| ==> keys[i] != keys[j]) &&
    (forall i :: 0 <= i < |keys| ==> keys[i] in processed && entries[i].to == keys[i].1)
  }

  /** `d` continues the state `(processed, preferred, entries, keys)`:
      it keeps the invariant and the entries, keys, processed keys and
      preferred names written so far, and adds only keys not processed
      before. */
  ghost predicate Extends(d: Drained, processed: set<Generator.Pair>, preferred: map<string, string>,
                          entries: seq<Suggestion>, keys: seq<Generator.Pair>) {
    DrainInv(d.processed, d.entries, d.keys) &&
    |entries| <= |d.entries| && |keys| <= |d.keys| &&
    d.entries[..|entries|] == entries && d.keys[..|keys|] == keys &&
    processed <= d.processed &&
    (forall i :: |keys| <= i < |d.keys| ==> d.keys[i] !in processed) &&
    (forall x :: x in preferred ==> x in d.preferred && d.preferred[x] == preferred[x])
  }

  lemma ExtendsStep(d: Drained, processed: set<Generator.Pair>, preferred: map<string, string>,
                    entries: seq<Suggestion>, keys: seq<Generator.Pair>, key: Generator.Pair, entry: Suggestion,
                    preferred': map<string, string>)
    requires key !in processed
    requires forall x :: x in preferred ==> x in preferred' && preferred'[x] == preferred[x]
    requires |entries| == |keys|
    requires Extends(d, processed + {key}, preferred', entries + [entry], keys + [key])
    ensures Extends(d, processed, preferred, entries, keys)
  {
    assert d.entries[..|entries|] == d.entries[..|entries| + 1][..|entries|];
    assert d.keys[..|keys|] == d.keys[..|keys| + 1][..|keys|];
    assert d.keys[|keys|] == (keys + [key])[|keys|];
  }

  /** Each key is written at most once: the keys of the entries are
      distinct, each entry goes to its key's destination, the entries
      written before stay in place, and a preferred name once recorded
      never changes. */
  lemma {:induction false} DrainSpec(build: Builder, space: set<Generator.Pair>, processed: set<Generator.Pair>,
                                    preferred: map<string, string>, queue: seq<Request>,
                                    entries: seq<Suggestion>, keys: seq<Generator.Pair>)
    requires Confined(build, space)
    requires forall q :: q in queue ==> Key(q) in space
    requires DrainInv(processed, entries, keys)
    ensures var r := Drain(build, space, processed, preferred, queue, entries, keys);
      r.Success? ==> Extends(r.value, processed, preferred, entries, keys)
    decreases |space - processed|, |queue|, 1
  {
    if queue == [] {
      assert entries[..|entries|] == entries && keys[..|keys|] == keys;
    } else if Key(queue[0]) in processed {
      DrainSpec(build, space, processed, preferred, queue[1..], entries, keys);
    } else {
      DrainSpecNew(build, space, processed, preferred, queue, entries, keys);
    }
  }

  /** The step of that proof for a request whose key is new. */
  lemma {:induction false} DrainSpecNew(build: Builder, space: set<Generator.Pair>, processed: set<Generator.Pair>,
                                       preferred: map<string, string>, queue: seq<Request>,
                                       entries: seq<Suggestion>, keys: seq<Generator.Pair>)
    requires Confined(build, space)
    requires forall q :: q in queue ==> Key(q) in space
    requires DrainInv(processed, entries, keys)
    requires queue != [] && Key(queue[0]) !in processed
    ensures var r := Drain(build, space, processed, preferred, queue, entries, keys);
      r.Success? ==> Extends(r.value, processed, preferred, entries, keys)
    decreases |space - processed|, |queue|, 0
  {
    var req := queue[0];
    var key := Key(req);
    var b := build(preferred, req);
    if b.Success? {
      var (entry, nested) := b.value;
      FewerLeftStrictPairs(space, processed, key);
      var keys' := keys + [key];
      var entries' := entries + [entry];
      DrainInvStep(processed, entries, keys, key, entry);
      var pref' := SetDefaults(preferred, nested);
      DrainSpec(build, space, processed + {key}, pref', queue[1..] + nested, entries', keys');
      var r := Drain(build, space, processed + {key}, pref', queue[1..] + nested, entries', keys');
      if r.Success? {
        ExtendsStep(r.value, processed, preferred, entries, keys, key, entry, pref');
      }
    }
  }

  lemma DrainInvStep(processed: set<Generator.Pair>, entries: seq<Suggestion>, keys: seq<Generator.Pair>,
                     key: Generator.Pair, entry: Suggestion)
    requires DrainInv(processed, entries, keys) && key !in processed && entry.to == key.1
    ensures DrainInv(processed + {key}, entries + [entry], keys + [key])
  {
  }

  /** `build_map`, as specified: the names given, then each request's name
      for its destination type unless one is recorded, then the worklist
      from the requests in order. */
  function BuildMapOf(p: Schema.Provider, requests: seq<Request>, preferred: Option<map<string, string>>)
    : Result<Drained, string>
  {
    var names := SetDefaults(if preferred.Some? then preferred.value else map[], requests);
    EntryBuilderConfined(p, Space(p, requests));
    Drain(EntryBuilder(p), Space(p, requests), {}, names, requests, [], [])
  }

  /** `build_map` writes at most one entry per key, each to its key's
      destination, and keeps the names it was given; a destination type
      without a given name keeps the name of its first request. */
  lemma BuildMapSpec(p: Schema.Provider, requests: seq<Request>, preferred: Option<map<string, string>>)
    ensures var r := BuildMapOf(p, requests, preferred);
      var given := if preferred.Some? then preferred.value else map[];
      r.Success? ==>
        |r.value.entries| == |r.value.keys| &&
        (forall i, j :: 0 <= i < j < |r.value.keys| ==> r.value.keys[i] != r.value.keys[j]) &&
        (forall i :: 0 <= i < |r.value.keys| ==> r.value.entries[i].to == r.value.keys[i].1) &&
        (forall x :: x in given ==> x in r.value.preferred && r.value.preferred[x] == given[x]) &&
        (forall i :: 0 <= i < |requests| && requests[i].toType !in given &&
                     (forall j :: 0 <= j < i ==> requests[j].toType != requests[i].toType) ==>
                       requests[i].toType in r.value.preferred &&
                       r.value.preferred[requests[i].toType] == requests[i].name)
  {
    var given := if preferred.Some? then preferred.value else map[];
    var names := SetDefaults(given, requests);
    var space := Space(p, requests);
    EntryBuilderConfined(p, space);
    DrainSpec(EntryBuilder(p), space, {}, names, requests, [], []);
    forall i | 0 <= i < |requests| && requests[i].toType !in given &&
               (forall j :: 0 <= j < i ==> requests[j].toType != requests[i].toType)
      ensures requests[i].toType in names && names[requests[i].toType] == requests[i].name {
      SetDefaultsFirst(given, requests, i);
    }
  }

  // ---------------------------------------------------------------------
  // `update_map`

  /** The entry's name when it is non-empty, else the name derived from its
      destination. */
  function EntryName(x: Json): string {
    if StrMember(x, "name") != [] then StrMember(x, "name") else DefaultName(StrMember(x, "to"))
  }

  /** The source an entry names, when it is a declared type rather than a
      placeholder. */
  function EntrySource(p: Schema.Provider, x: Json): (r: Option<string>)
    ensures r.Some? ==> !Validation.IsPlaceholderStr(r.value) && HasSupportedType(p, Schema.From, r.value)
    ensures r.Some? <==> IsStr(Member(x, "from")) && !Validation.IsPlaceholderStr(Member(x, "from").value.s) &&
                         HasSupportedType(p, Schema.From, Member(x, "from").value.s)
  {
    var f := Member(x, "from");
    if IsStr(f) && !Validation.IsPlaceholderStr(f.value.s) && HasSupportedType(p, Schema.From, f.value.s) then
      Some(f.value.s)
    else None
  }

  /** The entry's field dictionary, when it has one. */
  function EntryFields(x: Json): Option<Dict<string, Json>> {
    if IsObject(Member(x, "fields")) then Some(Member(x, "fields").value.members) else None
  }

  /** The stripped `to` of an entry. */
  function DestOf(x: Json): string {
    Strip(StrMember(x, "to"))
  }

  /** A dictionary entry naming the destination `t`. */
  predicate NamesDestination(x: Json, t: string) {
    x.JObj? && t != [] && DestOf(x) == t
  }

  /** The names read back from the entries of a file:
      `preferred_names[to_type] = name` for each entry with a destination. */
  function Names(ms: seq<Json>): map<string, string>
    decreases |ms|
  {
    if ms == [] then map[]
    else
      var x := ms[|ms| - 1];
      if NamesDestination(x, DestOf(x)) then Names(ms[..|ms| - 1])[DestOf(x) := EntryName(x)]
      else Names(ms[..|ms| - 1])
  }

  /** The requests read back from the entries of a file: one for each entry
      with a destination that holds more than placeholders. */
  function Requests(p: Schema.Provider, ms: seq<Json>): seq<Request>
    decreases |ms|
  {
    if ms == [] then []
    else
      var x := ms[|ms| - 1];
      if NamesDestination(x, DestOf(x)) && !AllPlaceholders(x.members) then
        Requests(p, ms[..|ms| - 1]) + [Request(EntryName(x), DestOf(x), EntrySource(p, x), EntryFields(x))]
      else Requests(p, ms[..|ms| - 1])
  }

  /** Reading back one more entry. */
  lemma ReadBackStep(p: Schema.Provider, ms: seq<Json>, i: nat)
    requires i < |ms|
    ensures var x, d := ms[i], DestOf(ms[i]);
      Names(ms[..i + 1]) == (if NamesDestination(x, d) then Names(ms[..i])[d := EntryName(x)] else Names(ms[..i])) &&
      Requests(p, ms[..i + 1]) ==
        (if NamesDestination(x, d) && !AllPlaceholders(x.members)
         then Requests(p, ms[..i]) + [Request(EntryName(x), d, EntrySource(p, x), EntryFields(x))]
         else Requests(p, ms[..i]))
  {
    assert ms[..i + 1] == ms[..i] + [ms[i]];
    NamesSnoc(ms[..i], ms[i]);
    RequestsSnoc(p, ms[..i], ms[i]);
  }

  lemma NamesSnoc(a: seq<Json>, x: Json)
    ensures Names(a + [x]) == if NamesDestination(x, DestOf(x)) then Names(a)[DestOf(x) := EntryName(x)] else Names(a)
  {
    assert (a + [x])[..|a|] == a;
  }

  lemma RequestsSnoc(p: Schema.Provider, a: seq<Json>, x: Json)
    ensures Requests(p, a + [x]) ==
      if NamesDestination(x, DestOf(x)) && !AllPlaceholders(x.members)
      then Requests(p, a) + [Request(EntryName(x), DestOf(x), EntrySource(p, x), EntryFields(x))]
      else Requests(p, a)
  {
    assert (a + [x])[..|a|] == a;
  }

  /** Reading back the entries records a name for every destination they
      name ... */
  lemma {:induction false} NamesCover(ms: seq<Json>, i: nat, t: string)
    requires i < |ms| && NamesDestination(ms[i], t)
    ensures t in Names(ms)
    decreases |ms|
  {
    if i < |ms| - 1 {
      assert ms[..|ms| - 1][i] == ms[i];
      NamesCover(ms[..|ms| - 1], i, t);
      NamesKeeps(ms, t);
    } else {
      NamesHere(ms);
    }
  }

  /** A later entry never drops a destination that has a name. */
  lemma NamesKeeps(ms: seq<Json>, t: string)
    requires ms != [] && t in Names(ms[..|ms| - 1])
    ensures t in Names(ms)
  {
  }

  /** ... and for no other. */
  lemma {:induction false} NamesNamed(ms: seq<Json>, t: string) returns (i: nat)
    requires t in Names(ms)
    ensures i < |ms| && NamesDestination(ms[i], t)
    decreases |ms|
  {
    NamesBefore(ms, t);
    if NamesDestination(ms[|ms| - 1], t) {
      i := |ms| - 1;
    } else {
      i := NamesNamed(ms[..|ms| - 1], t);
      assert ms[..|ms| - 1][i] == ms[i];
    }
  }

  lemma NamesBefore(ms: seq<Json>, t: string)
    requires t in Names(ms)
    ensures ms != [] && (NamesDestination(ms[|ms| - 1], t) || t in Names(ms[..|ms| - 1]))
  {
  }

  /** The name recorded for a destination is that of the last entry naming
      it. */
  lemma {:induction false} NamesLast(ms: seq<Json>, i: nat)
    requires i < |ms| && NamesDestination(ms[i], DestOf(ms[i]))
    requires forall j :: i < j < |ms| ==> !NamesDestination(ms[j], DestOf(ms[i]))
    ensures DestOf(ms[i]) in Names(ms) && Names(ms)[DestOf(ms[i])] == EntryName(ms[i])
    decreases |ms|
  {
    if i < |ms| - 1 {
      NamesSkip(ms, DestOf(ms[i]));
      assert ms[..|ms| - 1][i] == ms[i];
      NamesLast(ms[..|ms| - 1], i);
    } else {
      NamesHere(ms);
    }
  }

  /** An entry that does not name a destination leaves its name alone ... */
  lemma NamesSkip(ms: seq<Json>, t: string)
    requires ms != [] && !NamesDestination(ms[|ms| - 1], t)
    ensures (t in Names(ms)) == (t in Names(ms[..|ms| - 1]))
    ensures t in Names(ms) ==> Names(ms)[t] == Names(ms[..|ms| - 1])[t]
  {
    var x := ms[|ms| - 1];
    if NamesDestination(x, DestOf(x)) {
      assert DestOf(x) != t;
    }
  }

  /** ... and the last entry naming one sets it. */
  lemma NamesHere(ms: seq<Json>)
    requires ms != [] && NamesDestination(ms[|ms| - 1], DestOf(ms[|ms| - 1]))
    ensures DestOf(ms[|ms| - 1]) in Names(ms) && Names(ms)[DestOf(ms[|ms| - 1])] == EntryName(ms[|ms| - 1])
  {
  }

  /** Each request read back goes to a destination named by the entry it
      was read from, and its source, when it has one, is a declared type. */
  lemma {:induction false} RequestsNamed(p: Schema.Provider, ms: seq<Json>, q: Request) returns (i: nat)
    requires q in Requests(p, ms)
    ensures i < |ms| && NamesDestination(ms[i], q.toType) && q.name == EntryName(ms[i])
    ensures q.fromType.Some? ==> HasSupportedType(p, Schema.From, q.fromType.value) &&
                                 !Validation.IsPlaceholderStr(q.fromType.value)
    decreases |ms|
  {
    var init, x := ms[..|ms| - 1], ms[|ms| - 1];
    if q in Requests(p, init) {
      i := RequestsNamed(p, init, q);
      assert ms[i] == init[i];
    } else {
      i := |ms| - 1;
      assert q == Request(EntryName(x), DestOf(x), EntrySource(p, x), EntryFields(x));
    }
  }

  /** Each suggestion under its destination, in order, before the last of
      those sharing a destination wins. */
  function ByToPairs(ss: seq<Suggestion>): (r: seq<(string, Suggestion)>)
    ensures |r| == |ss| && forall i :: 0 <= i < |ss| ==> r[i] == (ss[i].to, ss[i])
  {
    seq(|ss|, i requires 0 <= i < |ss| => (ss[i].to, ss[i]))
  }

  /** The destination an entry is indexed under: the text of its `to`
      member, when that member is truthy. */
  predicate IndexedUnder(x: Json, t: string) {
    x.JObj? && Member(x, "to").Some? && Truthy(Member(x, "to").value) && Str(Member(x, "to").value) == t
  }

  /** The existing entries that have a destination, each under that
      destination and given by its position in the list. */
  function ExistingPairs(ms: seq<Json>): (r: seq<(string, nat)>)
    ensures forall k :: 0 <= k < |r| ==> r[k].1 < |ms| && IndexedUnder(ms[r[k].1], r[k].0)
    ensures forall i :: 0 <= i < |ms| && ms[i].JObj? && Member(ms[i], "to").Some? && Truthy(Member(ms[i], "to").value) ==>
              (Str(Member(ms[i], "to").value), i) in r
    decreases |ms|
  {
    if ms == [] then []
    else
      var init := ExistingPairs(ms[..|ms| - 1]);
      var x := ms[|ms| - 1];
      if x.JObj? && Member(x, "to").Some? && Truthy(Member(x, "to").value) then
        init + [(Str(Member(x, "to").value), |ms| - 1)]
      else init
  }

  /** Whether an unparsed `from` is a placeholder. */
  predicate IsPlaceholderOpt(x: Option<Json>) {
    x.Some? && Validation.IsPlaceholder(x.value)
  }

  /** The `from` an existing entry takes from its suggestion, if it changes:
      a string source changes to a different suggested source, unless both
      are placeholders. */
  function FromUpdate(existing: Option<Json>, sugg: string): (r: Option<string>)
    ensures r.Some? ==> r.value == sugg
    ensures r.Some? <==> IsStr(existing) && existing.value.s != sugg &&
                         !(Validation.IsPlaceholderStr(existing.value.s) && Validation.IsPlaceholderStr(sugg))
  {
    if IsPlaceholderOpt(existing) && !Validation.IsPlaceholderStr(sugg) then Some(sugg)
    else if !Validation.IsPlaceholderStr(sugg) && IsStr(existing) && !Validation.IsPlaceholderStr(existing.value.s) &&
            existing.value.s != sugg then Some(sugg)
    else if Validation.IsPlaceholderStr(sugg) && IsStr(existing) && !Validation.IsPlaceholderStr(existing.value.s) then
      Some(sugg)
    else None
  }

  /** Whether a suggested field value overwrites the current one. */
  function FieldUpdate(current: Option<Json>, sugg: Json): (r: bool)
    ensures current.Some? && current.value != JNull && !current.value.JStr? ==> !r
    ensures !Validation.IsPlaceholder(sugg) ==>
              (r <==> current.None? || current == Some(JNull) || Validation.IsPlaceholder(current.value))
    ensures Validation.IsPlaceholder(sugg) ==> (r <==> IsStr(current) && !Validation.IsPlaceholder(current.value))
  {
    ((current.None? || current == Some(JNull) || IsPlaceholderOpt(current)) && !Validation.IsPlaceholder(sugg)) ||
    (sugg.JStr? && Validation.IsPlaceholder(sugg) && IsStr(current) && !IsPlaceholderOpt(current))
  }

  /** The suggested fields from position `i` on merged into `fields`: each
      suggestion that applies overwrites the field of the same name. */
  function FieldsFold(fields: Dict<string, Json>, sugg: Dict<string, Json>, i: nat, changed: bool)
    : (Dict<string, Json>, bool)
    requires i <= |sugg|
    decreases |sugg| - i
  {
    if i == |sugg| then (fields, changed)
    else if FieldUpdate(Get(fields, sugg[i].0), sugg[i].1) then
      FieldsFold(Insert(fields, sugg[i].0, sugg[i].1), sugg, i + 1, true)
    else FieldsFold(fields, sugg, i + 1, changed)
  }

  /** Merging suggested fields with distinct names: a suggested field
      takes the suggested value exactly when it overwrites the current one,
      and every other field keeps its value ... */
  lemma {:induction false} FieldsFoldValues(fields: Dict<string, Json>, sugg: Dict<string, Json>, i: nat, changed: bool)
    requires i <= |sugg| && UniqueKeys(sugg)
    ensures var r := FieldsFold(fields, sugg, i, changed).0;
      (forall k :: (forall j :: i <= j < |sugg| ==> sugg[j].0 != k) ==> Get(r, k) == Get(fields, k)) &&
      (forall j :: i <= j < |sugg| ==>
         Get(r, sugg[j].0) == if FieldUpdate(Get(fields, sugg[j].0), sugg[j].1) then Some(sugg[j].1)
                              else Get(fields, sugg[j].0))
    decreases |sugg| - i
  {
    if i < |sugg| {
      var k0 := sugg[i].0;
      if FieldUpdate(Get(fields, k0), sugg[i].1) {
        var f' := Insert(fields, k0, sugg[i].1);
        FieldsFoldValues(f', sugg, i + 1, true);
        GetInsertSame(fields, k0, sugg[i].1);
        forall k | k != k0 ensures Get(f', k) == Get(fields, k) {
          GetInsertOther(fields, k0, sugg[i].1, k);
        }
      } else {
        FieldsFoldValues(fields, sugg, i + 1, changed);
      }
    }
  }

  /** ... and the merge reports a change exactly when some field was
      overwritten. */
  lemma {:induction false} FieldsFoldChanged(fields: Dict<string, Json>, sugg: Dict<string, Json>, i: nat, changed: bool)
    requires i <= |sugg|
    ensures FieldsFold(fields, sugg, i, changed).1 <==>
      changed || exists j :: i <= j < |sugg| && FieldUpdate(Get(fields, sugg[j].0), sugg[j].1)
    decreases |sugg| - i
  {
    if i < |sugg| {
      if FieldUpdate(Get(fields, sugg[i].0), sugg[i].1) {
        FieldsFoldChanged(Insert(fields, sugg[i].0, sugg[i].1), sugg, i + 1, true);
      } else {
        FieldsFoldChanged(fields, sugg, i + 1, changed);
      }
    }
  }

  /** The entry with its source replaced by the suggested one when
      `FromUpdate` says so. */
  function SetFrom(e: Dict<string, Json>, s: Suggestion): Dict<string, Json> {
    var fu := FromUpdate(Get(e, "from"), s.from);
    if fu.Some? then Insert(e, "from", JStr(fu.value)) else e
  }

  lemma SetFromSpec(e: Dict<string, Json>, s: Suggestion)
    ensures var fu := FromUpdate(Get(e, "from"), s.from);
      Get(SetFrom(e, s), "from") == (if fu.Some? then Some(JStr(s.from)) else Get(e, "from")) &&
      forall k :: k != "from" ==> Get(SetFrom(e, s), k) == Get(e, k)
  {
    var fu := FromUpdate(Get(e, "from"), s.from);
    if fu.Some? {
      GetInsertSame(e, "from", JStr(fu.value));
      forall k | k != "from" ensures Get(SetFrom(e, s), k) == Get(e, k) {
        GetInsertOther(e, "from", JStr(fu.value), k);
      }
    }
  }

  /** `existing.setdefault("fields", {})`. */
  function FieldsDefault(e: Dict<string, Json>): Dict<string, Json> {
    if Get(e, "fields").None? then Insert(e, "fields", JObj([])) else e
  }

  lemma FieldsDefaultSpec(e: Dict<string, Json>)
    ensures Get(FieldsDefault(e), "fields") == (if Get(e, "fields").None? then Some(JObj([])) else Get(e, "fields"))
    ensures forall k :: k != "fields" ==> Get(FieldsDefault(e), k) == Get(e, k)
  {
    if Get(e, "fields").None? {
      GetInsertSame(e, "fields", JObj([]));
      forall k | k != "fields" ensures Get(FieldsDefault(e), k) == Get(e, k) {
        GetInsertOther(e, "fields", JObj([]), k);
      }
    }
  }

  /** One existing entry merged with the suggestion for its destination:
      its `from` as `FromUpdate` says, a `fields` dictionary added when it
      has none, and the suggested fields merged into a dictionary. */
  function MergeEntry(e: Dict<string, Json>, s: Suggestion): (Dict<string, Json>, bool) {
    var e2 := FieldsDefault(SetFrom(e, s));
    var fromChanged := FromUpdate(Get(e, "from"), s.from).Some?;
    var f := Get(e2, "fields");
    if f.Some? && f.value.JObj? then
      var (nf, ch) := FieldsFold(f.value.members, s.fields, 0, false);
      (Insert(e2, "fields", JObj(nf)), fromChanged || ch)
    else (e2, fromChanged)
  }

  /** Merging leaves every key but `from` and `fields` alone and takes the
      suggested source as `FromUpdate` says; `fields` stays as it was when
      it is not a dictionary. */
  lemma MergeEntryKeeps(e: Dict<string, Json>, s: Suggestion)
    ensures var r := MergeEntry(e, s).0;
      var fu := FromUpdate(Get(e, "from"), s.from);
      (forall k :: k != "from" && k != "fields" ==> Get(r, k) == Get(e, k)) &&
      Get(r, "from") == (if fu.Some? then Some(JStr(s.from)) else Get(e, "from")) &&
      (Get(e, "fields").Some? && !Get(e, "fields").value.JObj? ==> Get(r, "fields") == Get(e, "fields"))
  {
    var e1 := SetFrom(e, s);
    var e2 := FieldsDefault(e1);
    SetFromSpec(e, s);
    FieldsDefaultSpec(e1);
    var f := Get(e2, "fields");
    if f.Some? && f.value.JObj? {
      var (nf, ch) := FieldsFold(f.value.members, s.fields, 0, false);
      GetInsertSame(e2, "fields", JObj(nf));
      forall k | k != "fields" ensures Get(Insert(e2, "fields", JObj(nf)), k) == Get(e2, k) {
        GetInsertOther(e2, "fields", JObj(nf), k);
      }
    }
  }

  /** Merging reports a change exactly when the source or a field was
      overwritten, a missing `fields` counting as an empty one. */
  lemma MergeEntryReports(e: Dict<string, Json>, s: Suggestion)
    ensures var ch := MergeEntry(e, s).1;
      var fu := FromUpdate(Get(e, "from"), s.from);
      var f := Get(e, "fields");
      (f.None? ==> ch == (fu.Some? || exists j :: 0 <= j < |s.fields| && FieldUpdate(None, s.fields[j].1))) &&
      (f.Some? && f.value.JObj? ==>
         ch == (fu.Some? || exists j :: 0 <= j < |s.fields| && FieldUpdate(Get(f.value.members, s.fields[j].0), s.fields[j].1))) &&
      (f.Some? && !f.value.JObj? ==> ch == fu.Some?)
  {
    var e1 := SetFrom(e, s);
    SetFromSpec(e, s);
    assert Get(e1, "fields") == Get(e, "fields");
    FieldsDefaultSpec(e1);
    var f := Get(FieldsDefault(e1), "fields");
    var g := Get(e, "fields");
    if g.None? {
      assert f == Some(JObj([]));
      FieldsFoldChanged([], s.fields, 0, false);
    } else if g.value.JObj? {
      assert f == g;
      FieldsFoldChanged(g.value.members, s.fields, 0, false);
    } else {
      assert f == g;
    }
  }

  /** Every index of `existing` points to a dictionary of `ms`. */
  ghost predicate PointsToEntries(existing: Dict<string, nat>, ms: seq<Json>) {
    forall k :: 0 <= k < |existing| ==> existing[k].1 < |ms| && ms[existing[k].1].JObj?
  }

  /** `existing_by_to`: the position of the last entry indexed under each
      destination, keys in order of first appearance. */
  function ExistingIndex(ms: seq<Json>): Dict<string, nat> {
    FromPairs<string, nat>(ExistingPairs(ms))
  }

  /** Each position in the index is that of a dictionary indexed under its
      key. */
  lemma ExistingIndexPoints(ms: seq<Json>)
    ensures forall k :: 0 <= k < |ExistingIndex(ms)| ==>
      ExistingIndex(ms)[k].1 < |ms| && IndexedUnder(ms[ExistingIndex(ms)[k].1], ExistingIndex(ms)[k].0)
    ensures PointsToEntries(ExistingIndex(ms), ms)
  {
    var ps := ExistingPairs(ms);
    var r := ExistingIndex(ms);
    forall k | 0 <= k < |r| ensures r[k].1 < |ms| && IndexedUnder(ms[r[k].1], r[k].0) {
      FromPairsAt(ps, k);
      var m :| 0 <= m < |ps| && ps[m] == r[k];
    }
  }

  /** How an existing entry is merged with its suggestion. */
  type Merger = (Dict<string, Json>, Suggestion) -> (Dict<string, Json>, bool)

  /** A merge that leaves the entry's `to` alone. */
  ghost predicate KeepsTo(merge: Merger) {
    forall e, s {:trigger merge(e, s)} :: Get(merge(e, s).0, "to") == Get(e, "to")
  }

  function Merging(): Merger {
    (e: Dict<string, Json>, s: Suggestion) => MergeEntry(e, s)
  }

  lemma MergingAt(e: Dict<string, Json>, s: Suggestion)
    ensures Merging()(e, s) == MergeEntry(e, s)
  {
  }

  lemma MergingKeepsTo()
    ensures KeepsTo(Merging())
  {
    forall e, s ensures Get(Merging()(e, s).0, "to") == Get(e, "to") {
      MergeEntryKeeps(e, s);
    }
  }

  /** The merge as it stands: the entries the list held, merged in place,
      the entries appended after them, and whether anything changed. */
  datatype Merged = Merged(base: seq<Json>, tail: seq<Suggestion>, changed: bool)

  /** The suggestions from position `i` on merged into the list: the
      existing entry for the destination, if any, is merged in place, and
      otherwise the suggestion is appended. */
  function MergeFold(merge: Merger, byTo: Dict<string, Suggestion>, existing: Dict<string, nat>, i: nat,
                     m: Merged): (r: Merged)
    requires i <= |byTo|
    ensures |r.base| == |m.base|
    decreases |byTo| - i
  {
    if i == |byTo| then m
    else MergeFold(merge, byTo, existing, i + 1, MergeStep(merge, byTo, existing, i, m))
  }

  /** A dictionary entry whose `to` reads as `t`. */
  predicate HasTo(x: Json, t: string) {
    x.JObj? && Member(x, "to").Some? && Str(Member(x, "to").value) == t
  }

  /** One step of the merge: the entry for the destination merged in place,
      or the suggestion appended. The index only points to dictionaries of
      the list (`PointsToEntries`), so the merge never meets the last case. */
  function MergeStep(merge: Merger, byTo: Dict<string, Suggestion>, existing: Dict<string, nat>, i: nat,
                     m: Merged): (r: Merged)
    requires i < |byTo|
    ensures |r.base| == |m.base|
  {
    var (t, s) := byTo[i];
    match Get(existing, t)
    case Some(j) =>
      if j < |m.base| && m.base[j].JObj? then
        var (e', ch) := merge(m.base[j].members, s);
        Merged(m.base[j := JObj(e')], m.tail, m.changed || ch)
      else m
    case None => Merged(m.base, m.tail + [s], true)
  }

  /** A merge step keeps the index pointing to dictionaries. */
  lemma MergeStepPoints(merge: Merger, byTo: Dict<string, Suggestion>, existing: Dict<string, nat>, i: nat, m: Merged)
    requires i < |byTo| && PointsToEntries(existing, m.base)
    ensures PointsToEntries(existing, MergeStep(merge, byTo, existing, i, m).base)
  {
  }

  /** A merge step appends only the suggestion, when it has no entry, and
      reports a change when it appends. */
  lemma MergeStepTail(merge: Merger, byTo: Dict<string, Suggestion>, existing: Dict<string, nat>, i: nat, m: Merged)
    requires i < |byTo|
    ensures var r := MergeStep(merge, byTo, existing, i, m);
      (Get(existing, byTo[i].0).Some? ==> r.tail == m.tail) &&
      (Get(existing, byTo[i].0).None? ==> r.tail == m.tail + [byTo[i].1] && r.changed) &&
      (m.changed ==> r.changed)
  {
  }

  /** The suggestions from position `i` on that have no entry. */
  function Appended(byTo: Dict<string, Suggestion>, existing: Dict<string, nat>, i: nat): seq<Suggestion>
    requires i <= |byTo|
    decreases |byTo| - i
  {
    if i == |byTo| then []
    else if Get(existing, byTo[i].0).None? then [byTo[i].1] + Appended(byTo, existing, i + 1)
    else Appended(byTo, existing, i + 1)
  }

  /** Every suggestion without an entry is appended. */
  lemma {:induction false} AppendedHolds(byTo: Dict<string, Suggestion>, existing: Dict<string, nat>, i: nat, k: nat)
    requires i <= k < |byTo| && Get(existing, byTo[k].0).None?
    ensures byTo[k].1 in Appended(byTo, existing, i)
    decreases |byTo| - i
  {
    if i < k {
      AppendedHolds(byTo, existing, i + 1, k);
    }
  }

  lemma AppendStep<T>(before: seq<T>, after: seq<T>, final: seq<T>, e: T, rest: seq<T>, all: seq<T>)
    requires after == before + [e] && final == after + rest && all == [e] + rest
    ensures final == before + all
  {
  }

  /** Merging appends exactly the entries of the suggestions that have no
      entry, in order. */
  lemma {:induction false} MergeFoldAppends(merge: Merger, byTo: Dict<string, Suggestion>, existing: Dict<string, nat>,
                                           i: nat, m: Merged)
    requires i <= |byTo|
    ensures MergeFold(merge, byTo, existing, i, m).tail == m.tail + Appended(byTo, existing, i)
    decreases |byTo| - i
  {
    if i < |byTo| {
      var n := MergeStep(merge, byTo, existing, i, m);
      MergeStepTail(merge, byTo, existing, i, m);
      MergeFoldAppends(merge, byTo, existing, i + 1, n);
      assert MergeFold(merge, byTo, existing, i, m) == MergeFold(merge, byTo, existing, i + 1, n);
      if Get(existing, byTo[i].0).None? {
        AppendStep(m.tail, n.tail, MergeFold(merge, byTo, existing, i, m).tail, byTo[i].1,
                   Appended(byTo, existing, i + 1), Appended(byTo, existing, i));
      } else {
        assert Appended(byTo, existing, i) == Appended(byTo, existing, i + 1);
      }
    }
  }

  /** Merging never clears the changed flag ... */
  lemma {:induction false} MergeFoldStaysChanged(merge: Merger, byTo: Dict<string, Suggestion>,
                                                existing: Dict<string, nat>, i: nat, m: Merged)
    requires i <= |byTo| && m.changed
    ensures MergeFold(merge, byTo, existing, i, m).changed
    decreases |byTo| - i
  {
    if i < |byTo| {
      var n := MergeStep(merge, byTo, existing, i, m);
      MergeStepTail(merge, byTo, existing, i, m);
      MergeFoldStaysChanged(merge, byTo, existing, i + 1, n);
      assert MergeFold(merge, byTo, existing, i, m) == MergeFold(merge, byTo, existing, i + 1, n);
    }
  }

  /** ... and sets it when a suggestion has no entry to merge into. */
  lemma {:induction false} MergeFoldAppendChanges(merge: Merger, byTo: Dict<string, Suggestion>,
                                                 existing: Dict<string, nat>, i: nat, m: Merged, k: nat)
    requires i <= k < |byTo| && Get(existing, byTo[k].0).None?
    ensures MergeFold(merge, byTo, existing, i, m).changed
    decreases |byTo| - i
  {
    var n := MergeStep(merge, byTo, existing, i, m);
    MergeStepTail(merge, byTo, existing, i, m);
    assert MergeFold(merge, byTo, existing, i, m) == MergeFold(merge, byTo, existing, i + 1, n);
    if i == k {
      MergeFoldStaysChanged(merge, byTo, existing, i + 1, n);
    } else {
      MergeFoldAppendChanges(merge, byTo, existing, i + 1, n, k);
    }
  }

  /** A destination in the index points to a dictionary of the list. */
  lemma PointsAt(existing: Dict<string, nat>, ms: seq<Json>, t: string)
    requires PointsToEntries(existing, ms) && Get(existing, t).Some?
    ensures Get(existing, t).value < |ms| && ms[Get(existing, t).value].JObj?
  {
  }

  /** A merge step changes only the entry the suggestion points to. */
  lemma MergeStepAt(merge: Merger, byTo: Dict<string, Suggestion>, existing: Dict<string, nat>, i: nat, m: Merged, j: nat)
    requires i < |byTo| && j < |m.base|
    ensures MergeStep(merge, byTo, existing, i, m).base[j] ==
      if Get(existing, byTo[i].0) == Some(j) && m.base[j].JObj? then JObj(merge(m.base[j].members, byTo[i].1).0) else m.base[j]
  {
    match Get(existing, byTo[i].0)
    case None =>
    case Some(j') =>
      if j' < |m.base| && m.base[j'].JObj? {
        assert MergeStep(merge, byTo, existing, i, m).base == m.base[j' := JObj(merge(m.base[j'].members, byTo[i].1).0)];
      }
  }

  /** ... and when merging an entry reports a change. */
  lemma {:induction false} MergeFoldEntryChanges(merge: Merger, byTo: Dict<string, Suggestion>,
                                                existing: Dict<string, nat>, i: nat, m: Merged, k: nat, j: nat,
                                                x: Dict<string, Json>)
    requires i <= k < |byTo| && Get(existing, byTo[k].0) == Some(j)
    requires forall a {:trigger Get(existing, byTo[a].0)} :: i <= a < k ==> Get(existing, byTo[a].0) != Some(j)
    requires j < |m.base| && m.base[j] == JObj(x) && merge(x, byTo[k].1).1
    ensures MergeFold(merge, byTo, existing, i, m).changed
    decreases |byTo| - i
  {
    if i == k {
      MergeStepChanges(merge, byTo, existing, i, m, j, x);
      MergeFoldStaysChanged(merge, byTo, existing, i + 1, MergeStep(merge, byTo, existing, i, m));
    } else {
      var n := MergeStep(merge, byTo, existing, i, m);
      MergeStepAt(merge, byTo, existing, i, m, j);
      MergeFoldEntryChanges(merge, byTo, existing, i + 1, n, k, j, x);
    }
    assert MergeFold(merge, byTo, existing, i, m) ==
           MergeFold(merge, byTo, existing, i + 1, MergeStep(merge, byTo, existing, i, m));
  }

  /** A merge step reports a change when merging its entry does. */
  lemma MergeStepChanges(merge: Merger, byTo: Dict<string, Suggestion>, existing: Dict<string, nat>, i: nat, m: Merged,
                         j: nat, x: Dict<string, Json>)
    requires i < |byTo| && Get(existing, byTo[i].0) == Some(j)
    requires j < |m.base| && m.base[j] == JObj(x) && merge(x, byTo[i].1).1
    ensures MergeStep(merge, byTo, existing, i, m).changed
  {
    assert MergeStep(merge, byTo, existing, i, m).changed == (m.changed || merge(x, byTo[i].1).1);
  }

  /** What the steps from `i` on make of the entry at position `j`. */
  function MergedAt(merge: Merger, byTo: Dict<string, Suggestion>, existing: Dict<string, nat>, i: nat, x: Json,
                    j: nat): Json
    requires i <= |byTo|
    decreases |byTo| - i
  {
    if i == |byTo| then x
    else if Get(existing, byTo[i].0) == Some(j) && x.JObj? then
      MergedAt(merge, byTo, existing, i + 1, JObj(merge(x.members, byTo[i].1).0), j)
    else MergedAt(merge, byTo, existing, i + 1, x, j)
  }

  lemma MergedAtStep(merge: Merger, byTo: Dict<string, Suggestion>, existing: Dict<string, nat>, i: nat, x: Json, j: nat)
    requires i < |byTo|
    ensures MergedAt(merge, byTo, existing, i, x, j) ==
      MergedAt(merge, byTo, existing, i + 1,
               if Get(existing, byTo[i].0) == Some(j) && x.JObj? then JObj(merge(x.members, byTo[i].1).0) else x, j)
  {
  }

  /** The merge makes of each entry what its own steps make of it. */
  lemma {:induction false} MergeFoldAt(merge: Merger, byTo: Dict<string, Suggestion>,
                                      existing: Dict<string, nat>, i: nat, m: Merged, j: nat)
    requires i <= |byTo| && j < |m.base|
    ensures MergeFold(merge, byTo, existing, i, m).base[j] == MergedAt(merge, byTo, existing, i, m.base[j], j)
    decreases |byTo| - i
  {
    if i < |byTo| {
      var n := MergeStep(merge, byTo, existing, i, m);
      MergeFoldUnfold(merge, byTo, existing, i, m);
      MergeStepAt(merge, byTo, existing, i, m, j);
      MergedAtStep(merge, byTo, existing, i, m.base[j], j);
      MergeFoldAt(merge, byTo, existing, i + 1, n, j);
    }
  }

  /** Merging keeps an entry a dictionary exactly when it was one, with its
      `to` unchanged. */
  lemma {:induction false} MergedAtKeeps(merge: Merger, byTo: Dict<string, Suggestion>,
                                        existing: Dict<string, nat>, i: nat, x: Json, j: nat)
    requires i <= |byTo| && KeepsTo(merge)
    ensures var r := MergedAt(merge, byTo, existing, i, x, j);
      r.JObj? == x.JObj? && Member(r, "to") == Member(x, "to")
    decreases |byTo| - i
  {
    if i < |byTo| {
      if Get(existing, byTo[i].0) == Some(j) && x.JObj? {
        var x' := JObj(merge(x.members, byTo[i].1).0);
        assert Member(x', "to") == Member(x, "to");
        MergedAtKeeps(merge, byTo, existing, i + 1, x', j);
      } else {
        MergedAtKeeps(merge, byTo, existing, i + 1, x, j);
      }
    }
  }

  /** An entry no later suggestion points to stays as it is ... */
  lemma {:induction false} MergedAtUntouched(merge: Merger, byTo: Dict<string, Suggestion>,
                                            existing: Dict<string, nat>, i: nat, x: Json, j: nat)
    requires i <= |byTo|
    requires forall a {:trigger Get(existing, byTo[a].0)} :: i <= a < |byTo| ==> Get(existing, byTo[a].0) != Some(j)
    ensures MergedAt(merge, byTo, existing, i, x, j) == x
    decreases |byTo| - i
  {
    if i < |byTo| {
      MergedAtUntouched(merge, byTo, existing, i + 1, x, j);
    }
  }

  /** ... and the entry exactly one suggestion points to is merged with it. */
  lemma {:induction false} MergedAtOnce(merge: Merger, byTo: Dict<string, Suggestion>,
                                       existing: Dict<string, nat>, i: nat, x: Json, k: nat, j: nat)
    requires i <= k < |byTo| && Get(existing, byTo[k].0) == Some(j) && x.JObj?
    requires forall a {:trigger Get(existing, byTo[a].0)} :: i <= a < |byTo| && a != k ==> Get(existing, byTo[a].0) != Some(j)
    ensures MergedAt(merge, byTo, existing, i, x, j) == JObj(merge(x.members, byTo[k].1).0)
    decreases |byTo| - i
  {
    if i == k {
      MergedAtHere(merge, byTo, existing, k, x, j);
    } else {
      MergedAtSkip(merge, byTo, existing, i, x, j);
      MergedAtOnce(merge, byTo, existing, i + 1, x, k, j);
    }
  }

  /** A step whose suggestion points elsewhere leaves the entry alone. */
  lemma MergedAtSkip(merge: Merger, byTo: Dict<string, Suggestion>, existing: Dict<string, nat>, i: nat, x: Json, j: nat)
    requires i < |byTo| && Get(existing, byTo[i].0) != Some(j)
    ensures MergedAt(merge, byTo, existing, i, x, j) == MergedAt(merge, byTo, existing, i + 1, x, j)
  {
  }

  /** The step of the one suggestion pointing to the entry. */
  lemma MergedAtHere(merge: Merger, byTo: Dict<string, Suggestion>, existing: Dict<string, nat>, k: nat, x: Json, j: nat)
    requires k < |byTo| && Get(existing, byTo[k].0) == Some(j) && x.JObj?
    requires forall a {:trigger Get(existing, byTo[a].0)} :: k < a < |byTo| ==> Get(existing, byTo[a].0) != Some(j)
    ensures MergedAt(merge, byTo, existing, k, x, j) == JObj(merge(x.members, byTo[k].1).0)
  {
    MergedAtUntouched(merge, byTo, existing, k + 1, JObj(merge(x.members, byTo[k].1).0), j);
  }

  /** Python's name for the type of a value. */
  function PyTypeName(x: Json): string {
    match x
    case JNull => "NoneType"
    case JBool(_) => "bool"
    case JInt(_) => "int"
    case JFloat(_) => "float"
    case JStr(_) => "str"
    case JArr(_) => "list"
    case JObj(_) => "dict"
  }

  /** The text of an entry's destination, which fails on anything but a
      dictionary. */
  function ToText(x: Json): (r: Result<string, string>)
    ensures r.Success? <==> x.JObj?
    ensures x.JObj? && Member(x, "to").Some? ==> r == Success(Str(Member(x, "to").value))
  {
    if !x.JObj? then Failure("'" + PyTypeName(x) + "' object has no attribute 'get'")
    else match Member(x, "to")
      case None => Success("None")
      case Some(v) => Success(Str(v))
  }

  /** The entries whose destination is not obsolete, in order; an entry
      that is not a dictionary makes it fail. */
  function KeepCurrent(ms: seq<Json>, obsolete: set<string>): (r: Result<seq<Json>, string>)
    ensures r.Success? <==> forall i :: 0 <= i < |ms| ==> ms[i].JObj?
    ensures r.Success? ==> forall x :: x in r.value <==> x in ms && ToText(x).value !in obsolete
    ensures r.Success? ==> |r.value| <= |ms|
    ensures r.Success? && (exists i :: 0 <= i < |ms| && ToText(ms[i]).value in obsolete) ==> |r.value| < |ms|
    decreases |ms|
  {
    if ms == [] then Success([])
    else
      match ToText(ms[0])
      case Failure(e) => Failure(e)
      case Success(t) =>
        match KeepCurrent(ms[1..], obsolete)
        case Failure(e) => Failure(e)
        case Success(rest) =>
          assert ms == [ms[0]] + ms[1..];
          Success(if t in obsolete then rest else [ms[0]] + rest)
  }

  /** `suggestion_by_to`: each suggestion under its destination, the last
      one for a destination winning. */
  function SuggestedByTo(ss: seq<Suggestion>): (r: Dict<string, Suggestion>)
    ensures UniqueKeys(r)
    ensures forall k :: 0 <= k < |r| ==> r[k].1 in ss && r[k].1.to == r[k].0
    ensures forall t :: t in Keys(r) <==> exists s :: s in ss && s.to == t
  {
    var ps := ByToPairs(ss);
    var r := FromPairs(ps);
    FromPairsSpec(ps);
    DedupSpec(Keys(ps));
    FromPairsFrom(ps);
    forall k | 0 <= k < |r| ensures r[k].1 in ss && r[k].1.to == r[k].0 {
      assert r[k] in r;
    }
    forall t ensures t in Keys(r) <==> exists s :: s in ss && s.to == t {
      if t in Keys(r) {
        var k :| 0 <= k < |Keys(ps)| && Keys(ps)[k] == t;
        assert ss[k] in ss && ss[k].to == t;
      }
      if s :| s in ss && s.to == t {
        var k :| 0 <= k < |ss| && ss[k] == s;
        assert Keys(ps)[k] == t;
      }
    }
    r
  }

  /** The destinations indexed in the list that no suggestion names. */
  function Obsolete(existing: Dict<string, nat>, byTo: Dict<string, Suggestion>): set<string> {
    set k | k in Keys(existing) && k !in Keys(byTo)
  }

  /** The list merged with the suggestions, before obsolete entries go: the
      suggestions without an entry follow the list. */
  function MergeAll(ms: seq<Json>, byTo: Dict<string, Suggestion>): (r: Merged)
    ensures |r.base| == |ms|
  {
    ExistingIndexPoints(ms);
    MergeFold(Merging(), byTo, ExistingIndex(ms), 0, Merged(ms, [], false))
  }

  /** The list as merged: its own entries, then those appended. */
  function MergedList(ms: seq<Json>, byTo: Dict<string, Suggestion>): seq<Json> {
    MergeAll(ms, byTo).base + EntryJsons(MergeAll(ms, byTo).tail)
  }

  /** The merge and the removal of obsolete entries: the changed flag and
      the new list, or the error of reading `to` from an entry that is not
      a dictionary. */
  function MergeInto(ms: seq<Json>, byTo: Dict<string, Suggestion>): Result<(bool, seq<Json>), string> {
    var mg := MergeAll(ms, byTo);
    var merged := MergedList(ms, byTo);
    var obsolete := Obsolete(ExistingIndex(ms), byTo);
    if obsolete == {} then Success((mg.changed, merged))
    else
      match KeepCurrent(merged, obsolete)
      case Failure(e) => Failure(e)
      case Success(kept) =>
        if |kept| != |merged| then Success((true, kept)) else Success((mg.changed, merged))
  }

  /** The merge keeps each entry of the list in place, a dictionary exactly
      when it was one and with its `to` unchanged, ... */
  lemma MergeAllKeeps(ms: seq<Json>, byTo: Dict<string, Suggestion>)
    ensures var r := MergeAll(ms, byTo);
      forall j :: 0 <= j < |ms| ==> r.base[j].JObj? == ms[j].JObj? && Member(r.base[j], "to") == Member(ms[j], "to")
  {
    ExistingIndexPoints(ms);
    MergingKeepsTo();
    forall j | 0 <= j < |ms|
      ensures MergeAll(ms, byTo).base[j].JObj? == ms[j].JObj? && Member(MergeAll(ms, byTo).base[j], "to") == Member(ms[j], "to") {
      MergeFoldAt(Merging(), byTo, ExistingIndex(ms), 0, Merged(ms, [], false), j);
      MergedAtKeeps(Merging(), byTo, ExistingIndex(ms), 0, ms[j], j);
    }
  }

  /** ... appends the suggestions without an entry, in order, ... */
  lemma MergeAllAppends(ms: seq<Json>, byTo: Dict<string, Suggestion>)
    ensures MergeAll(ms, byTo).tail == Appended(byTo, ExistingIndex(ms), 0)
  {
    ExistingIndexPoints(ms);
    MergeFoldAppends(Merging(), byTo, ExistingIndex(ms), 0, Merged(ms, [], false));
  }

  /** ... and reports a change when it appends one. */
  lemma MergeAllAppendChanges(ms: seq<Json>, byTo: Dict<string, Suggestion>, k: nat)
    requires k < |byTo| && Get(ExistingIndex(ms), byTo[k].0).None?
    ensures MergeAll(ms, byTo).changed
  {
    ExistingIndexPoints(ms);
    MergeFoldAppendChanges(Merging(), byTo, ExistingIndex(ms), 0, Merged(ms, [], false), k);
  }

  /** An indexed destination is that of the entry it points to. */
  lemma ExistingIndexAt(ms: seq<Json>, a: nat)
    requires a < |ExistingIndex(ms)|
    ensures ExistingIndex(ms)[a].1 < |ms| && IndexedUnder(ms[ExistingIndex(ms)[a].1], ExistingIndex(ms)[a].0)
  {
    ExistingIndexPoints(ms);
  }

  /** The entry a suggested destination points to is merged with that
      suggestion, in place ... */
  lemma MergeAllMerges(ms: seq<Json>, byTo: Dict<string, Suggestion>, k: nat, j: nat)
    requires k < |byTo| && UniqueKeys(byTo) && Get(ExistingIndex(ms), byTo[k].0) == Some(j)
    ensures j < |ms| && ms[j].JObj? && MergeAll(ms, byTo).base[j] == JObj(MergeEntry(ms[j].members, byTo[k].1).0)
  {
    var existing := ExistingIndex(ms);
    ExistingIndexPoints(ms);
    PointsAt(existing, ms, byTo[k].0);
    MergeFoldAt(Merging(), byTo, existing, 0, Merged(ms, [], false), j);
    MergedAtOnce(Merging(), byTo, existing, 0, ms[j], k, j);
    MergingAt(ms[j].members, byTo[k].1);
  }

  /** The merge reports a change when merging an entry does. */
  lemma MergeAllEntryChanges(ms: seq<Json>, byTo: Dict<string, Suggestion>, k: nat, j: nat)
    requires k < |byTo| && UniqueKeys(byTo) && Get(ExistingIndex(ms), byTo[k].0) == Some(j)
    requires j < |ms| && ms[j].JObj? && MergeEntry(ms[j].members, byTo[k].1).1
    ensures MergeAll(ms, byTo).changed
  {
    ExistingIndexPoints(ms);
    MergingAt(ms[j].members, byTo[k].1);
    MergeFoldEntryChanges(Merging(), byTo, ExistingIndex(ms), 0, Merged(ms, [], false), k, j, ms[j].members);
  }

  /** ... and an entry no destination points to stays as it is. */
  lemma MergeAllUntouched(ms: seq<Json>, byTo: Dict<string, Suggestion>, j: nat)
    requires j < |ms| && forall a :: 0 <= a < |ExistingIndex(ms)| ==> ExistingIndex(ms)[a].1 != j
    ensures MergeAll(ms, byTo).base[j] == ms[j]
  {
    var existing := ExistingIndex(ms);
    ExistingIndexPoints(ms);
    MergeFoldAt(Merging(), byTo, existing, 0, Merged(ms, [], false), j);
    MergedAtUntouched(Merging(), byTo, existing, 0, ms[j], j);
  }

  /** The entries for suggestions are dictionaries. */
  lemma EntryJsonsObjects(ss: seq<Suggestion>)
    ensures forall x :: x in EntryJsons(ss) ==> x.JObj?
  {
    forall x | x in EntryJsons(ss) ensures x.JObj? {
      var k :| 0 <= k < |ss| && EntryJsons(ss)[k] == x;
      assert Member(x, "to").Some?;
    }
  }

  /** The merge fails exactly when an entry must be removed and the list
      holds something that is not a dictionary. */
  lemma MergeIntoFails(ms: seq<Json>, byTo: Dict<string, Suggestion>)
    ensures MergeInto(ms, byTo).Failure? <==>
      Obsolete(ExistingIndex(ms), byTo) != {} && exists i :: 0 <= i < |ms| && !ms[i].JObj?
  {
    var mg := MergeAll(ms, byTo);
    var merged := MergedList(ms, byTo);
    MergeAllKeeps(ms, byTo);
    EntryJsonsObjects(mg.tail);
    if i :| 0 <= i < |ms| && !ms[i].JObj? {
      assert !merged[i].JObj?;
    }
    if i :| 0 <= i < |merged| && !merged[i].JObj? {
      assert !ms[i].JObj?;
    }
  }

  /** After the merge every entry still indexed under a destination is
      under a suggested one. */
  lemma MergeIntoDropsObsolete(ms: seq<Json>, byTo: Dict<string, Suggestion>)
    ensures MergeInto(ms, byTo).Success? ==>
      forall x :: x in MergeInto(ms, byTo).value.1 && x.JObj? && ToText(x).value in Keys(ExistingIndex(ms)) ==>
        ToText(x).value in Keys(byTo)
  {
    var merged := MergedList(ms, byTo);
    var obsolete := Obsolete(ExistingIndex(ms), byTo);
    if MergeInto(ms, byTo).Success? {
      forall x | x in MergeInto(ms, byTo).value.1 && x.JObj? && ToText(x).value in Keys(ExistingIndex(ms))
        ensures ToText(x).value in Keys(byTo)
      {
        if obsolete != {} {
          var kept := KeepCurrent(merged, obsolete).value;
          if |kept| == |merged| {
            var i :| 0 <= i < |merged| && merged[i] == x;
            assert ToText(merged[i]).value !in obsolete;
          } else {
            assert x in kept;
          }
        }
        assert ToText(x).value !in obsolete;
      }
    }
  }

  /** The merged list keeps all its entries when none is obsolete, and
      otherwise the dictionaries indexed under a destination still
      suggested. */
  lemma MergeIntoMembers(ms: seq<Json>, byTo: Dict<string, Suggestion>)
    ensures MergeInto(ms, byTo).Success? ==>
      forall x :: x in MergeInto(ms, byTo).value.1 <==>
        x in MergedList(ms, byTo) && (x.JObj? ==> ToText(x).value !in Obsolete(ExistingIndex(ms), byTo))
  {
  }

  /** Each suggested destination has an entry in the merged list. */
  lemma MergedListHas(ms: seq<Json>, byTo: Dict<string, Suggestion>, k: nat) returns (x: Json)
    requires k < |byTo| && byTo[k].1.to == byTo[k].0
    ensures x in MergedList(ms, byTo) && HasTo(x, byTo[k].0)
  {
    var existing := ExistingIndex(ms);
    var t := byTo[k].0;
    match Get(existing, t)
    case Some(j) =>
      var a :| 0 <= a < |existing| && existing[a] == (t, j);
      ExistingIndexAt(ms, a);
      MergedListKeeps(ms, byTo, j, t);
      x := MergedList(ms, byTo)[j];
    case None =>
      MergedListAppends(ms, byTo, k);
      x := EntryJson(byTo[k].1);
  }

  /** An entry of the list keeps its destination in the merged list ... */
  lemma MergedListKeeps(ms: seq<Json>, byTo: Dict<string, Suggestion>, j: nat, t: string)
    requires j < |ms| && IndexedUnder(ms[j], t)
    ensures j < |MergedList(ms, byTo)| && HasTo(MergedList(ms, byTo)[j], t)
  {
    MergingKeepsTo();
    MergeFoldAt(Merging(), byTo, ExistingIndex(ms), 0, Merged(ms, [], false), j);
    MergedAtKeeps(Merging(), byTo, ExistingIndex(ms), 0, ms[j], j);
    assert MergedList(ms, byTo)[j] == MergeAll(ms, byTo).base[j];
  }

  /** ... and a suggestion without an entry has its own in it. */
  lemma MergedListAppends(ms: seq<Json>, byTo: Dict<string, Suggestion>, k: nat)
    requires k < |byTo| && Get(ExistingIndex(ms), byTo[k].0).None?
    ensures EntryJson(byTo[k].1) in MergedList(ms, byTo)
  {
    AppendedHolds(byTo, ExistingIndex(ms), 0, k);
    MergeAllAppends(ms, byTo);
    EntryJsonsHas(MergeAll(ms, byTo).tail, byTo[k].1);
    InRest(MergeAll(ms, byTo).base, EntryJsons(MergeAll(ms, byTo).tail), EntryJson(byTo[k].1));
  }

  lemma EntryJsonsHas(ss: seq<Suggestion>, s: Suggestion)
    requires s in ss
    ensures EntryJson(s) in EntryJsons(ss)
  {
    var b :| 0 <= b < |ss| && ss[b] == s;
    assert EntryJsons(ss)[b] == EntryJson(s);
  }

  lemma InRest<T>(a: seq<T>, b: seq<T>, x: T)
    requires x in b
    ensures x in a + b
  {
    var i :| 0 <= i < |b| && b[i] == x;
    assert (a + b)[|a| + i] == x;
  }

  /** Each suggested destination keeps, or gains, an entry in the list. */
  lemma MergeIntoKeepsSuggested(ms: seq<Json>, byTo: Dict<string, Suggestion>, k: nat)
    requires k < |byTo| && byTo[k].1.to == byTo[k].0
    ensures MergeInto(ms, byTo).Success? ==> exists x :: x in MergeInto(ms, byTo).value.1 && HasTo(x, byTo[k].0)
  {
    var x := MergedListHas(ms, byTo, k);
    MergeIntoMembers(ms, byTo);
    assert ToText(x).value == byTo[k].0 && byTo[k].0 in Keys(byTo);
  }

  /** An obsolete destination is that of an entry the merged list holds. */
  lemma ObsoleteEntry(ms: seq<Json>, byTo: Dict<string, Suggestion>, t: string) returns (j: nat)
    requires t in Obsolete(ExistingIndex(ms), byTo)
    ensures j < |MergedList(ms, byTo)| && MergedList(ms, byTo)[j].JObj? && ToText(MergedList(ms, byTo)[j]).value == t
  {
    var existing := ExistingIndex(ms);
    var a :| 0 <= a < |existing| && existing[a].0 == t;
    ExistingIndexAt(ms, a);
    j := existing[a].1;
    MergeAllKeeps(ms, byTo);
    assert MergedList(ms, byTo)[j] == MergeAll(ms, byTo).base[j];
  }

  /** The merge reports a change when it removes an entry ... */
  lemma MergeIntoReportsRemoval(ms: seq<Json>, byTo: Dict<string, Suggestion>)
    ensures MergeInto(ms, byTo).Success? && Obsolete(ExistingIndex(ms), byTo) != {} ==> MergeInto(ms, byTo).value.0
  {
    var obsolete := Obsolete(ExistingIndex(ms), byTo);
    if t :| t in obsolete {
      var j := ObsoleteEntry(ms, byTo, t);
      var merged := MergedList(ms, byTo);
      assert ToText(merged[j]).value in obsolete;
    }
  }

  /** ... or appends one. */
  lemma MergeIntoReportsAppend(ms: seq<Json>, byTo: Dict<string, Suggestion>, k: nat)
    requires k < |byTo| && Get(ExistingIndex(ms), byTo[k].0).None?
    ensures MergeInto(ms, byTo).Success? ==> MergeInto(ms, byTo).value.0
  {
    MergeAllAppendChanges(ms, byTo, k);
  }

  /** The list of mappings merged with the suggestions built for it and
      put back into the data, or the error of building or merging. */
  function UpdateWith(data: Dict<string, Json>, ms: seq<Json>, built: Result<seq<Suggestion>, string>)
    : Result<(bool, Dict<string, Json>), string>
  {
    match built
    case Failure(e) => Failure(e)
    case Success(ss) =>
      match MergeInto(ms, SuggestedByTo(ss))
      case Failure(e) => Failure(e)
      case Success((changed, list)) => Success((changed, Insert(data, "mappings", JArr(list))))
  }

  /** The suggestions `build_map` gives for the requests read from a list. */
  function SuggestionsFor(p: Schema.Provider, ms: seq<Json>): Result<seq<Suggestion>, string> {
    match BuildMapOf(p, Requests(p, ms), Some(Names(ms)))
    case Failure(e) => Failure(e)
    case Success(d) => Success(d.entries)
  }

  /** `update_map`, as specified: the changed flag and the data as left,
      or the error `_build_entry` or the removal raised. */
  function UpdateMapOf(p: Schema.Provider, data: Dict<string, Json>): Result<(bool, Dict<string, Json>), string> {
    var mv := Get(data, "mappings");
    if mv.Some? && mv.value.JArr? then UpdateWith(data, mv.value.items, SuggestionsFor(p, mv.value.items))
    else Success((false, data))
  }

  /** Merging changes nothing in the data but the list of mappings, which
      stays a list. */
  lemma UpdateWithLeavesRest(data: Dict<string, Json>, ms: seq<Json>, built: Result<seq<Suggestion>, string>)
    ensures UpdateWith(data, ms, built).Success? ==>
      var out := UpdateWith(data, ms, built).value.1;
      (forall k :: k != "mappings" ==> Get(out, k) == Get(data, k)) &&
      Get(out, "mappings").Some? && Get(out, "mappings").value.JArr?
  {
    if UpdateWith(data, ms, built).Success? {
      var list := MergeInto(ms, SuggestedByTo(built.value)).value.1;
      GetInsertSame(data, "mappings", JArr(list));
      forall k | k != "mappings" ensures Get(UpdateWith(data, ms, built).value.1, k) == Get(data, k) {
        GetInsertOther(data, "mappings", JArr(list), k);
      }
    }
  }

  /** Merging fails exactly when building failed, or when an entry must be
      removed and the list holds something that is not a dictionary. */
  lemma UpdateWithFails(data: Dict<string, Json>, ms: seq<Json>, built: Result<seq<Suggestion>, string>)
    ensures UpdateWith(data, ms, built).Failure? <==>
      built.Failure? ||
      (Obsolete(ExistingIndex(ms), SuggestedByTo(built.value)) != {} && exists i :: 0 <= i < |ms| && !ms[i].JObj?)
  {
    if built.Success? {
      MergeIntoFails(ms, SuggestedByTo(built.value));
    }
  }

  /** Every suggested destination has an entry in the list merging leaves. */
  lemma UpdateWithCovers(data: Dict<string, Json>, ms: seq<Json>, built: Result<seq<Suggestion>, string>, s: Suggestion)
    requires built.Success? && s in built.value
    ensures UpdateWith(data, ms, built).Success? ==>
      var out := Get(UpdateWith(data, ms, built).value.1, "mappings");
      out.Some? && out.value.JArr? && exists x :: x in out.value.items && HasTo(x, s.to)
  {
    var byTo := SuggestedByTo(built.value);
    assert s.to in Keys(byTo);
    var k :| 0 <= k < |byTo| && byTo[k].0 == s.to;
    MergeIntoKeepsSuggested(ms, byTo, k);
    if UpdateWith(data, ms, built).Success? {
      GetInsertSame(data, "mappings", JArr(MergeInto(ms, byTo).value.1));
    }
  }

  /** `update_map` leaves data without a list of mappings alone, changes
      nothing but the list otherwise, fails exactly as merging does, and
      leaves an entry for every suggested destination. */
  lemma UpdateMapSpec(p: Schema.Provider, data: Dict<string, Json>)
    ensures var mv := Get(data, "mappings");
      !(mv.Some? && mv.value.JArr?) ==> UpdateMapOf(p, data) == Success((false, data))
    ensures var mv := Get(data, "mappings");
      mv.Some? && mv.value.JArr? ==>
        var ms := mv.value.items;
        var built := SuggestionsFor(p, ms);
        (UpdateMapOf(p, data).Failure? <==>
           built.Failure? ||
           (Obsolete(ExistingIndex(ms), SuggestedByTo(built.value)) != {} && exists i :: 0 <= i < |ms| && !ms[i].JObj?)) &&
        (UpdateMapOf(p, data).Success? ==>
           var out := UpdateMapOf(p, data).value.1;
           (forall k :: k != "mappings" ==> Get(out, k) == Get(data, k)) &&
           Get(out, "mappings").Some? && Get(out, "mappings").value.JArr? &&
           forall s :: s in built.value ==> exists x :: x in Get(out, "mappings").value.items && HasTo(x, s.to))
  {
    var mv := Get(data, "mappings");
    if mv.Some? && mv.value.JArr? {
      var ms := mv.value.items;
      var built := SuggestionsFor(p, ms);
      UpdateWithFails(data, ms, built);
      UpdateWithLeavesRest(data, ms, built);
      if built.Success? {
        forall s | s in built.value
          ensures UpdateWith(data, ms, built).Success? ==>
            exists x :: x in Get(UpdateWith(data, ms, built).value.1, "mappings").value.items && HasTo(x, s.to) {
          UpdateWithCovers(data, ms, built, s);
        }
      }
    }
  }

  /** The loop over the suggested fields of one existing entry. */
  method MergeFields(fields: Dict<string, Json>, sugg: Dict<string, Json>) returns (r: Dict<string, Json>, changed: bool)
    ensures (r, changed) == FieldsFold(fields, sugg, 0, false)
  {
    r, changed := fields, false;
    var i := 0;
    while i < |sugg|
      invariant i <= |sugg|
      invariant FieldsFold(r, sugg, i, changed) == FieldsFold(fields, sugg, 0, false)
    {
      var (name, value) := sugg[i];
      if FieldUpdate(Get(r, name), value) {
        r := Insert(r, name, value);
        changed := true;
      }
      i := i + 1;
    }
  }

  /** One existing entry merged with the suggestion for its destination:
      its `from` first, then `setdefault("fields", {})` and its fields. */
  method MergeExisting(e: Dict<string, Json>, s: Suggestion) returns (r: Dict<string, Json>, changed: bool)
    ensures (r, changed) == MergeEntry(e, s)
  {
    r, changed := e, false;
    var fu := FromUpdate(Get(e, "from"), s.from);
    if fu.Some? {
      r := Insert(r, "from", JStr(fu.value));
      changed := true;
    }
    if Get(r, "fields").None? {
      r := Insert(r, "fields", JObj([]));
    }
    var f := Get(r, "fields");
    if f.Some? && f.value.JObj? {
      var nf, ch := MergeFields(f.value.members, s.fields);
      r := Insert(r, "fields", JObj(nf));
      changed := changed || ch;
    }
  }

  // ---------------------------------------------------------------------
  // The scaffolder

  /** `MappingScaffolder`: the provider it asks, the keys processed by the
      last `build_map` and the preferred names it recorded. */
  class MappingScaffolder {
    const provider: Schema.Provider
    var processed: set<Generator.Pair>
    var preferredNames: map<string, string>

    constructor(provider: Schema.Provider)
      ensures this.provider == provider && processed == {} && preferredNames == map[]
    {
      this.provider := provider;
      processed := {};
      preferredNames := map[];
    }

    /** `_build_entry`. */
    method BuildEntry(req: Request) returns (r: Result<(Suggestion, seq<Request>), string>)
      ensures r == BuildEntryOf(provider, preferredNames, req)
    {
      var toType := Strip(req.toType);
      var destFieldsRaw := Schema.RecordFields(provider, Schema.To, toType);
      var destFields := Schema.OrEmpty(destFieldsRaw);
      var destLits := Schema.OrEmpty(Schema.EnumLiterals(provider, Schema.To, toType));
      if destFieldsRaw.None? && destLits == [] {
        return Failure(NotRecordOrEnum(req.name, toType));
      }
      var existing := Schema.OrEmpty(req.existing);
      var sourceType := SourceTypeOf(provider, req.fromType, toType);
      var from := if sourceType != [] then sourceType else FromPlaceholder(toType);
      var name := if toType in preferredNames then preferredNames[toType] else req.name;
      if destLits != [] && destFields == [] {
        var srcLits := if sourceType != [] then Schema.OrEmpty(Schema.EnumLiterals(provider, Schema.From, sourceType)) else [];
        var fields := BuildEnumFields(existing, CaseIndex(srcLits), destLits);
        return Success((Suggestion(name, from, toType, fields), []));
      }
      var fromFields := if sourceType != [] then Schema.OrEmpty(Schema.RecordFields(provider, Schema.From, sourceType)) else [];
      var c := EntryCtx(provider, preferredNames, req.name, sourceType, existing, fromFields, CaseIndex(Keys(fromFields)));
      var part := BuildRecordFields(c, destFields);
      if part.Failure? {
        return Failure(part.error);
      }
      var (fields, nested) := part.value;
      return Success((Suggestion(name, from, toType, fields), nested));
    }

    /** Records each request's name for its destination type, unless that
        type already has one. */
    method RecordNames(reqs: seq<Request>)
      modifies this
      ensures preferredNames == SetDefaults(old(preferredNames), reqs) && processed == old(processed)
    {
      ghost var names := SetDefaults(preferredNames, reqs);
      var i := 0;
      while i < |reqs|
        invariant i <= |reqs| && processed == old(processed)
        invariant names == SetDefaults(preferredNames, reqs[i..])
      {
        assert reqs[i..][1..] == reqs[i + 1..];
        preferredNames := SetDefault(preferredNames, reqs[i].toType, reqs[i].name);
        i := i + 1;
      }
      assert reqs[i..] == [];
    }

    /** `build_map`: the worklist, first in first out. */
    method BuildMap(requests: seq<Request>, preferred: Option<map<string, string>>)
      returns (r: Result<seq<Suggestion>, string>)
      modifies this
      ensures var d := BuildMapOf(provider, requests, preferred);
        (r.Success? <==> d.Success?) && (r.Failure? ==> r.error == d.error) &&
        (r.Success? ==> r.value == d.value.entries && processed == d.value.processed &&
                        preferredNames == d.value.preferred)
    {
      var queue := requests;
      processed := {};
      preferredNames := if preferred.Some? then preferred.value else map[];
      RecordNames(requests);
      ghost var space := Space(provider, requests);
      EntryBuilderConfined(provider, space);
      ghost var build := EntryBuilder(provider);
      ghost var d := Drain(build, space, {}, preferredNames, requests, [], []);
      var result: seq<Suggestion> := [];
      ghost var keys: seq<Generator.Pair> := [];
      while queue != []
        invariant forall q :: q in queue ==> Key(q) in space
        invariant d == Drain(build, space, processed, preferredNames, queue, result, keys)
        decreases |space - processed|, |queue|
      {
        var req := queue[0];
        queue := queue[1..];
        var toType := Strip(req.toType);
        var fromKey := Strip(if req.fromType.Some? then req.fromType.value else []);
        var key := (fromKey, toType);
        if key in processed {
          continue;
        }
        var built := BuildEntry(req);
        EntryBuilderAt(provider, preferredNames, req);
        if built.Failure? {
          return Failure(built.error);
        }
        var (entry, nested) := built.value;
        FewerLeftStrictPairs(space, processed, key);
        processed := processed + {key};
        result := result + [entry];
        keys := keys + [key];
        RecordNames(nested);
        queue := queue + nested;
      }
      return Success(result);
    }

    /** `update_map`: the requests read back from the list, `build_map` on
        them, the merge of each suggestion into the list and the removal of
        the entries whose destination is no longer suggested. The data the
        source changes in place is returned. */
    method UpdateMap(data: Dict<string, Json>) returns (r: Result<(bool, Dict<string, Json>), string>)
      modifies this
      ensures r == UpdateMapOf(provider, data)
      ensures var mv := Get(data, "mappings");
        !(mv.Some? && mv.value.JArr?) ==> processed == old(processed) && preferredNames == old(preferredNames)
      ensures var mv := Get(data, "mappings");
        mv.Some? && mv.value.JArr? ==>
          var d := BuildMapOf(provider, Requests(provider, mv.value.items), Some(Names(mv.value.items)));
          d.Success? ==> processed == d.value.processed && preferredNames == d.value.preferred
    {
      var mv := Get(data, "mappings");
      if !(mv.Some? && mv.value.JArr?) {
        return Success((false, data));
      }
      var ms := mv.value.items;
      var preferred, requests := ReadBack(ms);
      var built := BuildMap(requests, Some(preferred));
      assert UpdateMapOf(provider, data) == UpdateWith(data, ms, SuggestionsFor(provider, ms));
      if built.Failure? {
        return Failure(built.error);
      }
      r := ApplySuggestions(data, ms, built.value);
    }

    /** The loop that reads the names and the requests back from the
        entries of a list. */
    method ReadBack(ms: seq<Json>) returns (preferred: map<string, string>, requests: seq<Request>)
      ensures preferred == Names(ms) && requests == Requests(provider, ms)
    {
      preferred, requests := map[], [];
      var i := 0;
      while i < |ms|
        invariant i <= |ms| && preferred == Names(ms[..i]) && requests == Requests(provider, ms[..i])
      {
        var x := ms[i];
        ReadBackStep(provider, ms, i);
        i := i + 1;
        if !x.JObj? {
          continue;
        }
        var name := EntryName(x);
        var toType := DestOf(x);
        if toType == [] {
          continue;
        }
        preferred := preferred[toType := name];
        var from := EntrySource(provider, x);
        if AllPlaceholders(x.members) {
          continue;
        }
        requests := requests + [Request(name, toType, from, EntryFields(x))];
      }
      assert ms[..i] == ms;
    }
  }

  /** The suggestions merged into the list and the obsolete entries
      removed, as the tail of `update_map` does. */
  method ApplySuggestions(data: Dict<string, Json>, ms: seq<Json>, ss: seq<Suggestion>)
    returns (r: Result<(bool, Dict<string, Json>), string>)
    ensures r == UpdateWith(data, ms, Success(ss))
  {
    var byTo := SuggestedByTo(ss);
    var existing := ExistingIndex(ms);
    ExistingIndexPoints(ms);
    var list, changed := MergeList(ms, byTo, existing);
    var obsolete := Obsolete(existing, byTo);
    if obsolete != {} {
      var kept := KeepCurrent(list, obsolete);
      if kept.Failure? {
        return Failure(kept.error);
      }
      if |kept.value| != |list| {
        list := kept.value;
        changed := true;
      }
    }
    return Success((changed, Insert(data, "mappings", JArr(list))));
  }

  /** The loop over the suggestions: the entry for each destination merged
      in place, the suggestions without one appended. */
  method MergeList(ms: seq<Json>, byTo: Dict<string, Suggestion>, existing: Dict<string, nat>)
    returns (list: seq<Json>, changed: bool)
    requires existing == ExistingIndex(ms) && PointsToEntries(existing, ms)
    ensures list == MergedList(ms, byTo) && changed == MergeAll(ms, byTo).changed
  {
    ghost var goal := MergeAll(ms, byTo);
    ghost var m := Merged(ms, [], false);
    list, changed := ms, false;
    var i := 0;
    while i < |byTo|
      invariant i <= |byTo| && PointsToEntries(existing, m.base) && |m.base| == |ms|
      invariant list == m.base + EntryJsons(m.tail) && changed == m.changed
      invariant MergeFold(Merging(), byTo, existing, i, m) == goal
    {
      MergeFoldUnfold(Merging(), byTo, existing, i, m);
      list, changed, m := MergeOne(byTo, existing, i, list, changed, m);
      i := i + 1;
    }
  }

  /** One turn of that loop. */
  method MergeOne(byTo: Dict<string, Suggestion>, existing: Dict<string, nat>, i: nat, list: seq<Json>, changed: bool,
                  ghost m: Merged)
    returns (list': seq<Json>, changed': bool, ghost m': Merged)
    requires i < |byTo| && PointsToEntries(existing, m.base)
    requires list == m.base + EntryJsons(m.tail) && changed == m.changed
    ensures m' == MergeStep(Merging(), byTo, existing, i, m) && PointsToEntries(existing, m'.base)
    ensures list' == m'.base + EntryJsons(m'.tail) && changed' == m'.changed
    ensures var next := MergeStep(Merging(), byTo, existing, i, m);
      list' == next.base + EntryJsons(next.tail) && changed' == next.changed
  {
    MergeStepPoints(Merging(), byTo, existing, i, m);
    var (t, s) := byTo[i];
    var g := Get(existing, t);
    if g.Some? {
      var j := g.value;
      MergingStepSome(byTo, existing, i, m, j);
      assert list[j] == m.base[j];
      var e', ch := MergeExisting(list[j].members, s);
      ListUpdate(m.base, EntryJsons(m.tail), j, JObj(e'));
      list', changed' := list[j := JObj(e')], changed || ch;
      m' := Merged(m.base[j := JObj(e')], m.tail, changed');
    } else {
      MergingStepNone(byTo, existing, i, m);
      EntryJsonsSnoc(m.tail, s);
      list', changed' := list + [EntryJson(s)], true;
      m' := Merged(m.base, m.tail + [s], true);
    }
  }

  lemma MergeFoldUnfold(merge: Merger, byTo: Dict<string, Suggestion>, existing: Dict<string, nat>, i: nat, m: Merged)
    requires i < |byTo|
    ensures MergeFold(merge, byTo, existing, i, m) == MergeFold(merge, byTo, existing, i + 1, MergeStep(merge, byTo, existing, i, m))
  {
  }

  /** The step for a destination with an entry merges it ... */
  lemma MergingStepSome(byTo: Dict<string, Suggestion>, existing: Dict<string, nat>, i: nat, m: Merged, j: nat)
    requires i < |byTo| && PointsToEntries(existing, m.base) && Get(existing, byTo[i].0) == Some(j)
    ensures j < |m.base| && m.base[j].JObj?
    ensures var me := MergeEntry(m.base[j].members, byTo[i].1);
      MergeStep(Merging(), byTo, existing, i, m) == Merged(m.base[j := JObj(me.0)], m.tail, m.changed || me.1)
  {
    PointsAt(existing, m.base, byTo[i].0);
    MergeStepSome(Merging(), byTo, existing, i, m, j);
    MergingAt(m.base[j].members, byTo[i].1);
  }

  /** The step for a suggestion whose entry is the dictionary at `j` merges
      into that entry. */
  lemma MergeStepSome(merge: Merger, byTo: Dict<string, Suggestion>, existing: Dict<string, nat>, i: nat, m: Merged, j: nat)
    requires i < |byTo| && Get(existing, byTo[i].0) == Some(j) && j < |m.base| && m.base[j].JObj?
    ensures var me := merge(m.base[j].members, byTo[i].1);
      MergeStep(merge, byTo, existing, i, m) == Merged(m.base[j := JObj(me.0)], m.tail, m.changed || me.1)
  {
  }

  /** ... and the step for one without appends the suggestion. */
  lemma MergingStepNone(byTo: Dict<string, Suggestion>, existing: Dict<string, nat>, i: nat, m: Merged)
    requires i < |byTo| && Get(existing, byTo[i].0).None?
    ensures MergeStep(Merging(), byTo, existing, i, m) == Merged(m.base, m.tail + [byTo[i].1], true)
  {
  }

  lemma ListUpdate(base: seq<Json>, rest: seq<Json>, j: nat, v: Json)
    requires j < |base|
    ensures (base + rest)[j := v] == base[j := v] + rest
  {
  }

  lemma EntryJsonsSnoc(ss: seq<Suggestion>, s: Suggestion)
    ensures EntryJsons(ss + [s]) == EntryJsons(ss) + [EntryJson(s)]
  {
  }
}
