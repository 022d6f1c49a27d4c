// tools/enums.py: reading the literal list of an enumeration declaration,
// and writing the `Map` overload that converts a source enumeration to a
// destination one literal by literal.

module Enums {
  import opened Wrappers
  import opened Text
  import opened Assoc
  import opened Lex
  import opened Json
  import opened Lookup
  import Schema
  import Ada

  // ----- the declaration pattern `\btype\s+NAME\s+is\s*\((.*?)\)\s*;` -----

  /** `\)\s*;` matches at `j`. */
  predicate CloseAt(s: string, j: nat) {
    j < |s| && s[j] == ')' && SkipSpaces(s, j + 1) < |s| && s[SkipSpaces(s, j + 1)] == ';'
  }

  /** The first position at or after `from` where `\)\s*;` matches: where the
      lazy `(.*?)` stops. */
  function FirstClose(s: string, from: nat): (r: Option<nat>)
    requires from <= |s|
    ensures r.Some? ==> from <= r.value < |s| && CloseAt(s, r.value)
    ensures r.Some? ==> forall j :: from <= j < r.value ==> !CloseAt(s, j)
    ensures r.None? ==> forall j :: from <= j < |s| ==> !CloseAt(s, j)
    decreases |s| - from
  {
    if from == |s| then None
    else if CloseAt(s, from) then Some(from)
    else FirstClose(s, from + 1)
  }

  /** `\btype\s+NAME\s+is\s*\(` matched at `i`: the position just after `(`. */
  function OpenAt(s: string, i: nat, name: string): (r: Option<nat>)
    ensures r.Some? ==> 0 < r.value <= |s| && s[r.value - 1] == '('
  {
    match TypeIsAt(s, i, name)
    case None => None
    case Some(e) => AfterOpen(s, e)
  }

  /** `\s*\(` matched at `e`: the position just after `(`. */
  function AfterOpen(s: string, e: nat): (r: Option<nat>)
    requires e <= |s|
    ensures r.Some? ==> e < r.value <= |s| && s[r.value - 1] == '('
  {
    var k := SkipSpaces(s, e);
    if k < |s| && s[k] == '(' then Some(k + 1) else None
  }

  /** The match of the whole pattern starting at `i`: the bounds of its group. */
  function DeclAt(s: string, i: nat, name: string): (r: Option<(nat, nat)>)
    ensures r.Some? ==> r.value.0 <= r.value.1 < |s| && CloseAt(s, r.value.1)
  {
    match OpenAt(s, i, name)
    case None => None
    case Some(o) => GroupFrom(s, o)
  }

  /** The lazy group that starts at `o` and the `)\s*;` that ends it. */
  function GroupFrom(s: string, o: nat): (r: Option<(nat, nat)>)
    requires o <= |s|
    ensures r.Some? ==> r.value.0 == o <= r.value.1 < |s| && CloseAt(s, r.value.1)
  {
    match FirstClose(s, o)
    case None => None
    case Some(j) => Some((o, j))
  }

  /** What the pattern matches at each start position of `s`. */
  function DeclMatches(s: string, name: string): (ms: seq<Option<(nat, nat)>>)
    ensures |ms| == |s| + 1 && forall i :: 0 <= i <= |s| ==> ms[i] == DeclAt(s, i, name)
  {
    seq(|s| + 1, (i: int) requires 0 <= i => DeclAt(s, i, name))
  }

  /** `m.group(1)` of the first match, if any. */
  function EnumBody(s: string, name: string): (r: Option<string>)
  {
    var ms := DeclMatches(s, name);
    match FirstMatch(ms, 0)
    case None => None
    case Some(i) =>
      var span := ms[i].value;
      Some(s[span.0..span.1])
  }

  // ----- literals -----

  /** What the tools accept as a literal: not empty, stripped, and free of
      commas and of Ada comment markers. */
  ghost predicate IsLiteralText(l: string) {
    l != [] && IsStripped(l) && !HasSub(l, "--") && ',' !in l
  }

  /** A literal of the list: the part without surrounding blanks, cut at its
      first `--` comment, and trimmed again. */
  function CleanLiteral(part: string): string {
    Strip(Before(Strip(part), "--"))
  }

  /** A cleaned piece is stripped and holds no comment marker, and no comma
      when the piece held none. */
  lemma CleanLiteralText(part: string)
    requires ',' !in part && CleanLiteral(part) != []
    ensures IsLiteralText(CleanLiteral(part))
  {
    var a := Strip(part);
    var b := Before(a, "--");
    var r := Strip(b);
    var i := SkipSpaces(b, 0);
    BeforeSpec(a, "--");
    NoSubInSlice(b, "--", i, i + |r|);
    StripChars(part, ',');
    forall k | 0 <= k < |b| ensures b[k] != ',' {
      assert b[k] == a[k];
    }
    StripChars(b, ',');
  }

  /** Every piece of the list, cleaned. */
  function Cleaned(parts: seq<string>): (cs: seq<string>)
    ensures |cs| == |parts|
    ensures forall k :: 0 <= k < |parts| ==> cs[k] == CleanLiteral(parts[k])
  {
    seq(|parts|, k requires 0 <= k < |parts| => CleanLiteral(parts[k]))
  }

  /** A cleaned piece as a list of literals: none when it is empty
      (the loop skips it), else itself. */
  function Keep(c: string): (r: seq<string>)
    ensures c == [] ==> r == []
    ensures c != [] ==> r == [c]
  {
    if c == [] then [] else [c]
  }

  /** The non-empty strings among the first `n` of `cs`, in order. */
  function NonEmptyIn(cs: seq<string>, n: nat): (r: seq<string>)
    requires n <= |cs|
    ensures |r| <= n
    decreases n
  {
    if n == 0 then [] else NonEmptyIn(cs, n - 1) + Keep(cs[n - 1])
  }

  lemma NonEmptyStep(cs: seq<string>, i: nat)
    requires i < |cs|
    ensures NonEmptyIn(cs, i + 1) == NonEmptyIn(cs, i) + Keep(cs[i])
  {
  }

  lemma LiteralsStep(parts: seq<string>, i: nat)
    requires i < |parts|
    ensures NonEmptyIn(Cleaned(parts), i + 1) == NonEmptyIn(Cleaned(parts), i) + Keep(CleanLiteral(parts[i]))
  {
    NonEmptyStep(Cleaned(parts), i);
  }

  /** The literals of a declaration body: its comma-separated pieces cleaned,
      the empty ones dropped, in declaration order. */
  function Literals(body: string): seq<string> {
    var cs := Cleaned(SplitOn(body, ','));
    NonEmptyIn(cs, |cs|)
  }

  /** `parse_enum_literals(text, name)`: the literals of the first matching
      declaration, or nothing when there is no match or no literal. */
  function EnumLiterals(s: string, name: string): (r: Option<seq<string>>)
    ensures r.Some? ==> r.value != []
    ensures EnumBody(s, name).None? ==> r.None?
  {
    match EnumBody(s, name)
    case None => None
    case Some(b) =>
      var lits := Literals(b);
      if lits == [] then None else Some(lits)
  }

  ghost predicate AllLiteralText(ls: seq<string>) {
    forall k :: 0 <= k < |ls| ==> IsLiteralText(ls[k])
  }

  /** Dropping the empty strings from strings that are each empty or a clean
      literal leaves only clean literals. */
  lemma {:induction false} NonEmptyClean(cs: seq<string>, n: nat)
    requires n <= |cs| && forall k :: 0 <= k < n ==> cs[k] == [] || IsLiteralText(cs[k])
    ensures AllLiteralText(NonEmptyIn(cs, n))
    decreases n
  {
    if n > 0 {
      NonEmptyClean(cs, n - 1);
      var a, b := NonEmptyIn(cs, n - 1), Keep(cs[n - 1]);
      assert forall k :: |a| <= k < |a + b| ==> (a + b)[k] == b[k - |a|];
    }
  }

  /** Every literal read from a declaration is a clean identifier-like piece:
      not empty, stripped, without comma and without comment. */
  lemma EnumLiteralsClean(s: string, name: string)
    requires EnumLiterals(s, name).Some?
    ensures AllLiteralText(EnumLiterals(s, name).value)
  {
    var parts := SplitOn(EnumBody(s, name).value, ',');
    var cs := Cleaned(parts);
    forall k | 0 <= k < |cs| ensures cs[k] == [] || IsLiteralText(cs[k]) {
      if CleanLiteral(parts[k]) != [] {
        CleanLiteralText(parts[k]);
      }
    }
    NonEmptyClean(cs, |cs|);
  }

  // ----- the parser reads back what a declaration lists -----

  /** A literal already in clean form is left as it is by cleaning. */
  lemma CleanLiteralOfLiteral(l: string)
    requires IsLiteralText(l)
    ensures CleanLiteral(l) == l
  {
    StripNoEdges(l);
    FindSubSpec(l, "--");
    assert Before(l, "--") == l;
  }

  /** Strings none of which is empty are all kept, in order. */
  lemma {:induction false} NonEmptyAll(cs: seq<string>, n: nat)
    requires n <= |cs| && forall k :: 0 <= k < |cs| ==> cs[k] != []
    ensures NonEmptyIn(cs, n) == cs[..n]
    decreases n
  {
    if n > 0 {
      NonEmptyAll(cs, n - 1);
      assert cs[..n] == cs[..n - 1] + [cs[n - 1]];
    }
  }

  /** The body `p1,p2,...,pn` of a declaration yields one literal per piece
      when every piece cleans to a non-empty literal: whitespace around a
      literal and a trailing `--` comment are ignored. */
  lemma LiteralsOfJoin(parts: seq<string>, lits: seq<string>)
    requires |parts| >= 1 && Cleaned(parts) == lits
    requires forall k :: 0 <= k < |parts| ==> ',' !in parts[k]
    requires forall k :: 0 <= k < |lits| ==> lits[k] != []
    ensures Literals(Join(parts, ",")) == lits
  {
    SplitJoin(parts, ',');
    KeepAll(lits);
    LiteralsVia(Join(parts, ","), parts, lits);
  }

  lemma KeepAll(lits: seq<string>)
    requires forall k :: 0 <= k < |lits| ==> lits[k] != []
    ensures NonEmptyIn(lits, |lits|) == lits
  {
    NonEmptyAll(lits, |lits|);
    assert lits[..|lits|] == lits;
  }

  lemma LiteralsVia(body: string, parts: seq<string>, lits: seq<string>)
    requires SplitOn(body, ',') == parts && Cleaned(parts) == lits && NonEmptyIn(lits, |lits|) == lits
    ensures Literals(body) == lits
  {
  }

  /** `type NAME is (BODY);` written with single spaces. */
  function EnumDeclaration(name: string, body: string): string {
    "type " + name + " is" + (" (" + body + ");")
  }

  lemma DeclShape(pre: string, body: string)
    ensures var s := pre + (" (" + body + ");");
      |s| == |pre| + |body| + 4 && s[|pre|] == ' ' && s[|pre| + 1] == '(' &&
      s[|pre| + 2..|s| - 2] == body && s[|s| - 2] == ')' && s[|s| - 1] == ';'
  {
  }

  lemma FirstCloseIs(s: string, from: nat, j: nat)
    requires from <= j < |s| && CloseAt(s, j)
    requires forall k :: from <= k < j ==> !CloseAt(s, k)
    ensures FirstClose(s, from) == Some(j)
  {
  }

  /** The group of the match on a declaration is its body, when the body has no
      closing parenthesis. */
  lemma DeclarationBody(name: string, body: string)
    requires name != [] && !IsSpace(name[0]) && ')' !in body
    ensures EnumBody(EnumDeclaration(name, body), name) == Some(body)
  {
    DeclarationOpen(name, body);
    DeclarationGroup(name, body);
    BodyFound(EnumDeclaration(name, body), name, body, |name| + 10);
  }

  /** `EnumBody` reports the group of a match at the very start. */
  lemma BodyFound(s: string, name: string, body: string, o: nat)
    requires OpenAt(s, 0, name) == Some(o) && o + |body| + 2 == |s|
    requires FirstClose(s, o) == Some(|s| - 2) && s[o..|s| - 2] == body
    ensures EnumBody(s, name) == Some(body)
  {
    BodyAtStart(s, name, o, |s| - 2);
  }

  /** A match at the very start of `s` is the one `EnumBody` reports. */
  lemma BodyAtStart(s: string, name: string, o: nat, j: nat)
    requires OpenAt(s, 0, name) == Some(o) && o <= |s| && FirstClose(s, o) == Some(j)
    ensures EnumBody(s, name) == Some(s[o..j])
  {
    assert GroupFrom(s, o) == Some((o, j));
    assert DeclAt(s, 0, name) == Some((o, j));
    assert DeclMatches(s, name)[0] == Some((o, j));
  }

  /** The opening of the match on a declaration is just after its `(`. */
  lemma DeclarationOpen(name: string, body: string)
    requires name != [] && !IsSpace(name[0])
    ensures OpenAt(EnumDeclaration(name, body), 0, name) == Some(|name| + 10)
  {
    var pre := "type " + name + " is";
    var s := EnumDeclaration(name, body);
    TypeIsPrefix(name, " (" + body + ");");
    DeclShape(pre, body);
    SpaceParen(s, |pre|);
  }

  /** `\s*\(` matches a single space and a parenthesis. */
  lemma SpaceParen(s: string, e: nat)
    requires e + 1 < |s| && s[e] == ' ' && s[e + 1] == '('
    ensures AfterOpen(s, e) == Some(e + 2)
  {
    SkipSpacesAt(s, e, e + 1);
  }

  /** The lazy group of a declaration whose body has no `)` ends at the final
      `);`. */
  lemma DeclarationGroup(name: string, body: string)
    requires ')' !in body
    ensures var s := EnumDeclaration(name, body);
      |s| == |name| + |body| + 12 &&
      FirstClose(s, |name| + 10) == Some(|s| - 2) && s[|name| + 10..|s| - 2] == body
  {
    var pre := "type " + name + " is";
    var s := EnumDeclaration(name, body);
    DeclShape(pre, body);
    var o, j := |pre| + 2, |s| - 2;
    SkipSpacesAt(s, j + 1, j + 1);
    assert CloseAt(s, j);
    forall k | o <= k < j ensures !CloseAt(s, k) {
      assert s[k] == s[o..j][k - o];
    }
    FirstCloseIs(s, o, j);
  }

  /** Parsing a declaration that lists the pieces `parts` yields the literals
      they clean to, in order. */
  lemma DeclarationLiterals(name: string, parts: seq<string>, lits: seq<string>)
    requires name != [] && !IsSpace(name[0])
    requires |parts| >= 1 && Cleaned(parts) == lits
    requires forall k :: 0 <= k < |parts| ==> ',' !in parts[k] && ')' !in parts[k]
    requires forall k :: 0 <= k < |lits| ==> lits[k] != []
    ensures EnumLiterals(EnumDeclaration(name, Join(parts, ",")), name) == Some(lits)
  {
    JoinAvoids(parts, ",", ')');
    DeclarationBody(name, Join(parts, ","));
    LiteralsOfJoin(parts, lits);
  }

  /** Round trip: the declaration `type NAME is (L1,L2,...);` of clean literals
      parses back to the same literals. */
  lemma LiteralsRoundTrip(name: string, lits: seq<string>)
    requires name != [] && !IsSpace(name[0]) && lits != []
    requires AllLiteralText(lits) && forall k :: 0 <= k < |lits| ==> ')' !in lits[k]
    ensures EnumLiterals(EnumDeclaration(name, Join(lits, ",")), name) == Some(lits)
  {
    forall k | 0 <= k < |lits| ensures CleanLiteral(lits[k]) == lits[k] {
      CleanLiteralOfLiteral(lits[k]);
    }
    assert Cleaned(lits) == lits;
    DeclarationLiterals(name, lits, lits);
  }

  method ParseEnumLiterals(text: string, typeName: string) returns (r: Option<seq<string>>)
    ensures r == EnumLiterals(text, typeName)
  {
    var m := EnumBody(text, typeName);
    if m.None? {
      return None;
    }
    var lits := CollectLiterals(SplitOn(m.value, ','));
    if lits == [] {
      return None;
    }
    return Some(lits);
  }

  /** The loop over the pieces of the body. */
  method CollectLiterals(parts: seq<string>) returns (lits: seq<string>)
    ensures lits == NonEmptyIn(Cleaned(parts), |parts|)
  {
    lits := [];
    var i := 0;
    while i < |parts|
      invariant 0 <= i <= |parts|
      invariant lits == NonEmptyIn(Cleaned(parts), i)
    {
      var name := Strip(parts[i]);
      name := Strip(Before(name, "--"));
      LiteralsStep(parts, i);
      lits := lits + Keep(name);
      i := i + 1;
    }
  }

  // ----- the `Map` overload between two enumerations -----

  /** `enum_map_spec(src, dst)`: the profile the body also starts with, and
      `;`. */
  function EnumMapSpec(src: string, dst: string): (r: string)
    ensures StartsWith(r, Ada.MapProfile("E", src, dst)) && EndsWith(r, ";\n")
  {
    StartsWithConcat(Ada.MapProfile("E", src, dst), ";\n");
    Ada.MapSpec("E", src, dst)
  }

  /** Why `enum_map_body` raises. */
  datatype EnumError =
    | NoVisibleLiterals                  // either side declares no literal
    | NonStringOverride                  // an override key or value is not a string
    | UnknownOverrideSource(raw: string) // an override key names no source literal
    | UnknownOverrideTarget(raw: string) // an override value names no destination literal
    | MissingLiterals(missing: seq<string>)

  /** The explicit literal pairs a generator may carry per pair of types. */
  type Overrides = map<(string, string), Dict<Json, Json>>

  /** `raw_override`, as `if raw_override:` sees it: the pairs given for this
      pair of types, or none. */
  function RawOverride(overrides: Overrides, src: string, dst: string): (r: Dict<Json, Json>)
    ensures src == [] || dst == [] || (src, dst) !in overrides ==> r == []
  {
    if src != [] && dst != [] && (src, dst) in overrides then overrides[(src, dst)] else []
  }

  /** The key a literal is looked up under: trimmed and lower-cased. */
  function LiteralKey(raw: string): string {
    LowerStr(Strip(raw))
  }

  /** One override pair checked against both sides, in the order the checks
      are made: both must be strings, then the source literal must exist, then
      the destination literal; the pair is given in the declared spellings. */
  function Resolve(p: (Json, Json), srcIdx: Dict<string, string>, dstIdx: Dict<string, string>)
    : (r: Result<(string, string), EnumError>)
    ensures r.Success? ==> r.value.0 in Values(srcIdx) && r.value.1 in Values(dstIdx)
  {
    if !p.0.JStr? || !p.1.JStr? then Failure(NonStringOverride)
    else
      var sl, dl := Get(srcIdx, LiteralKey(p.0.s)), Get(dstIdx, LiteralKey(p.1.s));
      if sl.None? then Failure(UnknownOverrideSource(p.0.s))
      else if dl.None? then Failure(UnknownOverrideTarget(p.1.s))
      else
        ValueOfGet(srcIdx, LiteralKey(p.0.s));
        ValueOfGet(dstIdx, LiteralKey(p.1.s));
        Success((sl.value, dl.value))
  }

  lemma ValueOfGet<K, V>(d: Dict<K, V>, k: K)
    ensures Get(d, k).Some? ==> Get(d, k).value in Values(d)
  {
    if Get(d, k).Some? {
      var i :| 0 <= i < |d| && d[i] == (k, Get(d, k).value);
      assert Values(d)[i] == d[i].1;
    }
  }

  /** Every override pair, checked. */
  function Resolved(raw: Dict<Json, Json>, srcIdx: Dict<string, string>, dstIdx: Dict<string, string>)
    : (r: seq<Result<(string, string), EnumError>>)
    ensures |r| == |raw| && forall k :: 0 <= k < |raw| ==> r[k] == Resolve(raw[k], srcIdx, dstIdx)
  {
    seq(|raw|, k requires 0 <= k < |raw| => Resolve(raw[k], srcIdx, dstIdx))
  }

  /** The error of the first bad pair among the first `n`, if any. */
  function FirstFailure(rs: seq<Result<(string, string), EnumError>>, n: nat): Option<EnumError>
    requires n <= |rs|
  {
    if n == 0 then None
    else
      match FirstFailure(rs, n - 1)
      case Some(e) => Some(e)
      case None => if rs[n - 1].Failure? then Some(rs[n - 1].error) else None
  }

  /** The pairs of the good ones among the first `n`, in order. */
  function Oks(rs: seq<Result<(string, string), EnumError>>, n: nat): (r: seq<(string, string)>)
    requires n <= |rs|
    ensures |r| <= n
  {
    if n == 0 then [] else Oks(rs, n - 1) + (if rs[n - 1].Success? then [rs[n - 1].value] else [])
  }

  /** The checked pairs stored one after the other, each source literal mapped
      to its destination literal, or
      the error of the first bad one: the loop stops there. */
  function InsertAll(rs: seq<Result<(string, string), EnumError>>): Result<Dict<string, string>, EnumError> {
    match FirstFailure(rs, |rs|)
    case Some(e) => Failure(e)
    case None => Success(FromPairs(Oks(rs, |rs|)))
  }

  /** The table built from all the pairs given, with the literals of both
      sides indexed by lower-case name. */
  function OverrideTable(from: seq<string>, to: seq<string>, raw: Dict<Json, Json>): Result<Dict<string, string>, EnumError> {
    InsertAll(Resolved(raw, CaseIndex(from), CaseIndex(to)))
  }

  /** The destination literal a source literal maps to: its override if there
      is one, else the destination literal of the same name ignoring case. */
  function Target(ov: Dict<string, string>, dstIdx: Dict<string, string>, lit: string): Option<string> {
    match Get(ov, lit)
    case Some(t) => Some(t)
    case None => Get(dstIdx, LowerStr(lit))
  }

  /** The target of every source literal. */
  function Targets(lits: seq<string>, ov: Dict<string, string>, dstIdx: Dict<string, string>): (r: seq<Option<string>>)
    ensures |r| == |lits| && forall k :: 0 <= k < |lits| ==> r[k] == Target(ov, dstIdx, lits[k])
  {
    seq(|lits|, k requires 0 <= k < |lits| => Target(ov, dstIdx, lits[k]))
  }

  /** The literal as a missing one: only when it has no target. */
  function MissOf(lit: string, t: Option<string>): (r: seq<string>)
    ensures t.None? ==> r == [lit]
    ensures t.Some? ==> r == []
  {
    if t.Some? then [] else [lit]
  }

  /** The first `n` literals that have no target. */
  function MissingIn(lits: seq<string>, ts: seq<Option<string>>, n: nat): seq<string>
    requires n <= |lits| == |ts|
  {
    if n == 0 then [] else MissingIn(lits, ts, n - 1) + MissOf(lits[n - 1], ts[n - 1])
  }

  /** Every literal paired with its target, when all have one. */
  function Paired(lits: seq<string>, ts: seq<Option<string>>): (r: seq<(string, string)>)
    requires |lits| == |ts| && forall k :: 0 <= k < |ts| ==> ts[k].Some?
    ensures |r| == |lits| && forall k :: 0 <= k < |lits| ==> r[k] == (lits[k], ts[k].value)
  {
    seq(|lits|, k requires 0 <= k < |lits| => (lits[k], ts[k].value))
  }

  /** The arms of the case expression mapping the source literals `from` to
      the destination literals `to`, or why there can be none. */
  function EnumArms(from: seq<string>, to: seq<string>, raw: Dict<Json, Json>): (r: Result<seq<(string, string)>, EnumError>)
    ensures from == [] || to == [] ==> r == Failure(NoVisibleLiterals)
  {
    if to == [] || from == [] then Failure(NoVisibleLiterals)
    else
      match OverrideTable(from, to, raw)
      case Failure(e) => Failure(e)
      case Success(ov) =>
        var ts := Targets(from, ov, CaseIndex(to));
        var missing := MissingIn(from, ts, |from|);
        if missing != [] then Failure(MissingLiterals(missing))
        else
          NoneMissing(from, ts, |from|);
          Success(Paired(from, ts))
  }

  /** `when L => T` for every arm. */
  function Alternatives(arms: seq<(string, string)>): (r: seq<string>)
    ensures |r| == |arms| && forall k :: 0 <= k < |arms| ==> r[k] == Alternative(arms[k].0, arms[k].1)
  {
    seq(|arms|, k requires 0 <= k < |arms| => Alternative(arms[k].0, arms[k].1))
  }

  /** One alternative of the case expression. */
  function Alternative(lit: string, target: string): string {
    "when " + lit + " => " + target
  }

  /** The expression function an overload's body is. */
  function RenderEnumMap(src: string, dst: string, arms: seq<(string, string)>): string {
    Ada.MapProfile("E", src, dst) + (" is\n     (case E is " + Join(Alternatives(arms), ", ") + ");\n")
  }

  /** `enum_map_body(mg, src, dst)`, with the provider's literal lists and the
      generator's overrides as parameters. */
  function EnumMapBody(p: Schema.Provider, overrides: Overrides, src: string, dst: string): (r: Result<string, EnumError>)
    ensures r.Success? ==> StartsWith(r.value, Ada.MapProfile("E", src, dst))
  {
    var to := Schema.OrEmpty(Schema.EnumLiterals(p, Schema.To, dst));
    var from := Schema.OrEmpty(Schema.EnumLiterals(p, Schema.From, src));
    match EnumArms(from, to, RawOverride(overrides, src, dst))
    case Failure(e) => Failure(e)
    case Success(arms) =>
      StartsWithConcat(Ada.MapProfile("E", src, dst), " is\n     (case E is " + Join(Alternatives(arms), ", ") + ");\n");
      Success(RenderEnumMap(src, dst, arms))
  }

  /** Nothing is missing exactly when every literal has a target. */
  lemma {:induction false} NoneMissing(lits: seq<string>, ts: seq<Option<string>>, n: nat)
    requires n <= |lits| == |ts|
    ensures MissingIn(lits, ts, n) == [] <==> forall k :: 0 <= k < n ==> ts[k].Some?
    decreases n
  {
    if n > 0 {
      NoneMissing(lits, ts, n - 1);
      var m, x := MissingIn(lits, ts, n - 1), MissOf(lits[n - 1], ts[n - 1]);
      assert MissingIn(lits, ts, n) == m + x;
      assert |m + x| == |m| + |x|;
      assert (m + x == []) == (m == [] && x == []);
    }
  }

  /** The checks the override loop makes on one pair, in their order. */
  method CheckPair(p: (Json, Json), srcIdx: Dict<string, string>, dstIdx: Dict<string, string>)
    returns (r: Result<(string, string), EnumError>)
    ensures r == Resolve(p, srcIdx, dstIdx)
  {
    var (a, b) := p;
    if !a.JStr? || !b.JStr? {
      return Failure(NonStringOverride);
    }
    var sl, dl := Get(srcIdx, LiteralKey(a.s)), Get(dstIdx, LiteralKey(b.s));
    if sl.None? {
      return Failure(UnknownOverrideSource(a.s));
    }
    if dl.None? {
      return Failure(UnknownOverrideTarget(b.s));
    }
    r := Success((sl.value, dl.value));
  }

  /** The override loop: each pair is checked and stored, and the first bad
      one ends the loop with its error. */
  method BuildOverrides(raw: Dict<Json, Json>, srcIdx: Dict<string, string>, dstIdx: Dict<string, string>)
    returns (r: Result<Dict<string, string>, EnumError>)
    ensures r == InsertAll(Resolved(raw, srcIdx, dstIdx))
  {
    ghost var rs := Resolved(raw, srcIdx, dstIdx);
    var ov: Dict<string, string> := [];
    var i := 0;
    while i < |raw|
      invariant i <= |raw|
      invariant FirstFailure(rs, i) == None && ov == FromPairs(Oks(rs, i))
    {
      var c := CheckPair(raw[i], srcIdx, dstIdx);
      if c.Failure? {
        StopsAt(rs, i);
        return Failure(c.error);
      }
      InsertAllStep(rs, i, c.value);
      ov := Insert(ov, c.value.0, c.value.1);
      i := i + 1;
    }
    r := Success(ov);
  }

  /** The arms loop: each source literal takes its override, else the
      destination literal of the same lower-case name; literals with neither
      are collected as missing. */
  method ResolveArms(from: seq<string>, ov: Dict<string, string>, dstIdx: Dict<string, string>)
    returns (parts: seq<string>, missing: seq<string>)
    ensures missing == MissingIn(from, Targets(from, ov, dstIdx), |from|)
    ensures var ts := Targets(from, ov, dstIdx);
      missing == [] ==> (|parts| == |from| &&
        forall k :: 0 <= k < |from| ==> (ts[k].Some? && parts[k] == Alternative(from[k], ts[k].value)))
  {
    ghost var ts := Targets(from, ov, dstIdx);
    parts, missing := [], [];
    var i := 0;
    while i < |from|
      invariant i <= |from|
      invariant missing == MissingIn(from, ts, i)
      invariant ArmsSoFar(from, ts, i, parts)
    {
      parts, missing := ResolveArm(from, ov, dstIdx, ts, i, parts, missing);
      i := i + 1;
    }
  }

  /** One turn of that loop: the alternative for the `i`th literal, or the
      literal as a missing one. */
  method ResolveArm(from: seq<string>, ov: Dict<string, string>, dstIdx: Dict<string, string>,
                    ghost ts: seq<Option<string>>, i: nat, parts: seq<string>, missing: seq<string>)
    returns (parts': seq<string>, missing': seq<string>)
    requires ts == Targets(from, ov, dstIdx) && i < |from|
    requires missing == MissingIn(from, ts, i) && ArmsSoFar(from, ts, i, parts)
    ensures missing' == MissingIn(from, ts, i + 1) && ArmsSoFar(from, ts, i + 1, parts')
  {
    var lit := from[i];
    var t := TargetOf(ov, dstIdx, lit);
    missing' := missing + MissOf(lit, t);
    parts' := parts;
    if t.Some? {
      parts' := parts + [Alternative(lit, t.value)];
    }
    ArmsStep(from, ts, i, parts, parts');
  }

  /** The override given for the literal, if there is one, else the
      destination literal equal to it ignoring case. */
  method TargetOf(ov: Dict<string, string>, dstIdx: Dict<string, string>, lit: string) returns (t: Option<string>)
    ensures t == Target(ov, dstIdx, lit)
  {
    t := Get(ov, lit);
    if t.None? {
      t := Get(dstIdx, LowerStr(lit));
    }
  }

  /** While nothing is missing, `parts` holds one alternative per literal. */
  ghost predicate ArmsSoFar(from: seq<string>, ts: seq<Option<string>>, i: nat, parts: seq<string>)
    requires i <= |from| == |ts|
  {
    MissingIn(from, ts, i) == [] ==> (|parts| == i &&
      forall k :: 0 <= k < i ==> (ts[k].Some? && parts[k] == Alternative(from[k], ts[k].value)))
  }

  /** One turn of the arms loop keeps `ArmsSoFar`. */
  lemma ArmsStep(from: seq<string>, ts: seq<Option<string>>, i: nat, parts: seq<string>, parts': seq<string>)
    requires i < |from| == |ts| && ArmsSoFar(from, ts, i, parts)
    requires parts' == if ts[i].Some? then parts + [Alternative(from[i], ts[i].value)] else parts
    ensures MissingIn(from, ts, i + 1) == MissingIn(from, ts, i) + MissOf(from[i], ts[i])
    ensures ArmsSoFar(from, ts, i + 1, parts')
  {
    var m, x := MissingIn(from, ts, i), MissOf(from[i], ts[i]);
    assert MissingIn(from, ts, i + 1) == m + x;
    if m + x == [] {
      assert |m + x| == |m| + |x|;
      assert m == [] && x == [];
      var next := parts + [Alternative(from[i], ts[i].value)];
      forall k | 0 <= k < i + 1
        ensures ts[k].Some? && next[k] == Alternative(from[k], ts[k].value)
      {
        if k < i {
          assert next[k] == parts[k];
        }
      }
    }
  }

  /** `enum_map_body` as the loops compute it. */
  method BuildEnumMapBody(p: Schema.Provider, overrides: Overrides, src: string, dst: string)
    returns (r: Result<string, EnumError>)
    ensures r == EnumMapBody(p, overrides, src, dst)
  {
    var to := Schema.OrEmpty(Schema.EnumLiterals(p, Schema.To, dst));
    var from := Schema.OrEmpty(Schema.EnumLiterals(p, Schema.From, src));
    if to == [] || from == [] {
      return Failure(NoVisibleLiterals);
    }
    var dstIdx, srcIdx := CaseIndex(to), CaseIndex(from);
    var table := BuildOverrides(RawOverride(overrides, src, dst), srcIdx, dstIdx);
    if table.Failure? {
      return Failure(table.error);
    }
    var parts, missing := ResolveArms(from, table.value, dstIdx);
    if missing != [] {
      return Failure(MissingLiterals(missing));
    }
    ghost var ts := Targets(from, table.value, dstIdx);
    NoneMissing(from, ts, |from|);
    ghost var arms := Paired(from, ts);
    assert EnumArms(from, to, RawOverride(overrides, src, dst)) == Success(arms);
    assert parts == Alternatives(arms);
    r := Success(Ada.MapProfile("E", src, dst) + (" is\n     (case E is " + Join(parts, ", ") + ");\n"));
  }

  // ----- what the overload promises -----

  /** No pair is bad exactly when every pair checks. */
  lemma {:induction false} FirstFailureNone(rs: seq<Result<(string, string), EnumError>>, n: nat)
    requires n <= |rs|
    ensures FirstFailure(rs, n).None? <==> forall k :: 0 <= k < n ==> rs[k].Success?
    decreases n
  {
    if n > 0 {
      FirstFailureNone(rs, n - 1);
    }
  }

  /** The first bad pair decides the error, whatever follows it. */
  lemma {:induction false} FirstFailureIs(rs: seq<Result<(string, string), EnumError>>, n: nat, k: nat)
    requires k < n <= |rs| && rs[k].Failure?
    requires forall j :: 0 <= j < k ==> rs[j].Success?
    ensures FirstFailure(rs, n) == Some(rs[k].error)
    decreases n
  {
    if n == k + 1 {
      FirstFailureNone(rs, k);
    } else {
      FirstFailureIs(rs, n - 1, k);
    }
  }

  /** Once a pair is bad, later pairs change nothing. */
  lemma {:induction false} FirstFailureSticks(rs: seq<Result<(string, string), EnumError>>, m: nat, n: nat)
    requires m <= n <= |rs| && FirstFailure(rs, m).Some?
    ensures FirstFailure(rs, n) == FirstFailure(rs, m)
    decreases n
  {
    if n > m {
      FirstFailureSticks(rs, m, n - 1);
    }
  }

  /** A bad pair after good ones ends the loop with its error. */
  lemma StopsAt(rs: seq<Result<(string, string), EnumError>>, i: nat)
    requires i < |rs| && FirstFailure(rs, i) == None && rs[i].Failure?
    ensures InsertAll(rs) == Failure(rs[i].error)
  {
    FirstFailureSticks(rs, i + 1, |rs|);
  }

  /** A good pair after good ones is stored under its source literal. */
  lemma InsertAllStep(rs: seq<Result<(string, string), EnumError>>, i: nat, q: (string, string))
    requires i < |rs| && FirstFailure(rs, i) == None && rs[i] == Success(q)
    ensures FirstFailure(rs, i + 1) == None
    ensures FromPairs(Oks(rs, i + 1)) == Insert(FromPairs(Oks(rs, i)), q.0, q.1)
  {
    assert Oks(rs, i + 1) == Oks(rs, i) + [q];
    FromPairsSnoc(Oks(rs, i), q);
  }

  /** Every good pair comes from a pair that checks. */
  lemma {:induction false} OksFrom(rs: seq<Result<(string, string), EnumError>>, n: nat)
    requires n <= |rs|
    ensures forall q :: q in Oks(rs, n) ==> exists k :: 0 <= k < n && rs[k] == Success(q)
    decreases n
  {
    if n > 0 {
      OksFrom(rs, n - 1);
    }
  }

  /** A built table holds one entry per key, each from a pair that checks. */
  lemma InsertAllPairs(rs: seq<Result<(string, string), EnumError>>)
    requires InsertAll(rs).Success?
    ensures UniqueKeys(InsertAll(rs).value)
    ensures forall q :: q in InsertAll(rs).value ==> exists k :: 0 <= k < |rs| && rs[k] == Success(q)
  {
    FromPairsSpec(Oks(rs, |rs|));
    FromPairsFrom(Oks(rs, |rs|));
    OksFrom(rs, |rs|);
  }

  /** The values of a case-insensitive index are the names it was built from. */
  lemma CaseIndexValues(names: seq<string>)
    ensures forall v :: v in Values(CaseIndex(names)) ==> v in names
  {
    FromPairsFrom(LowerPairs(names));
    forall v | v in Values(CaseIndex(names)) ensures v in names {
      var i :| 0 <= i < |CaseIndex(names)| && Values(CaseIndex(names))[i] == v;
      var q := CaseIndex(names)[i];
      assert q in LowerPairs(names);
    }
  }

  /** Every accepted override maps a declared source literal to a declared
      destination literal, and each source literal has at most one. */
  lemma OverridesDeclared(from: seq<string>, to: seq<string>, raw: Dict<Json, Json>)
    requires OverrideTable(from, to, raw).Success?
    ensures UniqueKeys(OverrideTable(from, to, raw).value)
    ensures forall q :: q in OverrideTable(from, to, raw).value ==> q.0 in from && q.1 in to
  {
    var rs := Resolved(raw, CaseIndex(from), CaseIndex(to));
    InsertAllPairs(rs);
    CaseIndexValues(from);
    CaseIndexValues(to);
    forall q | q in OverrideTable(from, to, raw).value ensures q.0 in from && q.1 in to {
      var k :| 0 <= k < |raw| && rs[k] == Success(q);
      assert Resolve(raw[k], CaseIndex(from), CaseIndex(to)) == Success(q);
    }
  }

  /** The literals listed as missing are exactly those without a target. */
  lemma {:induction false} MissingMembers(lits: seq<string>, ts: seq<Option<string>>, n: nat)
    requires n <= |lits| == |ts|
    ensures forall lit :: lit in MissingIn(lits, ts, n) <==> exists k :: 0 <= k < n && lits[k] == lit && ts[k].None?
    decreases n
  {
    if n > 0 {
      MissingMembers(lits, ts, n - 1);
      var m, x := MissingIn(lits, ts, n - 1), MissOf(lits[n - 1], ts[n - 1]);
      assert MissingIn(lits, ts, n) == m + x;
      forall lit ensures lit in m + x <==> exists k :: 0 <= k < n && lits[k] == lit && ts[k].None? {
        if lit in x {
          assert lits[n - 1] == lit && ts[n - 1].None?;
        }
      }
    }
  }

  /** A source literal's target is its override if it has one, and
      otherwise the last destination literal with its name in lower case. */
  lemma TargetSpec(ov: Dict<string, string>, to: seq<string>, lit: string)
    ensures Get(ov, lit).Some? ==> Target(ov, CaseIndex(to), lit) == Get(ov, lit)
    ensures Get(ov, lit).None? ==> Target(ov, CaseIndex(to), lit) == LastLower(to, LowerStr(lit))
  {
    CaseIndexGet(to, LowerStr(lit));
  }

  /** Whatever a source literal maps to is a declared destination literal. */
  lemma TargetDeclared(from: seq<string>, to: seq<string>, raw: Dict<Json, Json>, ov: Dict<string, string>, lit: string)
    requires OverrideTable(from, to, raw) == Success(ov)
    ensures Target(ov, CaseIndex(to), lit).Some? ==> Target(ov, CaseIndex(to), lit).value in to
  {
    TargetSpec(ov, to, lit);
    OverridesDeclared(from, to, raw);
    var g := Get(ov, lit);
    if g.Some? {
      var i :| 0 <= i < |ov| && ov[i] == (lit, g.value);
      assert ov[i] in ov;
    }
  }

  /** On success there is one arm per source literal, in declaration order,
      mapping it to its target, which is a declared destination literal. */
  lemma EnumArmsSuccess(from: seq<string>, to: seq<string>, raw: Dict<Json, Json>, ov: Dict<string, string>)
    requires OverrideTable(from, to, raw) == Success(ov) && EnumArms(from, to, raw).Success?
    ensures var arms := EnumArms(from, to, raw).value;
      |arms| == |from| &&
      forall k :: 0 <= k < |from| ==>
        Target(ov, CaseIndex(to), from[k]).Some? && arms[k] == (from[k], Target(ov, CaseIndex(to), from[k]).value) &&
        arms[k].1 in to
  {
    var ts := Targets(from, ov, CaseIndex(to));
    var arms := EnumArms(from, to, raw).value;
    assert MissingIn(from, ts, |from|) == [];
    NoneMissing(from, ts, |from|);
    assert arms == Paired(from, ts);
    forall k | 0 <= k < |from|
      ensures Target(ov, CaseIndex(to), from[k]).Some? && arms[k] == (from[k], Target(ov, CaseIndex(to), from[k]).value)
      ensures arms[k].1 in to
    {
      assert ts[k] == Target(ov, CaseIndex(to), from[k]);
      TargetDeclared(from, to, raw, ov, from[k]);
    }
  }

  /** With valid overrides on two non-empty sides, generation fails exactly
      when some source literal has no target, and then lists every such
      literal: there is no positional fallback. */
  lemma EnumArmsMissing(from: seq<string>, to: seq<string>, raw: Dict<Json, Json>, ov: Dict<string, string>)
    requires from != [] && to != [] && OverrideTable(from, to, raw) == Success(ov)
    ensures EnumArms(from, to, raw).Success? <==>
      forall k :: 0 <= k < |from| ==> Target(ov, CaseIndex(to), from[k]).Some?
    ensures EnumArms(from, to, raw).Failure? ==>
      EnumArms(from, to, raw).error.MissingLiterals? &&
      forall lit :: lit in EnumArms(from, to, raw).error.missing <==> lit in from && Target(ov, CaseIndex(to), lit).None?
  {
    var ts := Targets(from, ov, CaseIndex(to));
    MissingMembers(from, ts, |from|);
    NoneMissing(from, ts, |from|);
    var m := MissingIn(from, ts, |from|);
    if exists k :: 0 <= k < |from| && ts[k].None? {
      var k :| 0 <= k < |from| && ts[k].None?;
      assert from[k] in m;
    }
    forall lit ensures lit in m <==> lit in from && Target(ov, CaseIndex(to), lit).None? {
      if lit in from && Target(ov, CaseIndex(to), lit).None? {
        var k :| 0 <= k < |from| && from[k] == lit;
        assert ts[k].None?;
      }
    }
  }

  /** An override pair that is not two strings, or names a literal either side
      lacks, stops generation with the error of the first such pair. */
  lemma EnumArmsBadOverride(from: seq<string>, to: seq<string>, raw: Dict<Json, Json>, k: nat)
    requires from != [] && to != [] && k < |raw|
    requires Resolve(raw[k], CaseIndex(from), CaseIndex(to)).Failure?
    requires forall j :: 0 <= j < k ==> Resolve(raw[j], CaseIndex(from), CaseIndex(to)).Success?
    ensures EnumArms(from, to, raw) == Failure(Resolve(raw[k], CaseIndex(from), CaseIndex(to)).error)
  {
    FirstFailureIs(Resolved(raw, CaseIndex(from), CaseIndex(to)), |raw|, k);
  }

  /** The pairs `(l, l)` for every literal of `lits`. */
  function Identity(lits: seq<string>): (r: seq<(string, string)>)
    ensures |r| == |lits| && forall k :: 0 <= k < |lits| ==> r[k] == (lits[k], lits[k])
  {
    seq(|lits|, k requires 0 <= k < |lits| => (lits[k], lits[k]))
  }

  lemma LastLowerDistinct(names: seq<string>, l: string)
    requires l in names
    requires forall i, j :: 0 <= i < j < |names| ==> LowerStr(names[i]) != LowerStr(names[j])
    ensures LastLower(names, LowerStr(l)) == Some(l)
  {
    var r := LastLower(names, LowerStr(l));
    var i :| 0 <= i < |names| && names[i] == l;
    var j :| 0 <= j < |names| && names[j] == r.value;
    assert LowerStr(names[j]) == LowerStr(names[i]);
  }

  /** Without overrides, a destination that declares every source literal
      (in any order, no two differing only in case) is mapped by name. */
  lemma EnumArmsByName(from: seq<string>, to: seq<string>)
    requires from != [] && forall k :: 0 <= k < |from| ==> from[k] in to
    requires forall i, j :: 0 <= i < j < |to| ==> LowerStr(to[i]) != LowerStr(to[j])
    ensures EnumArms(from, to, []) == Success(Identity(from))
  {
    assert from[0] in to;
    var rs := Resolved([], CaseIndex(from), CaseIndex(to));
    assert FirstFailure(rs, 0) == None && Oks(rs, 0) == [];
    assert OverrideTable(from, to, []) == Success([]);
    var ts := Targets(from, [], CaseIndex(to));
    forall k | 0 <= k < |from| ensures ts[k] == Some(from[k]) {
      CaseIndexGet(to, LowerStr(from[k]));
      LastLowerDistinct(to, from[k]);
    }
    NoneMissing(from, ts, |from|);
    assert EnumArms(from, to, []) == Success(Paired(from, ts));
    assert Paired(from, ts) == Identity(from);
  }
}
