// Array declarations and the `Map` overload between two array types: the
// element type and dimension count of `type NAME is array (...) of ELEM;`,
// and a body that copies every element inside one `for` loop per dimension.

module Arrays {
  import opened Wrappers
  import opened Text
  import opened Assoc
  import opened Lex
  import opened Lookup
  import Schema
  import Ada

  // ----- the two declaration patterns -----

  /** The first `c` at or after `from`. */
  function CharFrom(s: string, c: char, from: nat): (r: Option<nat>)
    requires from <= |s|
    ensures r.Some? ==> from <= r.value < |s| && s[r.value] == c
    ensures r.Some? ==> forall k :: from <= k < r.value ==> s[k] != c
    ensures r.None? ==> forall k :: from <= k < |s| ==> s[k] != c
    decreases |s| - from
  {
    if from == |s| then None
    else if s[from] == c then Some(from)
    else CharFrom(s, c, from + 1)
  }

  /** `type NAME is array (` matched at `i` (`\btype\s+NAME\s+is\s+array\s*\(`):
      the position of the opening parenthesis. */
  function ArrayHead(s: string, i: nat, name: string): (r: Option<nat>)
    ensures r.Some? ==> i < r.value < |s| && s[r.value] == '('
  {
    match TypeIsAt(s, i, name)
    case None => None
    case Some(p) => ArrayWord(s, p)
  }

  /** `\s+array\s*\(` matched at `p`, just after `is`. */
  function ArrayWord(s: string, p: nat): (r: Option<nat>)
    requires p <= |s|
    ensures r.Some? ==> p < r.value < |s| && s[r.value] == '('
  {
    var a := SkipSpaces(s, p);
    if a > p && MatchCI(s, a, "array") then OpenParen(s, a + 5) else None
  }

  /** `\s*\(` matched at `a`. */
  function OpenParen(s: string, a: nat): (r: Option<nat>)
    requires a <= |s|
    ensures r.Some? ==> a <= r.value < |s| && s[r.value] == '('
  {
    var b := SkipSpaces(s, a);
    if b < |s| && s[b] == '(' then Some(b) else None
  }

  /** `\s*of\s+([^;]+);` matched at `c`, just after the closing parenthesis:
      the start of the element text (just after `of`) and the position of the
      `;` that ends it.  `\s+` and `[^;]+` each need one character at least. */
  function OfClause(s: string, c: nat): (r: Option<(nat, nat)>)
    requires c <= |s|
    ensures r.Some? ==> c + 2 <= r.value.0 && r.value.0 + 2 <= r.value.1 < |s|
    ensures r.Some? ==> s[r.value.1] == ';'
    ensures r.Some? ==> forall k :: r.value.0 <= k < r.value.1 ==> s[k] != ';'
  {
    var a := SkipSpaces(s, c);
    if MatchCI(s, a, "of") && a + 2 < |s| && IsSpace(s[a + 2]) then ElementText(s, a + 2) else None
  }

  /** `([^;]+);` matched at `b`, just after the space that follows `of`. */
  function ElementText(s: string, b: nat): (r: Option<(nat, nat)>)
    requires b < |s|
    ensures r.Some? ==> r.value.0 == b && b + 2 <= r.value.1 < |s| && s[r.value.1] == ';'
    ensures r.Some? ==> forall k :: b <= k < r.value.1 ==> s[k] != ';'
  {
    match CharFrom(s, ';', b)
    case None => None
    case Some(semi) => if semi >= b + 2 then Some((b, semi)) else None
  }

  /** The lazy `\(.*?\)`: the first `)` from `k` on, before any line break,
      after which the `of` clause matches. */
  function LazyClose(s: string, k: nat): (r: Option<(nat, nat)>)
    requires k <= |s|
    ensures r.Some? ==> k + 2 < r.value.0 && r.value.0 + 2 <= r.value.1 < |s| && s[r.value.1] == ';'
    ensures r.Some? ==> forall i :: r.value.0 <= i < r.value.1 ==> s[i] != ';'
    decreases |s| - k
  {
    if k == |s| || s[k] == '\n' then None
    else if s[k] == ')' && OfClause(s, k + 1).Some? then OfClause(s, k + 1)
    else LazyClose(s, k + 1)
  }

  /** The element-type pattern matched at `i`: where the element text starts
      and where its `;` is. */
  function ElementAt(s: string, i: nat, name: string): (r: Option<(nat, nat)>)
    ensures r.Some? ==> r.value.0 + 2 <= r.value.1 < |s| && s[r.value.1] == ';'
    ensures r.Some? ==> forall k :: r.value.0 <= k < r.value.1 ==> s[k] != ';'
  {
    match ArrayHead(s, i, name)
    case None => None
    case Some(o) => LazyClose(s, o + 1)
  }

  /** What the element-type pattern matches at each start position of `s`. */
  function ElementMatches(s: string, name: string): (ms: seq<Option<(nat, nat)>>)
    ensures |ms| == |s| + 1 && forall i :: 0 <= i <= |s| ==> ms[i] == ElementAt(s, i, name)
  {
    seq(|s| + 1, (i: int) requires 0 <= i => ElementAt(s, i, name))
  }

  /** `parse_array_component_type`: the stripped text between `of` and `;` of
      the first declaration of `name` as an array, or nothing. */
  function ComponentType(s: string, name: string): (r: Option<string>)
    ensures r.Some? ==> IsStripped(r.value) && ';' !in r.value
    ensures r.None? <==> forall j :: 0 <= j <= |s| ==> ElementAt(s, j, name).None?
  {
    var ms := ElementMatches(s, name);
    match FirstMatch(ms, 0)
    case None => None
    case Some(i) =>
      var span := ms[i].value;
      var body := s[span.0..span.1];
      StripChars(body, ';');
      Some(Strip(body))
  }

  /** The dimension pattern `\(([^)]*)\)\s*of\s+([^;]+);` matched at `i`: the
      positions of the two parentheses.  `[^)]*` cannot pass a `)`, so the
      closing parenthesis is the first one. */
  function IndexListAt(s: string, i: nat, name: string): (r: Option<(nat, nat)>)
    ensures r.Some? ==> r.value.0 < r.value.1 < |s| && s[r.value.1] == ')'
    ensures r.Some? ==> forall k :: r.value.0 < k < r.value.1 ==> s[k] != ')'
  {
    match ArrayHead(s, i, name)
    case None => None
    case Some(o) => IndexClose(s, o)
  }

  /** `[^)]*\)` and the `of` clause matched just after the parenthesis at `o`. */
  function IndexClose(s: string, o: nat): (r: Option<(nat, nat)>)
    requires o < |s|
    ensures r.Some? ==> r.value.0 == o < r.value.1 < |s| && s[r.value.1] == ')'
    ensures r.Some? ==> forall k :: o < k < r.value.1 ==> s[k] != ')'
  {
    match CharFrom(s, ')', o + 1)
    case None => None
    case Some(c) => IndexTail(s, o, c)
  }

  /** The `of` clause after the closing parenthesis at `c`. */
  function IndexTail(s: string, o: nat, c: nat): (r: Option<(nat, nat)>)
    requires c < |s|
    ensures r.Some? ==> r == Some((o, c))
  {
    if OfClause(s, c + 1).Some? then Some((o, c)) else None
  }

  /** What the dimension pattern matches at each start position of `s`. */
  function IndexListMatches(s: string, name: string): (ms: seq<Option<(nat, nat)>>)
    ensures |ms| == |s| + 1 && forall i :: 0 <= i <= |s| ==> ms[i] == IndexListAt(s, i, name)
  {
    seq(|s| + 1, (i: int) requires 0 <= i => IndexListAt(s, i, name))
  }

  /** The text between the parentheses of the first matching declaration. */
  function IndexList(s: string, name: string): (r: Option<string>)
    ensures r.Some? ==> ')' !in r.value
  {
    var ms := IndexListMatches(s, name);
    match FirstMatch(ms, 0)
    case None => None
    case Some(i) =>
      var span := ms[i].value;
      Some(s[span.0 + 1..span.1])
  }

  /** The dimension an index list declares: one more than its commas, and 1
      when it is empty. */
  function IndexCount(indexes: string): nat {
    if indexes == [] then 1 else CountChar(indexes, ',') + 1
  }

  /** `parse_array_dimension`. */
  function Dimension(s: string, name: string): (r: Option<nat>)
    ensures r.None? <==> IndexList(s, name).None?
    ensures r.Some? ==> r.value == IndexCount(IndexList(s, name).value)
  {
    match IndexList(s, name)
    case None => None
    case Some(indexes) => Some(IndexCount(indexes))
  }

  /** The dimension counts the comma-separated index ranges, so it is at
      least 1. */
  lemma IndexCountRanges(indexes: string)
    ensures IndexCount(indexes) == |SplitOn(indexes, ',')| >= 1
  {
    SplitCount(indexes, ',');
    if indexes == [] {
      assert CountChar(indexes, ',') == 0;
    }
  }

  // ----- declarations written out -----

  /** `type NAME is array (INDEXES) of ELEM;` on one line. */
  function ArrayDeclaration(name: string, indexes: string, elem: string): string {
    "type " + name + " is" + " array (" + indexes + ") of " + elem + ";"
  }

  lemma {:induction false} CharFromAt(s: string, c: char, from: nat, j: nat)
    requires from <= j < |s| && s[j] == c && forall k :: from <= k < j ==> s[k] != c
    ensures CharFrom(s, c, from) == Some(j)
    decreases j - from
  {
    if from < j {
      CharFromAt(s, c, from + 1, j);
    }
  }

  lemma {:induction false} LazyCloseAt(s: string, k: nat, c: nat)
    requires k <= c < |s| && s[c] == ')' && OfClause(s, c + 1).Some?
    requires forall i :: k <= i < c ==> s[i] != ')' && s[i] != '\n'
    ensures LazyClose(s, k) == OfClause(s, c + 1)
    decreases c - k
  {
    if k < c {
      assert s[k] != ')' && s[k] != '\n';
      LazyCloseSkip(s, k);
      LazyCloseAt(s, k + 1, c);
    }
  }

  /** An ordinary character is passed over. */
  lemma LazyCloseSkip(s: string, k: nat)
    requires k < |s| && s[k] != ')' && s[k] != '\n'
    ensures LazyClose(s, k) == LazyClose(s, k + 1)
  {
  }

  lemma SliceAvoids(s: string, i: nat, j: nat, x: char)
    requires i <= j <= |s| && x !in s[i..j]
    ensures forall k :: i <= k < j ==> s[k] != x
  {
    forall k | i <= k < j ensures s[k] != x {
      assert s[k] == s[i..j][k - i];
    }
  }

  /** A space before a stripped text strips away. */
  lemma StripSpaced(elem: string)
    requires elem != [] && IsStripped(elem)
    ensures Strip([' '] + elem) == elem
  {
    var body := [' '] + elem;
    StripAt(body, 1, |body|);
    assert body[1..|body|] == elem;
  }

  /** Where the pieces of `h + a + indexes + b + elem + c` stand. */
  lemma PiecesAt(h: string, a: string, indexes: string, b: string, elem: string, c: string)
    ensures var s := h + a + indexes + b + elem + c;
      var o := |h| + |a|;
      var e := o + |indexes| + |b|;
      |s| == e + |elem| + |c| && s[..|h|] == h && s[|h|..o] == a && s[o..o + |indexes|] == indexes &&
      s[o + |indexes|..e] == b && s[e..e + |elem|] == elem && s[e + |elem|..] == c
  {
  }

  /** `type NAME is` at the start of `s` with single spaces. */
  lemma TypeIsHead(s: string, name: string)
    requires name != [] && !IsSpace(name[0])
    requires 8 + |name| <= |s| && s[..8 + |name|] == "type " + name + " is"
    ensures TypeIsAt(s, 0, name) == Some(8 + |name|)
  {
    var n := 8 + |name|;
    var t := "type " + name + " is" + s[n..];
    assert t == s by {
      assert s == s[..n] + s[n..];
    }
    TypeIsPrefix(name, s[n..]);
  }

  /** ` array (` just after `type NAME is`. */
  lemma ArrayHeadFrom(s: string, name: string, p: nat)
    requires TypeIsAt(s, 0, name) == Some(p)
    requires p + 8 <= |s| && s[p..p + 8] == " array ("
    ensures ArrayHead(s, 0, name) == Some(p + 7)
  {
    assert s[p] == ' ' && s[p + 1] == 'a';
    SkipSpacesAt(s, p, p + 1);
    forall k | 0 <= k < 5 ensures s[p + 1 + k] == "array"[k] {
      assert s[p + 1 + k] == s[p..p + 8][k + 1];
    }
    assert MatchCI(s, p + 1, "array");
    assert s[p + 6] == ' ' && s[p + 7] == '(';
    SkipSpacesAt(s, p + 6, p + 7);
    assert OpenParen(s, p + 6) == Some(p + 7);
    assert ArrayWord(s, p) == Some(p + 7);
  }

  /** ` of ELEM;` just after the closing parenthesis at `c`. */
  lemma OfClauseFrom(s: string, c: nat, e: nat)
    requires c + 5 < e < |s| && s[c + 1..c + 5] == " of " && s[e] == ';'
    requires forall k :: c + 5 <= k < e ==> s[k] != ';'
    ensures OfClause(s, c + 1) == Some((c + 4, e))
  {
    assert s[c + 1] == ' ' && s[c + 2] == 'o';
    SkipSpacesAt(s, c + 1, c + 2);
    assert s[c + 2] == 'o' && s[c + 3] == 'f';
    assert MatchCI(s, c + 2, "of");
    assert s[c + 4] == ' ';
    CharFromAt(s, ';', c + 4, e);
  }

  /** A declaration as laid out by `ArrayDeclaration`, stated of `s` alone:
      the name ends at `p`, the index list runs from `p + 8` to `c` and the
      element text from `c + 5` to `e`. */
  ghost predicate Laid(s: string, name: string, c: nat, e: nat) {
    var p := 8 + |name|;
    p + 8 <= c && c + 5 < e && e + 1 == |s| &&
    s[..p] == "type " + name + " is" && s[p..p + 8] == " array (" &&
    s[c..c + 5] == ") of " && s[e] == ';'
  }

  lemma DeclarationLaid(name: string, indexes: string, elem: string)
    requires elem != []
    ensures var c := 16 + |name| + |indexes|;
      Laid(ArrayDeclaration(name, indexes, elem), name, c, c + 5 + |elem|)
    ensures var s, c := ArrayDeclaration(name, indexes, elem), 16 + |name| + |indexes|;
      s[16 + |name|..c] == indexes && s[c + 5..c + 5 + |elem|] == elem
  {
    PiecesAt("type " + name + " is", " array (", indexes, ") of ", elem, ";");
  }

  /** The head and the `of` clause of a laid-out declaration match. */
  lemma LaidMatches(s: string, name: string, c: nat, e: nat)
    requires name != [] && !IsSpace(name[0])
    requires Laid(s, name, c, e) && forall k :: c + 5 <= k < e ==> s[k] != ';'
    ensures ArrayHead(s, 0, name) == Some(15 + |name|)
    ensures s[c] == ')' && OfClause(s, c + 1) == Some((c + 4, e))
  {
    TypeIsHead(s, name);
    ArrayHeadFrom(s, name, 8 + |name|);
    assert s[c] == s[c..c + 5][0];
    forall k | 0 <= k < 4 ensures s[c + 1..c + 5][k] == " of "[k] {
      assert s[c + 1 + k] == s[c..c + 5][k + 1];
    }
    OfClauseFrom(s, c, e);
  }

  /** The text after `of` is one space and the element text. */
  lemma LaidElementText(s: string, name: string, c: nat, e: nat)
    requires Laid(s, name, c, e)
    ensures s[c + 4..e] == [' '] + s[c + 5..e]
  {
    assert s[c + 4] == s[c..c + 5][4];
    assert s[c + 4..e] == [s[c + 4]] + s[c + 5..e];
  }

  /** The element-type pattern finds the text after `of` of a laid-out
      declaration whose index list has no `)` or line break. */
  lemma ComponentOfLaid(s: string, name: string, c: nat, e: nat)
    requires name != [] && !IsSpace(name[0])
    requires Laid(s, name, c, e) && forall k :: c + 5 <= k < e ==> s[k] != ';'
    requires forall i :: 16 + |name| <= i < c ==> s[i] != ')' && s[i] != '\n'
    ensures ComponentType(s, name) == Some(Strip(s[c + 4..e]))
  {
    LaidMatches(s, name, c, e);
    LazyCloseAt(s, 16 + |name|, c);
    assert ElementAt(s, 0, name) == Some((c + 4, e));
    assert ElementMatches(s, name)[0] == Some((c + 4, e));
  }

  /** A declaration written out gives back its element type, whatever its
      index list, as long as the list has no `)` or line break. */
  lemma ComponentOfDeclaration(name: string, indexes: string, elem: string)
    requires name != [] && !IsSpace(name[0])
    requires ')' !in indexes && '\n' !in indexes
    requires elem != [] && IsStripped(elem) && ';' !in elem
    ensures ComponentType(ArrayDeclaration(name, indexes, elem), name) == Some(elem)
  {
    var s := ArrayDeclaration(name, indexes, elem);
    var o, c := 16 + |name|, 16 + |name| + |indexes|;
    var e := c + 5 + |elem|;
    DeclarationLaid(name, indexes, elem);
    SliceAvoids(s, o, c, ')');
    SliceAvoids(s, o, c, '\n');
    SliceAvoids(s, c + 5, e, ';');
    ComponentOfLaid(s, name, c, e);
    LaidElementText(s, name, c, e);
    StripSpaced(elem);
  }

  /** The dimension pattern finds the index list of a laid-out declaration
      whose list has no `)`. */
  lemma IndexListOfLaid(s: string, name: string, c: nat, e: nat)
    requires name != [] && !IsSpace(name[0])
    requires Laid(s, name, c, e) && forall k :: c + 5 <= k < e ==> s[k] != ';'
    requires forall i :: 16 + |name| <= i < c ==> s[i] != ')'
    ensures IndexList(s, name) == Some(s[16 + |name|..c])
  {
    LaidMatches(s, name, c, e);
    CharFromAt(s, ')', 16 + |name|, c);
    IndexListAtFrom(s, name, 15 + |name|, c);
    assert IndexListMatches(s, name)[0] == Some((15 + |name|, c));
  }

  lemma IndexListAtFrom(s: string, name: string, o: nat, c: nat)
    requires ArrayHead(s, 0, name) == Some(o) && CharFrom(s, ')', o + 1) == Some(c)
    requires c + 1 <= |s| && OfClause(s, c + 1).Some?
    ensures IndexListAt(s, 0, name) == Some((o, c))
  {
  }

  /** A declaration written out with `n` index ranges has dimension `n`. */
  lemma DimensionOfDeclaration(name: string, ranges: seq<string>, elem: string)
    requires name != [] && !IsSpace(name[0])
    requires ranges != [] && forall k :: 0 <= k < |ranges| ==> ',' !in ranges[k] && ')' !in ranges[k]
    requires elem != [] && ';' !in elem
    ensures Dimension(ArrayDeclaration(name, Join(ranges, ","), elem), name) == Some(|ranges|)
  {
    var indexes := Join(ranges, ",");
    var s := ArrayDeclaration(name, indexes, elem);
    var o, c := 16 + |name|, 16 + |name| + |indexes|;
    var e := c + 5 + |elem|;
    DeclarationLaid(name, indexes, elem);
    JoinAvoids(ranges, ",", ')');
    SliceAvoids(s, o, c, ')');
    SliceAvoids(s, c + 5, e, ';');
    IndexListOfLaid(s, name, c, e);
    IndexCountRanges(indexes);
    SplitJoin(ranges, ',');
  }

  /** `array_map_spec`, which generator.py repeats as a static method. */
  function ArrayMapSpec(src: string, dst: string): (r: string)
    ensures StartsWith(r, Ada.MapProfile("A", src, dst)) && EndsWith(r, ";\n")
  {
    var head := Ada.MapProfile("A", src, dst);
    StartsWithConcat(head, ";\n");
    head + ";\n"
  }
}
