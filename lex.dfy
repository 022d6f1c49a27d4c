// The fragments of regular expression the declaration parsers use, written as
// scanners over a string: `\s*` and `\s+` (a maximal run of whitespace, which
// is how the regex engine resolves it whenever the next pattern item cannot
// start with whitespace), `\w*`, `\b`, and literal words matched ignoring
// ASCII case (the `re.IGNORECASE` flag).

module Lex {
  import opened Wrappers
  import opened Text

  /** End of the maximal run of word characters starting at `i`. */
  function SkipWord(s: string, i: nat): (j: nat)
    requires i <= |s|
    ensures i <= j <= |s|
    ensures forall k :: i <= k < j ==> IsWordChar(s[k])
    ensures j < |s| ==> !IsWordChar(s[j])
    decreases |s| - i
  {
    if i < |s| && IsWordChar(s[i]) then SkipWord(s, i + 1) else i
  }

  /** `pat.search(text)` over the table `ms` of what the pattern matches at
      each start position: the leftmost start at or after `from` with a match. */
  function FirstMatch<T>(ms: seq<Option<T>>, from: nat): (r: Option<nat>)
    requires from <= |ms|
    ensures r.Some? ==> from <= r.value < |ms| && ms[r.value].Some?
    ensures r.Some? ==> forall i :: from <= i < r.value ==> ms[i].None?
    ensures r.None? ==> forall i :: from <= i < |ms| ==> ms[i].None?
    decreases |ms| - from
  {
    if from == |ms| then None
    else if ms[from].Some? then Some(from)
    else FirstMatch(ms, from + 1)
  }

  /** The text `w` occurs at position `i` of `s`, ignoring ASCII case. */
  predicate MatchCI(s: string, i: nat, w: string) {
    i + |w| <= |s| && forall k :: 0 <= k < |w| ==> Lower(s[i + k]) == Lower(w[k])
  }

  /** `\b` just before a word that starts at `i`. */
  predicate BoundaryBefore(s: string, i: nat)
    requires i <= |s|
  {
    i == 0 || !IsWordChar(s[i - 1])
  }

  /** `\b` just after a word that ends at `j`. */
  predicate BoundaryAfter(s: string, j: nat)
    requires j <= |s|
  {
    j == |s| || !IsWordChar(s[j])
  }

  /** `\btype\s+NAME\s+is` matched at position `i`: the position just after `is`. */
  function TypeIsAt(s: string, i: nat, name: string): (r: Option<nat>)
    ensures r.Some? ==> i + 4 < r.value <= |s| && MatchCI(s, r.value - 2, "is")
  {
    if i <= |s| && BoundaryBefore(s, i) && MatchCI(s, i, "type") then
      var a := SkipSpaces(s, i + 4);
      if a > i + 4 && MatchCI(s, a, name) then
        var b := SkipSpaces(s, a + |name|);
        if b > a + |name| && MatchCI(s, b, "is") then Some(b + 2) else None
      else None
    else None
  }

  lemma {:induction false} SkipWordAt(s: string, i: nat, j: nat)
    requires i <= j <= |s| && (forall k :: i <= k < j ==> IsWordChar(s[k])) && (j < |s| ==> !IsWordChar(s[j]))
    ensures SkipWord(s, i) == j
    decreases j - i
  {
    if i < j {
      SkipWordAt(s, i + 1, j);
    }
  }

  lemma MatchCISelf(s: string, i: nat, w: string)
    requires i + |w| <= |s| && s[i..i + |w|] == w
    ensures MatchCI(s, i, w)
  {
  }

  /** The declaration prefix `type NAME is` written with single spaces matches
      at its start whenever `NAME` is not empty and does not start with a
      space. */
  lemma TypeIsPrefix(name: string, rest: string)
    requires name != [] && !IsSpace(name[0])
    ensures TypeIsAt("type " + name + " is" + rest, 0, name) == Some(8 + |name|)
  {
    var s := "type " + name + " is" + rest;
    assert s[0..4] == "type";
    MatchCISelf(s, 0, "type");
    assert s[4] == ' ' && s[5] == name[0];
    SkipSpacesAt(s, 4, 5);
    assert s[5..5 + |name|] == name;
    MatchCISelf(s, 5, name);
    var n := 5 + |name|;
    assert s[n] == ' ' && s[n + 1] == 'i';
    SkipSpacesAt(s, n, n + 1);
    assert s[n + 1..n + 3] == "is";
    MatchCISelf(s, n + 1, "is");
  }
}
