// The handful of Python `str` operations the mapper tools rely on:
// `strip`, `lower`/`upper`, `split`, `join`, `count`, `startswith`/`endswith`,
// and the character classes `\s` and `\w` of the regular expressions.
// White space is Python's; `\w` and case mapping are the ASCII ones.

module Text {
  import opened Wrappers

  /** Python's `str.isspace`, which is also what `strip()`, `split()` and
      the class `\s` of the regular expressions treat as white space: the
      control characters 9 to 13 and 28 to 31, the space, and the Unicode
      spaces and line and paragraph separators. */
  predicate IsSpace(c: char) {
    if c <= ' ' then ('\t' <= c <= '\r') || '\U{1C}' <= c
    else c == '\U{85}' || c == '\U{A0}' || OtherSpace(c)
  }

  /** The white space above U+00FF. */
  predicate OtherSpace(c: char) {
    c == '\U{1680}' || ('\U{2000}' <= c <= '\U{200A}') || c == '\U{2028}' || c == '\U{2029}' ||
    c == '\U{202F}' || c == '\U{205F}' || c == '\U{3000}'
  }

  predicate IsAsciiLetter(c: char) { ('A' <= c <= 'Z') || ('a' <= c <= 'z') }

  predicate IsDigit(c: char) { '0' <= c <= '9' }

  predicate IsAlnum(c: char) { IsAsciiLetter(c) || IsDigit(c) }

  /** The class `\w`. */
  predicate IsWordChar(c: char) { IsAlnum(c) || c == '_' }

  function Lower(c: char): (r: char)
    ensures !('A' <= r <= 'Z')
    ensures IsWordChar(r) == IsWordChar(c) && IsSpace(r) == IsSpace(c)
  {
    if 'A' <= c <= 'Z' then (c as int + 32) as char else c
  }

  function Upper(c: char): (r: char)
    ensures !('a' <= r <= 'z')
    ensures IsWordChar(r) == IsWordChar(c) && IsSpace(r) == IsSpace(c)
  {
    if 'a' <= c <= 'z' then (c as int - 32) as char else c
  }

  function LowerStr(s: string): (r: string)
    ensures |r| == |s|
    ensures forall i :: 0 <= i < |s| ==> r[i] == Lower(s[i])
  {
    seq(|s|, i requires 0 <= i < |s| => Lower(s[i]))
  }

  function UpperStr(s: string): (r: string)
    ensures |r| == |s|
    ensures forall i :: 0 <= i < |s| ==> r[i] == Upper(s[i])
  {
    seq(|s|, i requires 0 <= i < |s| => Upper(s[i]))
  }

  predicate EqualsIgnoreCase(a: string, b: string) { LowerStr(a) == LowerStr(b) }

  lemma LowerStrIdempotent(s: string)
    ensures LowerStr(LowerStr(s)) == LowerStr(s)
  {
  }

  lemma LowerStrConcat(a: string, b: string)
    ensures LowerStr(a + b) == LowerStr(a) + LowerStr(b)
  {
  }

  // ----- strip -----

  /** End of the maximal run of whitespace starting at `i`. */
  function SkipSpaces(s: string, i: nat): (j: nat)
    requires i <= |s|
    ensures i <= j <= |s|
    ensures forall k :: i <= k < j ==> IsSpace(s[k])
    ensures j < |s| ==> !IsSpace(s[j])
    decreases |s| - i
  {
    if i < |s| && IsSpace(s[i]) then SkipSpaces(s, i + 1) else i
  }

  /** Start of the maximal run of whitespace ending at `j`. */
  function SkipSpacesBack(s: string, j: nat): (i: nat)
    requires j <= |s|
    ensures i <= j
    ensures forall k :: i <= k < j ==> IsSpace(s[k])
    ensures 0 < i ==> !IsSpace(s[i - 1])
    decreases j
  {
    if 0 < j && IsSpace(s[j - 1]) then SkipSpacesBack(s, j - 1) else j
  }

  lemma {:induction false} SkipSpacesAt(s: string, i: nat, j: nat)
    requires i <= j <= |s| && (forall k :: i <= k < j ==> IsSpace(s[k])) && (j < |s| ==> !IsSpace(s[j]))
    ensures SkipSpaces(s, i) == j
    decreases j - i
  {
    if i < j {
      SkipSpacesAt(s, i + 1, j);
    }
  }

  lemma {:induction false} SkipSpacesBackAt(s: string, i: nat, j: nat)
    requires i <= j <= |s| && (forall k :: i <= k < j ==> IsSpace(s[k])) && (0 < i ==> !IsSpace(s[i - 1]))
    ensures SkipSpacesBack(s, j) == i
    decreases j - i
  {
    if i < j {
      SkipSpacesBackAt(s, i, j - 1);
    }
  }

  /** No whitespace at either end: what `strip()` returns, and leaves alone. */
  predicate IsStripped(s: string) {
    s == [] || (!IsSpace(s[0]) && !IsSpace(s[|s| - 1]))
  }

  /** `strip()`: what lies between the leading and the trailing whitespace. */
  function Strip(s: string): (r: string)
    ensures IsStripped(r)
    ensures var a := SkipSpaces(s, 0); a + |r| <= |s| && r == s[a..a + |r|]
  {
    var a, b := SkipSpaces(s, 0), SkipSpacesBack(s, |s|);
    if a < b then s[a..b] else []
  }

  /** `s.strip()` is the slice between a run of leading and a run of trailing
      whitespace whose inner ends are not whitespace. */
  lemma StripAt(s: string, a: nat, b: nat)
    requires a <= b <= |s|
    requires forall k :: 0 <= k < a ==> IsSpace(s[k])
    requires forall k :: b <= k < |s| ==> IsSpace(s[k])
    requires a < b ==> !IsSpace(s[a]) && !IsSpace(s[b - 1])
    ensures Strip(s) == s[a..b]
  {
    if a < b {
      SkipSpacesAt(s, 0, a);
      SkipSpacesBackAt(s, b, |s|);
    }
  }

  /** A string with no whitespace at either end is its own strip. */
  lemma StripNoEdges(s: string)
    requires IsStripped(s)
    ensures Strip(s) == s
  {
    StripAt(s, 0, |s|);
    assert s[0..|s|] == s;
  }

  /** `s.strip()` is empty exactly when `s` is all whitespace. */
  lemma StripEmptyIff(s: string)
    ensures Strip(s) == [] <==> forall k :: 0 <= k < |s| ==> IsSpace(s[k])
  {
  }

  lemma StripIdempotent(s: string)
    ensures Strip(Strip(s)) == Strip(s)
  {
    StripNoEdges(Strip(s));
  }

  /** Stripping keeps any property every character of `s` has. */
  lemma StripChars(s: string, c: char)
    requires c !in s
    ensures c !in Strip(s)
  {
    var r := Strip(s);
    var a := SkipSpaces(s, 0);
    forall i | 0 <= i < |r| ensures r[i] != c {
      assert r[i] == s[a + i];
    }
  }

  // ----- search -----

  /** `s.find(c)` as an option. */
  function IndexOf(s: string, c: char): (r: Option<nat>)
    ensures r.None? ==> c !in s
    ensures r.Some? ==> r.value < |s| && s[r.value] == c && c !in s[..r.value]
    decreases |s|
  {
    if s == [] then None
    else if s[0] == c then Some(0)
    else
      match IndexOf(s[1..], c)
      case None => None
      case Some(i) =>
        assert s[..i + 1] == [s[0]] + s[1..][..i];
        Some(i + 1)
  }

  /** `s.count(c)` for a single character. */
  function CountChar(s: string, c: char): nat
    decreases |s|
  {
    if s == [] then 0 else (if s[0] == c then 1 else 0) + CountChar(s[1..], c)
  }

  lemma {:induction false} CountCharConcat(a: string, b: string, c: char)
    ensures CountChar(a + b, c) == CountChar(a, c) + CountChar(b, c)
    decreases |a|
  {
    if a == [] {
      assert a + b == b;
    } else {
      assert (a + b)[1..] == a[1..] + b;
      CountCharConcat(a[1..], b, c);
    }
  }

  lemma {:induction false} CountCharAbsent(s: string, c: char)
    requires c !in s
    ensures CountChar(s, c) == 0
    decreases |s|
  {
    if s != [] {
      assert s[0] != c;
      CountCharAbsent(s[1..], c);
    }
  }

  /** `p` occurs in `s` at position `i`. */
  predicate SubAt(s: string, p: string, i: nat) {
    i + |p| <= |s| && s[i..i + |p|] == p
  }

  /** `p in s`. */
  predicate HasSub(s: string, p: string) {
    exists i :: 0 <= i <= |s| && SubAt(s, p, i)
  }

  /** A string that lacks `p` has no slice that contains it. */
  lemma NoSubInSlice(s: string, p: string, a: nat, b: nat)
    requires a <= b <= |s| && !HasSub(s, p)
    ensures !HasSub(s[a..b], p)
  {
    if HasSub(s[a..b], p) {
      var i :| 0 <= i <= b - a && SubAt(s[a..b], p, i);
      SliceOfSlice(s, a, b, i, i + |p|);
      assert SubAt(s, p, a + i);
    }
  }

  lemma SliceOfSlice(s: string, a: nat, b: nat, i: nat, j: nat)
    requires a <= b <= |s| && i <= j <= b - a
    ensures s[a..b][i..j] == s[a + i..a + j]
  {
    var l, r := s[a..b][i..j], s[a + i..a + j];
    assert |l| == |r|;
    forall k | 0 <= k < |l| ensures l[k] == r[k] {
      assert l[k] == s[a..b][i + k] == s[a + i + k];
    }
  }

  /** The first occurrence of `p` in `s` at or after position `from`. */
  function FindSubFrom(s: string, p: string, from: nat): (r: Option<nat>)
    ensures r.Some? ==> from <= r.value <= |s|
    decreases |s| - from
  {
    if from > |s| then None
    else if SubAt(s, p, from) then Some(from)
    else FindSubFrom(s, p, from + 1)
  }

  /** The search finds an occurrence, and the first one. */
  lemma {:induction false} FindSubFromSpec(s: string, p: string, from: nat)
    ensures var r := FindSubFrom(s, p, from);
      (r.Some? ==> SubAt(s, p, r.value) && forall j :: from <= j < r.value ==> !SubAt(s, p, j)) &&
      (r.None? ==> forall j :: from <= j <= |s| ==> !SubAt(s, p, j))
    decreases |s| - from
  {
    if from <= |s| && !SubAt(s, p, from) {
      FindSubFromSpec(s, p, from + 1);
    }
  }

  /** The first occurrence of `p` in `s`. */
  function FindSub(s: string, p: string): (r: Option<nat>)
    ensures r.Some? ==> r.value <= |s|
  {
    FindSubFrom(s, p, 0)
  }

  lemma FindSubSpec(s: string, p: string)
    ensures FindSub(s, p).Some? ==> SubAt(s, p, FindSub(s, p).value)
    ensures FindSub(s, p).Some? ==> forall j :: 0 <= j < FindSub(s, p).value ==> !SubAt(s, p, j)
    ensures FindSub(s, p).None? ==> !HasSub(s, p)
  {
    FindSubFromSpec(s, p, 0);
  }

  /** `s.split(p, 1)[0]`: what precedes the first `p`, or all of `s`. */
  function Before(s: string, p: string): (r: string)
    requires p != []
  {
    match FindSub(s, p)
    case None => s
    case Some(i) => s[..i]
  }

  /** What precedes the first `p` is a prefix of `s` without `p` in it. */
  lemma BeforeSpec(s: string, p: string)
    requires p != []
    ensures |Before(s, p)| <= |s| && Before(s, p) == s[..|Before(s, p)|]
    ensures !HasSub(Before(s, p), p)
  {
    FindSubSpec(s, p);
    match FindSub(s, p)
    case None =>
    case Some(i) => PrefixBeforeFirst(s, p, i);
  }

  lemma PrefixBeforeFirst(s: string, p: string, i: nat)
    requires p != [] && i <= |s| && forall j :: 0 <= j < i ==> !SubAt(s, p, j)
    ensures !HasSub(s[..i], p)
  {
    if HasSub(s[..i], p) {
      var j :| 0 <= j <= i && SubAt(s[..i], p, j);
      SliceOfSlice(s, 0, i, j, j + |p|);
      assert SubAt(s, p, j);
    }
  }

  // ----- split and join -----

  /** `s.split(c)` for a one-character separator: never empty, no part holds `c`. */
  function SplitOn(s: string, c: char): (parts: seq<string>)
    ensures |parts| >= 1
    ensures forall k :: 0 <= k < |parts| ==> c !in parts[k]
    decreases |s|
  {
    match IndexOf(s, c)
    case None => [s]
    case Some(i) => [s[..i]] + SplitOn(s[i + 1..], c)
  }

  /** `sep.join(parts)`. */
  function Join(parts: seq<string>, sep: string): string
    decreases |parts|
  {
    if |parts| == 0 then ""
    else if |parts| == 1 then parts[0]
    else parts[0] + sep + Join(parts[1..], sep)
  }

  lemma {:induction false} JoinSplit(s: string, c: char)
    ensures Join(SplitOn(s, c), [c]) == s
    decreases |s|
  {
    match IndexOf(s, c)
    case None =>
    case Some(i) =>
      JoinSplit(s[i + 1..], c);
      var rest := SplitOn(s[i + 1..], c);
      assert SplitOn(s, c) == [s[..i]] + rest;
      JoinCons(s[..i], rest, [c]);
      assert s == s[..i] + [c] + s[i + 1..];
  }

  lemma JoinCons(head: string, rest: seq<string>, sep: string)
    requires |rest| >= 1
    ensures Join([head] + rest, sep) == head + sep + Join(rest, sep)
  {
    assert ([head] + rest)[1..] == rest;
  }

  /** A character in neither the separator nor any part is not in the join. */
  lemma {:induction false} JoinAvoids(parts: seq<string>, sep: string, c: char)
    requires c !in sep && forall k :: 0 <= k < |parts| ==> c !in parts[k]
    ensures c !in Join(parts, sep)
    decreases |parts|
  {
    if |parts| > 1 {
      JoinAvoids(parts[1..], sep, c);
      assert parts[0] in parts;
    }
  }

  lemma {:induction false} SplitJoin(parts: seq<string>, c: char)
    requires |parts| >= 1
    requires forall k :: 0 <= k < |parts| ==> c !in parts[k]
    ensures SplitOn(Join(parts, [c]), c) == parts
    decreases |parts|
  {
    if |parts| > 1 {
      var head, tail := parts[0], Join(parts[1..], [c]);
      var s := head + [c] + tail;
      assert Join(parts, [c]) == s;
      assert c !in head;
      IndexAfterPrefix(head, c, tail);
      assert s[|head| + 1..] == tail;
      SplitJoin(parts[1..], c);
      assert SplitOn(s, c) == [head] + parts[1..];
    }
  }

  lemma IndexAfterPrefix(head: string, c: char, tail: string)
    requires c !in head
    ensures IndexOf(head + [c] + tail, c) == Some(|head|)
    ensures (head + [c] + tail)[..|head|] == head
  {
    var s := head + [c] + tail;
    assert s[|head|] == c;
    forall i | 0 <= i < |head| ensures s[i] != c {
      assert s[i] == head[i];
    }
  }

  lemma {:induction false} SplitCount(s: string, c: char)
    ensures |SplitOn(s, c)| == CountChar(s, c) + 1
    decreases |s|
  {
    match IndexOf(s, c)
    case None => CountCharAbsent(s, c);
    case Some(i) =>
      SplitCount(s[i + 1..], c);
      assert s == s[..i] + ([c] + s[i + 1..]);
      CountCharConcat(s[..i], [c] + s[i + 1..], c);
      CountCharAbsent(s[..i], c);
      CountCharConcat([c], s[i + 1..], c);
      assert CountChar([c], c) == 1 by { assert [c][1..] == []; }
  }

  // ----- prefixes, suffixes, repetition, numerals -----

  predicate StartsWith(s: string, p: string) { |p| <= |s| && s[..|p|] == p }

  lemma StartsWithConcat(a: string, b: string)
    ensures StartsWith(a + b, a)
  {
    assert (a + b)[..|a|] == a;
  }

  predicate EndsWith(s: string, p: string) { |p| <= |s| && s[|s| - |p|..] == p }

  /** `s * n`. */
  function Repeat(s: string, n: nat): (r: string)
    ensures |r| == |s| * n
  {
    if n == 0 then "" else Repeat(s, n - 1) + s
  }

  function DigitChar(d: nat): char
    requires d < 10
  {
    ['0', '1', '2', '3', '4', '5', '6', '7', '8', '9'][d]
  }

  /** `str(n)` for a natural number. */
  function NatToString(n: nat): (r: string)
    ensures |r| >= 1
    ensures forall i :: 0 <= i < |r| ==> IsDigit(r[i])
  {
    if n < 10 then [DigitChar(n)] else NatToString(n / 10) + [DigitChar(n % 10)]
  }
}
