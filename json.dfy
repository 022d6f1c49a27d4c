// The JSON values a mapping file holds, with the few Python operations the
// tools apply to them: `dict.get`, truthiness, `str()` and `isinstance`
// tests.  Objects keep their members in insertion order, like Python
// dictionaries loaded by the `json` module.

module Json {
  import opened Wrappers
  import opened Text
  import opened Assoc

  datatype Json =
    | JNull
    | JBool(b: bool)
    | JInt(i: int)
    | JFloat(text: string)   // a number with a fraction or an exponent, kept as the text `repr` gives it
    | JStr(s: string)
    | JArr(items: seq<Json>)
    | JObj(members: Dict<string, Json>)

  /** `x.get(k)` on a dictionary; any other value has no members. */
  function Member(x: Json, k: string): (r: Option<Json>)
    ensures r.Some? ==> x.JObj? && k in Keys(x.members)
    ensures x.JObj? && k in Keys(x.members) ==> r.Some?
  {
    if x.JObj? then Get(x.members, k) else None
  }

  /** Python truthiness: `None`, `False`, `0`, `0.0`, `-0.0`, and empty
      strings, lists and dictionaries are false. */
  predicate Truthy(x: Json) {
    match x
    case JNull => false
    case JBool(b) => b
    case JInt(i) => i != 0
    case JFloat(t) => t != "0.0" && t != "-0.0"
    case JStr(s) => s != []
    case JArr(items) => items != []
    case JObj(members) => members != []
  }

  /** `a or b`: the first operand when it is truthy, else the second. */
  function Or(a: Option<Json>, b: Option<Json>): (r: Option<Json>)
    ensures r == a || r == b
    ensures r.Some? && Truthy(r.value) <==> (a.Some? && Truthy(a.value)) || (b.Some? && Truthy(b.value))
  {
    if a.Some? && Truthy(a.value) then a else b
  }

  predicate IsStr(x: Option<Json>) { x.Some? && x.value.JStr? }

  function IntToString(i: int): (r: string)
    ensures r != []
  {
    if i < 0 then "-" + NatToString(-i) else NatToString(i)
  }

  /** The quote `repr` puts around a string: a double quote when the string
      holds a single quote and no double quote, else a single quote. */
  function QuoteFor(s: string): (q: char)
    ensures q == '\'' || q == '"'
  {
    if Holds(s, '\'') && !Holds(s, '"') then '"' else '\''
  }

  /** `c in s`, by recursion. */
  function Holds(s: string, c: char): bool
    decreases |s|
  {
    s != [] && (s[0] == c || Holds(s[1..], c))
  }

  lemma {:induction false} HoldsIn(s: string, c: char)
    ensures Holds(s, c) <==> c in s
    decreases |s|
  {
    if s != [] {
      HoldsIn(s[1..], c);
      assert s == [s[0]] + s[1..];
    }
  }

  /** Python's choice of quote. */
  lemma QuoteForSpec(s: string)
    ensures QuoteFor(s) == '"' <==> '\'' in s && '"' !in s
  {
    HoldsIn(s, '\'');
    HoldsIn(s, '"');
  }

  /** A character `repr` writes as `\xhh`: the C0 controls other than tab,
      line feed and carriage return, DEL, the C1 controls, the no-break space
      and the soft hyphen. */
  predicate HexEscaped(c: char) {
    c < ' ' || ('\U{7F}' <= c <= '\U{A0}') || c == '\U{AD}'
  }

  function HexDigit(n: nat): (c: char)
    requires n < 16
    ensures '0' <= c <= '9' || 'a' <= c <= 'f'
  {
    if n < 10 then ('0' as int + n) as char else ('a' as int + n - 10) as char
  }

  /** The value of a lower-case hexadecimal digit. */
  function HexValue(c: char): (n: nat)
    ensures n < 16
  {
    if '0' <= c <= '9' then c as int - '0' as int
    else if 'a' <= c <= 'f' then c as int - 'a' as int + 10
    else 0
  }

  /** How `repr` writes one character between quotes `q`: the quote and the
      backslash behind a backslash, tab, line feed and carriage return as
      `\t`, `\n` and `\r`, the other non-printable characters of Latin-1
      as `\xhh`, and anything else as itself. */
  function EscapeChar(c: char, q: char): (r: string)
    ensures r != []
  {
    if c == q || c == '\\' then ['\\', c]
    else if c == '\t' then "\\t"
    else if c == '\n' then "\\n"
    else if c == '\r' then "\\r"
    else if HexEscaped(c) then "\\x" + [HexDigit(c as int / 16), HexDigit(c as int % 16)]
    else [c]
  }

  /** The characters of `s` as `repr` writes them between quotes `q`. */
  function Escaped(s: string, q: char): string
    decreases |s|
  {
    if s == [] then "" else EscapeChar(s[0], q) + Escaped(s[1..], q)
  }

  /** `repr(s)` of a string. */
  function ReprStr(s: string): (r: string)
    ensures |r| >= 2 && r[0] == QuoteFor(s) && r[|r| - 1] == QuoteFor(s)
  {
    [QuoteFor(s)] + Escaped(s, QuoteFor(s)) + [QuoteFor(s)]
  }

  /** Reading a string literal's text back, the way Python's parser undoes
      the escapes `repr` writes. */
  function Unescaped(t: string): string
    decreases |t|
  {
    if t == [] then ""
    else if t[0] == '\\' && |t| >= 2 then
      if t[1] == 't' then "\t" + Unescaped(t[2..])
      else if t[1] == 'n' then "\n" + Unescaped(t[2..])
      else if t[1] == 'r' then "\r" + Unescaped(t[2..])
      else if t[1] == 'x' && |t| >= 4 then [(HexValue(t[2]) * 16 + HexValue(t[3])) as char] + Unescaped(t[4..])
      else [t[1]] + Unescaped(t[2..])
    else [t[0]] + Unescaped(t[1..])
  }

  /** Reading back one written character. */
  lemma UnescapeChar(c: char, q: char, rest: string)
    requires q == '\'' || q == '"'
    ensures Unescaped(EscapeChar(c, q) + rest) == [c] + Unescaped(rest)
  {
    var t := EscapeChar(c, q) + rest;
    if c == q || c == '\\' {
      assert t[2..] == rest;
    } else if c == '\t' || c == '\n' || c == '\r' {
      assert t[2..] == rest;
    } else if HexEscaped(c) {
      var n := c as int;
      assert HexValue(HexDigit(n / 16)) == n / 16;
      assert HexValue(HexDigit(n % 16)) == n % 16;
      assert t[4..] == rest;
    } else {
      assert t[1..] == rest;
    }
  }

  /** Round trip: the escapes `repr` writes read back to the string. */
  lemma {:induction false} EscapedRoundTrip(s: string, q: char)
    requires q == '\'' || q == '"'
    ensures Unescaped(Escaped(s, q)) == s
    decreases |s|
  {
    if s != [] {
      EscapedRoundTrip(s[1..], q);
      UnescapeChar(s[0], q, Escaped(s[1..], q));
    }
  }

  /** The text between the quotes of `repr(s)` reads back to `s`. */
  lemma ReprStrRoundTrip(s: string)
    ensures var r := ReprStr(s); Unescaped(r[1..|r| - 1]) == s
  {
    var r := ReprStr(s);
    assert r[1..|r| - 1] == Escaped(s, QuoteFor(s));
    EscapedRoundTrip(s, QuoteFor(s));
  }

  /** `repr(x)`. */
  function Repr(x: Json): string
    decreases x, 1
  {
    match x
    case JNull => "None"
    case JBool(b) => if b then "True" else "False"
    case JInt(i) => IntToString(i)
    case JFloat(t) => t
    case JStr(s) => ReprStr(s)
    case JArr(items) => "[" + ReprItems(x, 0) + "]"
    case JObj(members) => "{" + ReprMembers(x, 0) + "}"
  }

  /** The items of a list from position `from` on, separated by `, `. */
  function ReprItems(x: Json, from: nat): string
    requires x.JArr? && from <= |x.items|
    decreases x, 0, |x.items| - from
  {
    if from == |x.items| then ""
    else
      var r := Repr(x.items[from]);
      if from + 1 == |x.items| then r else r + ", " + ReprItems(x, from + 1)
  }

  /** The members of a dictionary from position `from` on, as `key: value`
      with the key written by `repr`. */
  function ReprMembers(x: Json, from: nat): string
    requires x.JObj? && from <= |x.members|
    decreases x, 0, |x.members| - from
  {
    if from == |x.members| then ""
    else
      var kv := x.members[from];
      assert kv in x.members;
      var r := ReprStr(kv.0) + ": " + Repr(kv.1);
      if from + 1 == |x.members| then r else r + ", " + ReprMembers(x, from + 1)
  }

  /** `str(x)`: a string is itself, anything else its representation. */
  function Str(x: Json): (r: string)
    ensures x.JStr? ==> r == x.s
    ensures x.JFloat? ==> r == x.text
    ensures !x.JStr? && !x.JFloat? ==> r != []
  {
    if x.JStr? then x.s else Repr(x)
  }

  /** `str(d.get(k, ""))`. */
  function StrMember(x: Json, k: string): (r: string)
    ensures Member(x, k).None? ==> r == ""
    ensures IsStr(Member(x, k)) ==> r == Member(x, k).value.s
  {
    match Member(x, k)
    case None => ""
    case Some(v) => Str(v)
  }

  /** `d[k] = v` on a dictionary; the value is unchanged when it is not one. */
  function SetMember(x: Json, k: string, v: Json): (r: Json)
    ensures x.JObj? ==> r.JObj? && Member(r, k) == Some(v)
    ensures !x.JObj? ==> r == x
  {
    if x.JObj? then
      GetInsertSame(x.members, k, v);
      JObj(Insert(x.members, k, v))
    else x
  }
}
