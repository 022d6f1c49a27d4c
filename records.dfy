// The line-oriented record parser: finds `type NAME is record`, then reads
// `Field : Type;` lines until `end record;`, filling a field dictionary.

module Records {
  import opened Wrappers
  import opened Text
  import opened Assoc
  import opened Lex

  /** Field name to type text, in declaration order. */
  type Fields = Dict<string, string>

  datatype ParseError = NoFields(typeName: string)

  /** `\btype\s+NAME\s+is\s+record\b` matched at position `i`. */
  predicate HeaderAt(line: string, name: string, i: nat) {
    match TypeIsAt(line, i, name)
    case None => false
    case Some(p) =>
      var c := SkipSpaces(line, p);
      c > p && MatchCI(line, c, "record") && BoundaryAfter(line, c + 6)
  }

  /** The header pattern matches at `i` or at some later position. */
  predicate HeaderFrom(line: string, name: string, i: nat)
    decreases |line| - i
  {
    i <= |line| && (HeaderAt(line, name, i) || HeaderFrom(line, name, i + 1))
  }

  /** `start_re.search(line)` succeeds. */
  predicate IsHeader(line: string, name: string) {
    HeaderFrom(line, name, 0)
  }

  /** `\bend\s+record\s*;` matched at position `i`. */
  predicate EndAt(line: string, i: nat) {
    i <= |line| && BoundaryBefore(line, i) && MatchCI(line, i, "end") &&
    var a := SkipSpaces(line, i + 3);
    a > i + 3 && MatchCI(line, a, "record") &&
    var b := SkipSpaces(line, a + 6);
    b < |line| && line[b] == ';'
  }

  /** The closing pattern matches at `i` or at some later position. */
  predicate EndFrom(line: string, i: nat)
    decreases |line| - i
  {
    i <= |line| && (EndAt(line, i) || EndFrom(line, i + 1))
  }

  /** `end_re.search(line)` succeeds. */
  predicate IsEnd(line: string) {
    EndFrom(line, 0)
  }

  predicate AllSpaces(s: string) { forall k :: 0 <= k < |s| ==> IsSpace(s[k]) }

  /** A name the field pattern accepts: an ASCII letter then word characters. */
  predicate IsIdentifier(s: string) {
    s != [] && IsAsciiLetter(s[0]) && forall k :: 0 <= k < |s| ==> IsWordChar(s[k])
  }

  /** `\s*([^;]+);\s*$` on what follows the colon, giving the stripped type:
      everything up to the first semicolon, which needs at least one
      character, with only whitespace after the semicolon. */
  function FieldType(rest: string): (r: Option<string>)
    ensures r.Some? ==> IsStripped(r.value) && ';' !in r.value
  {
    match IndexOf(rest, ';')
    case None => None
    case Some(k) =>
      var seg := rest[..k];
      if seg != [] && AllSpaces(rest[k + 1..]) then
        StripChars(seg, ';');
        Some(Strip(seg))
      else None
  }

  /** `^\s*([A-Za-z]\w*)\s*:\s*([^;]+);\s*$` on one line, giving the stripped
      name and type. */
  function FieldOf(line: string): (r: Option<(string, string)>)
    ensures r.Some? ==> IsIdentifier(r.value.0)
    ensures r.Some? ==> IsStripped(r.value.1) && ';' !in r.value.1
  {
    var a := SkipSpaces(line, 0);
    if a < |line| && IsAsciiLetter(line[a]) then
      var b := SkipWord(line, a);
      var c := SkipSpaces(line, b);
      if c < |line| && line[c] == ':' then
        IdentifierRun(line, a);
        FieldFrom(line, a, b, c)
      else None
    else None
  }

  lemma IdentifierRun(line: string, a: nat)
    requires a < |line| && IsAsciiLetter(line[a])
    ensures IsIdentifier(line[a..SkipWord(line, a)])
  {
    var b := SkipWord(line, a);
    assert b > a;
    forall k | 0 <= k < b - a ensures IsWordChar(line[a..b][k]) {
      assert line[a..b][k] == line[a + k];
    }
  }

  /** The name `line[a..b]` and the type after the colon at `c`. */
  function FieldFrom(line: string, a: nat, b: nat, c: nat): (r: Option<(string, string)>)
    requires a <= b <= c < |line|
    ensures r.Some? ==> r.value.0 == line[a..b] && IsStripped(r.value.1) && ';' !in r.value.1
  {
    match FieldType(line[c + 1..])
    case None => None
    case Some(t) => Some((line[a..b], t))
  }

  /** The first line at or after `from` carrying the record header. */
  function HeaderSearch(lines: seq<string>, name: string, from: nat): (r: Option<nat>)
    requires from <= |lines|
    ensures r.None? ==> forall k {:trigger IsHeader(lines[k], name)} :: from <= k < |lines| ==> !IsHeader(lines[k], name)
    ensures r.Some? ==> from <= r.value < |lines| && IsHeader(lines[r.value], name)
    ensures r.Some? ==> forall k {:trigger IsHeader(lines[k], name)} :: from <= k < r.value ==> !IsHeader(lines[k], name)
    decreases |lines| - from
  {
    if from == |lines| then None
    else if IsHeader(lines[from], name) then Some(from)
    else HeaderSearch(lines, name, from + 1)
  }

  /** The first line carrying the record header. */
  function HeaderIndex(lines: seq<string>, name: string): (r: Option<nat>)
    ensures r.None? ==> forall k {:trigger IsHeader(lines[k], name)} :: 0 <= k < |lines| ==> !IsHeader(lines[k], name)
    ensures r.Some? ==> r.value < |lines| && IsHeader(lines[r.value], name)
    ensures r.Some? ==> forall k {:trigger IsHeader(lines[k], name)} :: 0 <= k < r.value ==> !IsHeader(lines[k], name)
  {
    HeaderSearch(lines, name, 0)
  }

  /** The first `end record;` line at or after `from`, or the end of the text. */
  function BlockEnd(lines: seq<string>, from: nat): (e: nat)
    requires from <= |lines|
    ensures from <= e <= |lines|
    ensures forall k {:trigger IsEnd(lines[k])} :: from <= k < e ==> !IsEnd(lines[k])
    ensures e < |lines| ==> IsEnd(lines[e])
    decreases |lines| - from
  {
    if from == |lines| || IsEnd(lines[from]) then from else BlockEnd(lines, from + 1)
  }

  /** The (name, type) pairs of the field lines among `lines[from..stop]`, in order. */
  function FieldLinesIn(lines: seq<string>, from: nat, stop: nat): seq<(string, string)>
    requires from <= stop <= |lines|
    decreases stop
  {
    if stop == from then []
    else
      var init := FieldLinesIn(lines, from, stop - 1);
      var m := FieldOf(lines[stop - 1]);
      if m.Some? then init + [m.value] else init
  }

  /** The field lines between the header at `h` and the closing line. */
  function BlockFields(lines: seq<string>, h: nat): seq<(string, string)>
    requires h < |lines|
  {
    FieldLinesIn(lines, h + 1, BlockEnd(lines, h + 1))
  }

  /** What `parse_record_components` returns or raises. */
  function RecordComponents(lines: seq<string>, name: string): Result<Fields, ParseError> {
    match HeaderIndex(lines, name)
    case None => Failure(NoFields(name))
    case Some(h) =>
      var fields := FromPairs(BlockFields(lines, h));
      if fields == [] then Failure(NoFields(name)) else Success(fields)
  }

  /** Before the header: no line so far carried it. */
  ghost predicate Before(lines: seq<string>, name: string, i: nat) {
    i <= |lines| && forall k {:trigger IsHeader(lines[k], name)} :: 0 <= k < i ==> !IsHeader(lines[k], name)
  }

  /** Inside the block opened at `h`: no closing line since, and `fields` holds
      the field lines read so far. */
  ghost predicate Inside(lines: seq<string>, name: string, h: nat, i: nat, fields: Fields) {
    h < i <= |lines| && HeaderIndex(lines, name) == Some(h) &&
    (forall k {:trigger IsEnd(lines[k])} :: h < k < i ==> !IsEnd(lines[k])) &&
    fields == FromPairs(FieldLinesIn(lines, h + 1, i))
  }

  /** Where the loop stands after `i` lines: before the header, or inside
      the block it opened. */
  ghost predicate Scanned(lines: seq<string>, name: string, inBlock: bool, h: nat, i: nat, fields: Fields) {
    if inBlock then Inside(lines, name, h, i, fields) else fields == [] && Before(lines, name, i)
  }

  method ParseRecordComponents(lines: seq<string>, name: string) returns (r: Result<Fields, ParseError>)
    ensures r == RecordComponents(lines, name)
  {
    var inBlock := false;
    var fields: Fields := [];
    var h: nat := 0;
    var i := 0;
    while i < |lines|
      invariant i <= |lines| && Scanned(lines, name, inBlock, h, i, fields)
    {
      var closing;
      inBlock, h, closing, fields := ComponentLine(lines, name, inBlock, h, i, fields);
      if closing {
        break;
      }
      i := i + 1;
    }
    r := Finish(lines, name, inBlock, h, i, fields);
  }

  /** One turn of that loop, before or inside the block: it stops at the
      closing line, with line `i` unread. */
  method ComponentLine(lines: seq<string>, name: string, inBlock: bool, h: nat, i: nat, fields: Fields)
    returns (inBlock': bool, h': nat, closing: bool, fields': Fields)
    requires i < |lines| && Scanned(lines, name, inBlock, h, i, fields)
    ensures closing ==> inBlock' && Scanned(lines, name, inBlock', h', i, fields') && IsEnd(lines[i])
    ensures !closing ==> Scanned(lines, name, inBlock', h', i + 1, fields')
  {
    inBlock', h', closing := inBlock, h, false;
    if !inBlock {
      inBlock', fields' := OutsideLine(lines, name, i);
      h' := i;
    } else {
      closing, fields' := BlockLine(lines, name, h, i, fields);
    }
  }

  /** A line before the block: the block starts at the first line that matches the header. */
  method OutsideLine(lines: seq<string>, name: string, i: nat) returns (found: bool, fields: Fields)
    requires i < |lines| && Before(lines, name, i)
    ensures found ==> Inside(lines, name, i, i + 1, fields)
    ensures !found ==> fields == [] && Before(lines, name, i + 1)
  {
    found := IsHeader(lines[i], name);
    fields := [];
    if found {
      HeaderIndexAt(lines, name, i);
      assert FieldLinesIn(lines, i + 1, i + 1) == [];
    }
  }

  /** A line of the block: stop at `end record;`, otherwise read a field. */
  method BlockLine(lines: seq<string>, name: string, h: nat, i: nat, fields: Fields) returns (closing: bool, fields': Fields)
    requires i < |lines| && Inside(lines, name, h, i, fields)
    ensures closing ==> IsEnd(lines[i]) && fields' == fields
    ensures !closing ==> Inside(lines, name, h, i + 1, fields')
  {
    closing := IsEnd(lines[i]);
    fields' := fields;
    if !closing {
      fields' := ScanFieldLine(lines, h + 1, i, fields);
      NoEndExtended(lines, h, i);
    }
  }

  /** After the loop: `raise` when nothing was read, else the fields. */
  method Finish(lines: seq<string>, name: string, inBlock: bool, h: nat, i: nat, fields: Fields)
    returns (r: Result<Fields, ParseError>)
    requires i <= |lines| && Scanned(lines, name, inBlock, h, i, fields)
    requires i < |lines| ==> inBlock && IsEnd(lines[i])
    ensures r == RecordComponents(lines, name)
  {
    if inBlock {
      BlockEndAt(lines, h + 1, i);
    }
    if fields == [] {
      r := Failure(NoFields(name));
    } else {
      r := Success(fields);
    }
  }

  /** One line of the block, `lines[i]`, after the lines `from..i`: a line
      of field shape stores its type under its name, replacing an earlier type. */
  method ScanFieldLine(lines: seq<string>, from: nat, i: nat, fields: Fields) returns (fields': Fields)
    requires from <= i < |lines| && fields == FromPairs(FieldLinesIn(lines, from, i))
    ensures fields' == FromPairs(FieldLinesIn(lines, from, i + 1))
  {
    var m := FieldOf(lines[i]);
    if m.Some? {
      FromPairsSnoc(FieldLinesIn(lines, from, i), m.value);
      fields' := Insert(fields, m.value.0, m.value.1);
    } else {
      fields' := fields;
    }
  }

  lemma NoEndExtended(lines: seq<string>, h: nat, i: nat)
    requires h < i < |lines| && !IsEnd(lines[i])
    requires forall k {:trigger IsEnd(lines[k])} :: h < k < i ==> !IsEnd(lines[k])
    ensures forall k {:trigger IsEnd(lines[k])} :: h < k < i + 1 ==> !IsEnd(lines[k])
  {
  }

  lemma HeaderIndexAt(lines: seq<string>, name: string, h: nat)
    requires h < |lines| && IsHeader(lines[h], name)
    requires forall k :: 0 <= k < h ==> !IsHeader(lines[k], name)
    ensures HeaderIndex(lines, name) == Some(h)
  {
    var r := HeaderIndex(lines, name);
    assert r.Some?;
    assert !(r.value < h) && !(r.value > h);
  }

  lemma BlockEndAt(lines: seq<string>, from: nat, e: nat)
    requires from <= e <= |lines|
    requires forall k :: from <= k < e ==> !IsEnd(lines[k])
    requires e < |lines| ==> IsEnd(lines[e])
    ensures BlockEnd(lines, from) == e
  {
  }

  // ----- properties -----

  /** Equal runs of lines give equal field lines. */
  lemma {:induction false} FieldLinesShift(lines: seq<string>, a: nat, b: nat, lines': seq<string>, a': nat, b': nat)
    requires a <= b <= |lines| && a' <= b' <= |lines'| && b - a == b' - a'
    requires forall k :: a <= k < b ==> lines[k] == lines'[a' + (k - a)]
    ensures FieldLinesIn(lines, a, b) == FieldLinesIn(lines', a', b')
    decreases b
  {
    if a < b {
      FieldLinesShift(lines, a, b - 1, lines', a', b' - 1);
      FieldLinesStep(lines, a, b, lines', a', b');
    }
  }

  lemma FieldLinesStep(lines: seq<string>, a: nat, b: nat, lines': seq<string>, a': nat, b': nat)
    requires a < b <= |lines| && a' < b' <= |lines'| && lines[b - 1] == lines'[b' - 1]
    requires FieldLinesIn(lines, a, b - 1) == FieldLinesIn(lines', a', b' - 1)
    ensures FieldLinesIn(lines, a, b) == FieldLinesIn(lines', a', b')
  {
  }

  lemma BlockEndShift(lines: seq<string>, from: nat, lines': seq<string>, from': nat)
    requires from <= |lines| && from' <= |lines'| && |lines| - from == |lines'| - from'
    requires forall k :: from <= k < |lines| ==> lines[k] == lines'[from' + (k - from)]
    ensures BlockEnd(lines', from') - from' == BlockEnd(lines, from) - from
  {
    var e := BlockEnd(lines, from);
    var e' := from' + (e - from);
    forall k | from' <= k < e' ensures !IsEnd(lines'[k]) {
      assert lines'[k] == lines[from + (k - from')];
    }
    if e' < |lines'| {
      assert lines'[e'] == lines[from + (e - from)];
    }
    BlockEndAt(lines', from', e');
  }

  /** What precedes the first header, and the header line itself, never reach
      the field dictionary: any other prefix ending in its first header
      line gives the same outcome. */
  lemma HeaderPrefixIgnored(lines: seq<string>, name: string, pre: seq<string>)
    requires HeaderIndex(lines, name).Some?
    requires pre != [] && HeaderIndex(pre, name) == Some(|pre| - 1)
    ensures RecordComponents(pre + lines[HeaderIndex(lines, name).value + 1..], name) == RecordComponents(lines, name)
  {
    var h := HeaderIndex(lines, name).value;
    var lines' := pre + lines[h + 1..];
    var p := |pre|;
    forall k | 0 <= k < p ensures lines'[k] == pre[k] {
    }
    HeaderIndexAt(lines', name, p - 1);
    assert lines'[p..] == lines[h + 1..];
    BlockFieldsShift(lines, h, lines', p - 1);
    ComponentsByBlock(lines, lines', name, h, p - 1);
  }

  /** Blocks followed by the same lines hold the same field lines. */
  lemma BlockFieldsShift(lines: seq<string>, h: nat, lines': seq<string>, h': nat)
    requires h < |lines| && h' < |lines'| && lines[h + 1..] == lines'[h' + 1..]
    ensures BlockFields(lines, h) == BlockFields(lines', h')
  {
    forall k | h + 1 <= k < |lines| ensures lines[k] == lines'[h' + 1 + (k - (h + 1))] {
      assert lines[k] == lines[h + 1..][k - (h + 1)];
    }
    BlockEndShift(lines, h + 1, lines', h' + 1);
    var e, e' := BlockEnd(lines, h + 1), BlockEnd(lines', h' + 1);
    FieldLinesShift(lines, h + 1, e, lines', h' + 1, e');
  }

  /** The outcome depends only on the field lines of the block. */
  lemma ComponentsByBlock(lines: seq<string>, lines': seq<string>, name: string, h: nat, h': nat)
    requires HeaderIndex(lines, name) == Some(h) && HeaderIndex(lines', name) == Some(h')
    requires BlockFields(lines, h) == BlockFields(lines', h')
    ensures RecordComponents(lines, name) == RecordComponents(lines', name)
  {
  }

  /** Lines agreeing up to the first header have the same first header. */
  lemma HeaderAgree(lines: seq<string>, lines': seq<string>, name: string, h: nat)
    requires HeaderIndex(lines, name) == Some(h) && h < |lines'|
    requires forall k :: 0 <= k <= h ==> lines'[k] == lines[k]
    ensures HeaderIndex(lines', name) == Some(h)
  {
    forall k | 0 <= k < h ensures !IsHeader(lines'[k], name) {
      assert lines'[k] == lines[k];
    }
    assert lines'[h] == lines[h];
    HeaderIndexAt(lines', name, h);
  }

  /** Lines agreeing up to a closing line have the same block end. */
  lemma BlockEndAgree(lines: seq<string>, lines': seq<string>, from: nat, e: nat)
    requires from <= |lines| && BlockEnd(lines, from) == e < |lines| && e < |lines'|
    requires forall k :: from <= k <= e ==> lines'[k] == lines[k]
    ensures BlockEnd(lines', from) == e
  {
    forall k | from <= k < e ensures !IsEnd(lines'[k]) {
      assert lines'[k] == lines[k];
    }
    assert lines'[e] == lines[e];
    BlockEndAt(lines', from, e);
  }

  /** The scan stops at the first closing line after the header: texts that
      agree up to that line have the same outcome, whatever follows it. */
  lemma AgreeThroughEnd(lines: seq<string>, lines': seq<string>, name: string)
    requires HeaderIndex(lines, name).Some?
    requires var e := BlockEnd(lines, HeaderIndex(lines, name).value + 1);
      e < |lines| && e < |lines'| && forall k :: 0 <= k <= e ==> lines'[k] == lines[k]
    ensures RecordComponents(lines', name) == RecordComponents(lines, name)
  {
    var h := HeaderIndex(lines, name).value;
    var e := BlockEnd(lines, h + 1);
    HeaderAgree(lines, lines', name, h);
    BlockEndAgree(lines, lines', h + 1, e);
    FieldLinesShift(lines, h + 1, e, lines', h + 1, e);
    ComponentsByBlock(lines, lines', name, h, h);
  }

  /** Each pair of `FieldLinesIn(lines, from, stop)` is what the field pattern
      extracts from one of those lines. */
  lemma {:induction false} FieldLinesFrom(lines: seq<string>, from: nat, stop: nat)
    requires from <= stop <= |lines|
    ensures forall p :: p in FieldLinesIn(lines, from, stop) ==> (exists j :: from <= j < stop && FieldOf(lines[j]) == Some(p))
    decreases stop
  {
    if stop > from {
      FieldLinesFrom(lines, from, stop - 1);
    }
  }

  /** Every field has a letter-initial identifier for its name and a type
      text with no whitespace at either end and no `;`, and comes from a
      field line between the header and the closing line. */
  lemma FieldsWellFormed(lines: seq<string>, name: string)
    requires RecordComponents(lines, name).Success?
    ensures var fs := RecordComponents(lines, name).value;
      var h := HeaderIndex(lines, name).value;
      forall k :: 0 <= k < |fs| ==>
        IsIdentifier(fs[k].0) && IsStripped(fs[k].1) && ';' !in fs[k].1 &&
        (exists j :: h < j < BlockEnd(lines, h + 1) && FieldOf(lines[j]) == Some(fs[k]))
  {
    var h := HeaderIndex(lines, name).value;
    var e := BlockEnd(lines, h + 1);
    var found := BlockFields(lines, h);
    var fs := FromPairs(found);
    FromPairsFrom(found);
    FieldLinesFrom(lines, h + 1, e);
    forall k | 0 <= k < |fs|
      ensures IsIdentifier(fs[k].0) && IsStripped(fs[k].1) && ';' !in fs[k].1
      ensures exists j :: h < j < e && FieldOf(lines[j]) == Some(fs[k])
    {
      assert fs[k] in found;
      var j :| h + 1 <= j < e && FieldOf(lines[j]) == Some(fs[k]);
    }
  }

  /** Fields come out in declaration order: a repeated name keeps its first
      position and takes the type written last. */
  lemma FieldsInDeclarationOrder(lines: seq<string>, name: string)
    requires RecordComponents(lines, name).Success?
    ensures var fs := RecordComponents(lines, name).value;
      var found := BlockFields(lines, HeaderIndex(lines, name).value);
      UniqueKeys(fs) && Keys(fs) == Dedup(Keys(found)) &&
      forall n :: Get(fs, n) == LastValue(found, n)
  {
    FromPairsSpec(BlockFields(lines, HeaderIndex(lines, name).value));
  }

  /** The parse fails exactly when there is no header or no field line
      between the header and the closing line; it never yields an empty
      dictionary. */
  lemma FailsIffNoFields(lines: seq<string>, name: string)
    ensures RecordComponents(lines, name).Success? <==>
      HeaderIndex(lines, name).Some? && BlockFields(lines, HeaderIndex(lines, name).value) != []
    ensures RecordComponents(lines, name).Success? ==> RecordComponents(lines, name).value != []
  {
    if HeaderIndex(lines, name).Some? {
      FromPairsFrom(BlockFields(lines, HeaderIndex(lines, name).value));
    }
  }

  // ----- round trip through a rendered declaration -----

  /** A type text the field pattern gives back unchanged: not empty, no
      whitespace at either end, no `;`. */
  predicate IsTypeText(t: string) {
    t != [] && IsStripped(t) && ';' !in t
  }

  /** A field the written-out line gives back unchanged. */
  predicate IsCleanField(f: (string, string)) {
    IsIdentifier(f.0) && IsTypeText(f.1)
  }

  function FieldDecl(f: (string, string)): string {
    "   " + f.0 + " : " + f.1 + ";"
  }

  function FieldDecls(fields: Fields): (r: seq<string>)
    ensures |r| == |fields| && forall k :: 0 <= k < |fields| ==> r[k] == FieldDecl(fields[k])
  {
    seq(|fields|, k requires 0 <= k < |fields| => FieldDecl(fields[k]))
  }

  /** `type NAME is record`, written as the `type NAME is` prefix and the
      ` record` that follows it. */
  function HeaderLine(name: string): string {
    "type " + name + " is" + " record"
  }

  /** `type NAME is record`, one `Name : Type;` line per field, `end record;`. */
  function Declaration(name: string, fields: Fields): seq<string> {
    [HeaderLine(name)] + FieldDecls(fields) + ["end record;"]
  }

  lemma FieldTypeOfDecl(t: string)
    requires IsTypeText(t)
    ensures FieldType(" " + t + ";") == Some(t)
  {
    var rest := " " + t + ";";
    forall k | 0 <= k < 1 + |t| ensures rest[k] != ';' {
      if k > 0 { assert rest[k] == t[k - 1]; }
    }
    assert rest[1 + |t|] == ';';
    assert IndexOf(rest, ';') == Some(1 + |t|);
    var seg := rest[..1 + |t|];
    assert seg == " " + t;
    assert rest[2 + |t|..] == [];
    StripAt(seg, 1, 1 + |t|);
    assert seg[1..1 + |t|] == t;
    assert seg[1] == t[0] && seg[|t|] == t[|t| - 1];
  }

  // The field pattern on `PRE NAME : TYPE;`, with whitespace for `PRE`, one
  // scanner at a time.

  lemma ShapeLead(pre: string, n: string, sep: string, t: string)
    requires AllSpaces(pre) && IsIdentifier(n) && sep == " : " && IsTypeText(t)
    ensures var line := pre + n + sep + t + ";";
      |pre| < |line| && SkipSpaces(line, 0) == |pre| && IsAsciiLetter(line[|pre|])
  {
    var line := pre + n + sep + t + ";";
    forall k | 0 <= k < |pre| ensures IsSpace(line[k]) {
      assert line[k] == pre[k];
    }
    assert line[|pre|] == n[0];
    SkipSpacesAt(line, 0, |pre|);
  }

  lemma ShapeName(pre: string, n: string, sep: string, t: string)
    requires AllSpaces(pre) && IsIdentifier(n) && sep == " : " && IsTypeText(t)
    ensures var line := pre + n + sep + t + ";";
      |pre| + |n| < |line| && SkipWord(line, |pre|) == |pre| + |n| && line[|pre|..|pre| + |n|] == n
  {
    var line := pre + n + sep + t + ";";
    var a, b := |pre|, |pre| + |n|;
    forall k | a <= k < b ensures IsWordChar(line[k]) {
      assert line[k] == n[k - a];
    }
    assert line[b] == sep[0];
    SkipWordAt(line, a, b);
    assert line[a..b] == n;
  }

  lemma ShapeColon(pre: string, n: string, sep: string, t: string)
    requires sep == " : "
    ensures var line := pre + n + sep + t + ";"; var b := |pre| + |n|;
      b + 1 < |line| && SkipSpaces(line, b) == b + 1 && line[b + 1] == ':'
  {
    var line := pre + n + sep + t + ";";
    var b := |pre| + |n|;
    assert line[b] == sep[0] && line[b + 1] == sep[1];
    SkipSpacesAt(line, b, b + 1);
  }

  lemma ShapeTail(pre: string, n: string, sep: string, t: string)
    requires sep == " : "
    ensures var line := pre + n + sep + t + ";"; var c := |pre| + |n| + 1;
      c + 1 <= |line| && line[c + 1..] == " " + t + ";"
  {
    var line := pre + n + sep + t + ";";
    var c := |pre| + |n| + 1;
    assert line[c + 1..] == sep[2..] + t + ";";
  }

  lemma FieldOfParts(line: string, a: nat, b: nat, c: nat, n: string, t: string)
    requires a < |line| && SkipSpaces(line, 0) == a && IsAsciiLetter(line[a])
    requires b <= |line| && SkipWord(line, a) == b
    requires c < |line| && SkipSpaces(line, b) == c && line[c] == ':'
    requires line[a..b] == n && FieldType(line[c + 1..]) == Some(t)
    ensures FieldOf(line) == Some((n, t))
  {
  }

  lemma FieldOfShape(pre: string, n: string, sep: string, t: string)
    requires AllSpaces(pre) && IsIdentifier(n) && sep == " : " && IsTypeText(t)
    ensures FieldOf(pre + n + sep + t + ";") == Some((n, t))
  {
    ShapeLead(pre, n, sep, t);
    ShapeName(pre, n, sep, t);
    ShapeColon(pre, n, sep, t);
    ShapeTail(pre, n, sep, t);
    FieldTypeOfDecl(t);
    var line := pre + n + sep + t + ";";
    var a, b, c := |pre|, |pre| + |n|, |pre| + |n| + 1;
    assert a < |line| && SkipSpaces(line, 0) == a && IsAsciiLetter(line[a]);
    assert b <= |line| && SkipWord(line, a) == b;
    assert c < |line| && SkipSpaces(line, b) == c && line[c] == ':';
    assert line[a..b] == n;
    assert line[c + 1..] == " " + t + ";";
    assert FieldType(" " + t + ";") == Some(t);
    assert FieldType(line[c + 1..]) == Some(t);
    FieldOfParts(line, a, b, c, n, t);
  }

  /** A written-out field line parses back to its field. */
  lemma FieldOfDecl(f: (string, string))
    requires IsCleanField(f)
    ensures FieldOf(FieldDecl(f)) == Some(f)
  {
    FieldOfShape("   ", f.0, " : ", f.1);
  }

  lemma {:induction false} FieldLinesOfDecls(lines: seq<string>, fields: Fields, m: nat)
    requires m <= |fields| && |fields| < |lines|
    requires forall k :: 0 <= k < |fields| ==> lines[k + 1] == FieldDecl(fields[k]) && IsCleanField(fields[k])
    ensures FieldLinesIn(lines, 1, 1 + m) == fields[..m]
    decreases m
  {
    if m > 0 {
      FieldLinesOfDecls(lines, fields, m - 1);
      FieldOfDecl(fields[m - 1]);
      assert FieldOf(lines[m]) == Some(fields[m - 1]);
      assert fields[..m - 1] + [fields[m - 1]] == fields[..m];
    }
  }

  /** ` record` right after `pre`: one space, then the word, then the end of
      the line. */
  lemma RecordWordAfter(pre: string)
    ensures var line := pre + " record";
      |line| == |pre| + 7 && SkipSpaces(line, |pre|) == |pre| + 1 && MatchCI(line, |pre| + 1, "record")
  {
    var line := pre + " record";
    var p := |pre|;
    assert line[p] == ' ' && line[p + 1] == 'r';
    SkipSpacesAt(line, p, p + 1);
    assert line[p + 1..p + 7] == "record";
    MatchCISelf(line, p + 1, "record");
  }

  lemma HeaderOfParts(line: string, name: string, p: nat)
    requires p + 7 == |line| && TypeIsAt(line, 0, name) == Some(p)
    requires SkipSpaces(line, p) == p + 1 && MatchCI(line, p + 1, "record")
    ensures IsHeader(line, name)
  {
    assert HeaderAt(line, name, 0);
  }

  lemma HeaderOfDeclaration(name: string)
    requires name != [] && !IsSpace(name[0])
    ensures IsHeader(HeaderLine(name), name)
  {
    TypeIsPrefix(name, " record");
    RecordWordAfter("type " + name + " is");
    HeaderOfParts(HeaderLine(name), name, 8 + |name|);
  }

  lemma EndOfDeclaration()
    ensures IsEnd("end record;")
  {
    var line := "end record;";
    assert line[0..3] == "end";
    MatchCISelf(line, 0, "end");
    SkipSpacesAt(line, 3, 4);
    assert line[4..10] == "record";
    MatchCISelf(line, 4, "record");
    SkipSpacesAt(line, 10, 10);
    assert EndAt(line, 0);
  }

  lemma DeclarationLayout(name: string, fields: Fields)
    ensures var lines := Declaration(name, fields);
      |lines| == |fields| + 2 && lines[0] == HeaderLine(name) &&
      (forall k :: 0 <= k < |fields| ==> lines[k + 1] == FieldDecl(fields[k])) &&
      lines[|fields| + 1] == "end record;"
  {
    var lines := Declaration(name, fields);
    forall k | 0 <= k < |fields| ensures lines[k + 1] == FieldDecl(fields[k]) {
      assert lines[k + 1] == FieldDecls(fields)[k];
    }
  }

  /** A text laid out as a declaration of `fields`: header line, one field
      line per field, closing line. Its block holds exactly those fields. */
  lemma BlockOfLayout(lines: seq<string>, name: string, fields: Fields)
    requires |lines| == |fields| + 2 && IsHeader(lines[0], name) && IsEnd(lines[|fields| + 1])
    requires forall k :: 0 <= k < |fields| ==> lines[k + 1] == FieldDecl(fields[k]) && IsCleanField(fields[k])
    requires forall k :: 0 <= k < |fields| ==> !IsEnd(FieldDecl(fields[k]))
    ensures HeaderIndex(lines, name) == Some(0) && BlockFields(lines, 0) == fields
  {
    var n := |fields|;
    HeaderIndexAt(lines, name, 0);
    forall k | 1 <= k < 1 + n ensures !IsEnd(lines[k]) {
      assert lines[(k - 1) + 1] == FieldDecl(fields[k - 1]);
    }
    BlockEndAt(lines, 1, 1 + n);
    FieldLinesOfDecls(lines, fields, n);
    assert fields[..n] == fields;
  }

  lemma ComponentsOfBlock(lines: seq<string>, name: string, h: nat, fields: Fields)
    requires HeaderIndex(lines, name) == Some(h) && BlockFields(lines, h) == fields
    requires fields != [] && UniqueKeys(fields)
    ensures RecordComponents(lines, name) == Success(fields)
  {
    FromPairsUnique(fields);
  }

  /** A declaration written out from a non-empty dictionary with distinct
      identifier names and clean type texts parses back to that dictionary,
      provided no field line itself reads as a closing line. */
  lemma RoundTrip(name: string, fields: Fields)
    requires name != [] && !IsSpace(name[0])
    requires fields != [] && UniqueKeys(fields)
    requires forall k :: 0 <= k < |fields| ==> IsCleanField(fields[k])
    requires forall k :: 0 <= k < |fields| ==> !IsEnd(FieldDecl(fields[k]))
    ensures RecordComponents(Declaration(name, fields), name) == Success(fields)
  {
    var lines := Declaration(name, fields);
    DeclarationLayout(name, fields);
    HeaderOfDeclaration(name);
    EndOfDeclaration();
    BlockOfLayout(lines, name, fields);
    ComponentsOfBlock(lines, name, 0, fields);
  }
}
