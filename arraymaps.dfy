// The rendering half of arrays.py: the body of the `Map` overload between two
// array types.  It chooses how one element is converted, then wraps the
// assignment `R(...) := ...;` in one `for` loop per dimension.

module ArrayMaps {
  import opened Wrappers
  import opened Text
  import opened Assoc
  import opened Lookup
  import Schema
  import Ada

  type Pair = (string, string)

  /** What the body builder asks of the generator object it is handed: the
      declarations, the declared `(from, to)` pairs and the array pairs
      already known to need an overload. */
  datatype Env = Env(provider: Schema.Provider, mappingPairs: set<Pair>, needed: set<Pair>)

  // ----- dimensions and indexes -----

  /** The destination array's dimension from the provider, with 1 standing in
      when it is unavailable or zero. */
  function EffectiveDims(d: Option<nat>): (n: nat)
    ensures n >= 1
    ensures d.Some? && d.value != 0 ==> n == d.value
    ensures d.None? || d.value == 0 ==> n == 1
  {
    if d.None? || d.value == 0 then 1 else d.value
  }

  const IndexNames: seq<string> := ["I", "J", "K", "L", "M"]

  function Min(a: nat, b: nat): nat { if a <= b then a else b }

  /** `idx_names[:dims]`: the first `dims` index names, at most five. */
  function Indices(dims: nat): (r: seq<string>)
    ensures |r| == Min(dims, 5) && r == IndexNames[..|r|]
  {
    IndexNames[..Min(dims, 5)]
  }

  /** The index suffix of `A(...)` and `R(...)`: all the indexes for more than
      one dimension, `(I)` for one. */
  function Subscript(dims: nat, indices: seq<string>): string {
    if dims > 1 then "(" + Join(indices, ", ") + ")" else "(I)"
  }

  // ----- the element expression -----

  /** The source of one part of the element aggregate: the destination field
      `d`, converted from the source field of the same name, else from the
      first one equal to it ignoring case, else from the whole element. */
  function PartValue(fromF: Schema.Fields, d: (string, string), dstElem: string, access: string): (v: Ada.Expr)
    ensures d.0 != [] && d.0 in Keys(fromF) ==> v == Ada.Cast(d.1, access + "." + d.0)
    ensures (forall i :: 0 <= i < |fromF| ==> !EqualsIgnoreCase(fromF[i].0, d.0)) ==> v == Ada.Cast(dstElem, access)
    ensures v == Ada.Cast(dstElem, access) ||
      exists s :: s in Keys(fromF) && EqualsIgnoreCase(s, d.0) && v == Ada.Cast(d.1, access + "." + s)
  {
    match ExactOrFirstLower(fromF, d.0)
    case Some(s) => if s != [] then Ada.Cast(d.1, access + "." + s) else Ada.Cast(dstElem, access)
    case None => Ada.Cast(dstElem, access)
  }

  /** The parts of the inline aggregate: one per destination field, in
      destination order. */
  function ElemParts(toF: Schema.Fields, fromF: Schema.Fields, dstElem: string, access: string): (parts: seq<(string, Ada.Expr)>)
    ensures |parts| == |toF|
    ensures forall k :: 0 <= k < |toF| ==> parts[k].0 == toF[k].0 && parts[k].1 == PartValue(fromF, toF[k], dstElem, access)
  {
    seq(|toF|, k requires 0 <= k < |toF| => (toF[k].0, PartValue(fromF, toF[k], dstElem, access)))
  }

  /** The loop over the destination fields that builds the aggregate's parts. */
  method BuildElemParts(toF: Schema.Fields, fromF: Schema.Fields, dstElem: string, access: string)
    returns (parts: seq<(string, Ada.Expr)>)
    ensures parts == ElemParts(toF, fromF, dstElem, access)
  {
    parts := [];
    var i := 0;
    while i < |toF|
      invariant i <= |toF|
      invariant parts == ElemParts(toF[..i], fromF, dstElem, access)
    {
      var d := toF[i];
      var s := ExactOrFirstLower(fromF, d.0);
      var v := if s.Some? && s.value != [] then Ada.Cast(d.1, access + "." + s.value) else Ada.Cast(dstElem, access);
      assert toF[..i + 1] == toF[..i] + [d];
      parts := parts + [(d.0, v)];
      i := i + 1;
    }
    assert toF[..i] == toF;
  }

  function ToFields(env: Env, name: string): Schema.Fields {
    Schema.OrEmpty(Schema.FieldsOf(env.provider, Schema.To, name))
  }

  function FromFields(env: Env, name: string): Schema.Fields {
    Schema.OrEmpty(Schema.FieldsOf(env.provider, Schema.From, name))
  }

  /** How one element `access` is converted: a call of another `Map` overload
      when the element pair is declared or needed, or when both elements are
      arrays; an inline aggregate when both are records with fields; else a
      cast to the destination element type, or the element itself when that
      type is unknown. */
  function ElemExpr(env: Env, srcElem: string, dstElem: string, access: string): (e: Ada.Expr)
    ensures (srcElem, dstElem) in env.mappingPairs + env.needed ==> e == Ada.MapCall(access)
    ensures Schema.BothArrays(env.provider, srcElem, dstElem) ==> e == Ada.MapCall(access)
    ensures e.MapCall? ==> e.arg == access
    ensures e.Aggregate? ==>
      ToFields(env, dstElem) != [] && FromFields(env, srcElem) != [] &&
      e.parts == ElemParts(ToFields(env, dstElem), FromFields(env, srcElem), dstElem, access)
    ensures e.Cast? ==> dstElem != [] && e == Ada.Cast(dstElem, access)
    ensures e.Plain? ==> dstElem == [] && e == Ada.Plain(access)
  {
    if (srcElem, dstElem) in env.mappingPairs || (srcElem, dstElem) in env.needed then Ada.MapCall(access)
    else if Schema.BothArrays(env.provider, srcElem, dstElem) then Ada.MapCall(access)
    else
      var toF, fromF := ToFields(env, dstElem), FromFields(env, srcElem);
      if toF != [] && fromF != [] then Ada.Aggregate(ElemParts(toF, fromF, dstElem, access))
      else if dstElem != [] then Ada.Cast(dstElem, access)
      else Ada.Plain(access)
  }

  /** When neither shortcut applies, two record elements give the aggregate
      and anything else the cast. */
  lemma ElemExprFallback(env: Env, srcElem: string, dstElem: string, access: string)
    requires (srcElem, dstElem) !in env.mappingPairs + env.needed && !Schema.BothArrays(env.provider, srcElem, dstElem)
    ensures ToFields(env, dstElem) != [] && FromFields(env, srcElem) != [] ==>
      ElemExpr(env, srcElem, dstElem, access).Aggregate?
    ensures (ToFields(env, dstElem) == [] || FromFields(env, srcElem) == []) && dstElem != [] ==>
      ElemExpr(env, srcElem, dstElem, access) == Ada.Cast(dstElem, access)
  {
  }

  /** The element-expression choice, with the aggregate built by its loop. */
  method ChooseElemExpr(env: Env, srcElem: string, dstElem: string, access: string) returns (e: Ada.Expr)
    ensures e == ElemExpr(env, srcElem, dstElem, access)
  {
    e := if dstElem != [] then Ada.Cast(dstElem, access) else Ada.Plain(access);
    var toElem2 := Schema.ElementOf(env.provider, Schema.To, dstElem);
    var fromElem2 := Schema.ElementOf(env.provider, Schema.From, srcElem);
    if (srcElem, dstElem) in env.mappingPairs || (srcElem, dstElem) in env.needed {
      e := Ada.MapCall(access);
    } else if Schema.Present(toElem2) && Schema.Present(fromElem2) {
      e := Ada.MapCall(access);
    } else {
      var toF := ToFields(env, dstElem);
      var fromF := FromFields(env, srcElem);
      if toF != [] && fromF != [] {
        var parts := BuildElemParts(toF, fromF, dstElem, access);
        e := Ada.Aggregate(parts);
      }
    }
  }

  // ----- the loops -----

  /** One line of the body, with its nesting level. */
  datatype Line =
    | ForLoop(level: nat, index: string)              // `for I in R'Range loop`
    | Assign(level: nat, target: string, value: Ada.Expr) // `R(I) := ...;`
    | EndLoop(level: nat)                             // `end loop;`

  /** The range a loop at `level` runs over: `R'Range`, then `R'Range(2)`, ... */
  function RangeAttr(level: nat): string {
    if level == 0 then "R'Range" else "R'Range(" + NatToString(level + 1) + ")"
  }

  function Indent(level: nat): string { "      " + Repeat("   ", level) }

  function RenderLine(l: Line): string {
    match l
    case ForLoop(lv, idx) => Indent(lv) + "for " + idx + " in " + RangeAttr(lv) + " loop"
    case Assign(lv, t, v) => Indent(lv) + t + " := " + Ada.Render(v) + ";"
    case EndLoop(lv) => Indent(lv) + "end loop;"
  }

  function RenderLines(lines: seq<Line>): (r: seq<string>)
    ensures |r| == |lines| && forall k :: 0 <= k < |lines| ==> r[k] == RenderLine(lines[k])
  {
    seq(|lines|, k requires 0 <= k < |lines| => RenderLine(lines[k]))
  }

  /** The `for` lines, outermost first. */
  function Fors(indices: seq<string>): (r: seq<Line>)
    ensures |r| == |indices| && forall k :: 0 <= k < |indices| ==> r[k] == ForLoop(k, indices[k])
  {
    seq(|indices|, k requires 0 <= k < |indices| => ForLoop(k, indices[k]))
  }

  /** The `end loop` lines of `n` loops, innermost first. */
  function Ends(n: nat): (r: seq<Line>)
    ensures |r| == n && forall j :: 0 <= j < n ==> r[j] == EndLoop(n - 1 - j)
  {
    seq(n, j requires 0 <= j < n => EndLoop(n - 1 - j))
  }

  /** The loops around the assignment: one `for` per index, outermost first,
      the assignment one level deeper than the last, then the `end loop`s
      innermost first. */
  function LoopLines(indices: seq<string>, dest: string, elem: Ada.Expr): (lines: seq<Line>)
    ensures |lines| == 2 * |indices| + 1
    ensures lines[..|indices|] == Fors(indices)
    ensures lines[|indices|] == Assign(|indices|, dest, elem)
    ensures lines[|indices| + 1..] == Ends(|indices|)
  {
    var fs := Fors(indices);
    var lines := fs + [Assign(|indices|, dest, elem)] + Ends(|indices|);
    assert lines[..|indices|] == fs;
    lines
  }

  /** The two loops of `array_map_body` that fill `body_lines`. */
  method BuildLoopLines(indices: seq<string>, dest: string, elem: Ada.Expr) returns (lines: seq<Line>)
    ensures lines == LoopLines(indices, dest, elem)
  {
    var n := |indices|;
    var fors := [];
    var level := 0;
    while level < n
      invariant level <= n && fors == Fors(indices[..level])
    {
      assert indices[..level + 1] == indices[..level] + [indices[level]];
      fors := fors + [ForLoop(level, indices[level])];
      level := level + 1;
    }
    assert indices[..n] == indices;
    var ends := [];
    var j := 0;
    while j < n
      invariant j <= n && |ends| == j
      invariant forall i :: 0 <= i < j ==> ends[i] == EndLoop(n - 1 - i)
    {
      ends := ends + [EndLoop(n - 1 - j)];
      j := j + 1;
    }
    assert ends == Ends(n);
    lines := fors + [Assign(n, dest, elem)] + ends;
    LoopLinesOf(indices, dest, elem, lines);
  }

  lemma LoopLinesOf(indices: seq<string>, dest: string, elem: Ada.Expr, lines: seq<Line>)
    requires lines == Fors(indices) + [Assign(|indices|, dest, elem)] + Ends(|indices|)
    ensures lines == LoopLines(indices, dest, elem)
  {
  }

  // ----- nesting -----

  /** The number of `for` lines among the first `i`. */
  function Opens(lines: seq<Line>, i: nat): nat
    requires i <= |lines|
  {
    if i == 0 then 0 else Opens(lines, i - 1) + (if lines[i - 1].ForLoop? then 1 else 0)
  }

  /** The number of `end loop` lines among the first `i`. */
  function Closes(lines: seq<Line>, i: nat): nat
    requires i <= |lines|
  {
    if i == 0 then 0 else Closes(lines, i - 1) + (if lines[i - 1].EndLoop? then 1 else 0)
  }

  /** The loops are properly nested: no `end loop` closes more loops than are
      open, each line sits at the level of the loops open around it, every
      `end loop` closes the innermost open loop, and all loops are closed. */
  ghost predicate Nested(lines: seq<Line>) {
    (forall i :: 0 <= i <= |lines| ==> Closes(lines, i) <= Opens(lines, i)) &&
    (forall i :: 0 <= i < |lines| && !lines[i].EndLoop? ==> lines[i].level == Opens(lines, i) - Closes(lines, i)) &&
    (forall i :: 0 <= i < |lines| && lines[i].EndLoop? ==> lines[i].level + 1 == Opens(lines, i) - Closes(lines, i)) &&
    Opens(lines, |lines|) == Closes(lines, |lines|)
  }

  /** The line at each position of the loop lines. */
  lemma LineAt(indices: seq<string>, dest: string, elem: Ada.Expr, i: nat)
    requires i <= 2 * |indices|
    ensures var lines, n := LoopLines(indices, dest, elem), |indices|;
      (i < n ==> lines[i] == ForLoop(i, indices[i])) &&
      (i == n ==> lines[i] == Assign(n, dest, elem)) &&
      (n < i ==> lines[i] == EndLoop(2 * n - i))
  {
    var lines, n := LoopLines(indices, dest, elem), |indices|;
    if i < n {
      assert lines[i] == lines[..n][i];
    } else if n < i {
      assert lines[i] == lines[n + 1..][i - n - 1];
    }
  }

  lemma {:induction false} CountsOfLoopLines(indices: seq<string>, dest: string, elem: Ada.Expr, i: nat)
    requires i <= 2 * |indices| + 1
    ensures var lines := LoopLines(indices, dest, elem);
      Opens(lines, i) == Min(i, |indices|) &&
      Closes(lines, i) == (if i <= |indices| + 1 then 0 else i - |indices| - 1)
    decreases i
  {
    if i > 0 {
      CountsOfLoopLines(indices, dest, elem, i - 1);
      LineAt(indices, dest, elem, i - 1);
    }
  }

  /** The loop lines are properly nested, with one loop per index. */
  lemma LoopLinesNested(indices: seq<string>, dest: string, elem: Ada.Expr)
    ensures Nested(LoopLines(indices, dest, elem))
    ensures Opens(LoopLines(indices, dest, elem), 2 * |indices| + 1) == |indices|
  {
    var lines := LoopLines(indices, dest, elem);
    forall i | 0 <= i <= |lines| ensures Closes(lines, i) <= Opens(lines, i) {
      CountsOfLoopLines(indices, dest, elem, i);
    }
    forall i | 0 <= i < |lines| && !lines[i].EndLoop? ensures lines[i].level == Opens(lines, i) - Closes(lines, i) {
      CountsOfLoopLines(indices, dest, elem, i);
      LineAt(indices, dest, elem, i);
    }
    forall i | 0 <= i < |lines| && lines[i].EndLoop? ensures lines[i].level + 1 == Opens(lines, i) - Closes(lines, i) {
      CountsOfLoopLines(indices, dest, elem, i);
      LineAt(indices, dest, elem, i);
    }
    CountsOfLoopLines(indices, dest, elem, |lines|);
  }

  // ----- the body -----

  /** The lines of the body between two array types. */
  function BodyLines(env: Env, srcArr: string, dstArr: string): seq<Line> {
    var srcElem := Schema.ElementOf(env.provider, Schema.From, srcArr).GetOr("");
    var dstElem := Schema.ElementOf(env.provider, Schema.To, dstArr).GetOr("");
    var dims := EffectiveDims(Schema.ArrayDimension(env.provider, Schema.To, dstArr));
    var indices := Indices(dims);
    var elem := ElemExpr(env, srcElem, dstElem, "A" + Subscript(dims, indices));
    LoopLines(indices, "R" + Subscript(dims, indices), elem)
  }

  /** The text around the loops: profile, the result variable, and `return R`. */
  function BodyText(srcArr: string, dstArr: string, lines: seq<Line>): string {
    Ada.MapProfile("A", srcArr, dstArr) + " is\n" +
    "      R : Types_To." + dstArr + ";\n" +
    "   begin\n" +
    Join(RenderLines(lines), "\n") + "\n" +
    "      return R;\n" +
    "   end Map;\n"
  }

  /** `array_map_body(mg, src_arr, dst_arr)`. */
  method ArrayMapBody(env: Env, srcArr: string, dstArr: string) returns (text: string)
    ensures text == BodyText(srcArr, dstArr, BodyLines(env, srcArr, dstArr))
  {
    var srcElem := Schema.ElementOf(env.provider, Schema.From, srcArr).GetOr("");
    var dstElem := Schema.ElementOf(env.provider, Schema.To, dstArr).GetOr("");
    var dims := EffectiveDims(Schema.ArrayDimension(env.provider, Schema.To, dstArr));
    var indices := Indices(dims);
    var access := "A" + Subscript(dims, indices);
    var elem := ChooseElemExpr(env, srcElem, dstElem, access);
    var lines := BuildLoopLines(indices, "R" + Subscript(dims, indices), elem);
    text := BodyText(srcArr, dstArr, lines);
  }

  /** The body has one loop per dimension, at most five, properly nested,
      around a single assignment from `A(...)` to `R(...)`. */
  lemma BodyShape(env: Env, srcArr: string, dstArr: string)
    ensures var lines := BodyLines(env, srcArr, dstArr);
      var dims := EffectiveDims(Schema.ArrayDimension(env.provider, Schema.To, dstArr));
      var n := Min(dims, 5);
      Nested(lines) && Opens(lines, |lines|) == n && |lines| == 2 * n + 1 &&
      (forall k :: 0 <= k < n ==> lines[k] == ForLoop(k, IndexNames[k])) &&
      lines[n].Assign? && lines[n].target == "R" + Subscript(dims, IndexNames[..n])
  {
    var dims := EffectiveDims(Schema.ArrayDimension(env.provider, Schema.To, dstArr));
    var srcElem := Schema.ElementOf(env.provider, Schema.From, srcArr).GetOr("");
    var dstElem := Schema.ElementOf(env.provider, Schema.To, dstArr).GetOr("");
    var indices := Indices(dims);
    var elem := ElemExpr(env, srcElem, dstElem, "A" + Subscript(dims, indices));
    var dest := "R" + Subscript(dims, indices);
    LoopLinesNested(indices, dest, elem);
    forall k | 0 <= k < |indices| ensures LoopLines(indices, dest, elem)[k] == ForLoop(k, IndexNames[k]) {
      LineAt(indices, dest, elem, k);
    }
    LineAt(indices, dest, elem, |indices|);
  }

  /** Without a usable dimension the body is the single loop `for I in
      R'Range loop R(I) := ... A(I) ...; end loop;`. */
  lemma OneDimensional(env: Env, srcArr: string, dstArr: string)
    requires var d := Schema.ArrayDimension(env.provider, Schema.To, dstArr); d.None? || d.value <= 1
    ensures var srcElem := Schema.ElementOf(env.provider, Schema.From, srcArr).GetOr("");
      var dstElem := Schema.ElementOf(env.provider, Schema.To, dstArr).GetOr("");
      BodyLines(env, srcArr, dstArr) ==
        [ForLoop(0, "I"), Assign(1, "R(I)", ElemExpr(env, srcElem, dstElem, "A(I)")), EndLoop(0)]
  {
    var srcElem := Schema.ElementOf(env.provider, Schema.From, srcArr).GetOr("");
    var dstElem := Schema.ElementOf(env.provider, Schema.To, dstArr).GetOr("");
    var elem := ElemExpr(env, srcElem, dstElem, "A(I)");
    assert EffectiveDims(Schema.ArrayDimension(env.provider, Schema.To, dstArr)) == 1;
    assert Indices(1) == ["I"];
    assert "A" + Subscript(1, ["I"]) == "A(I)" && "R" + Subscript(1, ["I"]) == "R(I)";
    assert BodyLines(env, srcArr, dstArr) == LoopLines(["I"], "R(I)", elem);
    SingleLoop("I", "R(I)", elem);
  }

  /** The loop lines for a single index. */
  lemma SingleLoop(index: string, dest: string, elem: Ada.Expr)
    ensures LoopLines([index], dest, elem) == [ForLoop(0, index), Assign(1, dest, elem), EndLoop(0)]
  {
    var lines := LoopLines([index], dest, elem);
    LineAt([index], dest, elem, 0);
    LineAt([index], dest, elem, 1);
    LineAt([index], dest, elem, 2);
    assert lines == [ForLoop(0, index), Assign(1, dest, elem), EndLoop(0)];
  }
}
