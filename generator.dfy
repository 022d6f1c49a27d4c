// The generator object of generator.py: per-domain caches of parsed record
// fields, the declared `(from, to)` type pairs, the array pairs found to need
// a `Map` overload, and the builders of the Ada text of record and array
// `Map` functions.

module Generator {
  import opened Wrappers
  import opened Text
  import opened Assoc
  import opened Lookup
  import Schema
  import Ada
  import ArrayMaps

  type Pair = (string, string)

  // ----- dotted source paths -----

  /** One segment of a dotted source path: the stripped type of the field
      `seg` of the source record `t` (the field of that exact name, else the
      first equal to it ignoring case); nothing when `t` has no fields or no
      such field. */
  function FieldType(p: Schema.Provider, t: string, seg: string): (r: Option<string>)
    ensures r.Some? ==> IsStripped(r.value)
    ensures var fm := Schema.FieldsOf(p, Schema.From, t);
      r.Some? <==> seg != [] && Schema.Present(fm) && exists i :: 0 <= i < |fm.value| && EqualsIgnoreCase(fm.value[i].0, seg)
    ensures var fm := Schema.FieldsOf(p, Schema.From, t);
      seg != [] && fm.Some? && seg in Keys(fm.value) ==> r == Some(Strip(Get(fm.value, seg).value))
  {
    var fm := Schema.FieldsOf(p, Schema.From, t);
    if !Schema.Present(fm) then None
    else
      match ExactOrFirstLower(fm.value, seg)
      case None => None
      case Some(k) => if k == [] then None else Some(Strip(Get(fm.value, k).value))
  }

  /** The type reached from the source record `t` by following `segs`. */
  function PathType(p: Schema.Provider, t: string, segs: seq<string>): (r: Option<string>)
    ensures segs == [] ==> r == Some(t)
    ensures segs != [] && r.Some? ==> IsStripped(r.value)
    decreases |segs|
  {
    if segs == [] then Some(t)
    else
      match FieldType(p, t, segs[0])
      case None => None
      case Some(u) => PathType(p, u, segs[1..])
  }

  /** Following `a + b` is following `a`, then `b` from where `a` led. */
  lemma {:induction false} PathTypeAppend(p: Schema.Provider, t: string, a: seq<string>, b: seq<string>)
    ensures PathType(p, t, a + b) ==
      if PathType(p, t, a).None? then None else PathType(p, PathType(p, t, a).value, b)
    decreases |a|
  {
    var ab := a + b;
    if a == [] {
      assert ab == b;
    } else {
      assert ab[0] == a[0] && ab[1..] == a[1..] + b;
      match FieldType(p, t, a[0])
      case None =>
      case Some(u) => PathTypeAppend(p, u, a[1..], b);
    }
  }

  /** A path fails for good at the first segment that fails. */
  lemma PathTypeStops(p: Schema.Provider, t: string, a: seq<string>, b: seq<string>)
    requires PathType(p, t, a).None?
    ensures PathType(p, t, a + b).None?
  {
    PathTypeAppend(p, t, a, b);
  }

  // ----- the expression builder, as functions -----

  /** `value_expr` descends into the fields of `dstT` and `srcT`: both are
      records with fields and they are not a declared pair. */
  ghost predicate Recurses(p: Schema.Provider, pairs: set<Pair>, dstT: string, srcT: string) {
    Schema.Present(Schema.FieldsOf(p, Schema.To, dstT)) && Schema.Present(Schema.FieldsOf(p, Schema.From, srcT)) &&
    (Strip(srcT), Strip(dstT)) !in pairs
  }

  /** The type pair `value_expr` descends into for field `k` of the
      destination record `dstT`, keyed `(source, destination)`, when the
      source record `srcT` has a field for it. */
  function SubPair(p: Schema.Provider, dstT: string, srcT: string, k: nat): (r: Option<Pair>)
    requires Schema.Present(Schema.FieldsOf(p, Schema.To, dstT)) && Schema.Present(Schema.FieldsOf(p, Schema.From, srcT))
    requires k < |Schema.FieldsOf(p, Schema.To, dstT).value|
    ensures var toF, fromF := Schema.FieldsOf(p, Schema.To, dstT).value, Schema.FieldsOf(p, Schema.From, srcT).value;
      r.Some? <==> SourceName(fromF, toF[k].0).Some?
  {
    var toF, fromF := Schema.FieldsOf(p, Schema.To, dstT).value, Schema.FieldsOf(p, Schema.From, srcT).value;
    match SourceName(fromF, toF[k].0)
    case None => None
    case Some(s) => Some((Get(fromF, s).value, toF[k].1))
  }

  /** The descent of `value_expr` ends: `rank` ranks exactly the pairs of
      types it descends into, keyed `(source, destination)`, each above
      every pair of field types it descends into from there.  A declared
      pair stops the descent, so a record may hold itself through one. */
  ghost predicate Ranked(p: Schema.Provider, pairs: set<Pair>, rank: map<Pair, nat>) {
    forall dstT, srcT {:trigger RankedAt(p, pairs, rank, dstT, srcT)} :: RankedAt(p, pairs, rank, dstT, srcT)
  }

  /** The condition of `Ranked` for one pair of types. */
  ghost predicate RankedAt(p: Schema.Provider, pairs: set<Pair>, rank: map<Pair, nat>, dstT: string, srcT: string) {
    ((srcT, dstT) in rank <==> Recurses(p, pairs, dstT, srcT)) &&
    (Recurses(p, pairs, dstT, srcT) ==>
      forall k :: 0 <= k < |Schema.FieldsOf(p, Schema.To, dstT).value| && SubPair(p, dstT, srcT, k).Some? &&
                  SubPair(p, dstT, srcT, k).value in rank ==>
        rank[SubPair(p, dstT, srcT, k).value] < rank[(srcT, dstT)])
  }

  /** A ranked pair of records with fields. */
  ghost predicate InRank(p: Schema.Provider, rank: map<Pair, nat>, dstT: string, srcT: string) {
    (srcT, dstT) in rank &&
    Schema.Present(Schema.FieldsOf(p, Schema.To, dstT)) && Schema.Present(Schema.FieldsOf(p, Schema.From, srcT))
  }

  /** Every pair `value_expr` descends into is ranked. */
  lemma RankHolds(p: Schema.Provider, pairs: set<Pair>, rank: map<Pair, nat>, dstT: string, srcT: string)
    requires Ranked(p, pairs, rank) && Recurses(p, pairs, dstT, srcT)
    ensures InRank(p, rank, dstT, srcT)
  {
    assert RankedAt(p, pairs, rank, dstT, srcT);
  }

  ghost function Measure(rank: map<Pair, nat>, dstT: string, srcT: string): nat {
    if (srcT, dstT) in rank then rank[(srcT, dstT)] + 1 else 0
  }

  /** The field of the source record that feeds the destination field
      `dName`: the field of that name, else the last one equal to it ignoring
      case (the `{k.lower(): k}` index keeps the last); an empty name is none. */
  function SourceName(fromF: Schema.Fields, dName: string): (r: Option<string>)
    ensures r.Some? ==> r.value != [] && r.value in Keys(fromF) && EqualsIgnoreCase(r.value, dName)
    ensures dName != [] && dName in Keys(fromF) ==> r == Some(dName)
    ensures dName !in Keys(fromF) ==> r == LastLower(Keys(fromF), LowerStr(dName))
    ensures r.None? <==> dName == [] || forall i :: 0 <= i < |fromF| ==> !EqualsIgnoreCase(fromF[i].0, dName)
  {
    var s := if dName in Keys(fromF) then Some(dName) else Get(CaseIndex(Keys(fromF)), LowerStr(dName));
    CaseIndexGet(Keys(fromF), LowerStr(dName));
    LowerStrIdempotent(dName);
    if s.Some? && s.value != [] then s else None
  }

  /** `value_expr(dst_t, src_t, src_expr)`: a `Map` call for a declared record
      pair, an aggregate with one part per destination field for two other
      records with fields, a `Map` call for two arrays, and otherwise a
      conversion to the destination type (or the source expression itself
      when that type is unknown). */
  ghost function ValueOf(p: Schema.Provider, pairs: set<Pair>, rank: map<Pair, nat>,
                         dstT: string, srcT: string, srcExpr: string): Ada.Expr
    requires Ranked(p, pairs, rank)
    decreases Measure(rank, dstT, srcT), 2
  {
    var toF, fromF := Schema.FieldsOf(p, Schema.To, dstT), Schema.FieldsOf(p, Schema.From, srcT);
    if Schema.Present(toF) && Schema.Present(fromF) then
      if (Strip(srcT), Strip(dstT)) in pairs then Ada.MapCall(srcExpr)
      else
        RankHolds(p, pairs, rank, dstT, srcT);
        Ada.Aggregate(Parts(p, pairs, rank, dstT, srcT, srcExpr, |toF.value|))
    else if Schema.BothArrays(p, srcT, dstT) then Ada.MapCall(srcExpr)
    else if dstT != [] then Ada.Cast(dstT, srcExpr)
    else Ada.Plain(srcExpr)
  }

  /** The parts for the first `n` fields of the destination record `dstT`. */
  ghost function Parts(p: Schema.Provider, pairs: set<Pair>, rank: map<Pair, nat>,
                       dstT: string, srcT: string, srcExpr: string, n: nat): seq<(string, Ada.Expr)>
    requires Ranked(p, pairs, rank) && InRank(p, rank, dstT, srcT)
    requires n <= |Schema.FieldsOf(p, Schema.To, dstT).value|
    decreases Measure(rank, dstT, srcT), 1, n
  {
    if n == 0 then [] else Parts(p, pairs, rank, dstT, srcT, srcExpr, n - 1) + [PartAt(p, pairs, rank, dstT, srcT, srcExpr, n - 1)]
  }

  /** The part for field `k` of the destination record `dstT`: converted from
      its source field, or the whole source converted to the field's type
      when there is none. */
  ghost function PartAt(p: Schema.Provider, pairs: set<Pair>, rank: map<Pair, nat>,
                        dstT: string, srcT: string, srcExpr: string, k: nat): (string, Ada.Expr)
    requires Ranked(p, pairs, rank) && InRank(p, rank, dstT, srcT)
    requires k < |Schema.FieldsOf(p, Schema.To, dstT).value|
    decreases Measure(rank, dstT, srcT), 0, 0
  {
    var d := Schema.FieldsOf(p, Schema.To, dstT).value[k];
    var fromF := Schema.FieldsOf(p, Schema.From, srcT).value;
    FieldRankBelow(p, pairs, rank, dstT, srcT, k);
    match SourceName(fromF, d.0)
    case None => (d.0, Ada.Cast(d.1, srcExpr))
    case Some(s) => (d.0, ValueOf(p, pairs, rank, d.1, Get(fromF, s).value, srcExpr + "." + s))
  }

  /** The field pairs a descent reaches sit below it in the ranking. */
  lemma FieldRankBelow(p: Schema.Provider, pairs: set<Pair>, rank: map<Pair, nat>, dstT: string, srcT: string, k: nat)
    requires Ranked(p, pairs, rank) && InRank(p, rank, dstT, srcT)
    requires k < |Schema.FieldsOf(p, Schema.To, dstT).value|
    ensures var d := Schema.FieldsOf(p, Schema.To, dstT).value[k];
      var fromF := Schema.FieldsOf(p, Schema.From, srcT).value;
      SourceName(fromF, d.0).Some? ==>
        Measure(rank, d.1, Get(fromF, SourceName(fromF, d.0).value).value) < Measure(rank, dstT, srcT)
  {
    assert RankedAt(p, pairs, rank, dstT, srcT);
    var d := Schema.FieldsOf(p, Schema.To, dstT).value[k];
    var fromF := Schema.FieldsOf(p, Schema.From, srcT).value;
    if SourceName(fromF, d.0).Some? {
      var sub := SubPair(p, dstT, srcT, k).value;
      assert sub == (Get(fromF, SourceName(fromF, d.0).value).value, d.1);
    }
  }

  /** The array pairs `value_expr` registers on the way. */
  ghost function NeededBy(p: Schema.Provider, pairs: set<Pair>, rank: map<Pair, nat>,
                          dstT: string, srcT: string): set<Pair>
    requires Ranked(p, pairs, rank)
    decreases Measure(rank, dstT, srcT), 2
  {
    var toF, fromF := Schema.FieldsOf(p, Schema.To, dstT), Schema.FieldsOf(p, Schema.From, srcT);
    if Schema.Present(toF) && Schema.Present(fromF) then
      if (Strip(srcT), Strip(dstT)) in pairs then {}
      else
        RankHolds(p, pairs, rank, dstT, srcT);
        NeededParts(p, pairs, rank, dstT, srcT, |toF.value|)
    else if Schema.BothArrays(p, srcT, dstT) then {(Strip(srcT), Strip(dstT))}
    else {}
  }

  ghost function NeededParts(p: Schema.Provider, pairs: set<Pair>, rank: map<Pair, nat>,
                             dstT: string, srcT: string, n: nat): set<Pair>
    requires Ranked(p, pairs, rank) && InRank(p, rank, dstT, srcT)
    requires n <= |Schema.FieldsOf(p, Schema.To, dstT).value|
    decreases Measure(rank, dstT, srcT), 1, n
  {
    if n == 0 then {} else NeededParts(p, pairs, rank, dstT, srcT, n - 1) + NeededAt(p, pairs, rank, dstT, srcT, n - 1)
  }

  /** The array pairs registered by the part for field `k`. */
  ghost function NeededAt(p: Schema.Provider, pairs: set<Pair>, rank: map<Pair, nat>,
                          dstT: string, srcT: string, k: nat): set<Pair>
    requires Ranked(p, pairs, rank) && InRank(p, rank, dstT, srcT)
    requires k < |Schema.FieldsOf(p, Schema.To, dstT).value|
    decreases Measure(rank, dstT, srcT), 0, 0
  {
    var d := Schema.FieldsOf(p, Schema.To, dstT).value[k];
    var fromF := Schema.FieldsOf(p, Schema.From, srcT).value;
    FieldRankBelow(p, pairs, rank, dstT, srcT, k);
    match SourceName(fromF, d.0)
    case None => {}
    case Some(s) => NeededBy(p, pairs, rank, d.1, Get(fromF, s).value)
  }

  // ----- what the expression builder promises -----

  /** A declared record pair is delegated to its own `Map` overload, and
      nothing below it is visited. */
  lemma ValueOfDeclared(p: Schema.Provider, pairs: set<Pair>, rank: map<Pair, nat>,
                        dstT: string, srcT: string, srcExpr: string)
    requires Ranked(p, pairs, rank)
    requires Schema.Present(Schema.FieldsOf(p, Schema.To, dstT)) && Schema.Present(Schema.FieldsOf(p, Schema.From, srcT))
    requires (Strip(srcT), Strip(dstT)) in pairs
    ensures ValueOf(p, pairs, rank, dstT, srcT, srcExpr) == Ada.MapCall(srcExpr)
    ensures NeededBy(p, pairs, rank, dstT, srcT) == {}
  {
  }

  /** Two undeclared records with fields: the aggregate of the parts, and
      the pairs the parts register. */
  lemma ValueOfDescends(p: Schema.Provider, pairs: set<Pair>, rank: map<Pair, nat>,
                        dstT: string, srcT: string, srcExpr: string)
    requires Ranked(p, pairs, rank) && Recurses(p, pairs, dstT, srcT)
    ensures InRank(p, rank, dstT, srcT)
    ensures var n := |Schema.FieldsOf(p, Schema.To, dstT).value|;
      ValueOf(p, pairs, rank, dstT, srcT, srcExpr) == Ada.Aggregate(Parts(p, pairs, rank, dstT, srcT, srcExpr, n)) &&
      NeededBy(p, pairs, rank, dstT, srcT) == NeededParts(p, pairs, rank, dstT, srcT, n)
  {
    RankHolds(p, pairs, rank, dstT, srcT);
  }

  lemma {:induction false} PartsSpec(p: Schema.Provider, pairs: set<Pair>, rank: map<Pair, nat>,
                                     dstT: string, srcT: string, srcExpr: string, n: nat)
    requires Ranked(p, pairs, rank) && InRank(p, rank, dstT, srcT)
    requires n <= |Schema.FieldsOf(p, Schema.To, dstT).value|
    ensures var ps := Parts(p, pairs, rank, dstT, srcT, srcExpr, n);
      |ps| == n && forall k :: 0 <= k < n ==> ps[k] == PartAt(p, pairs, rank, dstT, srcT, srcExpr, k)
    decreases n
  {
    if n > 0 {
      PartsSpec(p, pairs, rank, dstT, srcT, srcExpr, n - 1);
    }
  }

  /** Two undeclared records with fields give an aggregate with one part per
      destination field, in destination order, each named after its field:
      the field converted from the source field of the same name (or the
      last equal to it ignoring case), else the whole source converted to
      the field's type. */
  lemma ValueOfRecord(p: Schema.Provider, pairs: set<Pair>, rank: map<Pair, nat>,
                      dstT: string, srcT: string, srcExpr: string)
    requires Ranked(p, pairs, rank)
    requires Schema.Present(Schema.FieldsOf(p, Schema.To, dstT)) && Schema.Present(Schema.FieldsOf(p, Schema.From, srcT))
    requires (Strip(srcT), Strip(dstT)) !in pairs
    ensures var e := ValueOf(p, pairs, rank, dstT, srcT, srcExpr);
      var toF, fromF := Schema.FieldsOf(p, Schema.To, dstT).value, Schema.FieldsOf(p, Schema.From, srcT).value;
      e.Aggregate? && |e.parts| == |toF| &&
      forall k :: 0 <= k < |toF| ==>
        e.parts[k].0 == toF[k].0 &&
        (SourceName(fromF, toF[k].0).None? ==> e.parts[k].1 == Ada.Cast(toF[k].1, srcExpr)) &&
        (SourceName(fromF, toF[k].0).Some? ==>
          var s := SourceName(fromF, toF[k].0).value;
          e.parts[k].1 == ValueOf(p, pairs, rank, toF[k].1, Get(fromF, s).value, srcExpr + "." + s))
  {
    var toF := Schema.FieldsOf(p, Schema.To, dstT).value;
    RankHolds(p, pairs, rank, dstT, srcT);
    PartsSpec(p, pairs, rank, dstT, srcT, srcExpr, |toF|);
  }

  /** Two arrays are delegated to an array overload, which is registered. */
  lemma ValueOfArrays(p: Schema.Provider, pairs: set<Pair>, rank: map<Pair, nat>,
                      dstT: string, srcT: string, srcExpr: string)
    requires Ranked(p, pairs, rank)
    requires !(Schema.Present(Schema.FieldsOf(p, Schema.To, dstT)) && Schema.Present(Schema.FieldsOf(p, Schema.From, srcT)))
    requires Schema.BothArrays(p, srcT, dstT)
    ensures ValueOf(p, pairs, rank, dstT, srcT, srcExpr) == Ada.MapCall(srcExpr)
    ensures NeededBy(p, pairs, rank, dstT, srcT) == {(Strip(srcT), Strip(dstT))}
  {
  }

  /** Anything else is converted to the destination type, or left as it is
      when that type is unknown, and registers nothing. */
  lemma ValueOfScalar(p: Schema.Provider, pairs: set<Pair>, rank: map<Pair, nat>,
                      dstT: string, srcT: string, srcExpr: string)
    requires Ranked(p, pairs, rank)
    requires !(Schema.Present(Schema.FieldsOf(p, Schema.To, dstT)) && Schema.Present(Schema.FieldsOf(p, Schema.From, srcT)))
    requires !Schema.BothArrays(p, srcT, dstT)
    ensures ValueOf(p, pairs, rank, dstT, srcT, srcExpr) ==
      if dstT != [] then Ada.Cast(dstT, srcExpr) else Ada.Plain(srcExpr)
    ensures NeededBy(p, pairs, rank, dstT, srcT) == {}
  {
  }

  /** A pair of array types, by their stripped names. */
  ghost predicate ArrayPair(p: Schema.Provider, pr: Pair) {
    exists s, d :: Schema.BothArrays(p, s, d) && pr == (Strip(s), Strip(d))
  }

  /** Every pair of `ps` is a pair of arrays. */
  ghost predicate AllArrays(p: Schema.Provider, ps: set<Pair>) {
    forall pr :: pr in ps ==> ArrayPair(p, pr)
  }

  lemma AllArraysUnion(p: Schema.Provider, a: set<Pair>, b: set<Pair>)
    requires AllArrays(p, a) && AllArrays(p, b)
    ensures AllArrays(p, a + b)
  {
  }

  /** Every pair the expression builder registers is a pair of arrays met
      on the way. */
  lemma {:induction false} NeededAreArrays(p: Schema.Provider, pairs: set<Pair>, rank: map<Pair, nat>,
                                           dstT: string, srcT: string)
    requires Ranked(p, pairs, rank)
    ensures AllArrays(p, NeededBy(p, pairs, rank, dstT, srcT))
    decreases Measure(rank, dstT, srcT), 1
  {
    var toF, fromF := Schema.FieldsOf(p, Schema.To, dstT), Schema.FieldsOf(p, Schema.From, srcT);
    if Schema.Present(toF) && Schema.Present(fromF) {
      if (Strip(srcT), Strip(dstT)) !in pairs {
        RankHolds(p, pairs, rank, dstT, srcT);
        NeededPartsAreArrays(p, pairs, rank, dstT, srcT, |toF.value|);
      }
    } else if Schema.BothArrays(p, srcT, dstT) {
      assert ArrayPair(p, (Strip(srcT), Strip(dstT)));
    }
  }

  lemma {:induction false} NeededPartsAreArrays(p: Schema.Provider, pairs: set<Pair>, rank: map<Pair, nat>,
                                                dstT: string, srcT: string, n: nat)
    requires Ranked(p, pairs, rank) && InRank(p, rank, dstT, srcT)
    requires n <= |Schema.FieldsOf(p, Schema.To, dstT).value|
    ensures AllArrays(p, NeededParts(p, pairs, rank, dstT, srcT, n))
    decreases Measure(rank, dstT, srcT), 0, n
  {
    if n > 0 {
      NeededPartsAreArrays(p, pairs, rank, dstT, srcT, n - 1);
      NeededAtAreArrays(p, pairs, rank, dstT, srcT, n - 1);
      AllArraysUnion(p, NeededParts(p, pairs, rank, dstT, srcT, n - 1), NeededAt(p, pairs, rank, dstT, srcT, n - 1));
    }
  }

  /** The pairs registered by the part for field `k` are pairs of arrays. */
  lemma {:induction false} NeededAtAreArrays(p: Schema.Provider, pairs: set<Pair>, rank: map<Pair, nat>,
                                             dstT: string, srcT: string, k: nat)
    requires Ranked(p, pairs, rank) && InRank(p, rank, dstT, srcT)
    requires k < |Schema.FieldsOf(p, Schema.To, dstT).value|
    ensures AllArrays(p, NeededAt(p, pairs, rank, dstT, srcT, k))
    decreases Measure(rank, dstT, srcT), 0, 0
  {
    var d := Schema.FieldsOf(p, Schema.To, dstT).value[k];
    var fromF := Schema.FieldsOf(p, Schema.From, srcT).value;
    FieldRankBelow(p, pairs, rank, dstT, srcT, k);
    match SourceName(fromF, d.0)
    case None =>
    case Some(s) => NeededAreArrays(p, pairs, rank, d.1, Get(fromF, s).value);
  }

  // ----- record `Map` bodies -----

  /** The destination type of the destination field `dest`, `""` if unknown. */
  function DstFieldType(p: Schema.Provider, dstType: string, dest: string): string {
    Get(Schema.OrEmpty(Schema.FieldsOf(p, Schema.To, dstType)), dest).GetOr("")
  }

  /** The type of a mapping's source: a dotted path is resolved from the
      source record, a plain name is looked up among its fields. */
  function SrcFieldType(p: Schema.Provider, srcType: string, src: string): string {
    if '.' in src then PathType(p, srcType, SplitOn(src, '.')).GetOr("")
    else Get(Schema.OrEmpty(Schema.FieldsOf(p, Schema.From, srcType)), src).GetOr("")
  }

  /** The association for one `dest: src` entry of a mapping. */
  ghost function Association(p: Schema.Provider, pairs: set<Pair>, rank: map<Pair, nat>,
                             srcType: string, dstType: string, entry: Pair): (string, Ada.Expr)
    requires Ranked(p, pairs, rank)
  {
    (entry.0, ValueOf(p, pairs, rank, DstFieldType(p, dstType, entry.0), SrcFieldType(p, srcType, entry.1), "X." + entry.1))
  }

  /** The associations for the first `n` entries of a mapping. */
  ghost function Associations(p: Schema.Provider, pairs: set<Pair>, rank: map<Pair, nat>,
                              srcType: string, dstType: string, fields: Dict<string, string>, n: nat): seq<(string, Ada.Expr)>
    requires Ranked(p, pairs, rank) && n <= |fields|
  {
    if n == 0 then [] else Associations(p, pairs, rank, srcType, dstType, fields, n - 1) + [Association(p, pairs, rank, srcType, dstType, fields[n - 1])]
  }

  /** The array pairs registered while building the first `n` associations. */
  ghost function NeededByEntries(p: Schema.Provider, pairs: set<Pair>, rank: map<Pair, nat>,
                                 srcType: string, dstType: string, fields: Dict<string, string>, n: nat): set<Pair>
    requires Ranked(p, pairs, rank) && n <= |fields|
  {
    if n == 0 then {}
    else
      var e := fields[n - 1];
      NeededByEntries(p, pairs, rank, srcType, dstType, fields, n - 1) +
      NeededBy(p, pairs, rank, DstFieldType(p, dstType, e.0), SrcFieldType(p, srcType, e.1))
  }

  /** The `k`-th association is that of the `k`-th entry. */
  lemma {:induction false} AssociationAt(p: Schema.Provider, pairs: set<Pair>, rank: map<Pair, nat>,
                                         srcType: string, dstType: string, fields: Dict<string, string>, n: nat, k: nat)
    requires Ranked(p, pairs, rank) && k < n <= |fields|
    ensures var a := Associations(p, pairs, rank, srcType, dstType, fields, n);
      |a| == n && a[k] == Association(p, pairs, rank, srcType, dstType, fields[k])
    decreases n
  {
    if k < n - 1 {
      AssociationAt(p, pairs, rank, srcType, dstType, fields, n - 1, k);
    } else if n > 1 {
      AssociationAt(p, pairs, rank, srcType, dstType, fields, n - 1, 0);
    }
  }

  /** One association per entry of the mapping, in the mapping's order: the
      destination name and the value built from `X.<src>`, typed by the
      destination field and by the source field or path. */
  lemma AssociationsInOrder(p: Schema.Provider, pairs: set<Pair>, rank: map<Pair, nat>,
                            srcType: string, dstType: string, fields: Dict<string, string>, n: nat)
    requires Ranked(p, pairs, rank) && n <= |fields|
    ensures var a := Associations(p, pairs, rank, srcType, dstType, fields, n);
      |a| == n && forall k :: 0 <= k < n ==>
        a[k].0 == fields[k].0 &&
        a[k].1 == ValueOf(p, pairs, rank, DstFieldType(p, dstType, fields[k].0), SrcFieldType(p, srcType, fields[k].1), "X." + fields[k].1)
  {
    if n > 0 {
      AssociationAt(p, pairs, rank, srcType, dstType, fields, n, 0);
    }
    forall k | 0 <= k < n
      ensures Associations(p, pairs, rank, srcType, dstType, fields, n)[k] == Association(p, pairs, rank, srcType, dstType, fields[k])
    {
      AssociationAt(p, pairs, rank, srcType, dstType, fields, n, k);
    }
  }

  function AssocTexts(assocs: seq<(string, Ada.Expr)>): (r: seq<string>)
    ensures |r| == |assocs| && forall k :: 0 <= k < |assocs| ==> r[k] == assocs[k].0 + " => " + Ada.Render(assocs[k].1)
  {
    seq(|assocs|, k requires 0 <= k < |assocs| => assocs[k].0 + " => " + Ada.Render(assocs[k].1))
  }

  /** A record `Map` body: the profile and one aggregate of the associations,
      one per line. */
  function RecordBodyText(srcType: string, dstType: string, assocs: seq<(string, Ada.Expr)>): string {
    Ada.MapProfile("X", srcType, dstType) + " is\n" +
    "     ( " + Join(AssocTexts(assocs), ",\n       ") + " );\n"
  }

  // ----- array overloads -----

  /** The element pair one level down: the pair of element types, when both
      are arrays themselves. */
  function ElemPair(p: Schema.Provider, pr: Pair): (r: Option<Pair>)
    ensures r.Some? ==> r.value.0 in p.from.elements.Values && r.value.1 in p.to.elements.Values
  {
    var srcElem, dstElem := Schema.ElementOf(p, Schema.From, pr.0), Schema.ElementOf(p, Schema.To, pr.1);
    if Schema.Present(srcElem) && Schema.Present(dstElem) && Schema.BothArrays(p, srcElem.value, dstElem.value)
    then Some((srcElem.value, dstElem.value))
    else None
  }

  /** Every array pair of `s` has its element pair in `s` too. */
  ghost predicate Closed(p: Schema.Provider, s: set<Pair>) {
    forall pr :: pr in s && ElemPair(p, pr).Some? ==> ElemPair(p, pr).value in s
  }

  /** The pairs `n` levels down from `pr`. */
  function Descend(p: Schema.Provider, pr: Pair, n: nat): Option<Pair> {
    if n == 0 then Some(pr)
    else
      match Descend(p, pr, n - 1)
      case None => None
      case Some(q) => ElemPair(p, q)
  }

  /** A closed set holds every level below each of its pairs: every nested
      array gets its own overload. */
  lemma {:induction false} ClosedHoldsDescent(p: Schema.Provider, s: set<Pair>, pr: Pair, n: nat)
    requires Closed(p, s) && pr in s
    ensures Descend(p, pr, n).Some? ==> Descend(p, pr, n).value in s
  {
    if n > 0 {
      ClosedHoldsDescent(p, s, pr, n - 1);
    }
  }

  /** All pairs of element types the declarations name. */
  function ElemUniverse(p: Schema.Provider): set<Pair> {
    set s, d | s in p.from.elements.Values && d in p.to.elements.Values :: (s, d)
  }

  /** Adding `c` after `b` is adding `b + c`. */
  lemma UnionStep<T>(a: set<T>, b: set<T>, c: set<T>, x: set<T>, y: set<T>)
    requires x == a + b && y == x + c
    ensures y == a + (b + c)
  {
  }

  // ----- the generator object -----

  class MapperGenerator {
    const provider: Schema.Provider
    const mappingPairs: set<Pair>
    var neededArrayMaps: set<Pair>
    var parsedTo: map<string, Schema.Fields>
    var parsedFrom: map<string, Schema.Fields>

    /** Each cached record holds what its declaration gives. */
    ghost predicate Valid()
      reads this`parsedTo, this`parsedFrom
    {
      (forall n :: n in parsedTo ==> n in provider.to.records && parsedTo[n] == provider.to.records[n]) &&
      (forall n :: n in parsedFrom ==> n in provider.from.records && parsedFrom[n] == provider.from.records[n])
    }

    constructor (provider: Schema.Provider, mappingPairs: set<Pair>)
      ensures Valid()
      ensures this.provider == provider && this.mappingPairs == mappingPairs
      ensures neededArrayMaps == {} && parsedTo == map[] && parsedFrom == map[]
    {
      this.provider := provider;
      this.mappingPairs := mappingPairs;
      neededArrayMaps := {};
      parsedTo := map[];
      parsedFrom := map[];
    }

    /** `get_to_fields(tname)`: the destination record's fields, parsed once
        and cached when found. */
    method GetToFields(tname: string) returns (r: Option<Schema.Fields>)
      requires Valid()
      modifies this`parsedTo
      ensures Valid()
      ensures r == Schema.FieldsOf(provider, Schema.To, tname)
      ensures parsedTo == if r.Some? then old(parsedTo)[tname := r.value] else old(parsedTo)
    {
      if tname == [] {
        return None;
      }
      if tname in parsedTo {
        r := Some(parsedTo[tname]);
        assert parsedTo == parsedTo[tname := r.value];
        return;
      }
      r := Schema.RecordFields(provider, Schema.To, tname);
      if r.Some? {
        parsedTo := parsedTo[tname := r.value];
      }
    }

    /** `get_from_fields(tname)`: the same for source records. */
    method GetFromFields(tname: string) returns (r: Option<Schema.Fields>)
      requires Valid()
      modifies this`parsedFrom
      ensures Valid()
      ensures r == Schema.FieldsOf(provider, Schema.From, tname)
      ensures parsedFrom == if r.Some? then old(parsedFrom)[tname := r.value] else old(parsedFrom)
    {
      if tname == [] {
        return None;
      }
      if tname in parsedFrom {
        r := Some(parsedFrom[tname]);
        assert parsedFrom == parsedFrom[tname := r.value];
        return;
      }
      r := Schema.RecordFields(provider, Schema.From, tname);
      if r.Some? {
        parsedFrom := parsedFrom[tname := r.value];
      }
    }

    /** `resolve_src_path_type(start_type, path)`. */
    method ResolveSrcPathType(startType: string, path: string) returns (r: Option<string>)
      requires Valid()
      modifies this`parsedFrom
      ensures Valid()
      ensures r == PathType(provider, startType, SplitOn(path, '.'))
    {
      var parts := SplitOn(path, '.');
      var cur := startType;
      var i := 0;
      while i < |parts|
        invariant i <= |parts| && Valid()
        invariant PathType(provider, startType, parts) == PathType(provider, cur, parts[i..])
      {
        var fm := GetFromFields(cur);
        if !Schema.Present(fm) {
          return None;
        }
        var key := ExactOrFirstLower(fm.value, parts[i]);
        if key.None? || key.value == [] {
          return None;
        }
        cur := Strip(Get(fm.value, key.value).value);
        assert parts[i..][1..] == parts[i + 1..];
        i := i + 1;
      }
      return Some(cur);
    }

    /** `value_expr(dst_t, src_t, src_expr)`, with `None` types as `""`. */
    method ValueExpr(ghost rank: map<Pair, nat>, dstT: string, srcT: string, srcExpr: string) returns (e: Ada.Expr)
      requires Valid() && Ranked(provider, mappingPairs, rank)
      modifies this`neededArrayMaps, this`parsedTo, this`parsedFrom
      ensures Valid()
      ensures e == ValueOf(provider, mappingPairs, rank, dstT, srcT, srcExpr)
      ensures neededArrayMaps == old(neededArrayMaps) + NeededBy(provider, mappingPairs, rank, dstT, srcT)
      decreases Measure(rank, dstT, srcT), 3
    {
      var toF := GetToFields(dstT);
      var fromF := GetFromFields(srcT);
      if Schema.Present(toF) && Schema.Present(fromF) {
        e := RecordValue(rank, dstT, srcT, toF.value, fromF.value, srcExpr);
      } else {
        e := LeafValue(rank, dstT, srcT, srcExpr);
      }
    }

    /** `value_expr` on two records with fields: a `Map` call for a declared
        pair, else the aggregate of the parts. */
    method RecordValue(ghost rank: map<Pair, nat>, dstT: string, srcT: string, toF: Schema.Fields, fromF: Schema.Fields, srcExpr: string)
      returns (e: Ada.Expr)
      requires Valid() && Ranked(provider, mappingPairs, rank)
      requires Schema.FieldsOf(provider, Schema.To, dstT) == Some(toF) && Schema.FieldsOf(provider, Schema.From, srcT) == Some(fromF)
      requires toF != [] && fromF != []
      modifies this`neededArrayMaps, this`parsedTo, this`parsedFrom
      ensures Valid()
      ensures e == ValueOf(provider, mappingPairs, rank, dstT, srcT, srcExpr)
      ensures neededArrayMaps == old(neededArrayMaps) + NeededBy(provider, mappingPairs, rank, dstT, srcT)
      decreases Measure(rank, dstT, srcT), 2
    {
      if (Strip(srcT), Strip(dstT)) in mappingPairs {
        ValueOfDeclared(provider, mappingPairs, rank, dstT, srcT, srcExpr);
        return Ada.MapCall(srcExpr);
      }
      ValueOfDescends(provider, mappingPairs, rank, dstT, srcT, srcExpr);
      var parts := BuildParts(rank, dstT, srcT, toF, fromF, srcExpr);
      return Ada.Aggregate(parts);
    }

    /** `value_expr` on anything but two records with fields: a `Map` call
        for two arrays, which registers them, else a conversion. */
    method LeafValue(ghost rank: map<Pair, nat>, dstT: string, srcT: string, srcExpr: string) returns (e: Ada.Expr)
      requires Valid() && Ranked(provider, mappingPairs, rank)
      requires !(Schema.Present(Schema.FieldsOf(provider, Schema.To, dstT)) && Schema.Present(Schema.FieldsOf(provider, Schema.From, srcT)))
      modifies this`neededArrayMaps
      ensures e == ValueOf(provider, mappingPairs, rank, dstT, srcT, srcExpr)
      ensures neededArrayMaps == old(neededArrayMaps) + NeededBy(provider, mappingPairs, rank, dstT, srcT)
    {
      var toElem := Schema.ElementOf(provider, Schema.To, dstT);
      var fromElem := Schema.ElementOf(provider, Schema.From, srcT);
      if Schema.Present(toElem) && Schema.Present(fromElem) {
        ValueOfArrays(provider, mappingPairs, rank, dstT, srcT, srcExpr);
        neededArrayMaps := neededArrayMaps + {(Strip(srcT), Strip(dstT))};
        return Ada.MapCall(srcExpr);
      }
      ValueOfScalar(provider, mappingPairs, rank, dstT, srcT, srcExpr);
      e := if dstT != [] then Ada.Cast(dstT, srcExpr) else Ada.Plain(srcExpr);
    }

    /** The loop of `value_expr` over the destination fields has built the
        parts for the first `k` of them, and registered what they register
        on top of `base`. */
    ghost predicate PartsBuilt(rank: map<Pair, nat>, dstT: string, srcT: string, srcExpr: string,
                               k: nat, parts: seq<(string, Ada.Expr)>, base: set<Pair>)
      reads this`neededArrayMaps
    {
      Ranked(provider, mappingPairs, rank) && InRank(provider, rank, dstT, srcT) &&
      k <= |Schema.FieldsOf(provider, Schema.To, dstT).value| &&
      parts == Parts(provider, mappingPairs, rank, dstT, srcT, srcExpr, k) &&
      neededArrayMaps == base + NeededParts(provider, mappingPairs, rank, dstT, srcT, k)
    }

    /** The loop of `value_expr` over the destination fields. */
    method BuildParts(ghost rank: map<Pair, nat>, dstT: string, srcT: string, toF: Schema.Fields, fromF: Schema.Fields, srcExpr: string)
      returns (parts: seq<(string, Ada.Expr)>)
      requires Valid() && Ranked(provider, mappingPairs, rank) && InRank(provider, rank, dstT, srcT)
      requires Schema.FieldsOf(provider, Schema.To, dstT) == Some(toF) && Schema.FieldsOf(provider, Schema.From, srcT) == Some(fromF)
      modifies this`neededArrayMaps, this`parsedTo, this`parsedFrom
      ensures Valid()
      ensures parts == Parts(provider, mappingPairs, rank, dstT, srcT, srcExpr, |toF|)
      ensures neededArrayMaps == old(neededArrayMaps) + NeededParts(provider, mappingPairs, rank, dstT, srcT, |toF|)
      decreases Measure(rank, dstT, srcT), 1
    {
      parts := [];
      var i := 0;
      ghost var base := neededArrayMaps;
      assert base + NeededParts(provider, mappingPairs, rank, dstT, srcT, 0) == base;
      while i < |toF|
        invariant i <= |toF| && Valid() && PartsBuilt(rank, dstT, srcT, srcExpr, i, parts, base)
      {
        parts := PartFor(rank, dstT, srcT, toF, fromF, srcExpr, i, parts, base);
        i := i + 1;
      }
    }

    /** One step of that loop: the parts so far with the part for field `k`. */
    method PartFor(ghost rank: map<Pair, nat>, dstT: string, srcT: string, toF: Schema.Fields, fromF: Schema.Fields, srcExpr: string,
                   k: nat, parts: seq<(string, Ada.Expr)>, ghost base: set<Pair>)
      returns (parts': seq<(string, Ada.Expr)>)
      requires Valid() && k < |toF| && PartsBuilt(rank, dstT, srcT, srcExpr, k, parts, base)
      requires Schema.FieldsOf(provider, Schema.To, dstT) == Some(toF) && Schema.FieldsOf(provider, Schema.From, srcT) == Some(fromF)
      modifies this`neededArrayMaps, this`parsedTo, this`parsedFrom
      ensures Valid() && PartsBuilt(rank, dstT, srcT, srcExpr, k + 1, parts', base)
      decreases Measure(rank, dstT, srcT), 0
    {
      var d := toF[k];
      var s := SourceName(fromF, d.0);
      FieldRankBelow(provider, mappingPairs, rank, dstT, srcT, k);
      ghost var before := neededArrayMaps;
      var part;
      if s.None? {
        part := (d.0, Ada.Cast(d.1, srcExpr));
      } else {
        var sub := ValueExpr(rank, d.1, Get(fromF, s.value).value, srcExpr + "." + s.value);
        part := (d.0, sub);
      }
      UnionStep(base, NeededParts(provider, mappingPairs, rank, dstT, srcT, k),
        NeededAt(provider, mappingPairs, rank, dstT, srcT, k), before, neededArrayMaps);
      parts' := parts + [part];
    }

    /** `gen_record_function_body(src_type, dst_type, fields)`. */
    method GenRecordFunctionBody(ghost rank: map<Pair, nat>, srcType: string, dstType: string, fields: Dict<string, string>)
      returns (text: string)
      requires Valid() && Ranked(provider, mappingPairs, rank)
      modifies this`neededArrayMaps, this`parsedTo, this`parsedFrom
      ensures Valid()
      ensures text == RecordBodyText(srcType, dstType, Associations(provider, mappingPairs, rank, srcType, dstType, fields, |fields|))
      ensures neededArrayMaps == old(neededArrayMaps) + NeededByEntries(provider, mappingPairs, rank, srcType, dstType, fields, |fields|)
    {
      var dstFieldTypes := GetToFields(dstType);
      var srcFieldTypes := GetFromFields(srcType);
      var assocs := BuildAssociations(rank, srcType, dstType, fields, dstFieldTypes, srcFieldTypes);
      text := RecordBodyText(srcType, dstType, assocs);
    }

    /** The loop of `gen_record_function_body` over the mapping's entries. */
    method BuildAssociations(ghost rank: map<Pair, nat>, srcType: string, dstType: string, fields: Dict<string, string>,
                             dstFieldTypes: Option<Schema.Fields>, srcFieldTypes: Option<Schema.Fields>)
      returns (assocs: seq<(string, Ada.Expr)>)
      requires Valid() && Ranked(provider, mappingPairs, rank)
      requires dstFieldTypes == Schema.FieldsOf(provider, Schema.To, dstType)
      requires srcFieldTypes == Schema.FieldsOf(provider, Schema.From, srcType)
      modifies this`neededArrayMaps, this`parsedTo, this`parsedFrom
      ensures Valid()
      ensures assocs == Associations(provider, mappingPairs, rank, srcType, dstType, fields, |fields|)
      ensures neededArrayMaps == old(neededArrayMaps) + NeededByEntries(provider, mappingPairs, rank, srcType, dstType, fields, |fields|)
    {
      assocs := [];
      var i := 0;
      ghost var base := neededArrayMaps;
      assert base + NeededByEntries(provider, mappingPairs, rank, srcType, dstType, fields, 0) == base;
      while i < |fields|
        invariant i <= |fields| && Valid()
        invariant assocs == Associations(provider, mappingPairs, rank, srcType, dstType, fields, i)
        invariant neededArrayMaps == base + NeededByEntries(provider, mappingPairs, rank, srcType, dstType, fields, i)
      {
        assocs := AssociationFor(rank, srcType, dstType, dstFieldTypes, srcFieldTypes, fields, i, assocs, base);
        i := i + 1;
      }
    }

    /** One step of that loop: the associations so far with the one for
        entry `k`. */
    method AssociationFor(ghost rank: map<Pair, nat>, srcType: string, dstType: string,
                          dstFieldTypes: Option<Schema.Fields>, srcFieldTypes: Option<Schema.Fields>,
                          fields: Dict<string, string>, k: nat, assocs: seq<(string, Ada.Expr)>, ghost base: set<Pair>)
      returns (assocs': seq<(string, Ada.Expr)>)
      requires Valid() && Ranked(provider, mappingPairs, rank) && k < |fields|
      requires dstFieldTypes == Schema.FieldsOf(provider, Schema.To, dstType)
      requires srcFieldTypes == Schema.FieldsOf(provider, Schema.From, srcType)
      requires assocs == Associations(provider, mappingPairs, rank, srcType, dstType, fields, k)
      requires neededArrayMaps == base + NeededByEntries(provider, mappingPairs, rank, srcType, dstType, fields, k)
      modifies this`neededArrayMaps, this`parsedTo, this`parsedFrom
      ensures Valid()
      ensures assocs' == Associations(provider, mappingPairs, rank, srcType, dstType, fields, k + 1)
      ensures neededArrayMaps == base + NeededByEntries(provider, mappingPairs, rank, srcType, dstType, fields, k + 1)
    {
      var (dest, src) := fields[k];
      var dT := Get(Schema.OrEmpty(dstFieldTypes), dest).GetOr("");
      var sT;
      if '.' in src {
        var resolved := ResolveSrcPathType(srcType, src);
        sT := resolved.GetOr("");
      } else {
        sT := Get(Schema.OrEmpty(srcFieldTypes), src).GetOr("");
      }
      ghost var before := neededArrayMaps;
      var expr := ValueExpr(rank, dT, sT, "X." + src);
      UnionStep(base, NeededByEntries(provider, mappingPairs, rank, srcType, dstType, fields, k),
        NeededBy(provider, mappingPairs, rank, dT, sT), before, neededArrayMaps);
      assocs' := assocs + [(dest, expr)];
    }

    /** `expand_array_pairs_transitively()`: repeated passes over a snapshot
        of the needed pairs, adding each one's element pair, until a pass
        adds nothing. */
    method ExpandArrayPairsTransitively()
      modifies this`neededArrayMaps
      ensures Closed(provider, neededArrayMaps)
      ensures old(neededArrayMaps) <= neededArrayMaps
      ensures neededArrayMaps - old(neededArrayMaps) <= ElemUniverse(provider)
      ensures forall pr :: pr in neededArrayMaps - old(neededArrayMaps) ==>
        exists q :: q in neededArrayMaps && ElemPair(provider, q) == Some(pr)
    {
      var changed := true;
      while changed
        invariant old(neededArrayMaps) <= neededArrayMaps
        invariant neededArrayMaps - old(neededArrayMaps) <= ElemUniverse(provider)
        invariant forall pr :: pr in neededArrayMaps - old(neededArrayMaps) ==>
          exists q :: q in neededArrayMaps && ElemPair(provider, q) == Some(pr)
        invariant !changed ==> Closed(provider, neededArrayMaps)
        decreases ElemUniverse(provider) - neededArrayMaps, changed
      {
        changed := ExpandOnce();
      }
    }

    /** One pass of the closure over a snapshot of the needed pairs. */
    method ExpandOnce() returns (changed: bool)
      modifies this`neededArrayMaps
      ensures old(neededArrayMaps) <= neededArrayMaps
      ensures neededArrayMaps - old(neededArrayMaps) <= ElemUniverse(provider)
      ensures forall pr :: pr in neededArrayMaps - old(neededArrayMaps) ==>
        exists q :: q in old(neededArrayMaps) && ElemPair(provider, q) == Some(pr)
      ensures changed <==> neededArrayMaps != old(neededArrayMaps)
      ensures !changed ==> Closed(provider, neededArrayMaps)
    {
      changed := false;
      ghost var snapshot := neededArrayMaps;
      var todo := neededArrayMaps;
      while todo != {}
        invariant todo <= snapshot <= neededArrayMaps
        invariant neededArrayMaps - snapshot <= ElemUniverse(provider)
        invariant forall pr :: pr in neededArrayMaps - snapshot ==>
          exists q :: q in snapshot && ElemPair(provider, q) == Some(pr)
        invariant changed <==> neededArrayMaps != snapshot
        invariant forall q :: q in snapshot - todo && ElemPair(provider, q).Some? ==> ElemPair(provider, q).value in neededArrayMaps
        decreases todo
      {
        var q :| q in todo;
        todo := todo - {q};
        var pair := ElemPair(provider, q);
        if pair.Some? && pair.value !in neededArrayMaps {
          neededArrayMaps := neededArrayMaps + {pair.value};
          changed := true;
        }
      }
    }

    /** `array_map_body(src_arr, dst_arr)`: a single loop over `R'Range`. */
    method ArrayMapBody(srcArr: string, dstArr: string) returns (text: string)
      requires Valid()
      modifies this`parsedTo, this`parsedFrom
      ensures Valid()
      ensures var env := ArrayMaps.Env(provider, mappingPairs, neededArrayMaps);
        var srcElem := Schema.ElementOf(provider, Schema.From, srcArr).GetOr("");
        var dstElem := Schema.ElementOf(provider, Schema.To, dstArr).GetOr("");
        text == ArrayMaps.BodyText(srcArr, dstArr,
          ArrayMaps.LoopLines(["I"], "R(I)", ArrayMaps.ElemExpr(env, srcElem, dstElem, "A(I)")))
    {
      var srcElem := Schema.ElementOf(provider, Schema.From, srcArr).GetOr("");
      var dstElem := Schema.ElementOf(provider, Schema.To, dstArr).GetOr("");
      var elem := ArrayElemExpr(srcElem, dstElem);
      text := Ada.MapProfile("A", srcArr, dstArr) + " is\n" +
        "      R : Types_To." + dstArr + ";\n" +
        "   begin\n" +
        "      for I in R'Range loop\n" +
        "         R(I) := " + Ada.Render(elem) + ";\n" +
        "      end loop;\n" +
        "      return R;\n" +
        "   end Map;\n";
      OneLoopText(srcArr, dstArr, elem);
    }

    /** How `array_map_body` converts one element `A(I)`. */
    method ArrayElemExpr(srcElem: string, dstElem: string) returns (elem: Ada.Expr)
      requires Valid()
      modifies this`parsedTo, this`parsedFrom
      ensures Valid()
      ensures elem == ArrayMaps.ElemExpr(ArrayMaps.Env(provider, mappingPairs, neededArrayMaps), srcElem, dstElem, "A(I)")
    {
      elem := if dstElem != [] then Ada.Cast(dstElem, "A(I)") else Ada.Plain("A(I)");
      var toElem2 := Schema.ElementOf(provider, Schema.To, dstElem);
      var fromElem2 := Schema.ElementOf(provider, Schema.From, srcElem);
      if (srcElem, dstElem) in mappingPairs || (srcElem, dstElem) in neededArrayMaps {
        elem := Ada.MapCall("A(I)");
      } else if Schema.Present(toElem2) && Schema.Present(fromElem2) {
        elem := Ada.MapCall("A(I)");
      } else {
        var toF := GetToFields(dstElem);
        var fromF := GetFromFields(srcElem);
        if Schema.OrEmpty(toF) != [] && Schema.OrEmpty(fromF) != [] {
          var parts := ArrayMaps.BuildElemParts(Schema.OrEmpty(toF), Schema.OrEmpty(fromF), dstElem, "A(I)");
          elem := Ada.Aggregate(parts);
        }
      }
    }
  }

  /** The rendered lines of a single loop. */
  lemma OneLoopRendered(elem: Ada.Expr)
    ensures ArrayMaps.RenderLines(ArrayMaps.LoopLines(["I"], "R(I)", elem)) ==
      ["      for I in R'Range loop", "         R(I) := " + Ada.Render(elem) + ";", "      end loop;"]
  {
    ArrayMaps.SingleLoop("I", "R(I)", elem);
    ForLine();
    AssignLine(elem);
    EndLine();
  }

  lemma ForLine()
    ensures ArrayMaps.RenderLine(ArrayMaps.ForLoop(0, "I")) == "      for I in R'Range loop"
  {
    assert ArrayMaps.Indent(0) == "      " by {
      assert Repeat("   ", 0) == "";
    }
  }

  lemma AssignLine(elem: Ada.Expr)
    ensures ArrayMaps.RenderLine(ArrayMaps.Assign(1, "R(I)", elem)) == "         R(I) := " + Ada.Render(elem) + ";"
  {
    assert ArrayMaps.Indent(1) == "         " by {
      assert Repeat("   ", 1) == Repeat("   ", 0) + "   ";
    }
    assert ArrayMaps.Indent(1) + "R(I)" + " := " == "         R(I) := ";
  }

  lemma EndLine()
    ensures ArrayMaps.RenderLine(ArrayMaps.EndLoop(0)) == "      end loop;"
  {
    assert ArrayMaps.Indent(0) == "      " by {
      assert Repeat("   ", 0) == "";
    }
  }

  lemma JoinThree(a: string, b: string, c: string, sep: string)
    ensures Join([a, b, c], sep) == a + sep + b + sep + c
  {
    assert [a, b, c][1..] == [b, c];
    assert [b, c][1..] == [c];
    assert Join([c], sep) == c;
    assert Join([b, c], sep) == b + sep + c;
  }

  /** The text of a body with one loop, written out. */
  lemma OneLoopText(srcArr: string, dstArr: string, elem: Ada.Expr)
    ensures ArrayMaps.BodyText(srcArr, dstArr, ArrayMaps.LoopLines(["I"], "R(I)", elem)) ==
      Ada.MapProfile("A", srcArr, dstArr) + " is\n" +
      "      R : Types_To." + dstArr + ";\n" +
      "   begin\n" +
      "      for I in R'Range loop\n" +
      "         R(I) := " + Ada.Render(elem) + ";\n" +
      "      end loop;\n" +
      "      return R;\n" +
      "   end Map;\n"
  {
    var a, b, c := "      for I in R'Range loop", "         R(I) := " + Ada.Render(elem) + ";", "      end loop;";
    OneLoopRendered(elem);
    JoinThree(a, b, c, "\n");
    var pre := Ada.MapProfile("A", srcArr, dstArr) + " is\n" + "      R : Types_To." + dstArr + ";\n" + "   begin\n";
    var lines := Join(ArrayMaps.RenderLines(ArrayMaps.LoopLines(["I"], "R(I)", elem)), "\n");
    Regroup4(pre, lines, "\n", "      return R;\n", "   end Map;\n");
    LoopBlock(Ada.Render(elem));
    Regroup(pre, "      for I in R'Range loop\n", "         R(I) := ", Ada.Render(elem), ";\n", "      end loop;\n",
            "      return R;\n", "   end Map;\n");
  }

  lemma Regroup4<T>(pre: seq<T>, a: seq<T>, b: seq<T>, e: seq<T>, f: seq<T>)
    ensures (((pre + a) + b) + e) + f == pre + (a + b) + (e + f)
  {
  }

  lemma Regroup<T>(pre: seq<T>, a: seq<T>, b: seq<T>, r: seq<T>, c: seq<T>, d: seq<T>, e: seq<T>, f: seq<T>)
    ensures pre + ((((a + b) + r) + c) + d) + (e + f) == ((((((pre + a) + b) + r) + c) + d) + e) + f
  {
  }

  lemma LoopBlock(r: string)
    ensures "      for I in R'Range loop" + "\n" + ("         R(I) := " + r + ";") + "\n" + "      end loop;" + "\n" ==
      "      for I in R'Range loop\n" + "         R(I) := " + r + ";\n" + "      end loop;\n"
  {
  }

  /** For a destination array of at most one dimension the generator's body
      is the one the array module writes. */
  lemma ArrayBodiesAgree(env: ArrayMaps.Env, srcArr: string, dstArr: string)
    requires var d := Schema.ArrayDimension(env.provider, Schema.To, dstArr); d.None? || d.value <= 1
    ensures var srcElem := Schema.ElementOf(env.provider, Schema.From, srcArr).GetOr("");
      var dstElem := Schema.ElementOf(env.provider, Schema.To, dstArr).GetOr("");
      ArrayMaps.BodyText(srcArr, dstArr, ArrayMaps.LoopLines(["I"], "R(I)", ArrayMaps.ElemExpr(env, srcElem, dstElem, "A(I)"))) ==
      ArrayMaps.BodyText(srcArr, dstArr, ArrayMaps.BodyLines(env, srcArr, dstArr))
  {
    var srcElem := Schema.ElementOf(env.provider, Schema.From, srcArr).GetOr("");
    var dstElem := Schema.ElementOf(env.provider, Schema.To, dstArr).GetOr("");
    ArrayMaps.OneDimensional(env, srcArr, dstArr);
    ArrayMaps.SingleLoop("I", "R(I)", ArrayMaps.ElemExpr(env, srcElem, dstElem, "A(I)"));
  }
}
