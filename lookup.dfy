// The case-insensitive lookups the tools build over declared names:
// dictionary comprehensions keyed by `name.lower()`, in which a later name
// overwrites an earlier one with the same lower-case form, and `next(...)` /
// `for ... break` scans, in which the first matching name wins.

module Lookup {
  import opened Wrappers
  import opened Text
  import opened Assoc

  /** The last name of `names` whose lower-case form is `key`. */
  function LastLower(names: seq<string>, key: string): (r: Option<string>)
    ensures r.Some? ==> r.value in names && LowerStr(r.value) == key
    ensures r.None? <==> forall i :: 0 <= i < |names| ==> LowerStr(names[i]) != key
    decreases |names|
  {
    if names == [] then None
    else if LowerStr(names[|names| - 1]) == key then Some(names[|names| - 1])
    else
      var r := LastLower(names[..|names| - 1], key);
      assert forall i :: 0 <= i < |names| - 1 ==> names[..|names| - 1][i] == names[i];
      r
  }

  function LowerPairs(names: seq<string>): (ps: seq<(string, string)>)
    ensures |ps| == |names| && forall i :: 0 <= i < |names| ==> ps[i] == (LowerStr(names[i]), names[i])
  {
    seq(|names|, i requires 0 <= i < |names| => (LowerStr(names[i]), names[i]))
  }

  /** Each name under its lower-cased form; of names that collide, the last
      one given wins. */
  function CaseIndex(names: seq<string>): Dict<string, string> {
    FromPairs(LowerPairs(names))
  }

  /** Looking a lower-case key up in the index finds the last name with that
      lower-case form, and nothing when no name has it. */
  lemma CaseIndexGet(names: seq<string>, key: string)
    ensures Get(CaseIndex(names), key) == LastLower(names, key)
  {
    FromPairsSpec(LowerPairs(names));
    LastLowerPairs(names, key);
  }

  /** A name is a value of the index exactly when it is the last name with
      its lower-case form. */
  lemma CaseIndexValues(names: seq<string>, x: string)
    ensures x in Values(CaseIndex(names)) <==> x in names && LastLower(names, LowerStr(x)) == Some(x)
  {
    FromPairsSpec(LowerPairs(names));
    if x in Values(CaseIndex(names)) {
      var d := CaseIndex(names);
      var i :| 0 <= i < |d| && d[i].1 == x;
      GetUnique(d, d[i].0);
      CaseIndexGet(names, d[i].0);
    }
    if x in names && LastLower(names, LowerStr(x)) == Some(x) {
      CaseIndexGet(names, LowerStr(x));
    }
  }

  lemma {:induction false} LastLowerPairs(names: seq<string>, key: string)
    ensures LastValue(LowerPairs(names), key) == LastLower(names, key)
    decreases |names|
  {
    if names != [] {
      var init := names[..|names| - 1];
      LastLowerPairs(init, key);
      assert LowerPairs(names)[..|names| - 1] == LowerPairs(init);
    }
  }

  /** The first of `keys` equal to `name` ignoring case, if any. */
  function FirstLower(keys: seq<string>, name: string): (r: Option<string>)
    ensures r.Some? ==> r.value in keys && EqualsIgnoreCase(r.value, name)
    ensures r.None? <==> forall i :: 0 <= i < |keys| ==> !EqualsIgnoreCase(keys[i], name)
    ensures r.Some? ==>
      (exists i :: 0 <= i < |keys| && keys[i] == r.value && forall j :: 0 <= j < i ==> !EqualsIgnoreCase(keys[j], name))
    decreases |keys|
  {
    if keys == [] then None
    else if EqualsIgnoreCase(keys[0], name) then Some(keys[0])
    else
      var r := FirstLower(keys[1..], name);
      assert forall i :: 0 <= i < |keys| - 1 ==> keys[1..][i] == keys[i + 1];
      assert r.Some? ==> keys[0] != r.value;
      r
  }

  /** `d[name]` if present, else the first key equal to it ignoring case. */
  function ExactOrFirstLower<V>(d: Dict<string, V>, name: string): (r: Option<string>)
    ensures r.Some? ==> r.value in Keys(d) && EqualsIgnoreCase(r.value, name)
    ensures name in Keys(d) ==> r == Some(name)
    ensures r.None? <==> forall i :: 0 <= i < |d| ==> !EqualsIgnoreCase(d[i].0, name)
  {
    if name in Keys(d) then Some(name) else FirstLower(Keys(d), name)
  }
}
