/** The registry of user parameters (scalar and array variables) and the table of
    control-input saturation descriptors, as lists of records updated by name or index
    (autogenu/autogenu.py, define_* / set_* / add_control_input_saturation). */
module Registry {
  import opened Symbolic

  /** A scalar parameter: its symbol, its name and the value emitted for it. */
  datatype ScalarVar = ScalarVar(sym: Expr, name: string, value: real)

  /** An array parameter: one symbol per element, its name, and its values (empty until set). */
  datatype ArrayVar = ArrayVar(syms: seq<Expr>, name: string, values: seq<real>)

  /** A box constraint on one control input, condensed by a dedicated solver variant. */
  datatype Saturation = Saturation(index: int, uMin: real, uMax: real, dummyWeight: real, quadraticWeight: real)

  // ----- Scalar parameters -----

  /** Every symbol is the plain symbol named by its entry. */
  ghost predicate ScalarsWellFormed(vars: seq<ScalarVar>) {
    forall k :: 0 <= k < |vars| ==> vars[k].sym == Var(Named(vars[k].name))
  }

  /** The entries define_scalar_vars appends for `names`, value 0 each. */
  function ScalarEntries(names: seq<string>): (es: seq<ScalarVar>)
    ensures |es| == |names| && ScalarsWellFormed(es)
    ensures forall i :: 0 <= i < |names| ==> es[i].name == names[i] && es[i].value == 0.0
  {
    seq(|names|, i requires 0 <= i < |names| => ScalarVar(Var(Named(names[i])), names[i], 0.0))
  }

  /** Gives `value` to every entry named `name`; nothing else changes. */
  function AssignByName(vars: seq<ScalarVar>, name: string, value: real): (r: seq<ScalarVar>)
    ensures |r| == |vars|
    ensures forall k :: 0 <= k < |vars| ==>
      r[k].sym == vars[k].sym && r[k].name == vars[k].name &&
      r[k].value == (if vars[k].name == name then value else vars[k].value)
    ensures ScalarsWellFormed(vars) ==> ScalarsWellFormed(r)
  {
    seq(|vars|, k requires 0 <= k < |vars| =>
      if vars[k].name == name then vars[k].(value := value) else vars[k])
  }

  /** set_scalar_var as written: the key compared with each stored name is the
      one-character string made of the first character of `name`. */
  function AssignByFirstCharacter(vars: seq<ScalarVar>, name: string, value: real): (r: seq<ScalarVar>)
    requires name != []
    ensures |r| == |vars|
    ensures forall k :: 0 <= k < |vars| ==>
      r[k].sym == vars[k].sym && r[k].name == vars[k].name &&
      r[k].value == (if vars[k].name == [name[0]] then value else vars[k].value)
  {
    assert name[..1] == [name[0]];
    AssignByName(vars, name[..1], value)
  }

  /** set_scalar_var never updates the parameter it names when that name is longer than
      one character. */
  lemma FirstCharacterMissesLongNames(vars: seq<ScalarVar>, name: string, value: real)
    requires |name| >= 2
    ensures |AssignByFirstCharacter(vars, name, value)| == |vars|
    ensures forall k :: 0 <= k < |vars| && vars[k].name == name ==>
      AssignByFirstCharacter(vars, name, value)[k] == vars[k]
  {
    assert name[..1] != name by { assert |name[..1]| != |name|; }
  }

  /** A concrete registry on which set_scalar_var("mass", 2.0) changes "m" and not "mass",
      while the by-name update of set_scalar_vars changes "mass" only. */
  lemma FirstCharacterWitness()
    ensures var vars := ScalarEntries(["mass", "m"]);
      AssignByFirstCharacter(vars, "mass", 2.0) == [vars[0], vars[1].(value := 2.0)] &&
      AssignByName(vars, "mass", 2.0) == [vars[0].(value := 2.0), vars[1]]
  {
    var vars := ScalarEntries(["mass", "m"]);
    assert "mass"[..1] == "m";
    assert vars[0].name == "mass" && vars[1].name == "m";
    var r := AssignByFirstCharacter(vars, "mass", 2.0);
    assert r == [vars[0], vars[1].(value := 2.0)];
  }

  /** set_scalar_vars: the pairs applied in order, each to every entry of its name. */
  function AssignPairs(vars: seq<ScalarVar>, pairs: seq<(string, real)>): (r: seq<ScalarVar>)
    ensures |r| == |vars|
    ensures forall k :: 0 <= k < |vars| ==> r[k].sym == vars[k].sym && r[k].name == vars[k].name
    ensures ScalarsWellFormed(vars) ==> ScalarsWellFormed(r)
  {
    if pairs == [] then vars
    else
      var last := pairs[|pairs| - 1];
      AssignByName(AssignPairs(vars, pairs[..|pairs| - 1]), last.0, last.1)
  }

  /** The value of the last pair named `name`, or `default` if there is none. */
  function LastValue(pairs: seq<(string, real)>, name: string, default: real): real {
    if pairs == [] then default
    else if pairs[|pairs| - 1].0 == name then pairs[|pairs| - 1].1
    else LastValue(pairs[..|pairs| - 1], name, default)
  }

  /** After set_scalar_vars every entry holds the value of the last pair naming it, or its
      old value; names, symbols and the number of entries do not change. */
  lemma {:induction false} AssignPairsValue(vars: seq<ScalarVar>, pairs: seq<(string, real)>)
    ensures |AssignPairs(vars, pairs)| == |vars|
    ensures forall k :: 0 <= k < |vars| ==>
      AssignPairs(vars, pairs)[k] == vars[k].(value := LastValue(pairs, vars[k].name, vars[k].value))
  {
    if pairs != [] {
      AssignPairsValue(vars, pairs[..|pairs| - 1]);
    }
  }

  // ----- Array parameters -----

  /** Every array has at least one element, its symbols are `name[0:dim]`, and its values
      are either unset or one per element. */
  ghost predicate ArraysWellFormed(vars: seq<ArrayVar>) {
    forall k :: 0 <= k < |vars| ==>
      |vars[k].syms| > 0 && vars[k].syms == Vector(vars[k].name, |vars[k].syms|) &&
      (vars[k].values == [] || |vars[k].values| == |vars[k].syms|)
  }

  /** set_array_var: every entry named `name` whose dimension equals the number of values
      takes them; an entry of another length is silently left as it was. */
  function AssignArray(vars: seq<ArrayVar>, name: string, values: seq<real>): (r: seq<ArrayVar>)
    ensures |r| == |vars|
    ensures forall k :: 0 <= k < |vars| ==>
      r[k].syms == vars[k].syms && r[k].name == vars[k].name &&
      r[k].values == (if vars[k].name == name && |vars[k].syms| == |values| then values else vars[k].values)
    ensures (forall k :: 0 <= k < |vars| && vars[k].name == name ==> |vars[k].syms| != |values|) ==> r == vars
    ensures ArraysWellFormed(vars) ==> ArraysWellFormed(r)
  {
    seq(|vars|, k requires 0 <= k < |vars| =>
      if vars[k].name == name && |vars[k].syms| == |values| then vars[k].(values := values) else vars[k])
  }

  // ----- Saturation descriptors -----

  ghost predicate UniqueIndices(list: seq<Saturation>) {
    forall i, j :: 0 <= i < j < |list| ==> list[i].index != list[j].index
  }

  /** What add_control_input_saturation checks of a descriptor. */
  predicate Admissible(s: Saturation, dimu: int) {
    0 <= s.index < dimu && s.uMin < s.uMax && s.dummyWeight >= 0.0 && s.quadraticWeight >= 0.0
  }

  ghost predicate SaturationsWellFormed(list: seq<Saturation>, dimu: int) {
    UniqueIndices(list) && forall i :: 0 <= i < |list| ==> Admissible(list[i], dimu)
  }

  predicate HasIndex(list: seq<Saturation>, index: int) {
    exists j :: 0 <= j < |list| && list[j].index == index
  }

  /** add_control_input_saturation: overwrite the descriptors with the same index, or
      append the new descriptor if there is none. */
  function Upsert(list: seq<Saturation>, s: Saturation): (r: seq<Saturation>)
    ensures |list| <= |r| <= |list| + 1
    ensures |r| == |list| + 1 <==> !HasIndex(list, s.index)
    ensures exists j :: 0 <= j < |r| && r[j] == s
    ensures forall j :: 0 <= j < |list| && list[j].index != s.index ==> r[j] == list[j]
    ensures forall j :: |list| <= j < |r| ==> r[j] == s
    ensures UniqueIndices(list) ==> UniqueIndices(r)
  {
    if HasIndex(list, s.index) then
      var r := seq(|list|, j requires 0 <= j < |list| => if list[j].index == s.index then s else list[j]);
      ghost var j :| 0 <= j < |list| && list[j].index == s.index;
      assert r[j] == s;
      r
    else
      var r := list + [s];
      assert r[|list|] == s;
      r
  }

  /** Upserting an admissible descriptor keeps the table well formed. */
  lemma UpsertWellFormed(list: seq<Saturation>, s: Saturation, dimu: int)
    requires SaturationsWellFormed(list, dimu) && Admissible(s, dimu)
    ensures SaturationsWellFormed(Upsert(list, s), dimu)
  {
    var r := Upsert(list, s);
    forall i | 0 <= i < |r| ensures Admissible(r[i], dimu) {
      if i < |list| && list[i].index != s.index {
        assert r[i] == list[i];
      } else if i < |list| {
        assert HasIndex(list, s.index);
      }
    }
  }
}
