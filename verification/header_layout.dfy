/** Where each kind of line sits in the header: the dimension constants, the parameter
    constants, the literals and the assignments of each output vector
    (autogenu/autogenu.py, generate_source_files). */
module HeaderLayout {
  import opened Symbolic
  import opened Registry
  import opened Formulation
  import opened Emission

  lemma BlockSelect(target: Output, fs: seq<Expr>, useCse: bool, k: Kind)
    requires !k.Temps?
    ensures Select(Block(target, fs, useCse), k) ==
      (if k == AssignsTo(target) then AssignLines(Outputs(fs, useCse), target) else [])
  {
    var body := FunctionLines(fs, target, useCse);
    SelectBetween(Open(target), body, Close, k);
    if k == AssignsTo(target) {
      FunctionLinesAssignments(fs, target, useCse);
    } else if k.AssignsTo? {
      FunctionLinesOtherTargets(fs, target, k.target, useCse);
    } else {
      FunctionLinesKinds(fs, target, useCse);
      SelectNone(body, k);
    }
  }

  lemma SelectLiterals(lines: seq<Line>, k: Kind)
    requires forall i :: 0 <= i < |lines| ==> lines[i].ArrayLiteral?
    ensures Select(lines, k) == if k == Arrays then lines else []
  {
    if k == Arrays { SelectAll(lines, k); } else { SelectNone(lines, k); }
  }

  lemma SelectDimensions(dimx: nat, dimu: nat, c: Conditions, k: Kind)
    ensures Select(Dimensions(dimx, dimu, c), k) == if k == Ints then Dimensions(dimx, dimu, c) else []
  {
    if k == Ints { SelectAll(Dimensions(dimx, dimu, c), k); } else { SelectNone(Dimensions(dimx, dimu, c), k); }
  }

  lemma SelectScalars(scalars: seq<ScalarVar>, k: Kind)
    ensures Select(ScalarLines(scalars), k) == if k == Reals then ScalarLines(scalars) else []
  {
    if k == Reals { SelectAll(ScalarLines(scalars), k); } else { SelectNone(ScalarLines(scalars), k); }
  }

  /** The opening of the header holds the dimension constants, then the parameter constants. */
  lemma PreludeSelect(model: string, dimx: nat, dimu: nat, c: Conditions, scalars: seq<ScalarVar>, k: Kind)
    ensures Select(Prelude(model, dimx, dimu, c, scalars), k) ==
      (if k == Ints then Dimensions(dimx, dimu, c) else if k == Reals then ScalarLines(scalars) else [])
  {
    var p, d, s := [Prologue(model)], Dimensions(dimx, dimu, c), ScalarLines(scalars);
    SelectAppend(p, d, k);
    SelectAppend(p + d, s, k);
    SelectNone(p, k);
    SelectDimensions(dimx, dimu, c, k);
    SelectScalars(scalars, k);
    var e: seq<Line> := [];
    if k == Ints {
      assert e + d + e == d;
    } else if k == Reals {
      assert e + e + s == s;
    } else {
      assert e + e + e == e;
    }
  }

  lemma SelectThree(a: seq<Line>, b: seq<Line>, c: seq<Line>, k: Kind, ea: seq<Line>, eb: seq<Line>, ec: seq<Line>)
    requires Select(a, k) == ea && Select(b, k) == eb && Select(c, k) == ec
    ensures Select(a + b + c, k) == ea + eb + ec
  {
    SelectAppend(a, b, k);
    SelectAppend(a + b, c, k);
  }

  lemma SelectBlocks(b1: seq<Line>, b2: seq<Line>, b3: seq<Line>, b4: seq<Line>, k: Kind,
                     e1: seq<Line>, e2: seq<Line>, e3: seq<Line>, e4: seq<Line>)
    requires Select(b1, k) == e1 && Select(b2, k) == e2 && Select(b3, k) == e3 && Select(b4, k) == e4
    ensures Select(b1 + b2 + b3 + b4 + [Epilogue], k) == e1 + e2 + e3 + e4
  {
    SelectNone([Epilogue], k);
    SelectFive(b1, b2, b3, b4, [Epilogue], k, e1, e2, e3, e4, []);
  }

  /** Each output vector is assigned in its own member function only, and nothing but
      assignments and temporaries is written there. */
  lemma DefinitionsSelect(c: Conditions, useCse: bool, k: Kind)
    requires !k.Temps?
    ensures Select(Definitions(c, useCse), k) ==
      (if k.AssignsTo? then AssignLines(Outputs(OutputExprs(c, k.target), useCse), k.target) else [])
  {
    var e1 := if k == AssignsTo(Dx) then AssignLines(Outputs(c.f, useCse), Dx) else [];
    var e2 := if k == AssignsTo(Phix) then AssignLines(Outputs(c.phix, useCse), Phix) else [];
    var e3 := if k == AssignsTo(Hx) then AssignLines(Outputs(c.hx, useCse), Hx) else [];
    var e4 := if k == AssignsTo(Hu) then AssignLines(Outputs(c.hu, useCse), Hu) else [];
    BlockSelect(Dx, c.f, useCse, k);
    BlockSelect(Phix, c.phix, useCse, k);
    BlockSelect(Hx, c.hx, useCse, k);
    BlockSelect(Hu, c.hu, useCse, k);
    SelectBlocks(Block(Dx, c.f, useCse), Block(Phix, c.phix, useCse), Block(Hx, c.hx, useCse),
                 Block(Hu, c.hu, useCse), k, e1, e2, e3, e4);
    if k.AssignsTo? {
      match k.target {
        case Dx => assert e1 + e2 + e3 + e4 == e1 + [] + [] + [] == e1;
        case Phix => assert e1 + e2 + e3 + e4 == [] + e2 + [] + [] == e2;
        case Hx => assert e1 + e2 + e3 + e4 == [] + [] + e3 + [] == e3;
        case Hu => assert e1 + e2 + e3 + e4 == [] + [] + [] + e4 == e4;
      }
    } else {
      assert e1 + e2 + e3 + e4 == [] + [] + [] + [] == [];
    }
  }

  /** The header splits into the declarations and the member functions. */
  lemma HeaderSelect(model: string, dimx: nat, dimu: nat, c: Conditions, scalars: seq<ScalarVar>,
                     arrays: seq<ArrayVar>, fbEps: seq<real>, useCse: bool, k: Kind)
    requires Dimensioned(arrays)
    requires Header(model, dimx, dimu, c, scalars, arrays, fbEps, useCse).Ok?
    requires !k.Temps?
    ensures Select(Header(model, dimx, dimu, c, scalars, arrays, fbEps, useCse).value, k) ==
      (if k == Ints then Dimensions(dimx, dimu, c)
       else if k == Reals then ScalarLines(scalars)
       else if k == Arrays then ArrayLines(arrays).value + FbEpsLines(fbEps, c.dimh).value
       else []) +
      (if k.AssignsTo? then AssignLines(Outputs(OutputExprs(c, k.target), useCse), k.target) else [])
  {
    var literals := ArrayLines(arrays).value + FbEpsLines(fbEps, c.dimh).value;
    var prelude := Prelude(model, dimx, dimu, c, scalars);
    var defs := Definitions(c, useCse);
    assert Header(model, dimx, dimu, c, scalars, arrays, fbEps, useCse).value == prelude + literals + defs;
    var ep: seq<Line> := if k == Ints then Dimensions(dimx, dimu, c) else if k == Reals then ScalarLines(scalars) else [];
    var el: seq<Line> := if k == Arrays then literals else [];
    var ed := if k.AssignsTo? then AssignLines(Outputs(OutputExprs(c, k.target), useCse), k.target) else [];
    PreludeSelect(model, dimx, dimu, c, scalars, k);
    SelectLiterals(literals, k);
    DefinitionsSelect(c, useCse, k);
    SelectThree(prelude, literals, defs, k, ep, el, ed);
    if k == Arrays {
      assert ep + el == el;
    } else {
      assert ep + el == ep;
    }
  }

  /** A written header declares nx = dimx, nu = dimu, nc = dimc + dimh and nuc = nu + nc,
      in this order, as its only integer constants. */
  lemma HeaderDimensions(model: string, dimx: nat, dimu: nat, c: Conditions, scalars: seq<ScalarVar>,
                         arrays: seq<ArrayVar>, fbEps: seq<real>, useCse: bool)
    requires Dimensioned(arrays)
    requires Header(model, dimx, dimu, c, scalars, arrays, fbEps, useCse).Ok?
    ensures Select(Header(model, dimx, dimu, c, scalars, arrays, fbEps, useCse).value, Ints) ==
      [IntConst("nx", dimx), IntConst("nu", dimu), IntConst("nc", c.dimc + c.dimh),
       IntConst("nuc", dimu + c.dimc + c.dimh)]
  {
    HeaderSelect(model, dimx, dimu, c, scalars, arrays, fbEps, useCse, Ints);
    var d := Dimensions(dimx, dimu, c);
    assert d + [] == d;
  }

  /** A written header declares one double constant per scalar parameter, with its name
      and value, in registration order, and no other. */
  lemma HeaderScalars(model: string, dimx: nat, dimu: nat, c: Conditions, scalars: seq<ScalarVar>,
                      arrays: seq<ArrayVar>, fbEps: seq<real>, useCse: bool)
    requires Dimensioned(arrays)
    requires Header(model, dimx, dimu, c, scalars, arrays, fbEps, useCse).Ok?
    ensures var lines := Select(Header(model, dimx, dimu, c, scalars, arrays, fbEps, useCse).value, Reals);
      |lines| == |scalars| &&
      forall i :: 0 <= i < |scalars| ==> lines[i] == RealConst(scalars[i].name, scalars[i].value)
  {
    HeaderSelect(model, dimx, dimu, c, scalars, arrays, fbEps, useCse, Reals);
    var s := ScalarLines(scalars);
    assert s + [] == s;
  }

  /** A written header holds one literal per array parameter, in registration order, with
      exactly as many values as the array has elements, followed by the fb_eps literal of
      dimh values when there are inequality constraints. */
  lemma HeaderLiterals(model: string, dimx: nat, dimu: nat, c: Conditions, scalars: seq<ScalarVar>,
                       arrays: seq<ArrayVar>, fbEps: seq<real>, useCse: bool)
    requires Dimensioned(arrays)
    requires Header(model, dimx, dimu, c, scalars, arrays, fbEps, useCse).Ok?
    ensures var lines := Select(Header(model, dimx, dimu, c, scalars, arrays, fbEps, useCse).value, Arrays);
      |lines| == |arrays| + (if c.dimh == 0 then 0 else 1) &&
      (forall k :: 0 <= k < |arrays| ==>
         lines[k].name == arrays[k].name && |lines[k].values| == |arrays[k].syms| &&
         lines[k].values == arrays[k].values[..|arrays[k].syms|]) &&
      (c.dimh > 0 ==> lines[|arrays|] == ArrayLiteral("fb_eps", fbEps[..c.dimh]))
  {
    HeaderSelect(model, dimx, dimu, c, scalars, arrays, fbEps, useCse, Arrays);
    var literals := ArrayLines(arrays).value;
    var fb := FbEpsLines(fbEps, c.dimh).value;
    assert literals + fb + [] == literals + fb;
  }

  /** A written header assigns every component of dx, phix, hx and hu exactly once, in
      index order, inside the member function of that vector; without elimination the
      right-hand sides are the expressions themselves. */
  lemma HeaderAssignments(model: string, dimx: nat, dimu: nat, c: Conditions, scalars: seq<ScalarVar>,
                          arrays: seq<ArrayVar>, fbEps: seq<real>, useCse: bool, o: Output)
    requires Dimensioned(arrays)
    requires Header(model, dimx, dimu, c, scalars, arrays, fbEps, useCse).Ok?
    ensures var lines := Select(Header(model, dimx, dimu, c, scalars, arrays, fbEps, useCse).value, AssignsTo(o));
      |lines| == |OutputExprs(c, o)| &&
      (forall i :: 0 <= i < |lines| ==> lines[i].index == i && lines[i].target == o) &&
      (!useCse ==> forall i :: 0 <= i < |lines| ==> lines[i].rhs == OutputExprs(c, o)[i])
  {
    HeaderSelect(model, dimx, dimu, c, scalars, arrays, fbEps, useCse, AssignsTo(o));
    var a := AssignLines(Outputs(OutputExprs(c, o), useCse), o);
    assert [] + a == a;
  }
}
