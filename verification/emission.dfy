/** The C++ header that generate_source_files writes, as a sequence of lines of an
    intermediate form: the text around the lines is fixed template text and is not
    modelled, and every expression is kept as a tree instead of its C rendering
    (autogenu/autogenu.py, generate_source_files and __write_function). */
module Emission {
  import opened Outcomes
  import opened Symbolic
  import opened Registry
  import opened Formulation
  import Cse

  /** The four output vectors of the header, each computed by its own member function:
      `dx` by eval_f, `phix` by eval_phix, `hx` by eval_hx and `hu` by eval_hu. */
  datatype Output = Dx | Phix | Hx | Hu

  datatype Line =
    | Prologue(model: string)                  // include guard, namespace and `class OCP_<model>`
    | IntConst(name: string, count: int)       // static constexpr int <name> = <count>;
    | RealConst(name: string, number: real)    // static constexpr double <name> = <number>;
    | ArrayLiteral(name: string, values: seq<real>)  // double <name>[<n>] = {<values>};
    | Open(output: Output)                     // signature of the member function computing `output`
    | TempDecl(temp: Symbol, rhs: Expr)        // double <temp> = <rhs>;
    | Assign(target: Output, index: nat, rhs: Expr)  // <target>[<index>] = <rhs>;
    | Close                                    // end of a member function
    | Epilogue                                 // end of class, namespace and include guard

  // ----- Selecting the lines of one kind -----

  datatype Kind = Ints | Reals | Arrays | Temps | AssignsTo(target: Output)

  predicate Is(l: Line, k: Kind) {
    match k
    case Ints => l.IntConst?
    case Reals => l.RealConst?
    case Arrays => l.ArrayLiteral?
    case Temps => l.TempDecl?
    case AssignsTo(t) => l.Assign? && l.target == t
  }

  /** The lines of kind `k`, in the order they are written. */
  function Select(lines: seq<Line>, k: Kind): (r: seq<Line>)
    ensures |r| <= |lines|
    ensures forall i :: 0 <= i < |r| ==> Is(r[i], k)
  {
    if lines == [] then []
    else Select(lines[..|lines| - 1], k) + (if Is(lines[|lines| - 1], k) then [lines[|lines| - 1]] else [])
  }

  lemma {:induction false} SelectAppend(a: seq<Line>, b: seq<Line>, k: Kind)
    ensures Select(a + b, k) == Select(a, k) + Select(b, k)
    decreases |b|
  {
    if b != [] {
      var b' := b[..|b| - 1];
      assert (a + b)[..|a + b| - 1] == a + b';
      SelectAppend(a, b', k);
    } else {
      assert a + b == a;
    }
  }

  lemma SelectFive(a: seq<Line>, b: seq<Line>, c: seq<Line>, d: seq<Line>, e: seq<Line>, k: Kind,
                    sa: seq<Line>, sb: seq<Line>, sc: seq<Line>, sd: seq<Line>, se: seq<Line>)
    requires Select(a, k) == sa && Select(b, k) == sb && Select(c, k) == sc && Select(d, k) == sd && Select(e, k) == se
    ensures Select(a + b + c + d + e, k) == sa + sb + sc + sd + se
  {
    SelectAppend(a, b, k);
    SelectAppend(a + b, c, k);
    SelectAppend(a + b + c, d, k);
    SelectAppend(a + b + c + d, e, k);
  }

  /** Lines of another kind around a body do not change the selection. */
  lemma SelectBetween(first: Line, body: seq<Line>, last: Line, k: Kind)
    requires !Is(first, k) && !Is(last, k)
    ensures Select([first] + body + [last], k) == Select(body, k)
  {
    SelectAppend([first], body, k);
    SelectAppend([first] + body, [last], k);
    SelectNone([first], k);
    SelectNone([last], k);
  }

  lemma {:induction false} SelectNone(lines: seq<Line>, k: Kind)
    requires forall i :: 0 <= i < |lines| ==> !Is(lines[i], k)
    ensures Select(lines, k) == []
  {
    if lines != [] {
      SelectNone(lines[..|lines| - 1], k);
    }
  }

  lemma {:induction false} SelectAll(lines: seq<Line>, k: Kind)
    requires forall i :: 0 <= i < |lines| ==> Is(lines[i], k)
    ensures Select(lines, k) == lines
  {
    if lines != [] {
      SelectAll(lines[..|lines| - 1], k);
      assert lines[..|lines| - 1] + [lines[|lines| - 1]] == lines;
    }
  }

  // ----- One output vector -----

  /** The assignment lines `target[i] = es[i];` for every i, in index order. */
  function AssignLines(es: seq<Expr>, target: Output): (ls: seq<Line>)
    ensures |ls| == |es|
    ensures forall i :: 0 <= i < |es| ==> ls[i] == Assign(target, i, es[i])
  {
    seq(|es|, i requires 0 <= i < |es| => Assign(target, i, es[i]))
  }

  function TempLines(replacements: seq<(Symbol, Expr)>): (ls: seq<Line>)
    ensures |ls| == |replacements|
    ensures forall k :: 0 <= k < |ls| ==> ls[k] == TempDecl(replacements[k].0, replacements[k].1)
  {
    seq(|replacements|, k requires 0 <= k < |replacements| => TempDecl(replacements[k].0, replacements[k].1))
  }

  /** The right-hand sides of the output assignments: the expressions themselves, or
      their reduced forms after common-subexpression elimination. */
  function Outputs(fs: seq<Expr>, useCse: bool): (os: seq<Expr>)
    ensures |os| == |fs|
  {
    if useCse then Cse.Eliminate(fs).reduced else fs
  }

  /** What __write_function writes for `fs`: with elimination, every temporary
      declaration and then every output assignment; without, the assignments only. */
  function FunctionLines(fs: seq<Expr>, target: Output, useCse: bool): (ls: seq<Line>)
    ensures |ls| == (if useCse then |Cse.Eliminate(fs).replacements| else 0) + |fs|
    ensures forall i :: 0 <= i < |ls| - |fs| ==> ls[i].TempDecl?
    ensures forall i :: 0 <= i < |fs| ==> ls[|ls| - |fs| + i] == Assign(target, i, Outputs(fs, useCse)[i])
  {
    if useCse then TempLines(Cse.Eliminate(fs).replacements) + AssignLines(Outputs(fs, true), target)
    else AssignLines(fs, target)
  }

  /** Either way exactly one assignment per component is written, in index order. */
  lemma FunctionLinesAssignments(fs: seq<Expr>, target: Output, useCse: bool)
    ensures Select(FunctionLines(fs, target, useCse), AssignsTo(target)) == AssignLines(Outputs(fs, useCse), target)
    ensures |Select(FunctionLines(fs, target, useCse), AssignsTo(target))| == |fs|
  {
    var assigns := AssignLines(Outputs(fs, useCse), target);
    SelectAll(assigns, AssignsTo(target));
    if useCse {
      var temps := TempLines(Cse.Eliminate(fs).replacements);
      SelectNone(temps, AssignsTo(target));
      SelectAppend(temps, assigns, AssignsTo(target));
    }
  }

  /** Every line is an assignment to `target` or, with elimination only, the declaration
      of a temporary; the temporaries are numbered from 0 in order of declaration. */
  lemma FunctionLinesKinds(fs: seq<Expr>, target: Output, useCse: bool)
    ensures forall i :: 0 <= i < |FunctionLines(fs, target, useCse)| ==>
      var l := FunctionLines(fs, target, useCse)[i];
      (l.Assign? && l.target == target) || (useCse && l.TempDecl? && l.temp == Temp(i))
  {
  }

  /** All temporaries are declared before the first assignment. */
  lemma FunctionLinesOrder(fs: seq<Expr>, target: Output, useCse: bool)
    ensures forall i, j :: 0 <= i < j < |FunctionLines(fs, target, useCse)| ==>
      FunctionLines(fs, target, useCse)[i].Assign? ==> FunctionLines(fs, target, useCse)[j].Assign?
  {
  }

  lemma FunctionLinesOtherTargets(fs: seq<Expr>, target: Output, t: Output, useCse: bool)
    requires t != target
    ensures Select(FunctionLines(fs, target, useCse), AssignsTo(t)) == []
  {
    FunctionLinesKinds(fs, target, useCse);
    SelectNone(FunctionLines(fs, target, useCse), AssignsTo(t));
  }

  /** __write_function: the temporaries, then the outputs, each written by a loop. */
  method WriteFunction(fs: seq<Expr>, target: Output, useCse: bool) returns (lines: seq<Line>)
    ensures lines == FunctionLines(fs, target, useCse)
  {
    if useCse {
      var e := Cse.Eliminate(fs);
      lines := [];
      var i := 0;
      while i < |e.replacements|
        invariant 0 <= i <= |e.replacements|
        invariant lines == TempLines(e.replacements[..i])
      {
        lines := lines + [TempDecl(e.replacements[i].0, e.replacements[i].1)];
        i := i + 1;
      }
      assert e.replacements[..i] == e.replacements;
      var temps := lines;
      i := 0;
      while i < |e.reduced|
        invariant 0 <= i <= |e.reduced|
        invariant lines == temps + AssignLines(e.reduced[..i], target)
      {
        lines := lines + [Assign(target, i, e.reduced[i])];
        i := i + 1;
      }
      assert e.reduced[..i] == e.reduced;
    } else {
      lines := AssignLines(fs, target);
    }
  }

  /** The member function computing `target`: its signature, the lines for the vector
      and the closing brace. */
  function Block(target: Output, fs: seq<Expr>, useCse: bool): seq<Line> {
    [Open(target)] + FunctionLines(fs, target, useCse) + [Close]
  }

  // ----- Literals -----

  /** The brace initialiser of an array of `dim` elements: the first `dim` values, or an
      IndexError when there are fewer. */
  function Literal(name: string, dim: nat, values: seq<real>): (r: Result<Line>)
    requires dim > 0
    ensures r.Ok? <==> |values| >= dim
    ensures r.Err? ==> r.error == IndexOutOfBounds
    ensures r.Ok? ==>
      r.value.ArrayLiteral? && r.value.name == name && |r.value.values| == dim &&
      forall i :: 0 <= i < dim ==> r.value.values[i] == values[i]
  {
    if |values| < dim then Err(IndexOutOfBounds) else Ok(ArrayLiteral(name, values[..dim]))
  }

  /** The literal loop of generate_source_files: elements 0 .. dim-2 each followed by a
      comma, then element dim-1. */
  method EmitArrayLiteral(name: string, dim: nat, values: seq<real>) returns (r: Result<Line>)
    requires dim > 0
    ensures r == Literal(name, dim, values)
  {
    var written: seq<real> := [];
    var i := 0;
    while i < dim - 1
      invariant 0 <= i <= dim - 1 && i <= |values|
      invariant written == values[..i]
    {
      if i >= |values| {
        return Err(IndexOutOfBounds);
      }
      written := written + [values[i]];
      i := i + 1;
    }
    if dim - 1 >= |values| {
      return Err(IndexOutOfBounds);
    }
    written := written + [values[dim - 1]];
    assert written == values[..dim];
    return Ok(ArrayLiteral(name, written));
  }

  /** Every array has at least one element: define_array_var refuses a dimension of 0. */
  ghost predicate Dimensioned(arrays: seq<ArrayVar>) {
    forall k :: 0 <= k < |arrays| ==> |arrays[k].syms| > 0
  }

  /** The literals of all array parameters, in registration order; the first one whose
      values are missing raises. */
  function ArrayLines(arrays: seq<ArrayVar>): (r: Result<seq<Line>>)
    requires Dimensioned(arrays)
    ensures r.Ok? ==> |r.value| == |arrays| && forall k :: 0 <= k < |arrays| ==>
      |arrays[k].values| >= |arrays[k].syms| &&
      r.value[k] == ArrayLiteral(arrays[k].name, arrays[k].values[..|arrays[k].syms|])
    ensures r.Err? ==> r.error == IndexOutOfBounds
  {
    if arrays == [] then Ok([])
    else
      var init :- ArrayLines(arrays[..|arrays| - 1]);
      var a := arrays[|arrays| - 1];
      var last :- Literal(a.name, |a.syms|, a.values);
      Ok(init + [last])
  }

  /** The literals can be written exactly when every array has been given its values. */
  lemma {:induction false} ArrayLinesSucceed(arrays: seq<ArrayVar>)
    requires ArraysWellFormed(arrays)
    ensures ArrayLines(arrays).Ok? <==> forall k :: 0 <= k < |arrays| ==> arrays[k].values != []
  {
    if arrays != [] {
      var init := arrays[..|arrays| - 1];
      ArrayLinesSucceed(init);
      assert forall k :: 0 <= k < |init| ==> init[k] == arrays[k];
    }
  }

  /** The `fb_eps` literal, written only when there are inequality constraints. */
  function FbEpsLines(fbEps: seq<real>, dimh: nat): Result<seq<Line>> {
    if dimh == 0 then Ok([])
    else
      var l :- Literal("fb_eps", dimh, fbEps);
      Ok([l])
  }

  // ----- The header -----

  /** The scalar parameters as constants, in registration order. */
  function ScalarLines(scalars: seq<ScalarVar>): (ls: seq<Line>)
    ensures |ls| == |scalars|
    ensures forall i :: 0 <= i < |scalars| ==> ls[i] == RealConst(scalars[i].name, scalars[i].value)
  {
    seq(|scalars|, i requires 0 <= i < |scalars| => RealConst(scalars[i].name, scalars[i].value))
  }

  /** The dimension constants; `nuc` is written as the expression `nu + nc`. */
  function Dimensions(dimx: nat, dimu: nat, c: Conditions): seq<Line> {
    [IntConst("nx", dimx), IntConst("nu", dimu), IntConst("nc", c.dimc + c.dimh),
     IntConst("nuc", dimu + c.dimc + c.dimh)]
  }

  /** The opening of the header: the includes and the dimension and parameter constants. */
  function Prelude(model: string, dimx: nat, dimu: nat, c: Conditions, scalars: seq<ScalarVar>): seq<Line> {
    [Prologue(model)] + Dimensions(dimx, dimu, c) + ScalarLines(scalars)
  }

  /** The expressions computed into each output vector. */
  function OutputExprs(c: Conditions, o: Output): seq<Expr> {
    match o
    case Dx => c.f
    case Phix => c.phix
    case Hx => c.hx
    case Hu => c.hu
  }

  function Definitions(c: Conditions, useCse: bool): seq<Line> {
    Block(Dx, c.f, useCse) + Block(Phix, c.phix, useCse) + Block(Hx, c.hx, useCse) +
    Block(Hu, c.hu, useCse) + [Epilogue]
  }

  /** The whole header, given conditions that are already simplified if simplification
      was asked for. */
  function Header(model: string, dimx: nat, dimu: nat, c: Conditions, scalars: seq<ScalarVar>,
                  arrays: seq<ArrayVar>, fbEps: seq<real>, useCse: bool): (r: Result<seq<Line>>)
    requires Dimensioned(arrays)
    ensures r.Ok? <==> ArrayLines(arrays).Ok? && (c.dimh == 0 || |fbEps| >= c.dimh)
    ensures r.Err? ==> r.error == IndexOutOfBounds
    ensures r.Ok? ==> |r.value| >= 2 && r.value[0] == Prologue(model) && r.value[|r.value| - 1] == Epilogue
  {
    var literals :- ArrayLines(arrays);
    var fb :- FbEpsLines(fbEps, c.dimh);
    Ok(Prelude(model, dimx, dimu, c, scalars) + (literals + fb) + Definitions(c, useCse))
  }

  /** The header is written exactly when every array parameter has its values (the
      epsilons having been checked beforehand). */
  lemma HeaderSucceeds(model: string, dimx: nat, dimu: nat, c: Conditions, scalars: seq<ScalarVar>,
                       arrays: seq<ArrayVar>, fbEps: seq<real>, useCse: bool)
    requires ArraysWellFormed(arrays) && (c.dimh == 0 || |fbEps| == c.dimh)
    ensures Header(model, dimx, dimu, c, scalars, arrays, fbEps, useCse).Ok? <==>
      forall k :: 0 <= k < |arrays| ==> arrays[k].values != []
  {
    ArrayLinesSucceed(arrays);
  }

  /** Once the literals of a prefix of the arrays fail, so do those of all of them, with
      the same error. */
  lemma {:induction false} ArrayLinesFailsEarly(arrays: seq<ArrayVar>, k: nat)
    requires Dimensioned(arrays) && k <= |arrays| && ArrayLines(arrays[..k]).Err?
    ensures ArrayLines(arrays) == ArrayLines(arrays[..k])
  {
    if k < |arrays| {
      var init := arrays[..|arrays| - 1];
      assert init[..k] == arrays[..k];
      ArrayLinesFailsEarly(init, k);
    } else {
      assert arrays[..k] == arrays;
    }
  }

  /** generate_source_files from the constants on: the literal loops, then the four member
      functions, each written by __write_function. */
  method WriteHeader(model: string, dimx: nat, dimu: nat, c: Conditions, scalars: seq<ScalarVar>,
                     arrays: seq<ArrayVar>, fbEps: seq<real>, useCse: bool) returns (r: Result<seq<Line>>)
    requires Dimensioned(arrays)
    ensures r == Header(model, dimx, dimu, c, scalars, arrays, fbEps, useCse)
    ensures ArraysWellFormed(arrays) && (c.dimh == 0 || |fbEps| == c.dimh) ==>
      (r.Ok? <==> forall k :: 0 <= k < |arrays| ==> arrays[k].values != [])
  {
    if ArraysWellFormed(arrays) && (c.dimh == 0 || |fbEps| == c.dimh) {
      HeaderSucceeds(model, dimx, dimu, c, scalars, arrays, fbEps, useCse);
    }
    var literals: seq<Line> := [];
    var k := 0;
    while k < |arrays|
      invariant 0 <= k <= |arrays|
      invariant ArrayLines(arrays[..k]) == Ok(literals)
    {
      var a := arrays[k];
      assert arrays[..k + 1][..k] == arrays[..k];
      var l := EmitArrayLiteral(a.name, |a.syms|, a.values);
      if l.Err? {
        ArrayLinesFailsEarly(arrays, k + 1);
        return Err(l.error);
      }
      literals := literals + [l.value];
      k := k + 1;
    }
    assert arrays[..k] == arrays;
    var fb: seq<Line> := [];
    if c.dimh > 0 {
      var l := EmitArrayLiteral("fb_eps", c.dimh, fbEps);
      if l.Err? {
        return Err(l.error);
      }
      fb := [l.value];
    }
    var dx := WriteFunction(c.f, Dx, useCse);
    var phix := WriteFunction(c.phix, Phix, useCse);
    var hx := WriteFunction(c.hx, Hx, useCse);
    var hu := WriteFunction(c.hu, Hu, useCse);
    var defs := [Open(Dx)] + dx + [Close] + ([Open(Phix)] + phix + [Close]) + ([Open(Hx)] + hx + [Close]) +
                ([Open(Hu)] + hu + [Close]) + [Epilogue];
    assert defs == Definitions(c, useCse);
    r := Ok(Prelude(model, dimx, dimu, c, scalars) + (literals + fb) + defs);
  }

  // ----- Simplification before writing -----

  /** The conditions with every output simplified, as generate_source_files does in place
      when asked to. */
  function Simplified(c: Conditions): Conditions {
    c.(f := SimplifyAll(c.f), hx := SimplifyAll(c.hx), hu := SimplifyAll(c.hu), phix := SimplifyAll(c.phix))
  }

  /** Simplifying changes no dimension and no value. */
  lemma SimplifiedPreservesValues(c: Conditions, env: Symbol -> real, sqrt: real -> real)
    ensures var s := Simplified(c);
      s.dimc == c.dimc && s.dimh == c.dimh &&
      Values(s.f, env, sqrt) == Values(c.f, env, sqrt) && Values(s.hx, env, sqrt) == Values(c.hx, env, sqrt) &&
      Values(s.hu, env, sqrt) == Values(c.hu, env, sqrt) && Values(s.phix, env, sqrt) == Values(c.phix, env, sqrt)
  {
    forall e | true ensures Eval(Simplify(e), env, sqrt) == Eval(e, env, sqrt) {
      SimplifyPreservesValue(e, env, sqrt);
    }
  }
}
