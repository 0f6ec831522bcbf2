/** Common-subexpression elimination over a vector of expressions: every compound
    subexpression that occurs more than once is named by a temporary, the temporaries are
    ordered by first occurrence, and each output is rewritten in terms of them. */
module Cse {
  import opened Symbolic

  /** The compound subexpressions of `e`, children before parents. */
  function Subterms(e: Expr): seq<Expr> {
    match e
    case Const(_) => []
    case Var(_) => []
    case Add(a, b) => Subterms(a) + Subterms(b) + [e]
    case Sub(a, b) => Subterms(a) + Subterms(b) + [e]
    case Mul(a, b) => Subterms(a) + Subterms(b) + [e]
    case Div(a, b) => Subterms(a) + Subterms(b) + [e]
    case Pow(a, _) => Subterms(a) + [e]
    case Sqrt(a) => Subterms(a) + [e]
  }

  /** The compound subexpressions of every output, in output order. */
  function AllSubterms(es: seq<Expr>): seq<Expr> {
    if es == [] then [] else AllSubterms(es[..|es| - 1]) + Subterms(es[|es| - 1])
  }

  ghost predicate Distinct(s: seq<Expr>) {
    forall i, j :: 0 <= i < j < |s| ==> s[i] != s[j]
  }

  /** Scanning `all` from position `i`, appends to `found` every element that occurs at
      least twice in `all` and is not yet in `found`. */
  function Shared(all: seq<Expr>, i: nat, found: seq<Expr>): (r: seq<Expr>)
    requires i <= |all|
    requires Distinct(found)
    requires forall k :: 0 <= k < |found| ==> multiset(all)[found[k]] >= 2
    ensures Distinct(r)
    ensures forall k :: 0 <= k < |r| ==> multiset(all)[r[k]] >= 2
    ensures found <= r
    decreases |all| - i
  {
    if i == |all| then found
    else if multiset(all)[all[i]] >= 2 && all[i] !in found then Shared(all, i + 1, found + [all[i]])
    else Shared(all, i + 1, found)
  }

  function IndexOf(s: seq<Expr>, x: Expr): (k: nat)
    requires x in s
    ensures k < |s| && s[k] == x
  {
    if s[0] == x then 0 else 1 + IndexOf(s[1..], x)
  }

  /** `e` with every shared subexpression, itself included, replaced by its temporary. */
  function Rewrite(e: Expr, shared: seq<Expr>): Expr
    decreases e, 1
  {
    if e in shared then Var(Temp(IndexOf(shared, e))) else RewriteChildren(e, shared)
  }

  /** `e` with the shared subexpressions strictly below its root replaced by their temporaries. */
  function RewriteChildren(e: Expr, shared: seq<Expr>): Expr
    decreases e, 0
  {
    match e
    case Const(_) => e
    case Var(_) => e
    case Add(a, b) => Add(Rewrite(a, shared), Rewrite(b, shared))
    case Sub(a, b) => Sub(Rewrite(a, shared), Rewrite(b, shared))
    case Mul(a, b) => Mul(Rewrite(a, shared), Rewrite(b, shared))
    case Div(a, b) => Div(Rewrite(a, shared), Rewrite(b, shared))
    case Pow(a, n) => Pow(Rewrite(a, shared), n)
    case Sqrt(a) => Sqrt(Rewrite(a, shared))
  }

  /** The temporaries with their defining expressions, and the rewritten outputs. */
  datatype Eliminated = Eliminated(replacements: seq<(Symbol, Expr)>, reduced: seq<Expr>)

  function Eliminate(es: seq<Expr>): (r: Eliminated)
    ensures |r.reduced| == |es|
    ensures forall k :: 0 <= k < |r.replacements| ==> r.replacements[k].0 == Temp(k)
  {
    var shared := Shared(AllSubterms(es), 0, []);
    Eliminated(
      seq(|shared|, k requires 0 <= k < |shared| => (Temp(k), RewriteChildren(shared[k], shared))),
      seq(|es|, i requires 0 <= i < |es| => Rewrite(es[i], shared)))
  }
}
