/** The evaluator (parsing.c:237-245, 347-415) as mutually recursive functions:
    token_eval, token_eval_sexpr (split into evaluating the children and reducing the
    evaluated cells), the dispatcher `builtin` and `builtin_eval`.

    No token is ever copied: builtins only move or drop the tokens they are given.
    So the number of tokens in a tree never grows under evaluation, which is the
    measure that makes the recursion through `eval` terminate. */
module Evaluator {
  import opened Floats
  import opened Tokens
  import opened Builtins
  import opened Text

  const NotSymbol := "S-expression does not begin with Symbol"
  const UnknownFunction := "Unknown function!"
  const EvalTooMany := "Function 'eval' passed too many arguments"
  const EvalTypes := "Function 'eval' passed incorrect types"

  /** An evaluation result is fully reduced: the only S-expression it can be is `()`. */
  predicate Normal(t: Token) {
    t.Sexpr? ==> t.cells == []
  }

  predicate AllNormal(ts: seq<Token>) {
    forall i :: 0 <= i < |ts| ==> Normal(ts[i])
  }

  /** Promotion of one direct child: a NUM becomes a FLOAT holding `(double)num`;
      every other token, containers included, is left alone. */
  function PromoteOne(fp: FloatOps, t: Token): Token {
    if t.Num? then Float(fp.ofLong(t.num)) else t
  }

  function Promote(fp: FloatOps, cs: seq<Token>): (r: seq<Token>)
    ensures |r| == |cs|
    ensures forall i :: 0 <= i < |cs| ==> r[i] == PromoteOne(fp, cs[i])
    ensures SizeOf(r) == SizeOf(cs)
  {
    if cs == [] then []
    else
      var r := [PromoteOne(fp, cs[0])] + Promote(fp, cs[1..]);
      assert r[1..] == Promote(fp, cs[1..]);
      r
  }

  predicate HasFloat(cs: seq<Token>) {
    exists i :: 0 <= i < |cs| && cs[i].Float?
  }

  /** The cells after the promotion step of token_eval_sexpr. */
  function Promoted(fp: FloatOps, es: seq<Token>): seq<Token> {
    if HasFloat(es) then Promote(fp, es) else es
  }

  /** Index of the first ERR among the cells, or `|cs|` when there is none. */
  function ErrIndex(cs: seq<Token>): (k: nat)
    ensures k <= |cs|
    ensures k < |cs| ==> cs[k].Err?
    ensures forall j :: 0 <= j < k ==> !cs[j].Err?
  {
    if cs == [] then 0
    else if cs[0].Err? then 0
    else
      var k := 1 + ErrIndex(cs[1..]);
      assert forall j :: 1 <= j < |cs| ==> cs[j] == cs[1..][j - 1];
      k
  }

  /** token_eval: only an S-expression is reduced; anything else is its own value. */
  function Eval(fp: FloatOps, t: Token): (r: Token)
    decreases Size(t), 3
    ensures Size(r) <= Size(t)
    ensures Normal(r)
    ensures !t.Sexpr? ==> r == t
  {
    if t.Sexpr? then EvalSexpr(fp, t.cells) else t
  }

  /** token_eval_sexpr on an S-expression with cells `cs`. */
  function EvalSexpr(fp: FloatOps, cs: seq<Token>): (r: Token)
    decreases 1 + SizeOf(cs), 2
    ensures Size(r) <= 1 + SizeOf(cs)
    ensures Normal(r)
  {
    Reduce(fp, EvalAll(fp, cs))
  }

  /** The first loop of token_eval_sexpr: every cell replaced by its value. */
  function EvalAll(fp: FloatOps, cs: seq<Token>): (r: seq<Token>)
    decreases SizeOf(cs), 4
    ensures |r| == |cs|
    ensures forall i :: 0 <= i < |cs| ==> r[i] == Eval(fp, cs[i])
    ensures SizeOf(r) <= SizeOf(cs)
    ensures AllNormal(r)
  {
    if cs == [] then []
    else
      var r := [Eval(fp, cs[0])] + EvalAll(fp, cs[1..]);
      assert r[1..] == EvalAll(fp, cs[1..]);
      r
  }

  /** The rest of token_eval_sexpr, on the evaluated cells: the first error wins,
      then promotion, then `Apply`. */
  function Reduce(fp: FloatOps, es: seq<Token>): (r: Token)
    requires AllNormal(es)
    decreases 1 + SizeOf(es), 1
    ensures Size(r) <= 1 + SizeOf(es)
    ensures Normal(r)
  {
    var k := ErrIndex(es);
    if k < |es| then
      SizeOfElement(es, k);
      es[k]
    else
      var ps := Promoted(fp, es);
      assert SizeOf(ps) == SizeOf(es);
      assert AllNormal(ps) && NoMix(ps);
      Apply(fp, ps)
  }

  /** The end of token_eval_sexpr, on promoted cells: `()` is its own value, a single
      cell is the value, and otherwise the first cell must be the symbol naming the
      builtin that is applied to the others. */
  function Apply(fp: FloatOps, ps: seq<Token>): (r: Token)
    requires AllNormal(ps) && NoMix(ps)
    decreases 1 + SizeOf(ps), 0
    ensures Size(r) <= 1 + SizeOf(ps)
    ensures Normal(r)
  {
    if |ps| == 0 then Sexpr([])
    else if |ps| == 1 then ps[0]
    else if !ps[0].Sym? then Err(NotSymbol)
    else
      assert NoMix(ps[1..]);
      Builtin(fp, ps[1..], ps[0].sym)
  }

  // builtin: exact names first; `builtin_op` for any name that occurs inside the
  // string "+-*/"; anything else is unknown.
  function Builtin(fp: FloatOps, args: seq<Token>, func: string): (r: Token)
    requires |args| >= 1 && NoMix(args)
    decreases SizeOf(args), 6
    ensures Size(r) <= 1 + SizeOf(args)
    ensures Normal(r)
  {
    if func == "list" then Qexpr(args)
    else if func == "head" then Head(args)
    else if func == "tail" then Tail(args)
    else if func == "join" then Join(args)
    else if func == "eval" then BuiltinEval(fp, args)
    else if Contains("+-*/", func) then Op(fp, args, func)
    else Err(UnknownFunction)
  }

  /** builtin_eval: one Q-expression argument, which is turned into an S-expression
      and evaluated. */
  function BuiltinEval(fp: FloatOps, args: seq<Token>): (r: Token)
    decreases SizeOf(args), 5
    ensures Size(r) <= 1 + SizeOf(args)
    ensures Normal(r)
  {
    if |args| != 1 then Err(EvalTooMany)
    else if !args[0].Qexpr? then Err(EvalTypes)
    else
      SizeOfSingle(args[0]);
      EvalSexpr(fp, args[0].cells)
  }
}
