/** Sample sessions of the interpreter, from the token the corrected reader builds for
    an input line to the text token_println writes for its value. The reader wraps every input
    line in one more S-expression (the root `>` of the parse tree), so the line
    `(+ 1 2)` is the token `Sexpr([Sexpr([Sym("+"), Num(1), Num(2)])])`. */
module Scenarios {
  import opened Floats
  import opened Tokens
  import opened Text
  import opened Builtins
  import opened Evaluator
  import opened EvalLaws
  import opened Printer

  /** What the interpreter prints for an input line whose expressions read as `es`. */
  function Session(fp: FloatOps, es: seq<Token>): string {
    Print(fp, Eval(fp, Sexpr(es)))
  }

  /** Cells that evaluate to themselves and hold no FLOAT go to `Apply` unchanged. */
  lemma ApplyIntegers(fp: FloatOps, xs: seq<Token>)
    requires AllInert(xs) && forall i :: 0 <= i < |xs| ==> !xs[i].Float?
    ensures AllNormal(xs) && NoMix(xs)
    ensures Eval(fp, Sexpr(xs)) == Apply(fp, xs)
  {
    EvalAllInert(fp, xs);
    Unfold(fp, xs);
    ReduceInert(fp, xs);
  }

  /** A symbol applied to arguments that evaluate to themselves, without FLOATs. */
  lemma CallIntegers(fp: FloatOps, f: string, args: seq<Token>)
    requires |args| >= 1 && AllInert(args) && forall i :: 0 <= i < |args| ==> !args[i].Float?
    ensures NoMix(args) && Eval(fp, Sexpr([Sym(f)] + args)) == Builtin(fp, args, f)
  {
    var xs := [Sym(f)] + args;
    assert AllInert(xs) && forall i :: 0 <= i < |xs| ==> !xs[i].Float?;
    ApplyIntegers(fp, xs);
    assert xs[1..] == args;
  }

  /** The expression `(+ 1 2)` has the value 3. */
  lemma OnePlusTwo(fp: FloatOps)
    ensures Eval(fp, Sexpr([Sym("+"), Num(1), Num(2)])) == Num(3)
  {
    var args := [Num(1), Num(2)];
    CallIntegers(fp, "+", args);
    assert [Sym("+")] + args == [Sym("+"), Num(1), Num(2)];
    GrammarSymbolDispatch(fp, args, "+");
    OpIntSum(fp, args);
    assert Sum(args) == 3 by {
      assert args[1..] == [Num(2)];
      assert [Num(2)][1..] == [];
    }
  }

  /** `(+ 1 2)` prints `3`. */
  lemma AddTwo(fp: FloatOps)
    ensures Eval(fp, Sexpr([Sexpr([Sym("+"), Num(1), Num(2)])])) == Num(3)
    ensures Session(fp, [Sexpr([Sym("+"), Num(1), Num(2)])]) == "3"
  {
    OnePlusTwo(fp);
    SingleCellCollapses(fp, Sexpr([Sym("+"), Num(1), Num(2)]));
    assert IntToDecimal(3) == "3";
  }

  /** `(/ 10 0)` prints `Error: Division by Zero!`, the prefix and the message. */
  lemma DivideByZero(fp: FloatOps)
    ensures Eval(fp, Sexpr([Sexpr([Sym("/"), Num(10), Num(0)])])) == Err(DivZero)
    ensures Session(fp, [Sexpr([Sym("/"), Num(10), Num(0)])]) == ErrorPrefix + DivZero
  {
    var args := [Num(10), Num(0)];
    var e := Sexpr([Sym("/")] + args);
    CallIntegers(fp, "/", args);
    GrammarSymbolDispatch(fp, args, "/");
    assert HasZeroDivisor(args) by {
      assert IsZeroNumber(args[1]);
    }
    assert Op(fp, args, "/") == Err(DivZero);
    assert [Sym("/")] + args == [Sym("/"), Num(10), Num(0)];
    SingleCellCollapses(fp, e);
  }

  /** `(foo 1 2)` prints `Error: Unknown function!`. */
  lemma UnknownSymbol(fp: FloatOps)
    ensures Eval(fp, Sexpr([Sexpr([Sym("foo"), Num(1), Num(2)])])) == Err(UnknownFunction)
    ensures Session(fp, [Sexpr([Sym("foo"), Num(1), Num(2)])]) == ErrorPrefix + UnknownFunction
  {
    var args := [Num(1), Num(2)];
    var e := Sexpr([Sym("foo")] + args);
    CallIntegers(fp, "foo", args);
    OperatorNames("foo");
    assert [Sym("foo")] + args == [Sym("foo"), Num(1), Num(2)];
    SingleCellCollapses(fp, e);
  }

  /** `()` prints `()`. */
  lemma EmptyLine(fp: FloatOps)
    ensures Eval(fp, Sexpr([Sexpr([])])) == Sexpr([])
    ensures Session(fp, [Sexpr([])]) == "()"
  {
    SingleCellCollapses(fp, Sexpr([]));
    EmptyIsItsOwnValue(fp);
  }

  /** The expression `(head {1 2 3})` has the value `{1}`. */
  lemma HeadValue(fp: FloatOps)
    ensures Eval(fp, Sexpr([Sym("head"), Qexpr([Num(1), Num(2), Num(3)])])) == Qexpr([Num(1)])
  {
    var q := Qexpr([Num(1), Num(2), Num(3)]);
    CallIntegers(fp, "head", [q]);
    assert [Sym("head")] + [q] == [Sym("head"), q];
    assert Builtin(fp, [q], "head") == Head([q]);
  }

  /** `(head {1 2 3})` prints `{1}`. */
  lemma HeadOfList(fp: FloatOps)
    ensures Eval(fp, Sexpr([Sexpr([Sym("head"), Qexpr([Num(1), Num(2), Num(3)])])])) == Qexpr([Num(1)])
    ensures Session(fp, [Sexpr([Sym("head"), Qexpr([Num(1), Num(2), Num(3)])])]) == "{1}"
  {
    HeadValue(fp);
    SingleCellCollapses(fp, Sexpr([Sym("head"), Qexpr([Num(1), Num(2), Num(3)])]));
    assert IntToDecimal(1) == "1";
  }

  /** The expression `(tail {1 2 3})` has the value `{2 3}`. */
  lemma TailValue(fp: FloatOps)
    ensures Eval(fp, Sexpr([Sym("tail"), Qexpr([Num(1), Num(2), Num(3)])])) == Qexpr([Num(2), Num(3)])
  {
    var q := Qexpr([Num(1), Num(2), Num(3)]);
    CallIntegers(fp, "tail", [q]);
    assert [Sym("tail")] + [q] == [Sym("tail"), q];
    assert q.cells[1..] == [Num(2), Num(3)];
  }

  lemma PrintTwoThree(fp: FloatOps)
    ensures Print(fp, Qexpr([Num(2), Num(3)])) == "{2 3}"
  {
    assert IntToDecimal(2) == "2" && IntToDecimal(3) == "3";
    assert [Num(2), Num(3)][1..] == [Num(3)];
  }

  /** `(tail {1 2 3})` prints `{2 3}`. */
  lemma TailOfList(fp: FloatOps)
    ensures Eval(fp, Sexpr([Sexpr([Sym("tail"), Qexpr([Num(1), Num(2), Num(3)])])])) == Qexpr([Num(2), Num(3)])
    ensures Session(fp, [Sexpr([Sym("tail"), Qexpr([Num(1), Num(2), Num(3)])])]) == "{2 3}"
  {
    TailValue(fp);
    SingleCellCollapses(fp, Sexpr([Sym("tail"), Qexpr([Num(1), Num(2), Num(3)])]));
    PrintTwoThree(fp);
  }

  /** The expression `(join {1 2} {3 4})` has the value `{1 2 3 4}`. */
  lemma JoinValue(fp: FloatOps)
    ensures Eval(fp, Sexpr([Sym("join"), Qexpr([Num(1), Num(2)]), Qexpr([Num(3), Num(4)])]))
      == Qexpr([Num(1), Num(2), Num(3), Num(4)])
  {
    var a, b := Qexpr([Num(1), Num(2)]), Qexpr([Num(3), Num(4)]);
    CallIntegers(fp, "join", [a, b]);
    assert [Sym("join")] + [a, b] == [Sym("join"), a, b];
    JoinTwo(a, b);
    assert Builtin(fp, [a, b], "join") == Join([a, b]);
    assert a.cells + b.cells == [Num(1), Num(2), Num(3), Num(4)];
  }

  /** `(join {1 2} {3 4})` gives `{1 2 3 4}`. */
  lemma JoinLists(fp: FloatOps)
    ensures Eval(fp, Sexpr([Sexpr([Sym("join"), Qexpr([Num(1), Num(2)]), Qexpr([Num(3), Num(4)])])]))
      == Qexpr([Num(1), Num(2), Num(3), Num(4)])
  {
    JoinValue(fp);
    SingleCellCollapses(fp, Sexpr([Sym("join"), Qexpr([Num(1), Num(2)]), Qexpr([Num(3), Num(4)])]));
  }

  /** `(eval (head {(+ 1 2) (+ 10 20)}))` prints `3`: `head` keeps the unevaluated
      `(+ 1 2)` inside a Q-expression and `eval` evaluates it. */
  lemma EvalOfHead(fp: FloatOps)
    ensures Eval(fp, Sexpr([Sexpr([Sym("eval"), Sexpr([Sym("head"),
      Qexpr([Sexpr([Sym("+"), Num(1), Num(2)]), Sexpr([Sym("+"), Num(10), Num(20)])])])])])) == Num(3)
  {
    var sum := Sexpr([Sym("+"), Num(1), Num(2)]);
    var q := Qexpr([sum, Sexpr([Sym("+"), Num(10), Num(20)])]);
    var h := Sexpr([Sym("head"), q]);
    CallIntegers(fp, "head", [q]);
    assert [Sym("head")] + [q] == h.cells;
    assert Eval(fp, h) == Qexpr([sum]);
    EvalUnquotes(fp, h, [sum]);
    SingleCellCollapses(fp, sum);
    OnePlusTwo(fp);
    SingleCellCollapses(fp, Sexpr([Sym("eval"), h]));
  }
}
