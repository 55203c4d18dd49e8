/** What the evaluator promises, stated over the reference functions of module Evaluator. */
module EvalLaws {
  import opened Floats
  import opened Tokens
  import opened Builtins
  import opened Text
  import opened Evaluator

  /** A value the evaluator leaves as it is and that is not an error. */
  predicate Inert(t: Token) {
    !t.Sexpr? && !t.Err?
  }

  predicate AllInert(ts: seq<Token>) {
    forall i :: 0 <= i < |ts| ==> Inert(ts[i])
  }

  /** Evaluation reaches a normal form: evaluating a result again changes nothing. */
  lemma EvalIdempotent(fp: FloatOps, t: Token)
    ensures Eval(fp, Eval(fp, t)) == Eval(fp, t)
  {
    var r := Eval(fp, t);
    if r.Sexpr? {
      assert r.cells == [];
      assert EvalAll(fp, []) == [];
      assert ErrIndex([]) == 0;
    }
  }

  lemma Unfold(fp: FloatOps, cs: seq<Token>)
    ensures Eval(fp, Sexpr(cs)) == Reduce(fp, EvalAll(fp, cs))
  {
    assert Eval(fp, Sexpr(cs)) == EvalSexpr(fp, cs);
  }

  /** The cells are evaluated left to right and the error at the lowest index is the
      whole result, whatever the later cells evaluate to. */
  lemma FirstErrorWins(fp: FloatOps, cs: seq<Token>, k: nat)
    requires k < |cs| && Eval(fp, cs[k]).Err?
    requires forall j :: 0 <= j < k ==> !Eval(fp, cs[j]).Err?
    ensures Eval(fp, Sexpr(cs)) == Eval(fp, cs[k])
  {
    Unfold(fp, cs);
    var es := EvalAll(fp, cs);
    var e := ErrIndex(es);
    assert e == k;
  }

  /** An S-expression with no cells is its own value. */
  lemma EmptyIsItsOwnValue(fp: FloatOps)
    ensures Eval(fp, Sexpr([])) == Sexpr([])
  {
    assert EvalAll(fp, []) == [];
    assert ErrIndex([]) == 0;
  }

  /** A one-cell S-expression has the value of that cell, e.g. `(+)` is the symbol `+`
      and `((+ 1 2))` is 3. */
  lemma SingleCellCollapses(fp: FloatOps, x: Token)
    ensures Eval(fp, Sexpr([x])) == Eval(fp, x)
  {
    Unfold(fp, [x]);
    var es := EvalAll(fp, [x]);
    assert es == [Eval(fp, x)];
    if !es[0].Err? {
      assert ErrIndex(es) == 1 by {
        assert es[1..] == [];
      }
    }
  }

  lemma NoErrorIndex(fp: FloatOps, cs: seq<Token>)
    requires forall j :: 0 <= j < |cs| ==> !Eval(fp, cs[j]).Err?
    ensures ErrIndex(EvalAll(fp, cs)) == |cs|
  {
    var es := EvalAll(fp, cs);
    assert forall j :: 0 <= j < |es| ==> !es[j].Err?;
  }

  /** Two or more cells, no error, and a first cell whose value is not a symbol. */
  lemma LeadingNonSymbol(fp: FloatOps, cs: seq<Token>)
    requires |cs| >= 2 && !Eval(fp, cs[0]).Sym?
    requires forall j :: 0 <= j < |cs| ==> !Eval(fp, cs[j]).Err?
    ensures Eval(fp, Sexpr(cs)) == Err(NotSymbol)
  {
    Unfold(fp, cs);
    NoErrorIndex(fp, cs);
  }

  /** Two or more cells, no error, and a first cell whose value is the symbol `f`:
      the builtin named `f` gets the other cells, evaluated and promoted. */
  lemma LeadingSymbolDispatches(fp: FloatOps, cs: seq<Token>, f: string)
    requires |cs| >= 2 && Eval(fp, cs[0]) == Sym(f)
    requires forall j :: 0 <= j < |cs| ==> !Eval(fp, cs[j]).Err?
    ensures var args := Promoted(fp, EvalAll(fp, cs))[1..];
      |args| >= 1 && NoMix(args) && Eval(fp, Sexpr(cs)) == Builtin(fp, args, f)
  {
    Unfold(fp, cs);
    var es := EvalAll(fp, cs);
    assert forall j :: 0 <= j < |es| ==> !es[j].Err?;
    ReduceLeadingSymbol(fp, es, f);
  }

  lemma ReduceLeadingSymbol(fp: FloatOps, es: seq<Token>, f: string)
    requires AllNormal(es) && |es| >= 2 && es[0] == Sym(f)
    requires forall j :: 0 <= j < |es| ==> !es[j].Err?
    ensures var args := Promoted(fp, es)[1..];
      |args| >= 1 && NoMix(args) && Reduce(fp, es) == Builtin(fp, args, f)
  {
    var ps := Promoted(fp, es);
    Promotion(fp, es);
    assert ErrIndex(es) == |es|;
    assert ps[0] == Sym(f);
    assert Reduce(fp, es) == Apply(fp, ps);
  }

  /** Promotion: once a direct child is a FLOAT, every NUM child becomes a FLOAT with
      value `(double)num` and nothing else changes (elements inside Q-expressions
      included); without a FLOAT nothing changes. Either way the numeric tags are no
      longer mixed. */
  lemma Promotion(fp: FloatOps, es: seq<Token>)
    ensures |Promoted(fp, es)| == |es|
    ensures NoMix(Promoted(fp, es))
    ensures HasFloat(es) ==> forall i :: 0 <= i < |es| ==> !Promoted(fp, es)[i].Num?
    ensures forall i :: 0 <= i < |es| ==>
      Promoted(fp, es)[i] == (if HasFloat(es) && es[i].Num? then Float(fp.ofLong(es[i].num)) else es[i])
  {
  }

  lemma PromotedIdempotent(fp: FloatOps, es: seq<Token>)
    ensures Promoted(fp, Promoted(fp, es)) == Promoted(fp, es)
  {
    var ps := Promoted(fp, es);
    if HasFloat(es) {
      var i :| 0 <= i < |es| && es[i].Float?;
      assert ps[i].Float?;
      assert Promote(fp, ps) == ps;
    }
  }

  /** The names `builtin` sends to builtin_op: exactly the substrings of "+-*" + "/". */
  lemma OperatorNames(func: string)
    ensures Contains("+-*/", func) <==>
      func in {"", "+", "-", "*", "/", "+-", "-*", "*/", "+-*", "-*/", "+-*/"}
  {
    OperatorWindows(func);
    var s := Operators;
    if |func| == 0 {
      assert func == "";
    } else if |func| == 1 {
      assert s[0..1] == "+" && s[1..2] == "-" && s[2..3] == "*" && s[3..4] == "/";
    } else if |func| == 2 {
      assert s[0..2] == "+-" && s[1..3] == "-*" && s[2..4] == "*/";
    } else if |func| == 3 {
      assert s[0..3] == "+-*" && s[1..4] == "-*/";
    } else if |func| == 4 {
      assert s[0..4] == "+-*/";
    }
  }

  const Operators := "+-*/"

  /** `func` is the piece of the operator string that starts at `i`. */
  predicate Window(func: string, i: nat) {
    i + |func| <= |Operators| && func == Operators[i..i + |func|]
  }

  /** strstr on the operator string succeeds exactly at one of its windows. */
  lemma OperatorWindows(func: string)
    ensures Contains(Operators, func) <==>
      Window(func, 0) || Window(func, 1) || Window(func, 2) || Window(func, 3) || Window(func, 4)
  {
    FourLetters(Operators, func);
    forall i | 0 <= i <= 4
      ensures func <= Operators[i..] <==> Window(func, i)
    {
      if |func| <= 4 - i {
        assert Operators[i..][..|func|] == Operators[i..i + |func|];
      }
    }
  }

  /** Contains unrolled on a string of four letters. */
  lemma FourLetters(hay: string, needle: string)
    requires |hay| == 4
    ensures Contains(hay, needle) <==> (needle <= hay || needle <= hay[1..] ||
      needle <= hay[2..] || needle <= hay[3..] || needle <= hay[4..])
  {
    assert hay[1..][1..] == hay[2..] && hay[2..][1..] == hay[3..] && hay[3..][1..] == hay[4..];
    assert Contains(hay, needle) == (needle <= hay || Contains(hay[1..], needle));
    assert Contains(hay[1..], needle) == (needle <= hay[1..] || Contains(hay[2..], needle));
    assert Contains(hay[2..], needle) == (needle <= hay[2..] || Contains(hay[3..], needle));
    assert Contains(hay[3..], needle) == (needle <= hay[3..] || Contains(hay[4..], needle));
    assert hay[4..] == [];
    assert Contains(hay[4..], needle) == (needle <= hay[4..]);
  }

  /** The dispatcher: the four arithmetic symbols of the grammar reach builtin_op,
      while `%`, `^`, `min` and `max`, which the grammar also accepts, are unknown. */
  lemma GrammarSymbolDispatch(fp: FloatOps, args: seq<Token>, func: string)
    requires |args| >= 1 && NoMix(args)
    ensures func in {"+", "-", "*", "/"} ==> Builtin(fp, args, func) == Op(fp, args, func)
    ensures func in {"%", "^", "min", "max"} ==> Builtin(fp, args, func) == Err(UnknownFunction)
  {
    OperatorNames(func);
  }

  lemma EvalAllInert(fp: FloatOps, cs: seq<Token>)
    requires AllInert(cs)
    ensures EvalAll(fp, cs) == cs
  {
  }

  lemma PromotedInert(fp: FloatOps, es: seq<Token>)
    requires AllInert(es)
    ensures AllInert(Promoted(fp, es))
  {
  }

  lemma NoErrorInInert(es: seq<Token>)
    requires AllInert(es)
    ensures ErrIndex(es) == |es|
  {
    assert forall j :: 0 <= j < |es| ==> !es[j].Err?;
  }

  /** Cells that evaluate to themselves reduce to what `Apply` makes of them once
      promoted. */
  lemma ReduceInert(fp: FloatOps, es: seq<Token>)
    requires AllInert(es)
    ensures AllNormal(Promoted(fp, es)) && NoMix(Promoted(fp, es))
    ensures Reduce(fp, es) == Apply(fp, Promoted(fp, es))
  {
    NoErrorInInert(es);
  }

  /** A leading cell that is not a number is left alone by promotion. */
  lemma PromotedCons(fp: FloatOps, s: Token, xs: seq<Token>)
    requires !s.Float? && !s.Num?
    ensures Promoted(fp, [s] + xs) == [s] + Promoted(fp, xs)
  {
    var ys := [s] + xs;
    assert HasFloat(ys) == HasFloat(xs) by {
      if HasFloat(xs) {
        var i :| 0 <= i < |xs| && xs[i].Float?;
        assert ys[i + 1].Float?;
      }
      if HasFloat(ys) {
        var i :| 0 <= i < |ys| && ys[i].Float?;
        assert xs[i - 1].Float?;
      }
    }
    if HasFloat(xs) {
      assert Promote(fp, ys) == [s] + Promote(fp, xs);
    }
  }

  /** `list` quotes its evaluated and promoted arguments. */
  lemma ListQuotes(fp: FloatOps, xs: seq<Token>)
    requires |xs| >= 1 && AllInert(xs)
    ensures Eval(fp, Sexpr([Sym("list")] + xs)) == Qexpr(Promoted(fp, xs))
  {
    var inner := [Sym("list")] + xs;
    assert AllInert(inner);
    EvalAllInert(fp, inner);
    Unfold(fp, inner);
    ReduceInert(fp, inner);
    PromotedCons(fp, Sym("list"), xs);
    var ps := Promoted(fp, inner);
    assert ps[0] == Sym("list") && ps[1..] == Promoted(fp, xs);
    assert Apply(fp, ps) == Builtin(fp, ps[1..], "list");
  }

  /** `eval` applied to an expression whose value is a quotation evaluates the quoted
      cells as an S-expression. */
  lemma EvalUnquotes(fp: FloatOps, e: Token, p: seq<Token>)
    requires Eval(fp, e) == Qexpr(p)
    ensures Eval(fp, Sexpr([Sym("eval"), e])) == EvalSexpr(fp, p)
  {
    var outer := [Sym("eval"), Qexpr(p)];
    EvalAllPair(fp, Sym("eval"), e);
    Unfold(fp, [Sym("eval"), e]);
    assert AllInert(outer);
    ReduceInert(fp, outer);
    assert !HasFloat(outer);
    ApplyEval(fp, p);
  }

  lemma EvalAllPair(fp: FloatOps, a: Token, b: Token)
    ensures EvalAll(fp, [a, b]) == [Eval(fp, a), Eval(fp, b)]
  {
  }

  /** The builtin `eval` with a single Q-expression argument. */
  lemma ApplyEval(fp: FloatOps, p: seq<Token>)
    ensures Apply(fp, [Sym("eval"), Qexpr(p)]) == EvalSexpr(fp, p)
  {
    var outer := [Sym("eval"), Qexpr(p)];
    assert outer[1..] == [Qexpr(p)];
    assert Apply(fp, outer) == Builtin(fp, [Qexpr(p)], "eval");
  }

  /** builtin_eval's two checks, in order, with their messages, and what it gives when
      both pass: the cells of the one Q-expression evaluated as an S-expression. */
  lemma BuiltinEvalCases(fp: FloatOps, args: seq<Token>)
    ensures |args| != 1 ==> BuiltinEval(fp, args) == Err(EvalTooMany)
    ensures |args| == 1 && !args[0].Qexpr? ==> BuiltinEval(fp, args) == Err(EvalTypes)
    ensures |args| == 1 && args[0].Qexpr? ==> BuiltinEval(fp, args) == EvalSexpr(fp, args[0].cells)
  {
  }

  /** When `(double)n` is zero exactly for n == 0, promotion changes no argument's
      standing as a zero divisor. */
  lemma {:induction false} PromotedZeroDivisors(fp: FloatOps, es: seq<Token>)
    requires ExactZero(fp)
    ensures HasZeroDivisor(Promoted(fp, es)) <==> HasZeroDivisor(es)
  {
    var ps := Promoted(fp, es);
    Promotion(fp, es);
    forall j | 0 <= j < |es|
      ensures IsZeroNumber(ps[j]) <==> IsZeroNumber(es[j])
    {
      if HasFloat(es) && es[j].Num? {
        assert IsZero(fp.ofLong(es[j].num)) <==> es[j].num == 0;
      }
    }
    if HasZeroDivisor(es) {
      var j :| 1 <= j < |es| && IsZeroNumber(es[j]);
      assert IsZeroNumber(ps[j]);
    }
    if HasZeroDivisor(ps) {
      var j :| 1 <= j < |ps| && IsZeroNumber(ps[j]);
      assert IsZeroNumber(es[j]);
    }
  }

  /** `(/ x y ...)` on numbers, integers and doubles mixed: "Division by Zero!" exactly
      when some divisor is 0 or a zero double, given an exact conversion. */
  lemma DivisionOfNumbers(fp: FloatOps, args: seq<Token>)
    requires ExactZero(fp)
    requires |args| >= 1 && AllNumbers(args)
    ensures Eval(fp, Sexpr([Sym("/")] + args)) == Err(DivZero) <==> HasZeroDivisor(args)
    ensures !HasZeroDivisor(args) ==> IsNumber(Eval(fp, Sexpr([Sym("/")] + args)))
  {
    var cs := [Sym("/")] + args;
    assert AllInert(cs) by {
      assert forall i :: 1 <= i < |cs| ==> cs[i] == args[i - 1];
    }
    EvalAllInert(fp, cs);
    Unfold(fp, cs);
    ReduceInert(fp, cs);
    PromotedCons(fp, Sym("/"), args);
    var qs := Promoted(fp, args);
    Promotion(fp, args);
    assert Promoted(fp, cs)[1..] == qs;
    assert AllNumbers(qs);
    GrammarSymbolDispatch(fp, qs, "/");
    PromotedZeroDivisors(fp, args);
  }

  /** `(/ x 0)` with a double x: the 0 is promoted to +0.0, which the divisor test meets. */
  lemma DoubleByIntegerZero(fp: FloatOps, d: Double)
    requires ExactZero(fp)
    ensures Eval(fp, Sexpr([Sym("/"), Float(d), Num(0)])) == Err(DivZero)
  {
    var args := [Float(d), Num(0)];
    assert IsZeroNumber(args[1]);
    DivisionOfNumbers(fp, args);
    assert [Sym("/")] + args == [Sym("/"), Float(d), Num(0)];
  }

  /** `(/ x 5)` with a double x is no error: the promoted 5 is not a zero. */
  lemma DoubleByIntegerFive(fp: FloatOps, d: Double)
    requires ExactZero(fp)
    ensures !Eval(fp, Sexpr([Sym("/"), Float(d), Num(5)])).Err?
  {
    var args := [Float(d), Num(5)];
    var ps := Promoted(fp, args);
    assert HasFloat(args);
    Promotion(fp, args);
    assert ps == [Float(d), Float(fp.ofLong(5))];
    assert !IsZero(fp.ofLong(5));
    DivisionOfNumbers(fp, args);
    assert !HasZeroDivisor(args);
    assert [Sym("/")] + args == [Sym("/"), Float(d), Num(5)];
  }

  /** The modulus path of builtin_op after promotion, which no symbol reaches through
      `builtin` but which the fold still carries: "Modulus by Zero!" exactly at a zero
      divisor, again given an exact conversion. */
  lemma ModulusOfPromoted(fp: FloatOps, args: seq<Token>)
    requires ExactZero(fp)
    requires |args| >= 1 && AllNumbers(args)
    ensures NoMix(Promoted(fp, args))
    ensures Op(fp, Promoted(fp, args), "%") == Err(ModZero) <==> HasZeroDivisor(args)
  {
    Promotion(fp, args);
    assert AllNumbers(Promoted(fp, args));
    PromotedZeroDivisors(fp, args);
  }

  /** Quoting cells with `list` and evaluating the quotation with `eval` gives what
      evaluating the cells directly gives, when the cells are values that evaluate to
      themselves. */
  lemma ListThenEval(fp: FloatOps, xs: seq<Token>)
    requires |xs| >= 1 && AllInert(xs)
    ensures Eval(fp, Sexpr([Sym("eval"), Sexpr([Sym("list")] + xs)])) == Eval(fp, Sexpr(xs))
  {
    var p := Promoted(fp, xs);
    ListQuotes(fp, xs);
    EvalUnquotes(fp, Sexpr([Sym("list")] + xs), p);
    Unfold(fp, xs);
    PromotedInert(fp, xs);
    EvalAllInert(fp, p);
    EvalAllInert(fp, xs);
    NoErrorInInert(p);
    NoErrorInInert(xs);
    PromotedIdempotent(fp, xs);
  }
}
