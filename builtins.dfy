/** The builtins that do not evaluate (parsing.c:210-235, 247-345), as functions of the
    argument list: the cells of the S-expression that remains once the leading symbol
    has been popped. */
module Builtins {
  import opened Floats
  import opened Tokens

  const HeadTooMany := "Function 'head' passed too many arguments"
  const HeadTypes := "Function 'head' passed incorrect types"
  const HeadEmpty := "Function 'head' passed {}"
  const TailTooMany := "Function 'tail' passed too many arguments"
  const TailTypes := "Function 'tail' passed incorrect types"
  const TailEmpty := "Function 'tail' passed {}"
  const JoinTypes := "Function 'join' passed incorrect types!"
  const NonNumber := "Cannot operate on a non-number"
  const DivZero := "Division by Zero!"
  const ModZero := "Modulus by Zero!"

  /** What `head` and `tail` accept: one argument, a non-empty Q-expression. */
  predicate IsListArgument(args: seq<Token>) {
    |args| == 1 && args[0].Qexpr? && args[0].cells != []
  }

  /** builtin_head: the checks in source order, then a Q-expression holding only the
      first element of the argument. */
  function Head(args: seq<Token>): (r: Token)
    ensures r.Qexpr? <==> IsListArgument(args)
    ensures |args| != 1 ==> r == Err(HeadTooMany)
    ensures |args| == 1 && !args[0].Qexpr? ==> r == Err(HeadTypes)
    ensures |args| == 1 && args[0] == Qexpr([]) ==> r == Err(HeadEmpty)
    ensures r.Qexpr? ==> |r.cells| == 1 && r.cells[0] == args[0].cells[0]
    ensures r.Qexpr? ==> Size(r) <= SizeOf(args)
  {
    if |args| != 1 then Err(HeadTooMany)
    else if !args[0].Qexpr? then Err(HeadTypes)
    else if args[0].cells == [] then Err(HeadEmpty)
    else
      var cs := args[0].cells;
      SizeOfSingle(args[0]);
      SizeOfSingle(cs[0]);
      assert cs[..1] == [cs[0]];
      Qexpr(cs[..1])
  }

  /** builtin_tail: the same checks, then the argument without its first element. */
  function Tail(args: seq<Token>): (r: Token)
    ensures r.Qexpr? <==> IsListArgument(args)
    ensures |args| != 1 ==> r == Err(TailTooMany)
    ensures |args| == 1 && !args[0].Qexpr? ==> r == Err(TailTypes)
    ensures |args| == 1 && args[0] == Qexpr([]) ==> r == Err(TailEmpty)
    ensures r.Qexpr? ==> [args[0].cells[0]] + r.cells == args[0].cells
    ensures r.Qexpr? ==> Size(r) <= SizeOf(args)
  {
    if |args| != 1 then Err(TailTooMany)
    else if !args[0].Qexpr? then Err(TailTypes)
    else if args[0].cells == [] then Err(TailEmpty)
    else
      SizeOfSingle(args[0]);
      Qexpr(args[0].cells[1..])
  }

  predicate AllQexpr(ts: seq<Token>) {
    forall i :: 0 <= i < |ts| ==> ts[i].Qexpr?
  }

  /** The cells of all the Q-expressions in `qs`, in order. */
  function Concat(qs: seq<Token>): (r: seq<Token>)
    requires AllQexpr(qs)
    ensures |qs| == 1 ==> r == qs[0].cells
    ensures forall i :: 0 <= i < |qs| ==> |qs[i].cells| <= |r|
  {
    if qs == [] then [] else Concat(qs[..|qs| - 1]) + qs[|qs| - 1].cells
  }

  /** Every element of the arguments ends up in the concatenation exactly once: only
      the Q-expression shells disappear. */
  lemma {:induction false} ConcatSize(qs: seq<Token>)
    requires AllQexpr(qs)
    ensures SizeOf(Concat(qs)) + |qs| == SizeOf(qs)
  {
    if qs != [] {
      var init, last := qs[..|qs| - 1], qs[|qs| - 1];
      assert qs == init + [last];
      ConcatSize(init);
      SizeOfAppend(init, [last]);
      SizeOfSingle(last);
      SizeOfAppend(Concat(init), last.cells);
    }
  }

  lemma {:induction false} ConcatAppend(a: seq<Token>, b: seq<Token>)
    requires AllQexpr(a) && AllQexpr(b)
    ensures Concat(a + b) == Concat(a) + Concat(b)
  {
    if b == [] {
      assert a + b == a;
    } else {
      var init, last := b[..|b| - 1], b[|b| - 1];
      assert (a + b)[..|a + b| - 1] == a + init;
      assert (a + b)[|a + b| - 1] == last;
      ConcatAppend(a, init);
      calc {
        Concat(a + b);
        Concat(a + init) + last.cells;
        Concat(a) + (Concat(init) + last.cells);
        Concat(a) + Concat(b);
      }
    }
  }

  /** builtin_join: every argument must be a Q-expression; the result holds their
      elements in argument order. */
  function Join(args: seq<Token>): (r: Token)
    requires |args| >= 1
    ensures r.Qexpr? <==> AllQexpr(args)
    ensures !r.Qexpr? ==> r == Err(JoinTypes)
    ensures r.Qexpr? ==> SizeOf(r.cells) + |args| == SizeOf(args)
  {
    if AllQexpr(args) then
      ConcatSize(args);
      Qexpr(Concat(args))
    else Err(JoinTypes)
  }

  lemma JoinTwo(a: Token, b: Token)
    requires a.Qexpr? && b.Qexpr?
    ensures Join([a, b]) == Qexpr(a.cells + b.cells)
  {
    assert [a, b][..1] == [a];
    assert [a][..0] == [];
    assert Concat([a]) == a.cells;
    assert [a, b][1] == b;
  }

  /** Joining is associative: joining two groups of arguments separately and then
      joining the two results gives the same list as one join of all of them. */
  lemma JoinAssociative(xs: seq<Token>, ys: seq<Token>)
    requires |xs| >= 1 && |ys| >= 1 && AllQexpr(xs) && AllQexpr(ys)
    ensures Join(xs + ys) == Join([Join(xs), Join(ys)])
  {
    ConcatAppend(xs, ys);
    JoinTwo(Join(xs), Join(ys));
  }

  /** Head and tail split a non-empty list: joining them gives the list back. */
  lemma HeadTailJoin(q: Token)
    requires q.Qexpr? && q.cells != []
    ensures Join([Head([q]), Tail([q])]) == q
  {
    JoinTwo(Head([q]), Tail([q]));
  }

  // ---- builtin_op ----

  predicate AllNumbers(ts: seq<Token>) {
    forall i :: 0 <= i < |ts| ==> IsNumber(ts[i])
  }

  predicate AllNum(ts: seq<Token>) {
    forall i :: 0 <= i < |ts| ==> ts[i].Num?
  }

  predicate AllFloat(ts: seq<Token>) {
    forall i :: 0 <= i < |ts| ==> ts[i].Float?
  }

  /** The numeric arguments do not mix the two numeric tags. */
  predicate NoMix(ts: seq<Token>) {
    (forall i :: 0 <= i < |ts| ==> !ts[i].Float?) || (forall i :: 0 <= i < |ts| ==> !ts[i].Num?)
  }

  /** The test `y->num == 0` or `y->frac == 0` on a divisor. */
  predicate IsZeroNumber(t: Token) {
    (t.Num? && t.num == 0) || (t.Float? && IsZero(t.frac))
  }

  predicate HasZeroDivisor(args: seq<Token>) {
    exists j :: 1 <= j < |args| && IsZeroNumber(args[j])
  }

  function Abs(n: int): nat {
    if n < 0 then -n else n
  }

  /** C's `a / b` on `long`: the quotient truncated toward zero. */
  function CDiv(a: int, b: int): (q: int)
    requires b != 0
    ensures Abs(q) * Abs(b) <= Abs(a) < (Abs(q) + 1) * Abs(b)
    ensures q == 0 || (q < 0 <==> (a < 0) != (b < 0))
  {
    var m := Abs(a) / Abs(b);
    var q := if (a < 0) == (b < 0) then m else -m;
    SignedQuotient(a, b, m, q);
    q
  }

  lemma SignedQuotient(a: int, b: int, m: nat, q: int)
    requires b != 0 && m == Abs(a) / Abs(b) && q == (if (a < 0) == (b < 0) then m as int else -(m as int))
    ensures Abs(q) * Abs(b) <= Abs(a) < (Abs(q) + 1) * Abs(b)
    ensures q == 0 || (q < 0 <==> (a < 0) != (b < 0))
  {
    assert Abs(q) == m;
    NatDivBounds(Abs(a), Abs(b));
  }

  lemma NatDivBounds(x: nat, y: nat)
    requires y > 0
    ensures (x / y) * y <= x < (x / y + 1) * y
  {
    assert x == (x / y) * y + x % y;
    assert (x / y + 1) * y == (x / y) * y + y;
  }

  /** C's `a % b` on `long`: what is left after `b * (a / b)`. */
  function CMod(a: int, b: int): (r: int)
    requires b != 0
    ensures CDiv(a, b) * b + r == a
  {
    a - b * CDiv(a, b)
  }

  /** C's division identity: the remainder is smaller than the divisor and has the
      sign of the dividend, unlike Dafny's Euclidean `%`. */
  lemma CDivMod(a: int, b: int)
    requires b != 0
    ensures CDiv(a, b) * b + CMod(a, b) == a
    ensures Abs(CMod(a, b)) < Abs(b)
    ensures CMod(a, b) == 0 || (CMod(a, b) < 0 <==> a < 0)
  {
    var m, r := Abs(a) / Abs(b), Abs(a) % Abs(b);
    assert Abs(a) == m * Abs(b) + r;
    TruncatedRemainder(a, b, m, r, CDiv(a, b));
  }

  /** The remainder left by the truncated quotient `q` (of magnitude `m`) is the
      magnitude remainder `r` with the dividend's sign. */
  lemma TruncatedRemainder(a: int, b: int, m: nat, r: nat, q: int)
    requires b != 0 && Abs(a) == m * Abs(b) + r && r < Abs(b)
    requires q == (if (a < 0) == (b < 0) then m as int else -(m as int))
    ensures a - b * q == (if a < 0 then -(r as int) else r)
  {
    if b < 0 {
      assert b * q == -(Abs(b) * q);
    } else {
      assert b * q == Abs(b) * q;
    }
    if (a < 0) == (b < 0) {
      assert Abs(b) * q == (if b < 0 then m * Abs(b) else m * Abs(b));
    } else {
      assert Abs(b) * q == -(m * Abs(b));
    }
  }

  lemma CDivExample()
    ensures CDiv(-7, 2) == -3 && CMod(-7, 2) == -1
    ensures CDiv(7, -2) == -3 && CMod(7, -2) == 1
  {
  }

  /** One step `x->num op= y->num` of the integer fold. */
  function IntStep(acc: int, y: int, op: string): (r: int)
    requires (op == "%" || op == "/") ==> y != 0
    ensures op !in {"+", "-", "*", "/", "%"} ==> r == acc
    ensures op == "/" ==> Abs(r) * Abs(y) <= Abs(acc)
  {
    if op == "+" then acc + y
    else if op == "%" then CMod(acc, y)
    else if op == "-" then acc - y
    else if op == "*" then acc * y
    else if op == "/" then CDiv(acc, y)
    else acc
  }

  /** The integer loop of builtin_op: pops and folds the remaining arguments into the
      accumulator, stopping at the first zero divisor of `/` or `%`. */
  function IntFold(acc: int, ys: seq<Token>, op: string): (r: Token)
    requires AllNum(ys)
    decreases |ys|
    ensures r.Num? || r == Err(DivZero) || r == Err(ModZero)
    ensures r == Err(DivZero) <==> op == "/" && exists j :: 0 <= j < |ys| && ys[j].num == 0
    ensures r == Err(ModZero) <==> op == "%" && exists j :: 0 <= j < |ys| && ys[j].num == 0
  {
    if ys == [] then Num(acc)
    else if op == "%" && ys[0].num == 0 then Err(ModZero)
    else if op == "/" && ys[0].num == 0 then Err(DivZero)
    else
      var r := IntFold(IntStep(acc, ys[0].num, op), ys[1..], op);
      assert forall j :: 1 <= j < |ys| ==> ys[j] == ys[1..][j - 1];
      r
  }

  /** One step `x->frac op= y->frac` of the floating-point fold. */
  function FloatStep(fp: FloatOps, acc: Double, y: Double, op: string): (r: Double)
    ensures op !in {"+", "-", "*", "/", "%"} ==> r == acc
  {
    if op == "+" then fp.add(acc, y)
    else if op == "%" then fp.fmod(acc, y)
    else if op == "-" then fp.sub(acc, y)
    else if op == "*" then fp.mul(acc, y)
    else if op == "/" then fp.div(acc, y)
    else acc
  }

  /** The floating-point loop of builtin_op. */
  function FloatFold(fp: FloatOps, acc: Double, ys: seq<Token>, op: string): (r: Token)
    requires AllFloat(ys)
    decreases |ys|
    ensures r.Float? || r == Err(DivZero) || r == Err(ModZero)
    ensures r == Err(DivZero) <==> op == "/" && exists j :: 0 <= j < |ys| && IsZero(ys[j].frac)
    ensures r == Err(ModZero) <==> op == "%" && exists j :: 0 <= j < |ys| && IsZero(ys[j].frac)
  {
    if ys == [] then Float(acc)
    else if op == "%" && IsZero(ys[0].frac) then Err(ModZero)
    else if op == "/" && IsZero(ys[0].frac) then Err(DivZero)
    else
      var r := FloatFold(fp, FloatStep(fp, acc, ys[0].frac, op), ys[1..], op);
      assert forall j :: 1 <= j < |ys| ==> ys[j] == ys[1..][j - 1];
      r
  }

  /** builtin_op: arithmetic over the arguments. The caller guarantees at least one
      argument and that integer and float arguments are never mixed. */
  function Op(fp: FloatOps, args: seq<Token>, op: string): (r: Token)
    requires |args| >= 1 && NoMix(args)
    ensures !AllNumbers(args) ==> r == Err(NonNumber)
    ensures AllNumbers(args) ==> r.Num? || r.Float? || r == Err(DivZero) || r == Err(ModZero)
    ensures AllNumbers(args) ==> (r.Num? ==> args[0].Num?) && (r.Float? ==> args[0].Float?)
    ensures AllNumbers(args) ==> (r == Err(DivZero) <==> op == "/" && HasZeroDivisor(args))
    ensures AllNumbers(args) ==> (r == Err(ModZero) <==> op == "%" && HasZeroDivisor(args))
  {
    if !AllNumbers(args) then Err(NonNumber)
    else
      var ys := args[1..];
      assert forall j :: 1 <= j < |args| ==> args[j] == ys[j - 1];
      if args[0].Num? then
        var x := if op == "-" && |args| == 1 then -args[0].num else args[0].num;
        IntFold(x, ys, op)
      else
        var x := if op == "-" && |args| == 1 then Negate(args[0].frac) else args[0].frac;
        FloatFold(fp, x, ys, op)
  }

  // ---- what the fold computes ----

  function Sum(ns: seq<Token>): int
    requires AllNum(ns)
  {
    if ns == [] then 0 else ns[0].num + Sum(ns[1..])
  }

  function Product(ns: seq<Token>): int
    requires AllNum(ns)
  {
    if ns == [] then 1 else ns[0].num * Product(ns[1..])
  }

  lemma {:induction false} IntFoldAdd(acc: int, ys: seq<Token>)
    requires AllNum(ys)
    decreases |ys|
    ensures IntFold(acc, ys, "+") == Num(acc + Sum(ys))
  {
    if ys != [] {
      IntFoldAdd(acc + ys[0].num, ys[1..]);
    }
  }

  lemma {:induction false} IntFoldSub(acc: int, ys: seq<Token>)
    requires AllNum(ys)
    decreases |ys|
    ensures IntFold(acc, ys, "-") == Num(acc - Sum(ys))
  {
    if ys != [] {
      IntFoldSub(acc - ys[0].num, ys[1..]);
    }
  }

  lemma {:induction false} IntFoldMul(acc: int, ys: seq<Token>)
    requires AllNum(ys)
    decreases |ys|
    ensures IntFold(acc, ys, "*") == Num(acc * Product(ys))
  {
    if ys != [] {
      IntFoldMul(acc * ys[0].num, ys[1..]);
      assert acc * ys[0].num * Product(ys[1..]) == acc * (ys[0].num * Product(ys[1..]));
    }
  }

  /** `(+ a b c ...)` on integers is their sum. */
  lemma OpIntSum(fp: FloatOps, args: seq<Token>)
    requires |args| >= 1 && AllNum(args)
    ensures Op(fp, args, "+") == Num(Sum(args))
  {
    IntFoldAdd(args[0].num, args[1..]);
  }

  /** `(- a b c ...)` with two or more integers subtracts all the others from the
      first; `(- a)` negates it. */
  lemma OpIntDifference(fp: FloatOps, args: seq<Token>)
    requires |args| >= 1 && AllNum(args)
    ensures |args| == 1 ==> Op(fp, args, "-") == Num(-args[0].num)
    ensures |args| >= 2 ==> Op(fp, args, "-") == Num(args[0].num - Sum(args[1..]))
  {
    if |args| >= 2 {
      IntFoldSub(args[0].num, args[1..]);
    }
  }

  /** `(* a b c ...)` on integers is their product. */
  lemma OpIntProduct(fp: FloatOps, args: seq<Token>)
    requires |args| >= 1 && AllNum(args)
    ensures Op(fp, args, "*") == Num(Product(args))
  {
    IntFoldMul(args[0].num, args[1..]);
  }

  /** `(- x)` on a float flips its sign. */
  lemma OpFloatNegate(fp: FloatOps, d: Double)
    ensures Op(fp, [Float(d)], "-") == Float(Negate(d))
  {
  }

  lemma {:induction false} IntFoldOther(acc: int, ys: seq<Token>, op: string)
    requires AllNum(ys) && op !in {"+", "-", "*", "/", "%"}
    decreases |ys|
    ensures IntFold(acc, ys, op) == Num(acc)
  {
    if ys != [] {
      IntFoldOther(acc, ys[1..], op);
    }
  }

  lemma {:induction false} FloatFoldOther(fp: FloatOps, acc: Double, ys: seq<Token>, op: string)
    requires AllFloat(ys) && op !in {"+", "-", "*", "/", "%"}
    decreases |ys|
    ensures FloatFold(fp, acc, ys, op) == Float(acc)
  {
    if ys != [] {
      FloatFoldOther(fp, acc, ys[1..], op);
    }
  }

  /** An operator name that none of the comparisons in the loop matches leaves the
      first argument as the result. */
  lemma OpOtherOperator(fp: FloatOps, args: seq<Token>, op: string)
    requires |args| >= 1 && NoMix(args) && AllNumbers(args)
    requires op !in {"+", "-", "*", "/", "%"}
    ensures Op(fp, args, op) == args[0]
  {
    assert forall j :: 1 <= j < |args| ==> args[j] == args[1..][j - 1];
    if args[0].Num? {
      IntFoldOther(args[0].num, args[1..], op);
    } else {
      FloatFoldOther(fp, args[0].frac, args[1..], op);
    }
  }
}
