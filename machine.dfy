/** The evaluator as the C code runs it: the builtins and token_eval_sexpr work on a
    container in memory, popping, taking and joining cells and rewriting tags in place
    (parsing.c:210-415). Each method is proved to compute the reference function of
    module Evaluator or module Builtins on the cells it was given.

    A nested container is a value inside its parent's cell array; when the C code
    goes on to work on it in place (after `token_take`, and in token_eval), the
    method opens it into a container of its own. */
module Machine {
  import opened Floats
  import opened Tokens
  import opened Text
  import opened Builtins
  import opened Evaluator
  import opened Cells

  /** builtin_list: the argument S-expression is retagged as a Q-expression. */
  method BuiltinList(arg: Container) returns (r: Token)
    requires arg.Valid()
    modifies arg
    ensures arg.Valid() && arg.kind == QExpr && arg.Cells() == old(arg.Cells())
    ensures r == arg.AsToken() && r == Qexpr(old(arg.Cells()))
  {
    arg.kind := QExpr;
    r := arg.AsToken();
  }

  /** The end of builtin_head: the Q-expression taken out of the argument keeps its
      first cell; the others are popped from index 1 one by one. */
  method KeepFirst(q: Token) returns (r: Token)
    requires q.Qexpr? && q.cells != []
    ensures r == Qexpr([q.cells[0]])
  {
    var v := new Container.Open(q);
    ghost var n := |q.cells|;
    ghost var a := v.cell;
    while v.count > 1
      invariant v.Valid() && v.kind == QExpr && v.cell == a
      invariant 1 <= v.count <= n
      invariant v.Cells() == [q.cells[0]] + q.cells[n - v.count + 1..]
      decreases v.count
    {
      ghost var k := n - v.count + 1;
      var _ := v.Pop(1);
      assert q.cells[k..][1..] == q.cells[k + 1..];
    }
    assert q.cells[n..] == [];
    r := v.AsToken();
  }

  /** builtin_head. */
  method BuiltinHead(arg: Container) returns (r: Token)
    requires arg.Valid()
    modifies arg, arg.cell
    ensures r == Head(old(arg.Cells()))
  {
    if arg.count != 1 {
      return Err(HeadTooMany);
    }
    if !arg.cell[0].Qexpr? {
      return Err(HeadTypes);
    }
    if arg.cell[0].cells == [] {
      return Err(HeadEmpty);
    }
    var q := arg.Take(0);
    r := KeepFirst(q);
    assert q.cells[..1] == [q.cells[0]];
  }

  /** builtin_tail: the Q-expression is taken out and its first cell popped. */
  method BuiltinTail(arg: Container) returns (r: Token)
    requires arg.Valid()
    modifies arg, arg.cell
    ensures r == Tail(old(arg.Cells()))
  {
    if arg.count != 1 {
      return Err(TailTooMany);
    }
    if !arg.cell[0].Qexpr? {
      return Err(TailTypes);
    }
    if arg.cell[0].cells == [] {
      return Err(TailEmpty);
    }
    var q := arg.Take(0);
    var v := new Container.Open(q);
    var _ := v.Pop(0);
    r := v.AsToken();
  }

  lemma ConcatSnoc(done: seq<Token>, t: Token)
    requires AllQexpr(done) && t.Qexpr?
    ensures AllQexpr(done + [t])
    ensures Concat(done + [t]) == Concat(done) + t.cells
  {
    assert (done + [t])[..|done|] == done;
  }

  /** One pass of the loop of builtin_join: token_join of the popped Q-expression
      `t` onto `x`. */
  method JoinOne(x: Container, t: Token)
    requires x.Valid() && t.Qexpr?
    modifies x
    ensures x.Valid() && x.kind == old(x.kind)
    ensures x.cell == old(x.cell) || fresh(x.cell)
    ensures x.Cells() == old(x.Cells()) + t.cells
  {
    var y := new Container.Open(t);
    x.Join(y);
  }

  /** The loop of builtin_join: each remaining argument is popped and joined onto the
      accumulated Q-expression `x`. */
  method JoinRest(x: Container, arg: Container)
    requires x.Valid() && arg.Valid() && x != arg && x.cell != arg.cell
    requires AllQexpr(arg.Cells())
    modifies x, arg, arg.cell
    ensures x.Valid() && x.kind == old(x.kind)
    ensures x.Cells() == old(x.Cells()) + Concat(old(arg.Cells()))
  {
    ghost var x0, done := x.Cells(), [];
    ghost var a := arg.cell;
    while arg.count != 0
      invariant arg.Valid() && arg.cell == a
      invariant AllQexpr(done) && AllQexpr(arg.Cells())
      invariant done + arg.Cells() == old(arg.Cells())
      invariant x.Valid() && x.kind == old(x.kind) && x.cell != a
      invariant x.Cells() == x0 + Concat(done)
      decreases arg.count
    {
      ghost var rest := arg.Cells();
      ghost var t := JoinNext(x, arg);
      ConcatSnoc(done, t);
      AppendAssoc(x0, Concat(done), t.cells);
      AppendAssoc(done, [t], arg.Cells());
      done := done + [t];
    }
    assert done + [] == done;
  }

  /** One pass of the loop of builtin_join: the first argument `t` is popped and
      joined onto `x`. */
  method JoinNext(x: Container, arg: Container) returns (ghost t: Token)
    requires x.Valid() && arg.Valid() && x != arg && x.cell != arg.cell
    requires arg.count > 0 && AllQexpr(arg.Cells())
    modifies x, arg, arg.cell
    ensures arg.Valid() && arg.cell == old(arg.cell) && arg.count < old(arg.count)
    ensures t.Qexpr? && old(arg.Cells()) == [t] + arg.Cells() && AllQexpr(arg.Cells())
    ensures x.Valid() && x.kind == old(x.kind) && x.cell != arg.cell
    ensures x.Cells() == old(x.Cells()) + t.cells
  {
    var y := PopQuoted(arg);
    JoinOne(x, y);
    t := y;
  }

  /** `token_pop(a, 0)` on arguments that are all Q-expressions. */
  method PopQuoted(arg: Container) returns (t: Token)
    requires arg.Valid() && arg.count > 0 && AllQexpr(arg.Cells())
    modifies arg, arg.cell
    ensures arg.Valid() && arg.cell == old(arg.cell) && arg.count < old(arg.count)
    ensures t.Qexpr? && old(arg.Cells()) == [t] + arg.Cells() && AllQexpr(arg.Cells())
  {
    ghost var rest := arg.Cells();
    t := arg.Pop(0);
    assert rest == [t] + arg.Cells();
    assert forall j :: 0 <= j < |arg.Cells()| ==> arg.Cells()[j] == rest[j + 1];
  }

  /** The check loop of builtin_join: whether every argument is a Q-expression. */
  method AllQuoted(arg: Container) returns (ok: bool)
    requires arg.Valid()
    ensures ok == AllQexpr(arg.Cells())
  {
    var i := 0;
    while i < arg.count
      invariant 0 <= i <= arg.count
      invariant forall j :: 0 <= j < i ==> arg.Cells()[j].Qexpr?
    {
      if !arg.cell[i].Qexpr? {
        assert !arg.Cells()[i].Qexpr?;
        return false;
      }
      i := i + 1;
    }
    return true;
  }

  /** builtin_join: every argument must be a Q-expression; the first one is popped
      and the others are joined onto it. */
  method BuiltinJoin(arg: Container) returns (r: Token)
    requires arg.Valid() && arg.count >= 1
    modifies arg, arg.cell
    ensures r == Join(old(arg.Cells()))
  {
    var ok := AllQuoted(arg);
    if !ok {
      return Err(JoinTypes);
    }
    ghost var args := arg.Cells();
    var first := arg.Pop(0);
    var x := new Container.Open(first);
    assert arg.Cells() == args[1..];
    JoinRest(x, arg);
    JoinSplit(args);
    r := x.AsToken();
  }

  /** Joining the first Q-expression with the rest is joining them all. */
  lemma JoinSplit(args: seq<Token>)
    requires |args| >= 1 && AllQexpr(args)
    ensures AllQexpr(args[1..])
    ensures Concat(args) == args[0].cells + Concat(args[1..])
  {
    var h, t := [args[0]], args[1..];
    assert forall i :: 0 <= i < |t| ==> t[i] == args[i + 1];
    assert h + t == args;
    ConcatAppend(h, t);
    assert Concat(h) == args[0].cells by {
      assert h[..0] == [];
      assert [] + args[0].cells == args[0].cells;
    }
  }

  /** One pass of the integer loop body of builtin_op: the operator comparisons in
      source order, with the zero-divisor checks of `%` and `/`. */
  method StepInteger(acc: int, y: int, op: string) returns (x: Token)
    ensures (op == "%" || op == "/") && y == 0 ==> x == Err(if op == "%" then ModZero else DivZero)
    ensures !((op == "%" || op == "/") && y == 0) ==> x == Num(IntStep(acc, y, op))
  {
    x := Num(acc);
    if op == "+" {
      x := Num(x.num + y);
    }
    if op == "%" {
      if y == 0 {
        return Err(ModZero);
      }
      x := Num(CMod(x.num, y));
    }
    if op == "-" {
      x := Num(x.num - y);
    }
    if op == "*" {
      x := Num(x.num * y);
    }
    if op == "/" {
      if y == 0 {
        return Err(DivZero);
      }
      x := Num(CDiv(x.num, y));
    }
  }

  /** The integer loop of builtin_op: pops each remaining argument and folds it into
      the accumulator, stopping at a zero divisor of `%` or `/`. */
  method FoldIntegers(arg: Container, x0: int, op: string) returns (x: Token)
    requires arg.Valid() && AllNum(arg.Cells())
    modifies arg, arg.cell
    ensures x == IntFold(x0, old(arg.Cells()), op)
  {
    ghost var goal := IntFold(x0, arg.Cells(), op);
    x := Num(x0);
    while arg.count > 0
      invariant arg.Valid() && arg.cell == old(arg.cell) && AllNum(arg.Cells())
      invariant x.Num? && IntFold(x.num, arg.Cells(), op) == goal
      decreases arg.count
    {
      x := IntegerRound(arg, x.num, op);
      if x.Err? {
        return;
      }
    }
  }

  /** One pass of the integer loop: pop the next argument and fold it in. */
  method IntegerRound(arg: Container, acc: int, op: string) returns (x: Token)
    requires arg.Valid() && arg.count > 0 && AllNum(arg.Cells())
    modifies arg, arg.cell
    ensures arg.Valid() && arg.cell == old(arg.cell) && arg.count < old(arg.count)
    ensures AllNum(arg.Cells())
    ensures x.Err? ==> x == IntFold(acc, old(arg.Cells()), op)
    ensures !x.Err? ==> x.Num? && IntFold(x.num, arg.Cells(), op) == IntFold(acc, old(arg.Cells()), op)
  {
    ghost var rest := arg.Cells();
    var y := arg.Pop(0);
    assert arg.Cells() == rest[1..];
    assert forall j :: 0 <= j < |rest[1..]| ==> rest[1..][j] == rest[j + 1];
    x := StepInteger(acc, y.num, op);
  }

  /** The floating-point loop of builtin_op. */
  method FoldFloats(fp: FloatOps, arg: Container, x0: Double, op: string) returns (x: Token)
    requires arg.Valid() && AllFloat(arg.Cells())
    modifies arg, arg.cell
    ensures x == FloatFold(fp, x0, old(arg.Cells()), op)
  {
    ghost var goal := FloatFold(fp, x0, arg.Cells(), op);
    x := Float(x0);
    while arg.count > 0
      invariant arg.Valid() && arg.cell == old(arg.cell) && AllFloat(arg.Cells())
      invariant x.Float? && FloatFold(fp, x.frac, arg.Cells(), op) == goal
      decreases arg.count
    {
      x := FloatRound(fp, arg, x.frac, op);
      if x.Err? {
        return;
      }
    }
  }

  /** One pass of the floating-point loop: pop the next argument and fold it in. */
  method FloatRound(fp: FloatOps, arg: Container, acc: Double, op: string) returns (x: Token)
    requires arg.Valid() && arg.count > 0 && AllFloat(arg.Cells())
    modifies arg, arg.cell
    ensures arg.Valid() && arg.cell == old(arg.cell) && arg.count < old(arg.count)
    ensures AllFloat(arg.Cells())
    ensures x.Err? ==> x == FloatFold(fp, acc, old(arg.Cells()), op)
    ensures !x.Err? ==> x.Float? && FloatFold(fp, x.frac, arg.Cells(), op) == FloatFold(fp, acc, old(arg.Cells()), op)
  {
    ghost var rest := arg.Cells();
    var y := arg.Pop(0);
    assert arg.Cells() == rest[1..];
    assert forall j :: 0 <= j < |rest[1..]| ==> rest[1..][j] == rest[j + 1];
    x := StepFloat(fp, acc, y.frac, op);
  }

  /** One pass of the floating-point loop body of builtin_op. */
  method StepFloat(fp: FloatOps, acc: Double, y: Double, op: string) returns (x: Token)
    ensures (op == "%" || op == "/") && IsZero(y) ==> x == Err(if op == "%" then ModZero else DivZero)
    ensures !((op == "%" || op == "/") && IsZero(y)) ==> x == Float(FloatStep(fp, acc, y, op))
  {
    x := Float(acc);
    if op == "+" {
      x := Float(fp.add(x.frac, y));
    }
    if op == "%" {
      if IsZero(y) {
        return Err(ModZero);
      }
      x := Float(fp.fmod(x.frac, y));
    }
    if op == "-" {
      x := Float(fp.sub(x.frac, y));
    }
    if op == "*" {
      x := Float(fp.mul(x.frac, y));
    }
    if op == "/" {
      if IsZero(y) {
        return Err(DivZero);
      }
      x := Float(fp.div(x.frac, y));
    }
  }

  /** builtin_op: every argument must be a number; the first is popped and the rest
      are folded into it, with `(- x)` negating it. */
  method BuiltinOp(fp: FloatOps, arg: Container, op: string) returns (r: Token)
    requires arg.Valid() && arg.count >= 1 && NoMix(arg.Cells())
    modifies arg, arg.cell
    ensures r == Op(fp, old(arg.Cells()), op)
  {
    ghost var args := arg.Cells();
    var i := 0;
    while i < arg.count
      invariant 0 <= i <= arg.count
      invariant forall j :: 0 <= j < i ==> IsNumber(args[j])
    {
      if !arg.cell[i].Num? && !arg.cell[i].Float? {
        return Err(NonNumber);
      }
      i := i + 1;
    }
    var x := arg.Pop(0);
    assert arg.Cells() == args[1..];
    if x.Num? {
      var n := x.num;
      if op == "-" && arg.count == 0 {
        n := -n;
      }
      r := FoldIntegers(arg, n, op);
    } else {
      var d := x.frac;
      if op == "-" && arg.count == 0 {
        d := Negate(d);
      }
      r := FoldFloats(fp, arg, d, op);
    }
  }

  /** The inner loop of token_eval_sexpr that rewrites every NUM cell as a FLOAT in
      place. */
  method PromoteCells(fp: FloatOps, v: Container)
    requires v.Valid()
    modifies v.cell
    ensures v.Valid() && v.Cells() == Promote(fp, old(v.Cells()))
  {
    ghost var cs := v.Cells();
    var j := 0;
    while j < v.count
      invariant 0 <= j <= v.count && v.Valid()
      invariant forall k :: 0 <= k < j ==> v.cell[k] == PromoteOne(fp, cs[k])
      invariant forall k :: j <= k < v.count ==> v.cell[k] == cs[k]
    {
      if v.cell[j].Num? {
        v.cell[j] := Float(fp.ofLong(v.cell[j].num));
      }
      j := j + 1;
    }
  }

  /** The state of the scanning loop before cell `e`, with `es` the cells it started
      from: no ERR so far, and the cells promoted exactly when a FLOAT was met (the
      first one at `w`). */
  ghost predicate Scanned(fp: FloatOps, v: Container, es: seq<Token>, e: nat, promoted: bool, w: nat)
    reads v, v.cell
  {
    v.Valid() && |es| == v.count && e <= v.count &&
    (forall j :: 0 <= j < e ==> !es[j].Err?) &&
    (promoted ==> w < |es| && es[w].Float?) &&
    (!promoted ==> forall j :: 0 <= j < e ==> !es[j].Float?) &&
    v.Cells() == (if promoted then Promote(fp, es) else es)
  }

  /** The scanning loop of token_eval_sexpr: stops at the first ERR, and promotes the
      cells the first time it meets a FLOAT. It returns where it stopped. */
  method ScanCells(fp: FloatOps, v: Container) returns (e: nat)
    requires v.Valid()
    modifies v.cell
    ensures v.Valid() && e == ErrIndex(old(v.Cells()))
    ensures e < v.count ==> v.cell[e] == old(v.Cells())[e]
    ensures e == v.count ==> v.Cells() == Promoted(fp, old(v.Cells()))
  {
    ghost var es := v.Cells();
    var promoted := false;
    ghost var w := 0;
    e := 0;
    while e < v.count
      invariant Scanned(fp, v, es, e, promoted, w)
      decreases v.count - e
    {
      var stop;
      stop, promoted, w := ScanOne(fp, v, es, e, promoted, w);
      if stop {
        ErrIndexAt(es, e);
        return;
      }
      e := e + 1;
    }
    ErrIndexAt(es, e);
    assert promoted == HasFloat(es);
  }

  /** One pass of the scanning loop, at cell `e`. */
  method ScanOne(fp: FloatOps, v: Container, ghost es: seq<Token>, e: nat, promoted: bool, ghost w: nat)
    returns (stop: bool, promoted': bool, ghost w': nat)
    requires Scanned(fp, v, es, e, promoted, w) && e < v.count
    modifies v.cell
    ensures stop ==> v.Valid() && es[e].Err? && v.cell[e] == es[e] && Scanned(fp, v, es, e, promoted, w)
    ensures !stop ==> Scanned(fp, v, es, e + 1, promoted', w')
  {
    var c := v.cell[e];
    CellAt(fp, es, v.Cells(), promoted, e);
    assert c == v.Cells()[e];
    if c.Err? {
      return true, promoted, w;
    }
    if c.Float? && !promoted {
      PromoteCells(fp, v);
      ScannedNext(fp, v, es, e, true, e);
      return false, true, e;
    }
    ScannedNext(fp, v, es, e, promoted, w);
    return false, promoted, w;
  }

  /** Cell `e` before and after promotion. */
  lemma CellAt(fp: FloatOps, es: seq<Token>, cs: seq<Token>, promoted: bool, e: nat)
    requires cs == (if promoted then Promote(fp, es) else es) && e < |es|
    ensures cs[e].Err? == es[e].Err?
    ensures !promoted ==> cs[e] == es[e]
  {
  }

  /** The scanning state moves past a cell that is not an ERR. */
  lemma ScannedNext(fp: FloatOps, v: Container, es: seq<Token>, e: nat, promoted: bool, w: nat)
    requires v.Valid() && |es| == v.count && e < v.count && !es[e].Err?
    requires forall j :: 0 <= j < e ==> !es[j].Err?
    requires promoted ==> w < |es| && es[w].Float?
    requires !promoted ==> forall j :: 0 <= j <= e ==> !es[j].Float?
    requires v.Cells() == (if promoted then Promote(fp, es) else es)
    ensures Scanned(fp, v, es, e + 1, promoted, w)
  {
  }

  /** The first ERR is at `k` when none comes before it and `k` is an ERR or the end. */
  lemma ErrIndexAt(cs: seq<Token>, k: nat)
    requires k <= |cs| && (k < |cs| ==> cs[k].Err?)
    requires forall j :: 0 <= j < k ==> !cs[j].Err?
    ensures ErrIndex(cs) == k
  {
  }

  /** The first loop of token_eval_sexpr: every cell is replaced by its value. */
  method EvalCells(fp: FloatOps, v: Container)
    requires v.Valid()
    modifies v.cell
    decreases 1 + SizeOf(v.Cells()), 1
    ensures v.Valid() && v.Cells() == EvalAll(fp, old(v.Cells()))
  {
    ghost var cs := v.Cells();
    var i := 0;
    while i < v.count
      invariant 0 <= i <= v.count && v.Valid()
      invariant forall k :: 0 <= k < i ==> v.cell[k] == Eval(fp, cs[k])
      invariant forall k :: i <= k < v.count ==> v.cell[k] == cs[k]
    {
      v.cell[i] := EvalM(fp, v.cell[i]);
      i := i + 1;
    }
  }

  /** token_eval_sexpr. */
  method EvalSexprM(fp: FloatOps, v: Container) returns (r: Token)
    requires v.Valid() && v.kind == SExpr
    modifies v, v.cell
    decreases 1 + SizeOf(v.Cells()), 3
    ensures r == EvalSexpr(fp, old(v.Cells()))
  {
    EvalCells(fp, v);
    r := ReduceM(fp, v);
  }

  /** token_eval_sexpr once the cells are evaluated: the first error is taken out,
      the cells are promoted, and the rest goes to `ApplyM`. */
  method ReduceM(fp: FloatOps, v: Container) returns (r: Token)
    requires v.Valid() && v.kind == SExpr && AllNormal(v.Cells())
    modifies v, v.cell
    decreases 1 + SizeOf(v.Cells()), 2
    ensures r == Reduce(fp, old(v.Cells()))
  {
    ghost var es := v.Cells();
    var e := ScanCells(fp, v);
    if e < v.count {
      r := v.Take(e);
      return;
    }
    assert AllNormal(v.Cells()) && NoMix(v.Cells());
    r := ApplyM(fp, v);
  }

  /** The end of token_eval_sexpr, on promoted cells: `()` is its own value, one
      cell is taken out, and otherwise the first cell must be the symbol naming the
      builtin applied to the others. */
  method ApplyM(fp: FloatOps, v: Container) returns (r: Token)
    requires v.Valid() && v.kind == SExpr && AllNormal(v.Cells()) && NoMix(v.Cells())
    modifies v, v.cell
    decreases 1 + SizeOf(v.Cells()), 1
    ensures r == Apply(fp, old(v.Cells()))
  {
    ghost var ps := v.Cells();
    ApplyCases(fp, ps);
    if v.count == 0 {
      r := v.AsToken();
      assert r == Sexpr([]);
      return;
    }
    if v.count == 1 {
      r := v.Take(0);
      return;
    }
    r := ApplySymbolM(fp, v);
  }

  /** The leading-symbol case of token_eval_sexpr. */
  method ApplySymbolM(fp: FloatOps, v: Container) returns (r: Token)
    requires v.Valid() && v.count >= 2 && AllNormal(v.Cells()) && NoMix(v.Cells())
    modifies v, v.cell
    decreases 1 + SizeOf(v.Cells()), 0
    ensures r == Apply(fp, old(v.Cells()))
  {
    ghost var ps := v.Cells();
    ApplyCases(fp, ps);
    var first := v.Pop(0);
    if !first.Sym? {
      return Err(NotSymbol);
    }
    assert v.Cells() == ps[1..];
    assert ps == [ps[0]] + ps[1..];
    SizeOfAppend([ps[0]], ps[1..]);
    r := BuiltinM(fp, v, first.sym);
  }

  lemma ApplyCases(fp: FloatOps, ps: seq<Token>)
    requires AllNormal(ps) && NoMix(ps)
    ensures |ps| == 0 ==> Apply(fp, ps) == Sexpr([])
    ensures |ps| == 1 ==> Apply(fp, ps) == ps[0]
    ensures |ps| >= 2 && !ps[0].Sym? ==> Apply(fp, ps) == Err(NotSymbol)
    ensures |ps| >= 2 && ps[0].Sym? ==> NoMix(ps[1..]) && Apply(fp, ps) == Builtin(fp, ps[1..], ps[0].sym)
  {
  }

  /** token_eval. */
  method EvalM(fp: FloatOps, t: Token) returns (r: Token)
    decreases Size(t), 4
    ensures r == Eval(fp, t)
  {
    if t.Sexpr? {
      var v := new Container.Open(t);
      r := EvalSexprM(fp, v);
    } else {
      r := t;
    }
  }

  /** builtin_eval: the single Q-expression argument is taken out, retagged as an
      S-expression and evaluated. */
  method BuiltinEvalM(fp: FloatOps, arg: Container) returns (r: Token)
    requires arg.Valid()
    modifies arg, arg.cell
    decreases SizeOf(arg.Cells()), 5
    ensures r == BuiltinEval(fp, old(arg.Cells()))
  {
    if arg.count != 1 {
      return Err(EvalTooMany);
    }
    if !arg.cell[0].Qexpr? {
      return Err(EvalTypes);
    }
    SizeOfSingle(arg.cell[0]);
    var q := arg.Take(0);
    var x := new Container.Open(q);
    x.kind := SExpr;
    r := EvalSexprM(fp, x);
  }

  /** builtin: the dispatcher. */
  method BuiltinM(fp: FloatOps, arg: Container, func: string) returns (r: Token)
    requires arg.Valid() && arg.count >= 1 && NoMix(arg.Cells())
    modifies arg, arg.cell
    decreases SizeOf(arg.Cells()), 6
    ensures r == Builtin(fp, old(arg.Cells()), func)
  {
    if func == "list" {
      r := BuiltinList(arg);
    } else if func == "head" {
      r := BuiltinHead(arg);
    } else if func == "tail" {
      r := BuiltinTail(arg);
    } else if func == "join" {
      r := BuiltinJoin(arg);
    } else if func == "eval" {
      r := BuiltinEvalM(fp, arg);
    } else if Contains("+-*/", func) {
      r := BuiltinOp(fp, arg, func);
    } else {
      r := Err(UnknownFunction);
    }
  }
}
