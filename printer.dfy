/** The printer (parsing.c:145-185): token_print writes a token to standard output.
    Standard output is modelled as the text the printer returns. Numbers are written
    with `%li`, doubles with `%g` (the uninterpreted `fp.format`), errors after the
    prefix "Error: ", symbols as their name, and the cells of an S-expression or a
    Q-expression between `(` `)` or `{` `}`, separated by single spaces. */
module Printer {
  import opened Floats
  import opened Tokens
  import opened Text
  import opened Cells
  import opened Reader

  const ErrorPrefix := "Error: "

  /** What token_print writes for `t`. */
  function Print(fp: FloatOps, t: Token): (r: string)
    decreases t, 0
    ensures t.Err? ==> ErrorPrefix <= r
    ensures t.Sexpr? ==> |r| >= 2 && r[0] == '(' && r[|r| - 1] == ')'
    ensures t.Qexpr? ==> |r| >= 2 && r[0] == '{' && r[|r| - 1] == '}'
  {
    match t
    case Num(n) => IntToDecimal(n)
    case Float(d) => fp.format(d)
    case Err(m) => ErrorPrefix + m
    case Sym(s) => s
    case Sexpr(cs) => "(" + PrintCells(fp, cs) + ")"
    case Qexpr(cs) => "{" + PrintCells(fp, cs) + "}"
  }

  /** The cells as token_expr_print writes them between its brackets: a space after
      every cell but the last. */
  function PrintCells(fp: FloatOps, cs: seq<Token>): (r: string)
    decreases cs, 1
    ensures cs == [] ==> r == []
    ensures cs != [] ==> Print(fp, cs[0]) <= r
    ensures |cs| >= 2 ==> |r| > |Print(fp, cs[0])| && r[|Print(fp, cs[0])|] == ' '
  {
    if cs == [] then []
    else if |cs| == 1 then Print(fp, cs[0])
    else Print(fp, cs[0]) + " " + PrintCells(fp, cs[1..])
  }

  /** The brackets token_print passes to token_expr_print for each kind of expression. */
  function Open(k: Kind): char {
    if k == SExpr then '(' else '{'
  }

  function Close(k: Kind): char {
    if k == SExpr then ')' else '}'
  }

  lemma {:induction false} PrintCellsSnoc(fp: FloatOps, cs: seq<Token>, c: Token)
    ensures PrintCells(fp, cs + [c]) ==
      if cs == [] then Print(fp, c) else PrintCells(fp, cs) + " " + Print(fp, c)
  {
    if cs == [] {
      assert cs + [c] == [c];
    } else if |cs| == 1 {
      assert (cs + [c])[1..] == [c];
    } else {
      var head, rest, last := Print(fp, cs[0]), PrintCells(fp, cs[1..]), Print(fp, c);
      var d := cs + [c];
      assert d[0] == cs[0];
      assert d[1..] == cs[1..] + [c];
      PrintCellsSnoc(fp, cs[1..], c);
      assert PrintCells(fp, d) == (head + " ") + ((rest + " ") + last);
      AppendAssoc(head + " ", rest + " ", last);
      AppendAssoc(head + " ", rest, " ");
      assert PrintCells(fp, cs) == head + " " + rest;
    }
  }

  // ---- numbers print as text the reader reads back ----

  lemma DecimalCharacters(n: int)
    ensures forall i :: 0 <= i < |IntToDecimal(n)| ==>
      IntToDecimal(n)[i] == '-' || IsDigit(IntToDecimal(n)[i])
  {
    if n < 0 {
      var d := NatToDecimal(-n);
      assert forall i :: 1 <= i < |"-" + d| ==> ("-" + d)[i] == d[i - 1];
    }
  }

  /** `%li` never writes a decimal point, so the reader takes the text for an integer
      and, for every `long`, reads back the same number. */
  lemma PrintNumRoundTrip(fp: FloatOps, n: int)
    requires InLongRange(n)
    ensures !Contains(Print(fp, Num(n)), ".")
    ensures ReadNumber(fp, Print(fp, Num(n))) == Num(n)
  {
    DecimalCharacters(n);
    NoOccurrence(IntToDecimal(n), ".");
    ReadNumOfDecimal(n);
  }

  /** A number leaf of the parse tree whose text is what token_print wrote for `n`
      reads as `n` again. */
  lemma PrintThenRead(fp: FloatOps, n: int, leaf: Node)
    requires InLongRange(n)
    requires Contains(leaf.tag, "number") && leaf.contents == Print(fp, Num(n))
    ensures Read(fp, leaf) == Some(Num(n))
  {
    PrintNumRoundTrip(fp, n);
  }

  // ---- every expression prints as one pair of brackets ----

  predicate IsBracket(c: char) {
    c == '(' || c == ')' || c == '{' || c == '}'
  }

  /** Text with no bracket character. */
  predicate Plain(s: string) {
    forall i :: 0 <= i < |s| ==> !IsBracket(s[i])
  }

  /** Every symbol, error message and formatted double in the tree is plain text. */
  predicate PlainLeaves(fp: FloatOps, t: Token)
    decreases t
  {
    match t
    case Num(_) => true
    case Float(d) => Plain(fp.format(d))
    case Err(m) => Plain(m)
    case Sym(s) => Plain(s)
    case Sexpr(cs) => forall i :: 0 <= i < |cs| ==> PlainLeaves(fp, cs[i])
    case Qexpr(cs) => forall i :: 0 <= i < |cs| ==> PlainLeaves(fp, cs[i])
  }

  /** The number of expressions of kind `k` in the tree, `t` itself included. */
  function Nested(k: Kind, t: Token): nat
    decreases t, 0
  {
    match t
    case Sexpr(cs) => (if k == SExpr then 1 else 0) + NestedIn(k, cs)
    case Qexpr(cs) => (if k == QExpr then 1 else 0) + NestedIn(k, cs)
    case _ => 0
  }

  function NestedIn(k: Kind, cs: seq<Token>): nat
    decreases cs, 1
  {
    if cs == [] then 0 else Nested(k, cs[0]) + NestedIn(k, cs[1..])
  }

  function Count(s: string, c: char): nat {
    multiset(s)[c]
  }

  lemma PlainCount(s: string, c: char)
    requires Plain(s) && IsBracket(c)
    ensures Count(s, c) == 0
  {
    assert c !in s;
  }

  lemma LeafCount(s: string, c: char)
    requires (forall i :: 0 <= i < |s| ==> s[i] == '-' || IsDigit(s[i])) && IsBracket(c)
    ensures Count(s, c) == 0
  {
    assert c !in s;
  }

  /** The text between a pair of brackets. */
  lemma WrapCount(o: char, inner: string, e: char, c: char)
    ensures Count([o] + inner + [e], c) ==
      (if c == o then 1 else 0) + Count(inner, c) + (if c == e then 1 else 0)
  {
    assert multiset([o] + inner + [e]) == multiset{o} + multiset(inner) + multiset{e};
  }

  /** The cells with a space between each two. */
  lemma SpacedCount(a: string, b: string, c: char)
    requires c != ' '
    ensures Count(a + " " + b, c) == Count(a, c) + Count(b, c)
  {
    assert multiset(a + " " + b) == multiset(a) + multiset{' '} + multiset(b);
  }

  /** Each expression of the tree contributes exactly one opening and one closing
      bracket of its kind to the printed text, and nothing else does. */
  lemma {:induction false} PrintBrackets(fp: FloatOps, t: Token, k: Kind)
    requires PlainLeaves(fp, t)
    decreases t, 0
    ensures Count(Print(fp, t), Open(k)) == Nested(k, t)
    ensures Count(Print(fp, t), Close(k)) == Nested(k, t)
  {
    if IsContainer(t) {
      PrintCellsBrackets(fp, t.cells, k);
      ContainerBrackets(fp, t, k);
    } else {
      PrintLeafBrackets(fp, t, Open(k));
      PrintLeafBrackets(fp, t, Close(k));
    }
  }

  /** The brackets of a container come from its own pair and from its cells. */
  lemma ContainerBrackets(fp: FloatOps, t: Token, k: Kind)
    requires IsContainer(t)
    requires Count(PrintCells(fp, t.cells), Open(k)) == NestedIn(k, t.cells)
    requires Count(PrintCells(fp, t.cells), Close(k)) == NestedIn(k, t.cells)
    ensures Count(Print(fp, t), Open(k)) == Nested(k, t)
    ensures Count(Print(fp, t), Close(k)) == Nested(k, t)
  {
    var inner := PrintCells(fp, t.cells);
    var own := if t.Sexpr? then SExpr else QExpr;
    assert Print(fp, t) == [Open(own)] + inner + [Close(own)];
    assert Nested(k, t) == (if k == own then 1 else 0) + NestedIn(k, t.cells);
    WrapCount(Open(own), inner, Close(own), Open(k));
    WrapCount(Open(own), inner, Close(own), Close(k));
  }

  lemma PrintLeafBrackets(fp: FloatOps, t: Token, c: char)
    requires PlainLeaves(fp, t) && !IsContainer(t) && IsBracket(c)
    ensures Count(Print(fp, t), c) == 0
  {
    match t
    case Num(n) =>
      DecimalCharacters(n);
      LeafCount(IntToDecimal(n), c);
    case Float(d) =>
      PlainCount(fp.format(d), c);
    case Err(m) =>
      assert Plain(ErrorPrefix);
      assert Plain(ErrorPrefix + m);
      PlainCount(ErrorPrefix + m, c);
    case Sym(s) =>
      PlainCount(s, c);
  }

  lemma {:induction false} PrintCellsBrackets(fp: FloatOps, cs: seq<Token>, k: Kind)
    requires forall i :: 0 <= i < |cs| ==> PlainLeaves(fp, cs[i])
    decreases cs, 1
    ensures Count(PrintCells(fp, cs), Open(k)) == NestedIn(k, cs)
    ensures Count(PrintCells(fp, cs), Close(k)) == NestedIn(k, cs)
  {
    if cs != [] {
      PrintBrackets(fp, cs[0], k);
      assert forall i :: 0 <= i < |cs[1..]| ==> cs[1..][i] == cs[i + 1];
      PrintCellsBrackets(fp, cs[1..], k);
      ConsBrackets(fp, cs, k);
    }
  }

  /** The brackets of the cells come from the first cell and from the others. */
  lemma ConsBrackets(fp: FloatOps, cs: seq<Token>, k: Kind)
    requires cs != []
    requires Count(Print(fp, cs[0]), Open(k)) == Nested(k, cs[0])
    requires Count(Print(fp, cs[0]), Close(k)) == Nested(k, cs[0])
    requires Count(PrintCells(fp, cs[1..]), Open(k)) == NestedIn(k, cs[1..])
    requires Count(PrintCells(fp, cs[1..]), Close(k)) == NestedIn(k, cs[1..])
    ensures Count(PrintCells(fp, cs), Open(k)) == NestedIn(k, cs)
    ensures Count(PrintCells(fp, cs), Close(k)) == NestedIn(k, cs)
  {
    if |cs| == 1 {
      assert cs[1..] == [];
    } else {
      SpacedCount(Print(fp, cs[0]), PrintCells(fp, cs[1..]), Open(k));
      SpacedCount(Print(fp, cs[0]), PrintCells(fp, cs[1..]), Close(k));
    }
  }

  // ---- the printer as written: output appended character by character ----

  /** token_print. */
  method PrintM(fp: FloatOps, t: Token) returns (out: string)
    decreases Size(t), 0
    ensures out == Print(fp, t)
  {
    match t {
      case Num(n) => out := IntToDecimal(n);
      case Float(d) => out := fp.format(d);
      case Err(m) => out := ErrorPrefix + m;
      case Sym(s) => out := s;
      case Sexpr(cs) => out := ExprPrintM(fp, cs, '(', ')');
      case Qexpr(cs) => out := ExprPrintM(fp, cs, '{', '}');
    }
  }

  /** The space token_expr_print writes after cell `i - 1` of `n`. */
  function Gap(i: nat, n: nat): string {
    if 0 < i < n then " " else ""
  }

  /** token_expr_print: the opening bracket, each cell followed by a space unless it
      is the last, and the closing bracket. */
  method ExprPrintM(fp: FloatOps, cs: seq<Token>, open: char, close: char) returns (out: string)
    decreases SizeOf(cs), 1
    ensures out == [open] + PrintCells(fp, cs) + [close]
  {
    out := [open];
    var i := 0;
    while i < |cs|
      invariant 0 <= i <= |cs|
      invariant out == [open] + PrintCells(fp, cs[..i]) + Gap(i, |cs|)
    {
      SizeOfElement(cs, i);
      var p := PrintM(fp, cs[i]);
      ExprPrintStep(fp, cs, i, open, out, p);
      out := out + p + Gap(i + 1, |cs|);
      i := i + 1;
    }
    assert cs[..i] == cs;
    assert Gap(i, |cs|) == [];
    out := out + [close];
  }

  lemma ExprPrintStep(fp: FloatOps, cs: seq<Token>, i: nat, open: char, out: string, p: string)
    requires i < |cs| && p == Print(fp, cs[i])
    requires out == [open] + PrintCells(fp, cs[..i]) + Gap(i, |cs|)
    ensures out + p + Gap(i + 1, |cs|) == [open] + PrintCells(fp, cs[..i + 1]) + Gap(i + 1, |cs|)
  {
    var pre := PrintCells(fp, cs[..i]);
    assert cs[..i + 1] == cs[..i] + [cs[i]];
    PrintCellsSnoc(fp, cs[..i], cs[i]);
    if i == 0 {
      assert cs[..i] == [];
      assert pre == [] && Gap(i, |cs|) == [];
      assert out == [open];
      assert PrintCells(fp, cs[..i + 1]) == p;
    } else {
      assert PrintCells(fp, cs[..i + 1]) == pre + " " + p;
      assert Gap(i, |cs|) == " ";
      AppendAssoc([open], pre, " ");
      AppendAssoc([open], pre + " ", p);
    }
  }

  /** token_println: the token followed by a newline. */
  method PrintLineM(fp: FloatOps, t: Token) returns (out: string)
    ensures out == Print(fp, t) + "\n"
  {
    out := PrintM(fp, t);
    out := out + "\n";
  }
}
