/** The reader (parsing.c:87-143): token_read turns the parse tree that the mpc
    grammar of parsing.c:426-436 produces into a token. The parse tree is a plain
    value here: each node has a tag (such as "expr|number|regex"), the text it
    matched and its children.

    As written, the reader skips the `(`, `)` and `regex` children of a node but not
    the `{` and `}` that delimit a Q-expression. Reading such a leaf gives NULL, which
    is stored as a cell. `ReadAsWritten` models that code; `Read` is the evidently
    intended reader, which skips the braces too, and the rest of the model uses it. */
module Reader {
  import opened Floats
  import opened Tokens
  import opened Text
  import opened Cells

  datatype Node = Node(tag: string, contents: string, children: seq<Node>)

  const InvalidNumber := "Invalid Number"

  /** token_read_num: `strtol`, with ERANGE reported as an error token. */
  function ReadNum(s: string): (r: Token)
    ensures r == Err(InvalidNumber) <==> StrToL(s).1
    ensures r.Num? <==> !StrToL(s).1
    ensures r.Num? ==> InLongRange(r.num) && r.num == StrToL(s).0
  {
    var (x, erange) := StrToL(s);
    if erange then Err(InvalidNumber) else Num(x)
  }

  /** token_read_float: `strtod`, with ERANGE reported as an error token. */
  function ReadFloat(fp: FloatOps, s: string): (r: Token)
    ensures r == Err(InvalidNumber) <==> fp.strtod(s).1
    ensures r.Float? <==> !fp.strtod(s).1
    ensures r.Float? ==> r.frac == fp.strtod(s).0
  {
    var (x, erange) := fp.strtod(s);
    if erange then Err(InvalidNumber) else Float(x)
  }

  /** A number leaf with a `.` in its text is read as a FLOAT, any other as a NUM. */
  function ReadNumber(fp: FloatOps, s: string): (r: Token)
    ensures Contains(s, ".") ==> r == ReadFloat(fp, s)
    ensures !Contains(s, ".") ==> r == ReadNum(s)
  {
    if Contains(s, ".") then ReadFloat(fp, s) else ReadNum(s)
  }

  /** The container token_read creates for a tag: each later test overrides an earlier
      one, so "qexpr" wins over "sexpr", which wins over the root tag ">". */
  function KindOf(tag: string): (k: Option<Kind>)
    ensures k == Some(QExpr) <==> Contains(tag, "qexpr")
    ensures k == Some(SExpr) <==> !Contains(tag, "qexpr") && (Contains(tag, "sexpr") || tag == ">")
  {
    if Contains(tag, "qexpr") then Some(QExpr)
    else if Contains(tag, "sexpr") || tag == ">" then Some(SExpr)
    else None
  }

  function Container(k: Kind, cs: seq<Token>): (t: Token)
    ensures IsContainer(t) && t.cells == cs && (t.Qexpr? <==> k == QExpr)
  {
    if k == QExpr then Qexpr(cs) else Sexpr(cs)
  }

  /** The children the loop of token_read skips, as written. */
  predicate SkippedAsWritten(c: Node) {
    c.contents == "(" || c.contents == ")" || c.tag == "regex"
  }

  /** The children the reader is meant to skip: the brackets of both kinds of
      expression, and the `^`/`$` anchors of the root. */
  predicate Skipped(c: Node) {
    c.contents in {"(", ")", "{", "}"} || c.tag == "regex"
  }

  function Prepend(t: Token, rest: Option<seq<Token>>): Option<seq<Token>> {
    if rest.Some? then Some([t] + rest.value) else None
  }

  /** The intended token_read. `None` stands for the NULL the code returns for a node
      whose tag names no token, and for every tree that holds such a node. */
  function Read(fp: FloatOps, n: Node): (r: Option<Token>)
    decreases n, |n.children| + 1
    ensures Contains(n.tag, "number") ==> r == Some(ReadNumber(fp, n.contents))
    ensures !Contains(n.tag, "number") && Contains(n.tag, "symbol") ==> r == Some(Sym(n.contents))
    ensures r.Some? && r.value.Sexpr? ==> !Contains(n.tag, "number") && !Contains(n.tag, "symbol")
    ensures !Contains(n.tag, "number") && !Contains(n.tag, "symbol") && KindOf(n.tag).None? ==> r.None?
    ensures !Contains(n.tag, "number") && !Contains(n.tag, "symbol") && KindOf(n.tag).Some? ==>
      (r.Some? <==> ReadFrom(fp, n, 0).Some?) &&
      (r.Some? ==> r.value == Container(KindOf(n.tag).value, ReadFrom(fp, n, 0).value))
  {
    if Contains(n.tag, "number") then Some(ReadNumber(fp, n.contents))
    else if Contains(n.tag, "symbol") then Some(Sym(n.contents))
    else
      match KindOf(n.tag)
      case None => None
      case Some(k) =>
        match ReadFrom(fp, n, 0)
        case None => None
        case Some(cs) => Some(Container(k, cs))
  }

  /** The tokens of the children `n.children[i..]` that are not skipped, in order. */
  function ReadFrom(fp: FloatOps, n: Node, i: nat): (r: Option<seq<Token>>)
    requires i <= |n.children|
    decreases n, |n.children| - i
  {
    if i == |n.children| then Some([])
    else if Skipped(n.children[i]) then ReadFrom(fp, n, i + 1)
    else
      match Read(fp, n.children[i])
      case None => None
      case Some(t) => Prepend(t, ReadFrom(fp, n, i + 1))
  }

  /** The children that are not skipped, in their order. */
  function Kept(cs: seq<Node>): (ks: seq<Node>)
    ensures |ks| <= |cs|
    ensures forall j :: 0 <= j < |ks| ==> !Skipped(ks[j])
  {
    if cs == [] then [] else (if Skipped(cs[0]) then [] else [cs[0]]) + Kept(cs[1..])
  }

  /** Every node of `ks` reads as a token. */
  predicate AllRead(fp: FloatOps, ks: seq<Node>) {
    forall j :: 0 <= j < |ks| ==> Read(fp, ks[j]).Some?
  }

  /** The nodes `ks` read as the tokens `ts`, one for one. */
  predicate ReadsAs(fp: FloatOps, ks: seq<Node>, ts: seq<Token>) {
    |ks| == |ts| && forall j :: 0 <= j < |ks| ==> Read(fp, ks[j]) == Some(ts[j])
  }

  lemma ConsAllRead(fp: FloatOps, c: Node, ks: seq<Node>)
    ensures AllRead(fp, [c] + ks) <==> Read(fp, c).Some? && AllRead(fp, ks)
  {
    var cs := [c] + ks;
    assert cs[0] == c;
    assert forall j :: 1 <= j < |cs| ==> cs[j] == ks[j - 1];
    if Read(fp, c).Some? && !AllRead(fp, ks) {
      var j :| 0 <= j < |ks| && !Read(fp, ks[j]).Some?;
      assert !Read(fp, cs[j + 1]).Some?;
    }
  }

  lemma ConsReadsAs(fp: FloatOps, c: Node, ks: seq<Node>, t: Token, ts: seq<Token>)
    requires Read(fp, c) == Some(t) && ReadsAs(fp, ks, ts)
    ensures ReadsAs(fp, [c] + ks, [t] + ts)
  {
    var cs, us := [c] + ks, [t] + ts;
    forall j | 0 <= j < |cs|
      ensures Read(fp, cs[j]) == Some(us[j])
    {
      if j > 0 {
        assert cs[j] == ks[j - 1] && us[j] == ts[j - 1];
      }
    }
  }

  /** The loop of token_read collects a token for every child that is not skipped, in
      order, and fails exactly when one of those children gives no token. */
  lemma {:induction false} ReadFromKept(fp: FloatOps, n: Node, i: nat)
    requires i <= |n.children|
    decreases |n.children| - i
    ensures ReadFrom(fp, n, i).Some? <==> AllRead(fp, Kept(n.children[i..]))
    ensures ReadFrom(fp, n, i).Some? ==> ReadsAs(fp, Kept(n.children[i..]), ReadFrom(fp, n, i).value)
  {
    if i == |n.children| {
      assert n.children[i..] == [];
    } else {
      var c := n.children[i];
      assert n.children[i..] == [c] + n.children[i + 1..];
      ReadFromKept(fp, n, i + 1);
      KeptCons(c, n.children[i + 1..]);
      var ks := Kept(n.children[i + 1..]);
      if Skipped(c) {
        assert ReadFrom(fp, n, i) == ReadFrom(fp, n, i + 1);
        assert Kept(n.children[i..]) == ks;
      } else {
        assert Kept(n.children[i..]) == [c] + ks;
        ConsAllRead(fp, c, ks);
        var rest := ReadFrom(fp, n, i + 1);
        if Read(fp, c).None? {
          assert ReadFrom(fp, n, i).None?;
        } else if rest.None? {
          assert ReadFrom(fp, n, i).None?;
        } else {
          assert ReadFrom(fp, n, i) == Some([Read(fp, c).value] + rest.value);
          ConsReadsAs(fp, c, ks, Read(fp, c).value, rest.value);
        }
      }
    }
  }

  lemma KeptCons(c: Node, cs: seq<Node>)
    ensures Kept([c] + cs) == (if Skipped(c) then [] else [c]) + Kept(cs)
  {
    assert ([c] + cs)[1..] == cs;
  }

  // ---- the reader as written ----

  /** What token_read as written produces: a token, NULL, a token tree in which some
      container holds a NULL cell, or a call of token_add on NULL. */
  datatype Raw = Built(t: Token) | Null | NullCell | AddToNull

  /** `x = token_add(x, r)` in token_read's loop, where `r` is what reading the child
      gave. Reading the child comes first. */
  function AddRaw(x: Raw, r: Raw): (y: Raw)
    ensures y.Built? <==> x.Built? && IsContainer(x.t) && r.Built?
    ensures y.Built? ==> x.Built? && IsContainer(x.t) && r.Built? && IsContainer(y.t)
    ensures y.Built? ==> y.t.cells == x.t.cells + [r.t] && (y.t.Qexpr? <==> x.t.Qexpr?)
  {
    if x.AddToNull? || r.AddToNull? then AddToNull
    else if x.Null? then AddToNull
    else if x.NullCell? then NullCell
    else if !IsContainer(x.t) then NullCell
    else if r.Built? then Built(if x.t.Qexpr? then Qexpr(x.t.cells + [r.t]) else Sexpr(x.t.cells + [r.t]))
    else NullCell
  }

  /** token_read as written. A number or a symbol leaf is converted directly; a tag
      that names no container gives no token; any token it gives for another node is a
      container of the kind the tag names. */
  function ReadAsWritten(fp: FloatOps, n: Node): (r: Raw)
    decreases n, |n.children| + 1
    ensures Contains(n.tag, "number") ==> r == Built(ReadNumber(fp, n.contents))
    ensures !Contains(n.tag, "number") && Contains(n.tag, "symbol") ==> r == Built(Sym(n.contents))
    ensures !Contains(n.tag, "number") && !Contains(n.tag, "symbol") && KindOf(n.tag).None? ==> !r.Built?
    ensures !Contains(n.tag, "number") && !Contains(n.tag, "symbol") && r.Built? ==>
      KindOf(n.tag).Some? && IsContainer(r.t) && (r.t.Qexpr? <==> KindOf(n.tag) == Some(QExpr))
  {
    if Contains(n.tag, "number") then Built(ReadNumber(fp, n.contents))
    else if Contains(n.tag, "symbol") then Built(Sym(n.contents))
    else
      var x := match KindOf(n.tag) case None => Null case Some(k) => Built(Container(k, []));
      AsWrittenFrom(fp, n, 0, x)
  }

  /** The loop of token_read from child `i` on, with `x` the value so far. */
  function AsWrittenFrom(fp: FloatOps, n: Node, i: nat, x: Raw): (r: Raw)
    requires i <= |n.children|
    decreases n, |n.children| - i
    ensures !x.Built? ==> !r.Built?
    ensures r.Built? ==> x.Built? && IsContainer(x.t) == IsContainer(r.t) && (r.t.Qexpr? <==> x.t.Qexpr?)
    ensures r.Built? && IsContainer(x.t) ==> x.t.cells <= r.t.cells
  {
    if i == |n.children| then x
    else if SkippedAsWritten(n.children[i]) then AsWrittenFrom(fp, n, i + 1, x)
    else AsWrittenFrom(fp, n, i + 1, AddRaw(x, ReadAsWritten(fp, n.children[i])))
  }

  /** No node of the tree is a `{` or `}` leaf. */
  predicate NoBraces(n: Node) {
    n.contents != "{" && n.contents != "}" &&
    forall i :: 0 <= i < |n.children| ==> NoBraces(n.children[i])
  }

  lemma {:induction false} NotBuiltStays(fp: FloatOps, n: Node, i: nat, x: Raw)
    requires i <= |n.children| && !x.Built?
    decreases |n.children| - i
    ensures !AsWrittenFrom(fp, n, i, x).Built?
  {
    if i < |n.children| {
      if SkippedAsWritten(n.children[i]) {
        NotBuiltStays(fp, n, i + 1, x);
      } else {
        NotBuiltStays(fp, n, i + 1, AddRaw(x, ReadAsWritten(fp, n.children[i])));
      }
    }
  }

  /** The as-written outcome `x` and the intended outcome `r` describe the same
      token, or neither is a token. */
  predicate Agree(x: Raw, r: Option<Token>) {
    if r.Some? then x == Built(r.value) else !x.Built?
  }

  /** The same, for the loop: `x` is the container read so far holding `acc`. */
  predicate AgreeCells(x: Raw, k: Kind, acc: seq<Token>, r: Option<seq<Token>>) {
    if r.Some? then x == Built(Container(k, acc + r.value)) else !x.Built?
  }

  /** On a tree without brace leaves the code as written and the intended reader
      agree: both give the same token, or neither gives one. */
  lemma {:induction false} AgreeWithoutBraces(fp: FloatOps, n: Node)
    requires NoBraces(n)
    decreases n, |n.children| + 1
    ensures Agree(ReadAsWritten(fp, n), Read(fp, n))
  {
    if !Contains(n.tag, "number") && !Contains(n.tag, "symbol") {
      match KindOf(n.tag)
      case None =>
        NotBuiltStays(fp, n, 0, Null);
      case Some(k) =>
        AgreeFrom(fp, n, 0, k, []);
    }
  }

  lemma {:induction false} AgreeFrom(fp: FloatOps, n: Node, i: nat, k: Kind, acc: seq<Token>)
    requires i <= |n.children| && NoBraces(n)
    decreases n, |n.children| - i
    ensures AgreeCells(AsWrittenFrom(fp, n, i, Built(Container(k, acc))), k, acc, ReadFrom(fp, n, i))
  {
    if i == |n.children| {
      assert acc + [] == acc;
    } else {
      var c := n.children[i];
      assert NoBraces(c);
      assert SkippedAsWritten(c) == Skipped(c);
      if Skipped(c) {
        AgreeFrom(fp, n, i + 1, k, acc);
      } else {
        AgreeWithoutBraces(fp, c);
        AgreeChild(fp, n, i, k, acc);
      }
    }
  }

  lemma {:induction false} AgreeChild(fp: FloatOps, n: Node, i: nat, k: Kind, acc: seq<Token>)
    requires i < |n.children| && NoBraces(n) && !Skipped(n.children[i]) && !SkippedAsWritten(n.children[i])
    requires Agree(ReadAsWritten(fp, n.children[i]), Read(fp, n.children[i]))
    decreases n, |n.children| - i, 1
    ensures AgreeCells(AsWrittenFrom(fp, n, i, Built(Container(k, acc))), k, acc, ReadFrom(fp, n, i))
  {
    var r := ReadAsWritten(fp, n.children[i]);
    if r.Built? {
      AgreeBuiltChild(fp, n, i, k, acc, r.t);
    } else {
      NotBuiltStays(fp, n, i + 1, AddRaw(Built(Container(k, acc)), r));
    }
  }

  lemma {:induction false} AgreeBuiltChild(fp: FloatOps, n: Node, i: nat, k: Kind, acc: seq<Token>, t: Token)
    requires i < |n.children| && NoBraces(n) && !SkippedAsWritten(n.children[i])
    requires ReadAsWritten(fp, n.children[i]) == Built(t) && Read(fp, n.children[i]) == Some(t)
    requires ReadFrom(fp, n, i) == Prepend(t, ReadFrom(fp, n, i + 1))
    decreases n, |n.children| - i, 0
    ensures AgreeCells(AsWrittenFrom(fp, n, i, Built(Container(k, acc))), k, acc, ReadFrom(fp, n, i))
  {
    var acc' := acc + [t];
    var x := Built(Container(k, acc));
    var y := AsWrittenFrom(fp, n, i + 1, Built(Container(k, acc')));
    assert AsWrittenFrom(fp, n, i, x) == y by {
      AddToContainer(k, acc, t);
    }
    AgreeFrom(fp, n, i + 1, k, acc');
    AgreeCellsCons(y, k, acc, t, ReadFrom(fp, n, i + 1));
  }

  lemma AgreeCellsCons(y: Raw, k: Kind, acc: seq<Token>, t: Token, rest: Option<seq<Token>>)
    requires AgreeCells(y, k, acc + [t], rest)
    ensures AgreeCells(y, k, acc, Prepend(t, rest))
  {
    if rest.Some? {
      assert (acc + [t]) + rest.value == acc + ([t] + rest.value);
    }
  }

  lemma AddToContainer(k: Kind, acc: seq<Token>, t: Token)
    ensures AddRaw(Built(Container(k, acc)), Built(t)) == Built(Container(k, acc + [t]))
  {
  }

  /** A leaf as the grammar produces it for the `{` and `}` of a Q-expression: a
      character node whose tag names no token and no container. */
  predicate BraceLeaf(c: Node, brace: string) {
    c.contents == brace && c.children == [] && c.tag != "regex" && c.tag != ">" &&
    !Contains(c.tag, "number") && !Contains(c.tag, "symbol") &&
    !Contains(c.tag, "sexpr") && !Contains(c.tag, "qexpr")
  }

  /** A Q-expression node as the grammar `qexpr: '{' <expr>* '}'` produces it. */
  predicate QexprNode(n: Node) {
    Contains(n.tag, "qexpr") && !Contains(n.tag, "number") && !Contains(n.tag, "symbol") &&
    |n.children| >= 2 && BraceLeaf(n.children[0], "{") && BraceLeaf(n.children[|n.children| - 1], "}")
  }

  /** As written, no Q-expression is ever read into a token: its `{` leaf is read as
      NULL and stored as its first cell. */
  lemma QexprNeverBuilt(fp: FloatOps, n: Node)
    requires QexprNode(n)
    ensures !ReadAsWritten(fp, n).Built?
    ensures ReadAsWritten(fp, n) == NullCell || ReadAsWritten(fp, n) == AddToNull
  {
    var c := n.children[0];
    assert AsWrittenFrom(fp, c, 0, Null) == Null;
    assert ReadAsWritten(fp, c) == Null;
    var x := Built(Qexpr([]));
    assert AddRaw(x, Null) == NullCell;
    RawStaysBroken(fp, n, 1, NullCell);
  }

  lemma {:induction false} RawStaysBroken(fp: FloatOps, n: Node, i: nat, x: Raw)
    requires i <= |n.children| && (x == NullCell || x == AddToNull)
    decreases |n.children| - i
    ensures AsWrittenFrom(fp, n, i, x) == NullCell || AsWrittenFrom(fp, n, i, x) == AddToNull
  {
    if i < |n.children| {
      if SkippedAsWritten(n.children[i]) {
        RawStaysBroken(fp, n, i + 1, x);
      } else {
        RawStaysBroken(fp, n, i + 1, AddRaw(x, ReadAsWritten(fp, n.children[i])));
      }
    }
  }

  /** A node of three children whose first and last are skipped: the value is the
      middle child's, wrapped in the container the tag names. */
  lemma {:induction false} Bracketed(fp: FloatOps, n: Node, k: Kind, t: Token)
    requires !Contains(n.tag, "number") && !Contains(n.tag, "symbol") && KindOf(n.tag) == Some(k)
    requires |n.children| == 3 && Skipped(n.children[0]) && Skipped(n.children[2])
    requires !Skipped(n.children[1]) && Read(fp, n.children[1]) == Some(t)
    ensures Read(fp, n) == Some(Container(k, [t]))
  {
    assert ReadFrom(fp, n, 3) == Some([]);
    assert ReadFrom(fp, n, 2) == Some([]);
    assert ReadFrom(fp, n, 1) == Prepend(t, ReadFrom(fp, n, 2));
    assert [t] + [] == [t];
    assert ReadFrom(fp, n, 0) == ReadFrom(fp, n, 1);
  }

  /** As written, a root whose only child that is not skipped is read into NULL cells
      is itself not read into a token. */
  lemma {:induction false} BracketedAsWritten(fp: FloatOps, n: Node)
    requires !Contains(n.tag, "number") && !Contains(n.tag, "symbol") && KindOf(n.tag) == Some(SExpr)
    requires |n.children| == 3 && SkippedAsWritten(n.children[0])
    requires !SkippedAsWritten(n.children[1]) && !ReadAsWritten(fp, n.children[1]).Built?
    ensures !ReadAsWritten(fp, n).Built?
  {
    var x := Built(Sexpr([]));
    assert ReadAsWritten(fp, n) == AsWrittenFrom(fp, n, 0, x);
    assert AsWrittenFrom(fp, n, 0, x) == AsWrittenFrom(fp, n, 1, x);
    var y := AddRaw(x, ReadAsWritten(fp, n.children[1]));
    assert AsWrittenFrom(fp, n, 1, x) == AsWrittenFrom(fp, n, 2, y);
    NotBuiltStays(fp, n, 2, y);
  }

  /** A leaf node, given field by field. */
  predicate Leaf(c: Node, tag: string, contents: string) {
    c.tag == tag && c.contents == contents && c.children == []
  }

  /** The Q-expression node of `{1}`, given field by field. */
  predicate OneQexpr(q: Node) {
    q.tag == "expr|qexpr|>" && q.contents == "" && |q.children| == 3 &&
    Leaf(q.children[0], "char", "{") && Leaf(q.children[1], "expr|number|regex", "1") &&
    Leaf(q.children[2], "char", "}")
  }

  /** The parse tree of the input `{1}`: the root `>` with the `^` and `$` anchors
      around one Q-expression node, which holds the `{` leaf, the number leaf `1`
      and the `}` leaf. */
  predicate OneInBraces(n: Node) {
    n.tag == ">" && n.contents == "" && |n.children| == 3 &&
    Leaf(n.children[0], "regex", "") && Leaf(n.children[2], "regex", "") &&
    OneQexpr(n.children[1])
  }

  /** The input `{1}`: as written it gives containers with NULL cells, while the
      intended reader gives the S-expression holding the Q-expression `{1}`. */
  lemma BracesExample(fp: FloatOps, n: Node)
    requires OneInBraces(n)
    ensures !ReadAsWritten(fp, n).Built?
    ensures Read(fp, n) == Some(Sexpr([Qexpr([Num(1)])]))
  {
    var q := n.children[1];
    ExampleQexpr(fp, q);
    RootTag();
    Bracketed(fp, n, SExpr, Qexpr([Num(1)]));
    BracketedAsWritten(fp, n);
  }

  lemma ExampleQexpr(fp: FloatOps, q: Node)
    requires OneQexpr(q)
    ensures Read(fp, q) == Some(Qexpr([Num(1)]))
    ensures !ReadAsWritten(fp, q).Built?
    ensures !Skipped(q) && !SkippedAsWritten(q)
  {
    ExampleQexprRead(fp, q);
    ExampleQexprRaw(fp, q);
  }

  lemma ExampleQexprRead(fp: FloatOps, q: Node)
    requires OneQexpr(q)
    ensures Read(fp, q) == Some(Qexpr([Num(1)]))
  {
    ExampleNumber(fp, q.children[1]);
    QexprTag();
    CharTag();
    Bracketed(fp, q, QExpr, Num(1));
  }

  lemma ExampleQexprRaw(fp: FloatOps, q: Node)
    requires OneQexpr(q)
    ensures !ReadAsWritten(fp, q).Built?
    ensures !Skipped(q) && !SkippedAsWritten(q)
  {
    ExampleQexprShape(q);
    QexprNeverBuilt(fp, q);
  }

  lemma ExampleQexprShape(q: Node)
    requires OneQexpr(q)
    ensures QexprNode(q)
  {
    QexprTag();
    CharTag();
  }

  lemma ExampleNumber(fp: FloatOps, one: Node)
    requires Leaf(one, "expr|number|regex", "1")
    ensures Read(fp, one) == Some(Num(1))
    ensures !Skipped(one) && !SkippedAsWritten(one)
  {
    NumberTag();
    OneText();
  }

  lemma NumberTag()
    ensures Contains("expr|number|regex", "number")
  {
    ContainsAt("expr|number|regex", "number", 5);
  }

  lemma OneText()
    ensures !Contains("1", ".") && StrToL("1") == (1, false)
  {
    NoOccurrence("1", ".");
    StrToLOfDecimal(1);
    assert IntToDecimal(1) == "1";
  }

  lemma CharTag()
    ensures !Contains("char", "number") && !Contains("char", "symbol")
    ensures !Contains("char", "sexpr") && !Contains("char", "qexpr")
  {
    NoOccurrence("char", "number");
    NoOccurrence("char", "symbol");
    NoOccurrence("char", "sexpr");
    NoOccurrence("char", "qexpr");
  }

  lemma RootTag()
    ensures !Contains(">", "number") && !Contains(">", "symbol") && !Contains(">", "qexpr")
  {
    NoOccurrence(">", "number");
    NoOccurrence(">", "symbol");
    NoOccurrence(">", "qexpr");
  }

  lemma QexprTag()
    ensures Contains("expr|qexpr|>", "qexpr")
    ensures !Contains("expr|qexpr|>", "number") && !Contains("expr|qexpr|>", "symbol")
  {
    QexprTagNamesQexpr();
    QexprTagLacks("number");
    QexprTagLacks("symbol");
  }

  lemma QexprTagNamesQexpr()
    ensures Contains("expr|qexpr|>", "qexpr")
  {
    ContainsAt("expr|qexpr|>", "qexpr", 5);
  }

  lemma QexprTagLacks(needle: string)
    requires needle == "number" || needle == "symbol"
    ensures !Contains("expr|qexpr|>", needle)
  {
    NoOccurrence("expr|qexpr|>", needle);
  }

  /** A needle found at position `i` is contained. */
  lemma ContainsAt(hay: string, needle: string, i: nat)
    requires i + |needle| <= |hay| && hay[i..i + |needle|] == needle
    ensures Contains(hay, needle)
  {
    assert needle <= hay[i..];
    ContainsIff(hay, needle);
  }

  /** A string shorter than the needle, or one in which the needle's first letter
      never occurs, does not contain it. */
  lemma NoOccurrence(hay: string, needle: string)
    requires needle != []
    requires |hay| < |needle| || forall i :: 0 <= i < |hay| ==> hay[i] != needle[0]
    ensures !Contains(hay, needle)
  {
    ContainsIff(hay, needle);
  }

  // ---- what the intended reader reads ----

  /** Reading back the text `%li` prints for a `long` gives that number. */
  lemma ReadNumOfDecimal(n: int)
    requires InLongRange(n)
    ensures ReadNum(IntToDecimal(n)) == Num(n)
  {
    StrToLOfDecimal(n);
  }

  /** Text outside the range of `long` is an error token, not a clamped number. */
  lemma ReadNumOutOfRange(s: string)
    requires AllDigits(s) && s != [] && DigitsValue(s) > LongMax
    ensures ReadNum(s) == Err(InvalidNumber)
  {
    DigitRunAll(s);
    assert IsDigit(s[0]);
    assert SkipSpace(s) == s;
    assert s[..DigitRun(s)] == s;
    var m := DigitsValue(s);
    assert !InLongRange(m);
    assert StrToL(s) == (LongMax, true);
  }

  function Prepend2(ts: seq<Token>, rest: Option<seq<Token>>): Option<seq<Token>> {
    if rest.Some? then Some(ts + rest.value) else None
  }

  /** One pass of token_read's loop, in terms of what remains to be read. */
  lemma ReadFromStep(fp: FloatOps, n: Node, i: nat, ts: seq<Token>)
    requires i < |n.children|
    ensures Skipped(n.children[i]) ==> ReadFrom(fp, n, i) == ReadFrom(fp, n, i + 1)
    ensures !Skipped(n.children[i]) && Read(fp, n.children[i]).None? ==> ReadFrom(fp, n, i) == None
    ensures !Skipped(n.children[i]) && Read(fp, n.children[i]).Some? ==>
      Prepend2(ts, ReadFrom(fp, n, i)) ==
      Prepend2(ts + [Read(fp, n.children[i]).value], ReadFrom(fp, n, i + 1))
  {
    var rest := ReadFrom(fp, n, i + 1);
    if !Skipped(n.children[i]) && Read(fp, n.children[i]).Some? && rest.Some? {
      var t := Read(fp, n.children[i]).value;
      assert ts + ([t] + rest.value) == (ts + [t]) + rest.value;
    }
  }

  /** The corrected reader, written imperatively like token_read: a number or a symbol
      leaf is converted directly; otherwise a fresh container is built from the
      children. */
  method ReadM(fp: FloatOps, n: Node) returns (r: Option<Token>)
    decreases n, 2
    ensures r == Read(fp, n)
  {
    if Contains(n.tag, "number") {
      if Contains(n.contents, ".") {
        return Some(ReadFloat(fp, n.contents));
      }
      return Some(ReadNum(n.contents));
    }
    if Contains(n.tag, "symbol") {
      return Some(Sym(n.contents));
    }
    var k := KindOf(n.tag);
    if k.None? {
      return None;
    }
    var cs := ReadChildrenM(fp, n);
    if cs.None? {
      return None;
    }
    r := Some(Container(k.value, cs.value));
  }

  /** The loop of the corrected reader: the reading of every child that is not skipped
      (braces included) is appended, in order, to the new container. */
  method ReadChildrenM(fp: FloatOps, n: Node) returns (r: Option<seq<Token>>)
    decreases n, 1
    ensures r == ReadFrom(fp, n, 0)
  {
    var x := new Container.Empty(SExpr);
    var i := 0;
    if ReadFrom(fp, n, 0).Some? {
      assert [] + ReadFrom(fp, n, 0).value == ReadFrom(fp, n, 0).value;
    }
    while i < |n.children|
      invariant 0 <= i <= |n.children|
      invariant x.Valid()
      invariant ReadFrom(fp, n, 0) == Prepend2(x.Cells(), ReadFrom(fp, n, i))
    {
      var ok := ReadChildM(fp, n, i, x);
      if !ok {
        return None;
      }
      i := i + 1;
    }
    assert x.Cells() + [] == x.Cells();
    r := Some(x.Cells());
  }

  /** One pass of the corrected reader's loop: child `i` is skipped, or read and added
      to `x`; `ok` is false when reading it gave no token, which makes the whole reading
      give none (the code as written adds the NULL as a cell and goes on). */
  method ReadChildM(fp: FloatOps, n: Node, i: nat, x: Container) returns (ok: bool)
    requires i < |n.children| && x.Valid()
    modifies x
    decreases n, 0
    ensures x.Valid()
    ensures !ok ==> Prepend2(old(x.Cells()), ReadFrom(fp, n, i)) == None
    ensures ok ==> Prepend2(old(x.Cells()), ReadFrom(fp, n, i)) == Prepend2(x.Cells(), ReadFrom(fp, n, i + 1))
  {
    var c := n.children[i];
    ReadFromStep(fp, n, i, x.Cells());
    if Skipped(c) {
      return true;
    }
    var t := ReadM(fp, c);
    if t.None? {
      return false;
    }
    x.Add(t.value);
    ok := true;
  }
}
