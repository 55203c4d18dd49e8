/** A container token in memory: its `type` tag (SEXPR or QEXPR), its `cell` array and
    its `count` (parsing.c:99-104, 187-208). The operations move tokens in and out;
    none of them copies a token. */
module Cells {
  import opened Tokens

  datatype Kind = SExpr | QExpr

  class Container {
    var kind: Kind
    var cell: array<Token>
    var count: nat

    ghost predicate Valid()
      reads this
    {
      count <= cell.Length
    }

    /** The cells in order: `cell[0] .. cell[count-1]`. */
    function Cells(): (s: seq<Token>)
      reads this, cell
      requires Valid()
      ensures |s| == count
    {
      cell[..count]
    }

    /** The container seen as a token value. */
    function AsToken(): (t: Token)
      reads this, cell
      requires Valid()
      ensures IsContainer(t) && t.cells == Cells()
      ensures t.Qexpr? <==> kind == QExpr
    {
      if kind == QExpr then Qexpr(Cells()) else Sexpr(Cells())
    }

    /** token_sexpr() and token_qexpr(): a container with no cells. */
    constructor Empty(k: Kind)
      ensures Valid() && fresh(cell)
      ensures kind == k && Cells() == []
    {
      kind := k;
      cell := new Token[0];
      count := 0;
    }

    /** The container that the token value `t` stands for. */
    constructor Open(t: Token)
      requires IsContainer(t)
      ensures Valid() && fresh(cell)
      ensures AsToken() == t
    {
      kind := if t.Qexpr? then QExpr else SExpr;
      var a := new Token[|t.cells|];
      forall i | 0 <= i < |t.cells| {
        a[i] := t.cells[i];
      }
      cell := a;
      count := |t.cells|;
    }

    /** token_add(v, x): the cell array grows by one and `x` becomes the last cell. */
    method Add(x: Token)
      requires Valid()
      modifies this
      ensures Valid() && fresh(cell) && kind == old(kind)
      ensures Cells() == old(Cells()) + [x]
    {
      var a := new Token[count + 1];
      forall i | 0 <= i < count {
        a[i] := cell[i];
      }
      a[count] := x;
      cell, count := a, count + 1;
    }

    /** token_pop(v, i): removes and returns `cell[i]`, shifting the later cells left. */
    method Pop(i: nat) returns (x: Token)
      requires Valid() && i < count
      modifies this, cell
      ensures Valid() && cell == old(cell) && kind == old(kind)
      ensures x == old(Cells())[i]
      ensures Cells() == old(Cells())[..i] + old(Cells())[i+1..]
    {
      x := cell[i];
      forall j | i <= j < count - 1 {
        cell[j] := cell[j + 1];
      }
      count := count - 1;
    }

    /** token_take(v, i): pops `cell[i]` and releases the container with everything
        else it held; here the container is left empty. */
    method Take(i: nat) returns (x: Token)
      requires Valid() && i < count
      modifies this, cell
      ensures Valid() && cell == old(cell) && kind == old(kind)
      ensures x == old(Cells())[i]
      ensures Cells() == []
    {
      x := Pop(i);
      count := 0;
    }

    /** token_join(x, y): moves every cell of `y`, in order, to the end of this
        container, then releases the emptied `y`. */
    method Join(y: Container)
      requires Valid() && y.Valid() && y != this && y.cell != cell
      modifies this, y, y.cell
      ensures Valid() && y.Valid() && kind == old(kind)
      ensures cell == old(cell) || fresh(cell)
      ensures Cells() == old(Cells()) + old(y.Cells())
      ensures y.Cells() == []
    {
      ghost var ys := y.Cells();
      ghost var moved: seq<Token> := [];
      while y.count != 0
        invariant Valid() && y.Valid() && kind == old(kind)
        invariant y.cell == old(y.cell) && y.cell != cell
        invariant cell == old(cell) || fresh(cell)
        invariant Cells() == old(Cells()) + moved
        invariant moved + y.Cells() == ys
        decreases y.count
      {
        ghost var t := y.Cells()[0];
        ghost var rest := y.Cells()[1..];
        assert y.Cells() == [t] + rest;
        MoveFirst(y);
        AppendAssoc(old(Cells()), moved, [t]);
        AppendAssoc(moved, [t], rest);
        moved := moved + [t];
      }
      assert moved + [] == moved;
    }

    /** One pass of token_join's loop: `token_add(x, token_pop(y, 0))`. */
    method MoveFirst(y: Container)
      requires Valid() && y.Valid() && y != this && y.cell != cell && y.count > 0
      modifies this, y, y.cell
      ensures Valid() && y.Valid() && kind == old(kind)
      ensures fresh(cell) && y.cell == old(y.cell)
      ensures Cells() == old(Cells()) + [old(y.Cells())[0]]
      ensures y.Cells() == old(y.Cells())[1..]
    {
      var t := y.Pop(0);
      Add(t);
    }
  }
}
