/** The value model: one tagged `Token` with six variants (parsing.h). Every token is
    owned by exactly one container or by the caller, so a token is a value and a
    container's cells are a sequence of values. */
module Tokens {
  import opened Floats

  datatype Option<T> = None | Some(value: T)

  datatype Token =
    | Num(num: int)               // NUM: a C `long`
    | Float(frac: Double)         // FLOAT: a C `double`
    | Err(err: string)            // ERR: an error message
    | Sym(sym: string)            // SYM: the name of a builtin
    | Sexpr(cells: seq<Token>)    // SEXPR: an S-expression, evaluated
    | Qexpr(cells: seq<Token>)    // QEXPR: a Q-expression, left as it is

  /** Range of the 64-bit C `long`. */
  const LongMin: int := -0x8000_0000_0000_0000
  const LongMax: int := 0x7fff_ffff_ffff_ffff

  predicate InLongRange(n: int) {
    LongMin <= n <= LongMax
  }

  predicate IsContainer(t: Token) {
    t.Sexpr? || t.Qexpr?
  }

  predicate IsNumber(t: Token) {
    t.Num? || t.Float?
  }

  /** Number of tokens in a tree: the container itself plus everything it holds. */
  function Size(t: Token): (n: nat)
    ensures n >= 1
    decreases t, 1
  {
    match t
    case Sexpr(cs) => 1 + SizeOf(cs)
    case Qexpr(cs) => 1 + SizeOf(cs)
    case _ => 1
  }

  function SizeOf(cs: seq<Token>): (n: nat)
    ensures n >= |cs|
    ensures forall i {:trigger Size(cs[i])} :: 0 <= i < |cs| ==> Size(cs[i]) <= n
    decreases cs, 0
  {
    if cs == [] then 0
    else
      var n := Size(cs[0]) + SizeOf(cs[1..]);
      assert forall i :: 1 <= i < |cs| ==> cs[i] == cs[1..][i - 1];
      n
  }

  lemma {:induction false} SizeOfAppend(a: seq<Token>, b: seq<Token>)
    ensures SizeOf(a + b) == SizeOf(a) + SizeOf(b)
  {
    if a == [] {
      assert a + b == b;
    } else {
      assert (a + b)[1..] == a[1..] + b;
      SizeOfAppend(a[1..], b);
    }
  }

  lemma {:induction false} SizeOfAt(cs: seq<Token>, i: nat)
    requires i < |cs|
    ensures SizeOf(cs) == Size(cs[i]) + SizeOf(cs[..i] + cs[i+1..])
  {
    assert cs == cs[..i] + [cs[i]] + cs[i+1..];
    SizeOfAppend(cs[..i] + [cs[i]], cs[i+1..]);
    SizeOfAppend(cs[..i], [cs[i]]);
    SizeOfAppend(cs[..i], cs[i+1..]);
    assert SizeOf([cs[i]]) == Size(cs[i]) by {
      assert [cs[i]][1..] == [];
    }
  }

  lemma SizeOfElement(cs: seq<Token>, i: nat)
    requires i < |cs|
    ensures Size(cs[i]) <= SizeOf(cs)
  {
    SizeOfAt(cs, i);
  }

  lemma SizeOfSingle(t: Token)
    ensures SizeOf([t]) == Size(t)
  {
    assert [t][1..] == [];
  }

  /** Concatenation regrouped; stated once so that loops can call it on demand. */
  lemma AppendAssoc<T>(a: seq<T>, b: seq<T>, c: seq<T>)
    ensures (a + b) + c == a + (b + c)
  {
  }
}
