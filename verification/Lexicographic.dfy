/** The lexicographic order on sequences of numbers, a prefix before what it starts. */
module Lexicographic {

  function Lex(a: seq<int>, b: seq<int>): (c: int)
    ensures -1 <= c <= 1
  {
    if a == [] && b == [] then 0
    else if a == [] then -1
    else if b == [] then 1
    else if a[0] < b[0] then -1
    else if a[0] > b[0] then 1
    else Lex(a[1..], b[1..])
  }

  function Sign(x: int): int {
    if x < 0 then -1 else if x > 0 then 1 else 0
  }

  lemma LexHead(x: int, a: seq<int>, y: int, b: seq<int>)
    ensures Lex([x] + a, [y] + b) == if x == y then Lex(a, b) else Sign(x - y)
  {
    assert ([x] + a)[1..] == a && ([y] + b)[1..] == b;
  }

  lemma {:induction false} LexFlip(a: seq<int>, b: seq<int>)
    ensures Lex(b, a) == -Lex(a, b)
  {
    if a != [] && b != [] && a[0] == b[0] {
      LexFlip(a[1..], b[1..]);
    }
  }

  lemma {:induction false} LexEqual(a: seq<int>, b: seq<int>)
    ensures Lex(a, b) == 0 <==> a == b
  {
    if a != [] && b != [] && a[0] == b[0] {
      LexEqual(a[1..], b[1..]);
      assert a == [a[0]] + a[1..] && b == [b[0]] + b[1..];
    }
  }

  lemma {:induction false} LexTransitive(a: seq<int>, b: seq<int>, c: seq<int>)
    requires Lex(a, b) <= 0 && Lex(b, c) <= 0
    ensures Lex(a, c) <= 0
    ensures Lex(a, c) == 0 ==> Lex(a, b) == 0 && Lex(b, c) == 0
  {
    if a == [] {
    } else if a[0] == b[0] && b[0] == c[0] {
      LexTransitive(a[1..], b[1..], c[1..]);
    }
  }
}
