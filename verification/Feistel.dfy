/** Feistel networks over an arbitrary round function. */
module Feistel {

  /** One round per key: (l, r) becomes (r, l xor f(r, k)). */
  function Run<H, K>(f: (H, K) -> H, x: (H, H) -> H, keys: seq<K>, p: (H, H)): (H, H) {
    if keys == [] then p else Run(f, x, keys[1..], (p.1, x(p.0, f(p.1, keys[0]))))
  }

  function Swap<H>(p: (H, H)): (H, H) {
    (p.1, p.0)
  }

  function Reverse<K>(s: seq<K>): (r: seq<K>)
    ensures |r| == |s| && forall i :: 0 <= i < |s| ==> r[i] == s[|s| - 1 - i]
  {
    seq(|s|, i requires 0 <= i < |s| => s[|s| - 1 - i])
  }

  /** Running one more key at the end. */
  lemma {:induction false} RunSnoc<H, K>(f: (H, K) -> H, x: (H, H) -> H, keys: seq<K>, k: K, p: (H, H))
    ensures var q := Run(f, x, keys, p); Run(f, x, keys + [k], p) == (q.1, x(q.0, f(q.1, k)))
  {
    if keys == [] {
      assert ([] + [k])[1..] == [];
    } else {
      assert (keys + [k])[1..] == keys[1..] + [k];
      RunSnoc(f, x, keys[1..], k, (p.1, x(p.0, f(p.1, keys[0]))));
    }
  }

  /** With the keys reversed and the halves swapped, the network undoes itself,
      whatever the round function is. */
  lemma {:induction false} Invert<H(!new), K(!new)>(f: (H, K) -> H, x: (H, H) -> H, keys: seq<K>, p: (H, H))
    requires forall a, b :: x(x(a, b), b) == a
    ensures Run(f, x, Reverse(keys), Swap(Run(f, x, keys, p))) == Swap(p)
  {
    if keys == [] {
      assert Reverse(keys) == [];
    } else {
      var p' := (p.1, x(p.0, f(p.1, keys[0])));
      Invert(f, x, keys[1..], p');
      assert Reverse(keys) == Reverse(keys[1..]) + [keys[0]];
      RunSnoc(f, x, Reverse(keys[1..]), keys[0], Swap(Run(f, x, keys[1..], p')));
      assert x(x(p.0, f(p.1, keys[0])), f(p.1, keys[0])) == p.0;
    }
  }
}
