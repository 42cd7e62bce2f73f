/** Strings where they lie in memory: a pointer is a place in an object that others may point into too. */
module Places {
  import opened Ascii64

  /** A pointer into an object of bytes. */
  datatype Place = Place(mem: array<bv8>, at: nat) {

    /** There is a terminating NUL at the place or behind it. */
    ghost predicate IsString()
      reads mem
    {
      at <= mem.Length && 0 in mem[at..]
    }

    ghost function Text(): CString
      requires at <= mem.Length
      reads mem
    {
      CText(mem[at..])
    }
  }

  /** A string ends at its first NUL. */
  lemma {:induction false} CTextEnds(s: seq<bv8>)
    requires 0 in s
    ensures var n := |CText(s)|; n < |s| && s[n] == 0 && CText(s) == s[..n]
  {
    if s[0] != 0 {
      assert s == [s[0]] + s[1..];
      CTextEnds(s[1..]);
      var n := |CText(s[1..])|;
      assert s[..n + 1] == [s[0]] + s[1..][..n];
    }
  }

  /** Behind k characters of a string the rest of it begins. */
  lemma {:induction false} CTextBehind(s: seq<bv8>, k: nat)
    requires 0 in s && k <= |CText(s)|
    ensures k <= |s| && 0 in s[k..] && CText(s[k..]) == CText(s)[k..]
  {
    CTextEnds(s);
    var n := |CText(s)|;
    assert s[k..][n - k] == 0;
    assert s[k..][..n - k] == s[..n][k..];
    CTextIs(s[k..], CText(s)[k..]);
  }

  /** What is found at index i of a string, its end included. */
  lemma ByteAt(p: Place, i: nat)
    requires p.IsString() && i <= |p.Text()|
    ensures p.at + i < p.mem.Length && p.mem[p.at + i] == At(p.Text(), i)
    ensures p.mem[p.at + i] == 0 <==> i == |p.Text()|
  {
    var s := p.mem[p.at..];
    CTextEnds(s);
    assert p.mem[p.at + i] == s[i];
    if i < |p.Text()| {
      assert p.Text()[i] in p.Text();
    }
  }

  lemma TextStarts(p: Place, n: nat)
    requires p.IsString() && n <= |p.Text()|
    ensures p.at + n < p.mem.Length && p.mem[p.at..p.at + n] == p.Text()[..n]
  {
    hide CText;
    var f := p.mem[p.at..];
    CTextEnds(f);
    assert p.mem[p.at..p.at + n] == f[..n];
    assert f[..|p.Text()|][..n] == f[..n];
  }

  /** strlen. */
  method Strlen(p: Place) returns (n: nat)
    requires p.IsString()
    ensures n == |p.Text()| && p.at + n < p.mem.Length && p.mem[p.at..p.at + n] == p.Text()
  {
    n := 0;
    ByteAt(p, 0);
    while p.mem[p.at + n] != 0
      invariant n <= |p.Text()| && p.at + n < p.mem.Length
      invariant p.mem[p.at + n] == 0 <==> n == |p.Text()|
      decreases |p.Text()| - n
    {
      ByteAt(p, n + 1);
      n := n + 1;
    }
    TextStarts(p, n);
  }
}
