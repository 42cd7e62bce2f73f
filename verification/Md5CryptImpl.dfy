/** __md5_crypt as the source computes it, into its static output buffer. */
module Md5CryptImpl {
  import opened Bytes
  import opened Ascii64
  import opened Places
  import opened Rfc1321
  import opened Md5Forms
  import opened Md5
  import opened Md5CryptSpec
  import opened Md5CryptBuffer

  /** __md5_Update with a length that a C int can hold. */
  method Feed(ctx: Md5Context, data: seq<bv8>)
    requires ctx.Valid() && |data| < 0x8000_0000
    modifies ctx, ctx.state, ctx.buffer
    ensures ctx.Valid() && ctx.message == old(ctx.message) + data
  {
    hide Md5Context.Valid;
    SmallFits(|ctx.message| % 64, |data|);
    ctx.Update(data);
  }

  /** The true salt: behind the magic string, if there is one, up to the first '$', 8 characters or the end. */
  method FindSalt(salt: Place) returns (sp: Place, sl: nat)
    requires salt.IsString()
    ensures sp.mem == salt.mem && sp.at + sl <= salt.mem.Length && sl <= 8
    ensures sp.at == if MAGIC <= salt.Text() then salt.at + 3 else salt.at
    ensures sp.mem[sp.at..sp.at + sl] == TrueSalt(salt.Text())
  {
    hide SaltLen, CText;
    var magic := StartsWithMagic(salt);
    BehindMagic(salt, if magic then 3 else 0);
    sp := if magic then Place(salt.mem, salt.at + 3) else salt;
    sl := ScanSalt(sp);
    TextStarts(sp, sl);
  }

  lemma BehindMagic(salt: Place, k: nat)
    requires salt.IsString() && k == if MAGIC <= salt.Text() then 3 else 0
    ensures var sp := Place(salt.mem, salt.at + k); sp.IsString() && sp.Text() == SkipMagic(salt.Text())
  {
    hide CText;
    var f := salt.mem[salt.at..];
    CTextBehind(f, k);
    assert salt.mem[salt.at + k..] == f[k..];
  }

  method ScanSalt(sp: Place) returns (sl: nat)
    requires sp.IsString()
    ensures sl == SaltLen(sp.Text(), 0)
  {
    ghost var s := sp.Text();
    sl := 0;
    while true
      invariant sl <= |s| && sl <= 8 && SaltLen(s, 0) == SaltLen(s, sl)
      decreases 8 - sl
    {
      ByteAt(sp, sl);
      if sp.mem[sp.at + sl] == 0 || sp.mem[sp.at + sl] == DOLLAR || sl == 8 {
        return;
      }
      sl := sl + 1;
    }
  }

  /** strncmp with the magic string, and the same test in crypt. */
  method StartsWithMagic(p: Place) returns (r: bool)
    requires p.IsString()
    ensures r == (MAGIC <= p.Text())
  {
    ByteAt(p, 0);
    if p.mem[p.at] != MAGIC[0] {
      return false;
    }
    ByteAt(p, 1);
    if p.mem[p.at + 1] != MAGIC[1] {
      return false;
    }
    ByteAt(p, 2);
    return p.mem[p.at + 2] == MAGIC[2];
  }

  /** The first digest: password, magic, salt, part of an inner digest, then a byte per binary digit. */
  method Start(form: Form, pw: CString, sp: CString) returns (final: seq<bv8>)
    requires |pw| < 0x8000_0000 && |sp| <= 8
    ensures final == FirstDigest(pw, sp)
  {
    hide Md5Context.Valid, Rfc1321.Md5;
    var ctx := new Md5Context(form);
    Feed(ctx, pw);
    Feed(ctx, MAGIC);
    Feed(ctx, sp);
    var ctx1 := new Md5Context(form);
    Feed(ctx1, pw);
    Feed(ctx1, sp);
    Feed(ctx1, pw);
    assert ctx1.message == pw + sp + pw;
    final := ctx1.Final();
    FeedCycle(ctx, final, |pw|);
    FeedDigits(ctx, pw);
    assert ctx.message == pw + MAGIC + sp + Cycle(final, |pw|) + Md5CryptSpec.Digits(|pw|, pw);
    final := ctx.Final();
  }

  /** As many bytes of the inner digest as the password has. */
  method FeedCycle(ctx: Md5Context, final: seq<bv8>, pw_len: nat)
    requires ctx.Valid() && |final| == 16
    modifies ctx, ctx.state, ctx.buffer
    ensures ctx.Valid() && ctx.message == old(ctx.message) + Cycle(final, pw_len)
  {
    hide Md5Context.Valid;
    ghost var m := ctx.message;
    var pl: int := pw_len;
    while pl > 0
      invariant ctx.Valid() && pl <= pw_len
      invariant m + Cycle(final, pw_len) == ctx.message + Cycle(final, if pl > 0 then pl else 0)
    {
      ghost var before := ctx.message;
      Feed(ctx, final[..if pl > 16 then 16 else pl]);
      CycleStep(before, final, pl);
      pl := pl - 16;
    }
    assert ctx.message + [] == ctx.message;
  }

  lemma CycleStep(m: seq<bv8>, final: seq<bv8>, pl: nat)
    requires |final| == 16 && pl > 0
    ensures m + Cycle(final, pl)
      == m + final[..if pl > 16 then 16 else pl] + Cycle(final, if pl - 16 > 0 then pl - 16 else 0)
  {
    if pl > 16 {
      assert final[..16] == final;
    }
  }

  /** "Then something really weird": one byte for each binary digit of the length. */
  method FeedDigits(ctx: Md5Context, pw: CString)
    requires ctx.Valid()
    modifies ctx, ctx.state, ctx.buffer
    ensures ctx.Valid() && ctx.message == old(ctx.message) + Md5CryptSpec.Digits(|pw|, pw)
  {
    hide Md5Context.Valid;
    ghost var m := ctx.message;
    var i := |pw|;
    while i != 0
      invariant 0 <= i <= |pw| && ctx.Valid()
      invariant m + Md5CryptSpec.Digits(|pw|, pw) == ctx.message + Md5CryptSpec.Digits(i, pw)
    {
      var b := if i % 2 == 1 then 0 else pw[0];
      assert ctx.message + [b] + Md5CryptSpec.Digits(i / 2, pw) == ctx.message + Md5CryptSpec.Digits(i, pw);
      Feed(ctx, [b]);
      i := i / 2;
    }
    assert ctx.message + [] == ctx.message;
  }

  /** The thousand rounds, with the bytes that are then found at password and salt. */
  method Stretch(form: Form, first: seq<bv8>, pw: seq<bv8>, sp: seq<bv8>) returns (final: seq<bv8>)
    requires |pw| < 0x8000_0000 && |sp| <= 8 && |first| == 16
    ensures final == Rounds(1000, first, pw, sp)
  {
    hide Md5Context.Valid, Rfc1321.Md5;
    final := first;
    var ctx1 := new Md5Context(form);
    for i := 0 to 1000
      invariant ctx1.Sized() && fresh(ctx1) && fresh(ctx1.state) && fresh(ctx1.buffer)
      invariant final == Rounds(i, first, pw, sp)
    {
      ctx1.Init();
      if i % 2 == 1 {
        Feed(ctx1, pw);
      } else {
        Feed(ctx1, final);
      }
      if i % 3 != 0 {
        Feed(ctx1, sp);
      }
      if i % 7 != 0 {
        Feed(ctx1, pw);
      }
      if i % 2 == 1 {
        Feed(ctx1, final);
      } else {
        Feed(ctx1, pw);
      }
      RoundNext(i, first, final, pw, sp, ctx1.message);
      final := ctx1.Final();
    }
  }

  lemma RoundNext(i: nat, first: seq<bv8>, final: seq<bv8>, pw: seq<bv8>, sp: seq<bv8>, m: seq<bv8>)
    requires |first| == 16 && final == Rounds(i, first, pw, sp)
    requires m == [] + (if i % 2 == 1 then pw else final) + (if i % 3 != 0 then sp else [])
                  + (if i % 7 != 0 then pw else []) + (if i % 2 == 1 then final else pw)
    ensures Rfc1321.Md5(m) == Rounds(i + 1, first, pw, sp)
  {
    hide Rfc1321.Md5;
    assert m == RoundInput(i, final, pw, sp);
  }

  /** __md5_to64. */
  method To64Into(passwd: array<bv8>, p: nat, v: bv32, n: nat)
    requires p + n <= passwd.Length
    modifies passwd
    ensures passwd[..p + n] == old(passwd[..p]) + To64(v, n)
    ensures forall k :: p + n <= k < passwd.Length ==> passwd[k] == old(passwd[k])
  {
    hide To64, Letter, Rest;
    ghost var out := old(passwd[..p]) + To64(v, n);
    var s, x, k := p, v, n;
    while k > 0
      invariant 0 <= k <= n && s + k == p + n
      invariant out == passwd[..s] + To64(x, k)
      invariant forall i :: p + n <= i < passwd.Length ==> passwd[i] == old(passwd[i])
    {
      SextetStep(passwd[..s], x, k);
      ghost var before := passwd[..s];
      passwd[s] := Letter(Sextet(x));
      assert passwd[..s + 1] == before + [passwd[s]];
      s := s + 1;
      x := Rest(x);
      k := k - 1;
    }
    SextetsDone(passwd[..s], x);
  }

  lemma SextetStep(d: seq<bv8>, x: bv32, k: nat)
    requires k > 0
    ensures d + To64(x, k) == d + [Letter(Sextet(x))] + To64(Rest(x), k - 1)
  {
    hide Letter, Sextet, Rest;
  }

  lemma SextetsDone(d: seq<bv8>, x: bv32)
    ensures d + To64(x, 0) == d
  {}

  /** The letters of the first i groups. */
  ghost function Groups(f: seq<bv8>, i: nat): seq<bv8>
    requires |f| == 17 && i <= 5
  {
    if i == 0 then [] else Groups(f, i - 1) + To64(Group(f[i - 1], f[i + 5], f[i + 11]), 4)
  }

  lemma GroupsNone(head: seq<bv8>, f: seq<bv8>)
    requires |f| == 17
    ensures head + Groups(f, 0) == head
  {}

  lemma GroupsNext(head: seq<bv8>, f: seq<bv8>, i: nat)
    requires |f| == 17 && i < 5
    ensures head + Groups(f, i) + To64(Group(f[i], f[i + 6], f[i + 12]), 4) == head + Groups(f, i + 1)
  {
    hide To64, Group;
  }

  lemma GroupsAreEncode(f: seq<bv8>)
    requires |f| == 16
    ensures Groups(f + [f[5]], 5) + To64(f[11] as bv32, 2) == Encode(f)
  {
    hide To64, Group;
    var g := f + [f[5]];
    assert Groups(g, 1) == To64(Group(f[0], f[6], f[12]), 4);
    assert Groups(g, 2) == Groups(g, 1) + To64(Group(f[1], f[7], f[13]), 4);
    assert Groups(g, 3) == Groups(g, 2) + To64(Group(f[2], f[8], f[14]), 4);
    assert Groups(g, 4) == Groups(g, 3) + To64(Group(f[3], f[9], f[15]), 4);
    assert Groups(g, 5) == Groups(g, 4) + To64(Group(f[4], f[10], f[5]), 4);
  }

  /** An argument as the buffer sees it. */
  ghost function ArgumentOf(p: Place, passwd: array<bv8>): Argument
    requires p.at <= p.mem.Length
    reads p.mem
  {
    if p.mem == passwd then Inside(p.at) else Elsewhere(p.mem[p.at..])
  }

  lemma ArgumentFrom(p: Place, passwd: array<bv8>)
    requires p.at <= p.mem.Length
    ensures From(ArgumentOf(p, passwd), passwd[..]) == p.mem[p.at..]
  {}

  /** strncpy: up to n bytes of a string, and zeros from its end on. */
  method CopyString(passwd: array<bv8>, to: nat, src: Place, n: nat)
    requires to + n <= passwd.Length && src.at + n <= src.mem.Length
    modifies passwd
    ensures passwd[..] == Strncpy(old(passwd[..]), to, old(ArgumentOf(src, passwd)), 0, n)
  {
    hide Strncpy;
    var i := CopyCharacters(passwd, to, src, n);
    CopyEnds(passwd[..], to, old(ArgumentOf(src, passwd)), i, n);
    FillZeros(passwd, to + i, n - i);
  }

  method CopyCharacters(passwd: array<bv8>, to: nat, src: Place, n: nat) returns (i: nat)
    requires to + n <= passwd.Length && src.at + n <= src.mem.Length
    modifies passwd
    ensures var a := old(ArgumentOf(src, passwd));
      && i <= n && (i < n ==> From(a, passwd[..])[i] == 0)
      && Strncpy(old(passwd[..]), to, a, 0, n) == Strncpy(passwd[..], to, a, i, n)
  {
    hide Strncpy;
    ghost var b, a := passwd[..], ArgumentOf(src, passwd);
    i := 0;
    while i < n && src.mem[src.at + i] != 0
      invariant i <= n && From(a, passwd[..]) == src.mem[src.at..]
      invariant Strncpy(b, to, a, 0, n) == Strncpy(passwd[..], to, a, i, n)
    {
      CopyStep(passwd[..], to, a, i, n);
      ghost var before, c := passwd[..], src.mem[src.at + i];
      passwd[to + i] := src.mem[src.at + i];
      assert passwd[..] == before[to + i := c];
      i := i + 1;
    }
  }

  lemma CopyStep(b: seq<bv8>, to: nat, a: Argument, i: nat, n: nat)
    requires i < n && to + n <= |b| && Md5CryptBuffer.Readable(a, n, b) && From(a, b)[i] != 0
    ensures Strncpy(b, to, a, i, n) == Strncpy(b[to + i := From(a, b)[i]], to, a, i + 1, n)
  {}

  lemma CopyEnds(b: seq<bv8>, to: nat, a: Argument, i: nat, n: nat)
    requires i <= n && to + n <= |b| && Md5CryptBuffer.Readable(a, n, b) && (i < n ==> From(a, b)[i] == 0)
    ensures Strncpy(b, to, a, i, n) == b[..to + i] + ZeroBytes(n - i) + b[to + n..]
  {
    assert i == n ==> ZeroBytes(n - i) == [];
  }

  method FillZeros(passwd: array<bv8>, at: nat, n: nat)
    requires at + n <= passwd.Length
    modifies passwd
    ensures passwd[..] == old(passwd[..at]) + ZeroBytes(n) + old(passwd[at + n..])
  {
    for i := 0 to n
      invariant passwd[..at + i] == old(passwd[..at]) + ZeroBytes(i) && passwd[at + i..] == old(passwd[at + i..])
    {
      ghost var before := passwd[..at + i];
      passwd[at + i] := 0;
      assert passwd[..at + i + 1] == before + [0];
      assert ZeroBytes(i + 1) == ZeroBytes(i) + [0];
    }
    assert passwd[..] == passwd[..at + n] + passwd[at + n..];
  }

  /** The start of the output string, written before the rounds: strcpy of the magic string, the salt, '$'. */
  method WriteHeader(passwd: array<bv8>, sp: Place, sl: nat)
    requires passwd.Length == 35 && sl <= 8 && sp.at + sl <= sp.mem.Length
    modifies passwd
    ensures passwd[..] == Header(old(passwd[..]), old(ArgumentOf(sp, passwd)), sl)
  {
    ghost var b := passwd[..];
    Put(passwd, 0, MAGIC + [0]);
    assert passwd[..] == MAGIC + [0] + b[4..];
    CopyString(passwd, 3, sp, sl);
    passwd[3 + sl] := DOLLAR;
  }

  /** The rest of it: the 22 letters and the terminator. */
  method WriteLetters(passwd: array<bv8>, at: nat, digest: seq<bv8>)
    requires passwd.Length == 35 && at <= 12 && |digest| == 16
    modifies passwd
    ensures passwd[..] == old(passwd[..at]) + Encode(digest) + [0] + old(passwd[at + 23..])
  {
    hide To64, Group, Encode, Groups;
    var final := digest + [digest[5]];
    ghost var head := passwd[..at];
    var p := at;
    assert passwd[..p] == head + Groups(final, 0) by { GroupsNone(head, final); }
    for i := 0 to 5
      invariant p == |head| + 4 * i && passwd[..p] == head + Groups(final, i)
      invariant forall k :: at + 23 <= k < 35 ==> passwd[k] == old(passwd[k])
    {
      var l := Group(final[i], final[i + 6], final[i + 12]);
      GroupsNext(head, final, i);
      To64Into(passwd, p, l, 4);
      p := p + 4;
    }
    To64Into(passwd, p, final[11] as bv32, 2);
    p := p + 2;
    GroupsAreEncode(digest);
    assert passwd[..p] == head + Encode(digest);
    Terminate(passwd, p);
    assert passwd[at + 23..] == old(passwd[at + 23..]);
  }

  method Terminate(passwd: array<bv8>, p: nat)
    requires p < passwd.Length
    modifies passwd
    ensures passwd[..] == old(passwd[..p]) + [0] + passwd[p + 1..]
    ensures forall k :: p < k < passwd.Length ==> passwd[k] == old(passwd[k])
  {
    passwd[p] := 0;
  }

  /** __md5_crypt: what is left in the static buffer, wherever password and salt lie. */
  method Md5CryptInto(form: Form, passwd: array<bv8>, pw: Place, salt: Place)
    requires passwd.Length == 35 && pw.IsString() && salt.IsString() && |pw.Text()| < 0x8000_0000
    modifies passwd
    ensures old(IsString(ArgumentOf(pw, passwd), passwd[..]) && IsString(ArgumentOf(salt, passwd), passwd[..]))
    ensures passwd[..] == Left(old(passwd[..]), old(ArgumentOf(pw, passwd)), old(ArgumentOf(salt, passwd)))
  {
    hide Encode, Rounds, FirstDigest, Header, TrueSalt, SaltLen, SaltPlace, Left;
    ghost var b, k, a := passwd[..], ArgumentOf(pw, passwd), ArgumentOf(salt, passwd);
    ArgumentFrom(pw, passwd);
    ArgumentFrom(salt, passwd);
    var sp, sl := FindSalt(salt);
    var pw_len := Strlen(pw);
    ghost var s := ArgumentOf(sp, passwd);
    SaltPlaceIs(salt, sp, passwd);
    var final := Start(form, pw.mem[pw.at..pw.at + pw_len], sp.mem[sp.at..sp.at + sl]);
    WriteHeader(passwd, sp, sl);
    ghost var head := passwd[..];
    assert ArgumentOf(pw, passwd) == k && ArgumentOf(sp, passwd) == s;
    WhatIsThere(pw, passwd, pw_len);
    WhatIsThere(sp, passwd, sl);
    final := Stretch(form, final, pw.mem[pw.at..pw.at + pw_len], sp.mem[sp.at..sp.at + sl]);
    WriteLetters(passwd, 3 + sl + 1, final);
    LeftIs(b, k, a, head, final);
  }

  lemma SaltPlaceIs(salt: Place, sp: Place, passwd: array<bv8>)
    requires salt.IsString() && sp.mem == salt.mem
    requires sp.at == (if MAGIC <= salt.Text() then salt.at + 3 else salt.at) <= sp.mem.Length
    ensures IsString(ArgumentOf(salt, passwd), passwd[..])
    ensures SaltPlace(passwd[..], ArgumentOf(salt, passwd)) == ArgumentOf(sp, passwd)
  {
    ArgumentFrom(salt, passwd);
    if salt.mem != passwd {
      assert salt.mem[salt.at..][sp.at - salt.at..] == sp.mem[sp.at..];
    }
  }

  lemma WhatIsThere(p: Place, passwd: array<bv8>, n: nat)
    requires p.at + n <= p.mem.Length
    ensures var a := ArgumentOf(p, passwd);
      Md5CryptBuffer.Readable(a, n, passwd[..]) && From(a, passwd[..])[..n] == p.mem[p.at..p.at + n]
  {
    assert p.mem[p.at..][..n] == p.mem[p.at..p.at + n];
  }

  lemma LeftIs(b: seq<bv8>, k: Argument, a: Argument, head: seq<bv8>, final: seq<bv8>)
    requires |b| == |head| == 35 && IsString(k, b) && IsString(a, b)
    requires head == Header(b, SaltPlace(b, a), |TrueSalt(Text(a, b))|)
    requires var pw, sp, s := Text(k, b), SaltPlace(b, a), TrueSalt(Text(a, b));
      && Md5CryptBuffer.Readable(k, |pw|, head)
      && final == Rounds(1000, FirstDigest(pw, s), From(k, head)[..|pw|], From(sp, head)[..|s|])
    ensures var n := |TrueSalt(Text(a, b))|;
      Left(b, k, a) == head[..4 + n] + Encode(final) + [0] + head[27 + n..]
  {
    hide Encode, Rounds, FirstDigest, Header, TrueSalt, SaltPlace, From;
  }
}
