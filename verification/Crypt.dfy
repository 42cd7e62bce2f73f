/** crypt(3): the choice between the MD5 and the DES form, over their static state. */
module Crypt {
  import opened Ascii64
  import opened Places
  import opened Md5Forms
  import opened Md5CryptSpec
  import opened Md5CryptBuffer
  import opened Md5CryptImpl
  import opened DesMachine
  import opened Des
  import DesText

  /** The string crypt returns, whatever was computed before. */
  function CryptOf(key: CString, salt: CString): (r: seq<bv8>)
    requires salt != []
  {
    if MAGIC <= salt then Md5Crypt(key, salt) else DesText.DesCrypt(key, salt)
  }

  /** A copied hash used as its own salt gives the same hash: the dispatch chooses the same form again, and
      that form reads its own salt back. */
  lemma HashIsItsOwnSalt(key: CString, salt: CString)
    requires |salt| >= 2 || (|salt| == 1 && AsciiToBin(salt[0]) == 0)
    ensures 0 !in CryptOf(key, salt) && CryptOf(key, CryptOf(key, salt)) == CryptOf(key, salt)
  {
    hide Md5Crypt, DesText.DesCrypt, AsciiToBin;
    if MAGIC <= salt {
      OwnSalt(key, salt);
      HashAsOwnSalt(key, salt);
    } else {
      DesText.DesCryptClean(key, salt);
      DesText.DesHashIsItsOwnSalt(key, salt);
    }
  }

  /** The static storage of the library. */
  class CryptState {
    const des: DesState
    const passwd: array<bv8>  // what __md5_crypt returns
    const form: Form          // the transform md5.c is built with

    ghost predicate Valid()
      reads des, des.en_keysl, des.en_keysr, des.de_keysl, des.de_keysr, Objects(des.tables)
    {
      && des.Valid()
      && passwd.Length == 35 && passwd !in des.Mutable() + Objects(des.tables)
    }

    constructor (form: Form)
      ensures Valid() && fresh(des) && fresh(passwd) && fresh(des.Mutable())
    {
      des := new DesState();
      passwd := new bv8[35](_ => 0);
      this.form := form;
    }

    /** crypt. The result is one of the two static buffers, and either argument may lie in either of them. It
        is the hash of the two strings when neither lies in the buffer of __md5_crypt, or the DES form is
        chosen. */
    method Crypt(key: Place, salt: Place) returns (out: array<bv8>)
      requires Valid() && key.IsString() && salt.IsString() && salt.Text() != [] && |key.Text()| < 0x8000_0000
      modifies des, des.en_keysl, des.en_keysr, des.de_keysl, des.de_keysr, des.output, passwd
      ensures Valid() && out == if MAGIC <= old(salt.Text()) then passwd else des.output
      ensures old(IsString(ArgumentOf(key, passwd), passwd[..]) && IsString(ArgumentOf(salt, passwd), passwd[..]))
      ensures passwd[..] ==
        if MAGIC <= old(salt.Text())
        then Left(old(passwd[..]), old(ArgumentOf(key, passwd)), old(ArgumentOf(salt, passwd)))
        else old(passwd[..])
      ensures !(MAGIC <= old(salt.Text())) || (key.mem != passwd && salt.mem != passwd) ==>
        0 in out[..] && CText(out[..]) == CryptOf(old(key.Text()), old(salt.Text()))
    {
      hide Md5Crypt, DesText.DesCrypt, DesState.Valid, Left, CText;
      ghost var b, k, s := passwd[..], ArgumentOf(key, passwd), ArgumentOf(salt, passwd);
      ArgumentFrom(key, passwd);
      ArgumentFrom(salt, passwd);
      var magic := StartsWithMagic(salt);
      if magic {
        HashWithMd5(key, salt);
        out := passwd;
        if key.mem != passwd && salt.mem != passwd {
          LeftElsewhere(b, k, s);
        }
      } else {
        HashWithDes(key, salt);
        out := des.output;
      }
    }

    method HashWithMd5(key: Place, salt: Place)
      requires Valid() && key.IsString() && salt.IsString() && |key.Text()| < 0x8000_0000
      modifies passwd
      ensures Valid()
      ensures old(IsString(ArgumentOf(key, passwd), passwd[..]) && IsString(ArgumentOf(salt, passwd), passwd[..]))
      ensures passwd[..] == Left(old(passwd[..]), old(ArgumentOf(key, passwd)), old(ArgumentOf(salt, passwd)))
    {
      hide Left, CText, DesState.Valid, IsString, ArgumentOf;
      Md5CryptImpl.Md5CryptInto(form, passwd, key, salt);
      StillValid();
    }

    method HashWithDes(key: Place, salt: Place)
      requires Valid() && key.IsString() && salt.IsString() && salt.Text() != []
      modifies des, des.en_keysl, des.en_keysr, des.de_keysl, des.de_keysr, des.output
      ensures Valid()
      ensures CText(des.output[..]) == DesText.DesCrypt(old(key.Text()), old(salt.Text())) && 0 in des.output[..]
    {
      hide DesText.DesCrypt, CText;
      ghost var k, s := key.Text(), salt.Text();
      des.DesCrypt(key, salt);
      DesText.DesCryptClean(k, s);
      assert des.output[..][..13] == des.output[..13] && des.output[..][13] == 0;
      CTextIs(des.output[..], DesText.DesCrypt(k, s));
    }

    /** crypt(key, crypt(key, salt)) as a program writes it, the result of the inner call being the salt of the
        outer one. The DES form gives the same hash again. The MD5 form does if and only if there is no true
        salt; otherwise it gives "$1$". */
    method CryptOfCrypt(key: Place, salt: Place) returns (out: array<bv8>)
      requires Valid() && key.IsString() && salt.IsString() && |key.Text()| < 0x8000_0000
      requires |salt.Text()| >= 2 || (|salt.Text()| == 1 && AsciiToBin(salt.Text()[0]) == 0)
      requires key.mem != passwd && key.mem != des.output && salt.mem != passwd
      modifies des, des.en_keysl, des.en_keysr, des.de_keysl, des.de_keysr, des.output, passwd
      ensures Valid()
      ensures var k, s := old(key.Text()), old(salt.Text());
        if MAGIC <= s then
          && (CText(out[..]) == CryptOf(k, s) <==> TrueSalt(s) == [])
          && (TrueSalt(s) != [] ==> CText(out[..]) == MAGIC)
        else CText(out[..]) == CryptOf(k, s)
    {
      hide Left, CText, Md5Crypt, DesText.DesCrypt, TrueSalt, AsciiToBin;
      ghost var k, s := key.Text(), salt.Text();
      var hash := Crypt(key, salt);
      HashIsItsOwnSalt(k, s);
      assert hash[0..] == hash[..];
      ghost var b, a := passwd[..], ArgumentOf(key, passwd);
      out := Crypt(key, Place(hash, 0));
      if MAGIC <= s {
        OwnSalt(k, s);
        SaltInBuffer(b, a);
      }
    }

    /** Writing to the MD5 buffer leaves the DES state alone. */
    twostate lemma StillValid()
      requires old(Valid()) && unchanged(des) && unchanged(des.en_keysl) && unchanged(des.en_keysr)
      requires unchanged(des.de_keysl) && unchanged(des.de_keysr) && unchanged(Objects(des.tables))
      ensures Valid()
    {
      hide DesState.RoundOk, TablesOk, Objects;
      if des.tables.Tables? {
        assert old(TablesOk(des.tables));
      }
      forall n | 0 <= n < 16 ensures des.RoundOk(des.CurrentKey(), n) { assert old(des.RoundOk(des.CurrentKey(), n)); }
    }
  }
}
