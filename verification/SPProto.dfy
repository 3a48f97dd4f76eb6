/**
 * The SPProto encoder and decoder as they work on their buffers: header, hash
 * and padding are written in place; the decoder zeroes the hash field to check
 * it and puts it back.
 */
module SPProto {
  import opened Bytes
  import opened SPProtoModel

  /** memcpy of `data` to `a` at offset `at` */
  method Write(a: array<byte>, at: nat, data: seq<byte>)
    requires at + |data| <= a.Length
    modifies a
    ensures a[..] == Splice(old(a[..]), at, data)
  {
    for i := 0 to |data|
      invariant a[..at] == old(a[..at]) && a[at..at + i] == data[..i]
      invariant a[at + i..] == old(a[at + i..])
    {
      a[at + i] := data[i];
    }
    assert a[..] == a[..at] + a[at..at + |data|] + a[at + |data|..];
  }

  /** `a` is `x` from offset `at` on. */
  ghost predicate Holds(a: seq<byte>, at: nat, x: seq<byte>) {
    at + |x| <= |a| && a[at..at + |x|] == x
  }

  lemma SpliceElsewhere(a: seq<byte>, at: nat, data: seq<byte>, at': nat, x: seq<byte>)
    requires at + |data| <= |a| && Holds(a, at', x) && (at + |data| <= at' || at' + |x| <= at)
    ensures Holds(Splice(a, at, data), at', x)
  {
    var b := Splice(a, at, data);
    assert b[at'..at' + |x|] == a[at'..at' + |x|];
  }

  lemma HoldsNext(a: seq<byte>, at: nat, x: seq<byte>, y: seq<byte>)
    requires Holds(a, at, x) && Holds(a, at + |x|, y)
    ensures Holds(a, at, x + y)
  {
    assert a[at..at + |x + y|] == a[at..at + |x|] + a[at + |x|..at + |x| + |y|];
  }

  class Encoder {
    const suite: Suite
    /** The plaintext, when it is to be encrypted. */
    const buf: array<byte>

    constructor (suite: Suite, buf: array<byte>)
      ensures this.suite == suite && this.buf == buf
    {
      this.suite, this.buf := suite, buf;
    }

    /** Hash field: zero while the hash over the first `n` bytes is calculated, then the hash. */
    method WriteHash(a: array<byte>, n: nat, ghost otpData: seq<byte>, ghost payload: seq<byte>)
      requires SuiteOk(suite) && suite.hash.Some?
      requires |otpData| == OtpLen(suite) && n == HeaderLen(suite) + |payload|
      requires Holds(a[..], 0, otpData) && Holds(a[..], HeaderLen(suite), payload)
      modifies a
      ensures Holds(a[..], 0, otpData) && Holds(a[..], HeaderLen(suite), payload)
      ensures Holds(a[..], OtpLen(suite), HashOf(suite, otpData, payload))
    {
      var o, h := OtpLen(suite), HeaderLen(suite);
      var zeros := Zeros(h - o);
      SpliceElsewhere(a[..], o, zeros, 0, otpData);
      SpliceElsewhere(a[..], o, zeros, h, payload);
      Write(a, o, zeros);
      HoldsNext(a[..], 0, otpData, zeros);
      HoldsNext(a[..], 0, otpData + zeros, payload);
      var hash := suite.hash.value.calculate(a[..n]);
      assert a[..n] == a[..][0..n] == otpData + zeros + payload;
      SpliceElsewhere(a[..], o, hash, 0, otpData);
      SpliceElsewhere(a[..], o, hash, h, payload);
      Write(a, o, hash);
    }

    /** Header and hash before the payload that is already in place. */
    method WriteHeader(a: array<byte>, n: nat, seed: nat, otp: seq<byte>, ghost payload: seq<byte>)
      requires SuiteOk(suite) && ContentOk(suite, Content(seed, otp, payload))
      requires n == HeaderLen(suite) + |payload| && Holds(a[..], HeaderLen(suite), payload)
      modifies a
      ensures Holds(a[..], 0, Plain(suite, Content(seed, otp, payload)))
    {
      hide SuiteOk;
      var o, h := OtpLen(suite), HeaderLen(suite);
      ghost var data := OtpData(suite, Content(seed, otp, payload));
      ghost var hash := HashOf(suite, data, payload);
      if suite.otp {
        SpliceElsewhere(a[..], 0, ToLE(seed, SEED) + otp, h, payload);
        Write(a, 0, ToLE(seed, SEED) + otp);
      }
      assert Holds(a[..], 0, data) && Holds(a[..], h, payload);
      if suite.hash.Some? {
        WriteHash(a, n, data, payload);
      }
      HashSize(suite, data, payload);
      assert Holds(a[..], o, hash);
      HoldsNext(a[..], 0, data, hash);
      HoldsNext(a[..], 0, data + hash, payload);
    }

    /** The padding loop. */
    method WritePadding(a: array<byte>, n: nat, len: nat, ghost plain: seq<byte>)
      requires n == |plain| < len <= a.Length && Holds(a[..], 0, plain)
      modifies a
      ensures a[..len] == plain + [1] + Zeros(len - n - 1)
    {
      a[n] := 1;
      for i := n + 1 to len
        invariant a[..i] == plain + [1] + Zeros(i - n - 1)
      {
        a[i] := 0;
      }
    }

    /** The initialization vector, and behind it the encrypted first `n` bytes of `buf` */
    method Encrypt(out: array<byte>, cipher: Cipher, iv: seq<byte>, n: nat)
      requires CipherOk(cipher) && |iv| == cipher.block && n % cipher.block == 0
      requires n <= buf.Length && |iv| + n <= out.Length
      modifies out
      ensures out[..|iv| + n] == iv + old(cipher.encrypt(iv, buf[..n]))
    {
      var secret := cipher.encrypt(iv, buf[..n]);
      Write(out, 0, iv);
      Write(out, |iv|, secret);
      assert out[..|iv| + n] == out[..][..|iv|] + out[..][|iv|..|iv| + n];
    }

    /** encode_work_func: `n` bytes of payload are in place behind the header */
    method Encode(out: array<byte>, n: nat, seed: nat, otp: seq<byte>, iv: seq<byte>, ghost payload: seq<byte>)
      returns (len: nat)
      requires SuiteOk(suite) && ContentOk(suite, Content(seed, otp, payload))
      requires buf != out && n == |payload| && CarrierMtu(suite, n) <= out.Length
      requires Holds(if suite.cipher.Some? then buf[..] else out[..], HeaderLen(suite), payload)
      requires suite.cipher.Some? ==>
          |iv| == suite.cipher.value.block && AlignUp(HeaderLen(suite) + n + 1, |iv|) <= buf.Length
      modifies buf, out
      ensures len == CarrierMtu(suite, n) <= out.Length
      ensures out[..len] == SPProtoModel.Encode(suite, Content(seed, otp, payload), iv)
    {
      hide Plain, AlignUp;
      ghost var c := Content(seed, otp, payload);
      EncodeSize(suite, c, iv);
      PlainSize(suite, c);
      var plainLen := HeaderLen(suite) + n;
      if suite.cipher.None? {
        WriteHeader(out, plainLen, seed, otp, payload);
        len := plainLen;
      } else {
        var block := suite.cipher.value.block;
        var cipherLen := AlignUp(plainLen + 1, block);
        WriteHeader(buf, plainLen, seed, otp, payload);
        WritePadding(buf, plainLen, cipherLen, Plain(suite, c));
        AlignUpWhole(plainLen + 1, block);
        Encrypt(out, suite.cipher.value, iv, cipherLen);
        len := block + cipherLen;
      }
    }
  }

  lemma HashSize(s: Suite, otpData: seq<byte>, payload: seq<byte>)
    requires SuiteOk(s)
    ensures |HashOf(s, otpData, payload)| == HashLen(s)
  {
  }

  lemma PlainSize(s: Suite, c: Content)
    requires SuiteOk(s) && ContentOk(s, c)
    ensures |Plain(s, c)| == HeaderLen(s) + |c.payload|
  {
    HashSize(s, OtpData(s, c), c.payload);
  }

  /** Zeroing the hash field, and putting it back. */
  lemma HashField(before: seq<byte>, o: nat, h: nat, n: nat)
    requires o <= h <= n <= |before|
    ensures
      var zeroed := Splice(before, o, Zeros(h - o));
      && zeroed[..n] == before[..o] + Zeros(h - o) + before[h..n]
      && Splice(zeroed, o, before[o..h]) == before
  {
  }

  class Decoder {
    const suite: Suite
    const mtu: nat
    const buf: array<byte>
    var haveKey: bool

    ghost predicate Valid()
      reads this
    {
      SuiteOk(suite) &&
      (suite.cipher.Some? ==> buf.Length == AlignUp(HeaderLen(suite) + mtu + 1, suite.cipher.value.block))
    }

    /** SPProtoDecoder_Init */
    constructor (suite: Suite, mtu: nat)
      requires SuiteOk(suite)
      ensures Valid() && fresh(buf) && this.suite == suite && this.mtu == mtu && !haveKey
    {
      this.suite, this.mtu, haveKey := suite, mtu, false;
      buf := new byte[
        if suite.cipher.Some? then AlignUp(HeaderLen(suite) + mtu + 1, suite.cipher.value.block) else 0];
    }

    /** The padding scan, backwards from the end of `a[..len]` */
    method FindPadding(a: array<byte>, len: nat, block: nat) returns (i: int)
      requires block <= len <= a.Length
      ensures Scan(a[..len], len, len - block) == if i < 0 then None else Some(i)
      ensures i < len
    {
      ghost var x := a[..len];
      i := len - 1;
      while i >= len - block
        invariant len - block - 1 <= i < len
        invariant Scan(x, len, len - block) == Scan(x, i + 1, len - block)
      {
        if a[i] == 1 {
          return;
        }
        if a[i] != 0 {
          return -1;
        }
        i := i - 1;
      }
      i := -1;
    }

    /** The hash check, with the hash field zeroed for it and put back after */
    method HashMatches(a: array<byte>, n: nat) returns (ok: bool)
      requires SuiteOk(suite) && HeaderLen(suite) <= n <= a.Length
      modifies a
      ensures a[..] == old(a[..])
      ensures var o, h := OtpLen(suite), HeaderLen(suite);
              ok == (a[o..h] == HashOf(suite, a[..o], a[h..n]))
    {
      if suite.hash.None? {
        return true;
      }
      var o, h := OtpLen(suite), HeaderLen(suite);
      ghost var before := a[..];
      var hash := a[o..h];
      HashField(before, o, h, n);
      hide Splice;
      Write(a, o, Zeros(h - o));
      assert a[..n] == a[..][..n];
      var calculated := suite.hash.value.calculate(a[..n]);
      Write(a, o, hash);
      assert a[..o] == before[..o] && a[h..n] == before[h..n] && a[o..h] == before[o..h];
      ok := hash == calculated;
    }

    /** Header, length and hash of the plaintext `a[..n]` */
    method CheckPlain(a: array<byte>, n: nat) returns (r: Option<Content>)
      requires SuiteOk(suite) && n <= a.Length
      modifies a
      ensures r == Check(suite, mtu, a[..n]) && a[..] == old(a[..])
    {
      var o, h := OtpLen(suite), HeaderLen(suite);
      if n < h || n - h > mtu {
        return None;
      }
      ghost var plain := a[..n];
      assert plain[..o] == a[..o] && plain[o..h] == a[o..h] && plain[h..] == a[h..n];
      var ok := HashMatches(a, n);
      assert a[..n] == a[..][..n] == plain;
      assert a[..o] == plain[..o] && plain[o..h] == a[o..h] && plain[h..] == a[h..n];
      if !ok {
        return None;
      }
      if suite.otp {
        assert plain[..o][..SEED] == a[..SEED] && plain[..o][SEED..] == a[SEED..o];
        return Some(Content(FromLE(a[..SEED]), a[SEED..o], a[h..n]));
      }
      return Some(Content(0, [], a[h..n]));
    }

    /** decode_work_func: the packet in `a[..n]`, which is left as it was */
    method Decode(a: array<byte>, n: nat) returns (r: Option<Content>)
      requires Valid() && buf != a && n <= a.Length && n <= CarrierMtu(suite, mtu)
      modifies buf, a
      ensures r == SPProtoModel.Decode(suite, mtu, old(a[..n]), haveKey)
      ensures a[..] == old(a[..])
    {
      if suite.cipher.None? {
        r := CheckPlain(a, n);
        assert a[..n] == a[..][..n];
        return;
      }
      var block := suite.cipher.value.block;
      if n % block != 0 || n < block || !haveKey {
        return None;
      }
      AddBlock(n - block, block);
      assert a[..n][..block] == a[..block] && a[..n][block..] == a[block..n];
      var i := Unseal(a, n, suite.cipher.value);
      if i < 0 {
        return None;
      }
      r := CheckPlain(buf, i);
      assert buf[..i] == buf[..][..i];
    }

    /** Decryption into `buf`, and the end of the plaintext there */
    method Unseal(a: array<byte>, n: nat, cipher: Cipher) returns (i: int)
      requires CipherOk(cipher) && cipher.block <= n <= a.Length && (n - cipher.block) % cipher.block == 0
      requires n - cipher.block <= buf.Length && buf != a
      modifies buf
      ensures i < 0 ==> Unpad(cipher.decrypt(a[..cipher.block], a[cipher.block..n]), cipher.block) == None
      ensures i <= buf.Length
      ensures i >= 0 ==>
          Unpad(cipher.decrypt(a[..cipher.block], a[cipher.block..n]), cipher.block) == Some(buf[..i])
    {
      var plain := cipher.decrypt(a[..cipher.block], a[cipher.block..n]);
      Write(buf, 0, plain);
      var len := n - cipher.block;
      assert buf[..len] == plain;
      if len < cipher.block {
        return -1;
      }
      i := FindPadding(buf, len, cipher.block);
      assert i >= 0 ==> buf[..i] == plain[..i];
    }
  }
}
