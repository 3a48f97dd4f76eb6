/**
 * SPProto: a payload with an optional one-time password and an optional hash
 * before it, optionally padded and encrypted.  The decoder takes a packet for
 * content `c` exactly when its plaintext is the encoder's plaintext for `c`.
 */
module SPProtoModel {
  import opened Bytes

  /** BHash: a function of the data with a fixed result size */
  datatype Hash = Hash(size: nat, calculate: seq<byte> -> seq<byte>)
  /** BEncryption under one key, from an initialization vector and whole blocks */
  datatype Cipher = Cipher(block: nat, encrypt: (seq<byte>, seq<byte>) -> seq<byte>,
                           decrypt: (seq<byte>, seq<byte>) -> seq<byte>)
  /** spproto_security_params, with what the modes stand for */
  datatype Suite = Suite(otp: bool, hash: Option<Hash>, cipher: Option<Cipher>)

  ghost predicate SuiteOk(s: Suite) {
    && (s.hash.Some? ==> forall x :: |s.hash.value.calculate(x)| == s.hash.value.size)
    && (s.cipher.Some? ==> CipherOk(s.cipher.value))
  }

  /** Whole blocks go to whole blocks, and decryption undoes encryption. */
  ghost predicate CipherOk(c: Cipher) {
    && c.block > 0
    && (forall iv, x {:trigger c.encrypt(iv, x)} :: |iv| == c.block && |x| % c.block == 0 ==>
          |c.encrypt(iv, x)| == |x| && c.decrypt(iv, c.encrypt(iv, x)) == x)
    && (forall iv, x {:trigger c.decrypt(iv, x)} :: |iv| == c.block && |x| % c.block == 0 ==>
          |c.decrypt(iv, x)| == |x|)
  }

  /** What a packet carries: the payload, and a seed id and OTP where these are used. */
  datatype Content = Content(seed: nat, otp: seq<byte>, payload: seq<byte>)

  const SEED: nat := 2
  /** sizeof(otp_t) */
  const OTP: nat := 4

  predicate ContentOk(s: Suite, c: Content) {
    if s.otp then c.seed < 0x1_0000 && |c.otp| == OTP else c.seed == 0 && c.otp == []
  }

  function OtpLen(s: Suite): nat { if s.otp then SEED + OTP else 0 }
  function HashLen(s: Suite): nat { if s.hash.Some? then s.hash.value.size else 0 }
  /** SPPROTO_HEADER_LEN */
  function HeaderLen(s: Suite): nat { OtpLen(s) + HashLen(s) }

  function Zeros(n: nat): (z: seq<byte>)
    ensures |z| == n && forall i :: 0 <= i < n ==> z[i] == 0
  {
    if n == 0 then [] else Zeros(n - 1) + [0]
  }

  // ---- what the encoder makes ----

  function OtpData(s: Suite, c: Content): (d: seq<byte>)
    requires ContentOk(s, c)
    ensures |d| == OtpLen(s)
  {
    if s.otp then ToLE(c.seed, SEED) + c.otp else []
  }

  /** The hash over the plaintext with its hash field zero. */
  function HashOf(s: Suite, otpData: seq<byte>, payload: seq<byte>): seq<byte> {
    if s.hash.Some? then s.hash.value.calculate(otpData + Zeros(HashLen(s)) + payload) else []
  }

  function Plain(s: Suite, c: Content): seq<byte>
    requires ContentOk(s, c)
  {
    OtpData(s, c) + HashOf(s, OtpData(s, c), c.payload) + c.payload
  }

  /** The plaintext with its hash field zeroed. */
  function Unhashed(s: Suite, plain: seq<byte>): seq<byte>
    requires HeaderLen(s) <= |plain|
  {
    plain[..OtpLen(s)] + Zeros(HashLen(s)) + plain[HeaderLen(s)..]
  }

  /**
   * The plaintext, byte by byte: seed id and OTP where these are used, then the
   * hash of all of the plaintext with the hash field zeroed, then the payload.
   */
  lemma PlainLayout(s: Suite, c: Content)
    requires SuiteOk(s) && ContentOk(s, c)
    ensures
      var p := Plain(s, c);
      && |p| == HeaderLen(s) + |c.payload| && p[HeaderLen(s)..] == c.payload
      && (s.otp ==> U16(p, 0) == c.seed && p[SEED..SEED + OTP] == c.otp)
      && (s.hash.Some? ==> p[OtpLen(s)..HeaderLen(s)] == s.hash.value.calculate(Unhashed(s, p)))
  {
    var p, d, h := Plain(s, c), OtpData(s, c), HashOf(s, OtpData(s, c), c.payload);
    assert |h| == HashLen(s);
    assert p[..OtpLen(s)] == d && p[OtpLen(s)..HeaderLen(s)] == h && p[HeaderLen(s)..] == c.payload;
    if s.otp {
      Pow256Values();
      FromToLE(c.seed, SEED);
      assert p[0..2] == ToLE(c.seed, SEED) && p[SEED..SEED + OTP] == c.otp;
      U16IsLE(p, 0);
    }
  }

  /** balign_up */
  function AlignUp(x: nat, n: nat): (r: nat)
    requires n > 0
    ensures x <= r < x + n
  {
    if x % n == 0 then x else x + (n - x % n)
  }

  function Pad(x: seq<byte>, block: nat): (y: seq<byte>)
    requires block > 0
    ensures |y| == AlignUp(|x| + 1, block) > 0
  {
    x + [1] + Zeros(AlignUp(|x| + 1, block) - |x| - 1)
  }

  function Encode(s: Suite, c: Content, iv: seq<byte>): seq<byte>
    requires ContentOk(s, c) && (s.cipher.Some? ==> s.cipher.value.block > 0)
  {
    if s.cipher.None? then Plain(s, c)
    else iv + s.cipher.value.encrypt(iv, Pad(Plain(s, c), s.cipher.value.block))
  }

  // ---- what the decoder makes of it ----

  /** The padding loop: the last byte before `i` and not before `lo` that is 1, with only zeros behind it. */
  function Scan(x: seq<byte>, i: nat, lo: nat): Option<nat>
    requires i <= |x|
  {
    if i <= lo then None
    else if x[i - 1] == 1 then Some(i - 1)
    else if x[i - 1] != 0 then None
    else Scan(x, i - 1, lo)
  }

  function Unpad(x: seq<byte>, block: nat): Option<seq<byte>> {
    if |x| < block then None
    else
      var i := Scan(x, |x|, |x| - block);
      if i.Some? && i.value <= |x| then Some(x[..i.value]) else None
  }

  /** The plaintext of a packet. */
  function Open(s: Suite, packet: seq<byte>, haveKey: bool): Option<seq<byte>>
    requires s.cipher.Some? ==> s.cipher.value.block > 0
  {
    if s.cipher.None? then Some(packet)
    else
      var block := s.cipher.value.block;
      if |packet| % block != 0 || |packet| < block || !haveKey then None
      else Unpad(s.cipher.value.decrypt(packet[..block], packet[block..]), block)
  }

  /** Header, length and hash of a plaintext. */
  function Check(s: Suite, mtu: nat, plain: seq<byte>): Option<Content> {
    if |plain| < HeaderLen(s) || |plain| - HeaderLen(s) > mtu then None
    else
      var otpData, payload := plain[..OtpLen(s)], plain[HeaderLen(s)..];
      if plain[OtpLen(s)..HeaderLen(s)] != HashOf(s, otpData, payload) then None
      else if s.otp then Some(Content(FromLE(otpData[..SEED]), otpData[SEED..], payload))
      else Some(Content(0, [], payload))
  }

  function Decode(s: Suite, mtu: nat, packet: seq<byte>, haveKey: bool): Option<Content>
    requires s.cipher.Some? ==> s.cipher.value.block > 0
  {
    var plain := Open(s, packet, haveKey);
    if plain.None? then None else Check(s, mtu, plain.value)
  }

  // ---- padding ----

  /** The quotient and the remainder are the only ones. */
  lemma Remainder(x: nat, n: nat, q: int, r: nat)
    requires n > 0 && x == q * n + r && r < n
    ensures x % n == r
  {
    var q' := x / n;
    assert x == q' * n + x % n;
    assert q' < q ==> (q' + 1) * n <= q * n;
    assert q' > q ==> (q + 1) * n <= q' * n;
  }

  lemma AlignUpWhole(x: nat, n: nat)
    requires n > 0
    ensures AlignUp(x, n) % n == 0
  {
    var q := x / n;
    assert x == q * n + x % n;
    if x % n != 0 {
      assert AlignUp(x, n) == (q + 1) * n + 0;
      Remainder(AlignUp(x, n), n, q + 1, 0);
    }
  }

  /** A whole number of blocks is reached from anywhere in its last block. */
  lemma AlignUpInto(x: nat, n: nat, whole: nat)
    requires n > 0 && whole % n == 0 && whole - n < x <= whole
    ensures AlignUp(x, n) == whole
  {
    var q := whole / n;
    assert whole == q * n;
    var d := whole - x;
    if d == 0 {
    } else {
      assert x == (q - 1) * n + (n - d);
      Remainder(x, n, q - 1, n - d);
    }
  }

  ghost predicate PaddedAt(x: seq<byte>, i: nat) {
    i < |x| && x[i] == 1 && forall k :: i < k < |x| ==> x[k] == 0
  }

  lemma {:induction false} ScanFinds(x: seq<byte>, i: nat, lo: nat, at: nat)
    requires i <= |x| && forall k :: i <= k < |x| ==> x[k] == 0
    ensures Scan(x, i, lo) == Some(at) <==> PaddedAt(x, at) && lo <= at < i
    decreases i
  {
    if i > lo && x[i - 1] == 0 {
      ScanFinds(x, i - 1, lo, at);
    }
  }

  /** Unpadding accepts exactly what padding makes, and undoes it. */
  lemma UnpadExact(y: seq<byte>, x: seq<byte>, block: nat)
    requires block > 0 && |y| % block == 0
    ensures Unpad(y, block) == Some(x) <==> y == Pad(x, block)
  {
    var i := |x|;
    if y == Pad(x, block) {
      if |y| < block {
        Remainder(|y|, block, 0, |y|);
      }
      assert PaddedAt(y, i);
      ScanFinds(y, |y|, |y| - block, i);
      assert y[..i] == x;
    }
    if Unpad(y, block) == Some(x) {
      ScanFinds(y, |y|, |y| - block, i);
      AlignUpInto(i + 1, block, |y|);
      assert y == y[..i] + [y[i]] + y[i + 1..];
      assert y[i + 1..] == Zeros(|y| - i - 1);
    }
  }

  // ---- plaintext ----

  /** The decoder accepts exactly the encoder's plaintexts, each for the content it was made from. */
  lemma CheckExact(s: Suite, mtu: nat, plain: seq<byte>, c: Content)
    requires SuiteOk(s)
    ensures Check(s, mtu, plain) == Some(c) <==>
            ContentOk(s, c) && |c.payload| <= mtu && plain == Plain(s, c)
  {
    var o, h := OtpLen(s), HeaderLen(s);
    Pow256Values();
    if ContentOk(s, c) && plain == Plain(s, c) {
      assert plain[..o] == OtpData(s, c) && plain[h..] == c.payload;
      assert plain[o..h] == HashOf(s, plain[..o], plain[h..]);
      if s.otp {
        FromToLE(c.seed, SEED);
        assert plain[..o][..SEED] == ToLE(c.seed, SEED) && plain[..o][SEED..] == c.otp;
      }
    }
    if Check(s, mtu, plain) == Some(c) {
      if s.otp {
        ToFromLE(plain[..o][..SEED]);
        assert plain[..o] == plain[..o][..SEED] + plain[..o][SEED..];
      }
      assert plain == plain[..o] + plain[o..h] + plain[h..];
    }
  }

  // ---- packets ----

  /**
   * For every payload within the MTU, every block size and every combination of
   * OTP, hash and encryption, decoding what was encoded gives the content back.
   */
  lemma RoundTrip(s: Suite, mtu: nat, c: Content, iv: seq<byte>)
    requires SuiteOk(s) && ContentOk(s, c) && |c.payload| <= mtu
    requires s.cipher.Some? ==> |iv| == s.cipher.value.block
    ensures Decode(s, mtu, Encode(s, c, iv), true) == Some(c)
  {
    CheckExact(s, mtu, Plain(s, c), c);
    if s.cipher.Some? {
      var block := s.cipher.value.block;
      var padded := Pad(Plain(s, c), block);
      AlignUpWhole(|Plain(s, c)| + 1, block);
      UnpadExact(padded, Plain(s, c), block);
      var packet := Encode(s, c, iv);
      assert packet[..block] == iv && packet[block..] == s.cipher.value.encrypt(iv, padded);
      AddBlock(|padded|, block);
    }
  }

  lemma AddBlock(n: nat, block: nat)
    requires block > 0
    ensures (block + n) % block == 0 <==> n % block == 0
  {
    var q := n / block;
    assert n == q * block + n % block;
    assert block + n == (q + 1) * block + n % block;
    Remainder(block + n, block, q + 1, n % block);
  }

  /** A packet is accepted exactly when its plaintext is the encoder's for the content it is taken for. */
  lemma DecodeExact(s: Suite, mtu: nat, packet: seq<byte>, haveKey: bool, c: Content)
    requires SuiteOk(s)
    ensures Decode(s, mtu, packet, haveKey) == Some(c) <==>
            && ContentOk(s, c) && |c.payload| <= mtu
            && (s.cipher.None? ==> packet == Plain(s, c))
            && (s.cipher.Some? ==>
                  var block := s.cipher.value.block;
                  && haveKey && |packet| % block == 0 && |packet| >= block
                  && s.cipher.value.decrypt(packet[..block], packet[block..]) == Pad(Plain(s, c), block))
  {
    var plain := Open(s, packet, haveKey);
    if plain.Some? {
      CheckExact(s, mtu, plain.value, c);
    }
    if s.cipher.Some? {
      var block := s.cipher.value.block;
      if |packet| % block == 0 && |packet| >= block {
        AddBlock(|packet| - block, block);
        var y := s.cipher.value.decrypt(packet[..block], packet[block..]);
        if plain.Some? {
          UnpadExact(y, plain.value, block);
        }
        if ContentOk(s, c) {
          UnpadExact(y, Plain(s, c), block);
          CheckExact(s, mtu, Plain(s, c), c);
        }
      }
    }
  }

  // ---- sizes ----

  /** spproto_carrier_mtu_for_payload_mtu, without its test for int overflow */
  function CarrierMtu(s: Suite, payloadMtu: nat): nat
    requires s.cipher.Some? ==> s.cipher.value.block > 0
  {
    if s.cipher.None? then HeaderLen(s) + payloadMtu
    else
      var block := s.cipher.value.block;
      block + AlignUp(HeaderLen(s) + payloadMtu + 1, block)
  }

  /** spproto_payload_mtu_for_carrier_mtu */
  function PayloadMtu(s: Suite, carrierMtu: nat): int
    requires s.cipher.Some? ==> s.cipher.value.block > 0
  {
    if s.cipher.None? then carrierMtu - HeaderLen(s)
    else
      var block := s.cipher.value.block;
      (carrierMtu - carrierMtu % block) - block - HeaderLen(s) - 1
  }

  /** A packet is as long as the carrier MTU computed for its payload. */
  lemma EncodeSize(s: Suite, c: Content, iv: seq<byte>)
    requires SuiteOk(s) && ContentOk(s, c) && (s.cipher.Some? ==> |iv| == s.cipher.value.block)
    ensures |Encode(s, c, iv)| == CarrierMtu(s, |c.payload|)
  {
    if s.cipher.Some? {
      AlignUpWhole(|Plain(s, c)| + 1, s.cipher.value.block);
    }
  }

  /** A payload fits a carrier exactly when it is no longer than the payload MTU computed for it. */
  lemma MtuExact(s: Suite, payload: nat, carrier: nat)
    requires s.cipher.Some? ==> s.cipher.value.block > 0
    ensures CarrierMtu(s, payload) <= carrier <==> payload <= PayloadMtu(s, carrier)
  {
    if s.cipher.Some? {
      var block := s.cipher.value.block;
      var x := HeaderLen(s) + payload + 1;
      AlignUpWhole(x, block);
      AlignLeast(x, block, carrier - block);
    }
  }

  /** balign_up is the least multiple that is large enough: it fits below `c` iff the multiple below `c` does. */
  lemma AlignLeast(x: nat, n: nat, c: int)
    requires n > 0
    ensures AlignUp(x, n) <= c <==> x <= (c + n) - (c + n) % n - n
  {
    var up, q := AlignUp(x, n), (c + n) / n;
    AlignUpWhole(x, n);
    assert c + n == q * n + (c + n) % n;
    var u := up / n;
    assert up == u * n;
    assert u >= q ==> u * n >= q * n;
    assert u <= q - 1 ==> u * n <= (q - 1) * n;
  }
}
