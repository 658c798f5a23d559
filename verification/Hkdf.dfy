/**
 * HKDF-Expand (section 2.3 of RFC 5869).  `mac` stands for HMAC
 * under a fixed pseudorandom key; all that is asked of it is its output length.
 */
module Hkdf {
  import opened Bytes

  /** T(0) is empty, T(i) = HMAC(T(i-1) || info || i), the counter being one octet. */
  function Block(mac: bytes -> bytes, info: bytes, i: nat): bytes {
    if i == 0 then [] else mac(Block(mac, info, i - 1) + info + [i % 256])
  }

  /** T(1) || T(2) || ... || T(n) */
  function Blocks(mac: bytes -> bytes, info: bytes, n: nat): bytes {
    if n == 0 then [] else Blocks(mac, info, n - 1) + Block(mac, info, n)
  }

  ghost predicate OutputsLength(mac: bytes -> bytes, hashLen: nat) { forall m: bytes :: |mac(m)| == hashLen }

  function BlockCount(length: nat, hashLen: nat): nat
    requires hashLen > 0
  {
    (length + hashLen - 1) / hashLen
  }

  lemma {:induction false} BlocksLength(mac: bytes -> bytes, hashLen: nat, info: bytes, n: nat)
    requires OutputsLength(mac, hashLen)
    ensures |Blocks(mac, info, n)| == n * hashLen
  {
    hide OutputsLength, Block;
    if n > 0 {
      BlocksLength(mac, hashLen, info, n - 1);
      BlockLength(mac, hashLen, info, n);
      assert n * hashLen == (n - 1) * hashLen + hashLen;
    }
  }

  lemma BlockLength(mac: bytes -> bytes, hashLen: nat, info: bytes, n: nat)
    requires OutputsLength(mac, hashLen) && n > 0
    ensures |Block(mac, info, n)| == hashLen
  {}

  lemma MulMonotone(i: nat, n: nat, h: nat)
    requires i <= n
    ensures i * h <= n * h
  {}

  /** Another block is needed exactly while the blocks so far are too short. */
  lemma NeedsBlock(length: nat, hashLen: nat, i: nat)
    requires hashLen > 0
    ensures i < BlockCount(length, hashLen) <==> i * hashLen < length
  {
    var n, r := (length + hashLen - 1) / hashLen, (length + hashLen - 1) % hashLen;
    assert length + hashLen - 1 == n * hashLen + r;
    if i < n {
      MulMonotone(i + 1, n, hashLen);
      assert (i + 1) * hashLen == i * hashLen + hashLen;
    } else {
      MulMonotone(n, i, hashLen);
    }
  }

  lemma {:induction false} BlocksPrefix(mac: bytes -> bytes, info: bytes, n: nat, m: nat)
    requires n <= m
    ensures Blocks(mac, info, n) <= Blocks(mac, info, m)
    decreases m
  {
    hide Block;
    if n < m { BlocksPrefix(mac, info, n, m - 1); }
  }

  /** The output keying material, as the RFC defines it. */
  function Okm(mac: bytes -> bytes, hashLen: nat, info: bytes, length: nat): (okm: bytes)
    requires hashLen > 0 && OutputsLength(mac, hashLen)
    ensures |okm| == length
  {
    BlocksLength(mac, hashLen, info, BlockCount(length, hashLen));
    NeedsBlock(length, hashLen, BlockCount(length, hashLen));
    Blocks(mac, info, BlockCount(length, hashLen))[..length]
  }

  method CopyBlock(dst: array<byte>, pos: nat, t: bytes)
    requires pos + |t| <= dst.Length
    modifies dst
    ensures dst[..pos + |t|] == old(dst[..pos]) + t
  {
    forall j | 0 <= j < |t| { dst[pos + j] := t[j]; }
    assert dst[..pos + |t|] == dst[..pos] + dst[pos..pos + |t|];
  }

  /** The C# loop: whole blocks copied into a buffer at a moving position, then truncated. */
  method HkdfExpand(mac: bytes -> bytes, hashLen: nat, info: bytes, length: nat) returns (result: array<byte>)
    requires hashLen > 0 && OutputsLength(mac, hashLen)
    ensures fresh(result) && result[..] == Okm(mac, hashLen, info, length)
  {
    hide OutputsLength, Block, BlockCount;
    var n := BlockCount(length, hashLen);
    NeedsBlock(length, hashLen, n);
    var outBuf := new byte[n * hashLen];
    var t: bytes := [];
    FirstBlock(mac, info);
    var pos := 0;
    for i := 0 to n
      invariant t == Block(mac, info, i)
      invariant pos == i * hashLen <= outBuf.Length
      invariant outBuf[..pos] == Blocks(mac, info, i)
    {
      NextBlock(mac, hashLen, info, i);
      MulMonotone(i + 1, n, hashLen);
      assert (i + 1) * hashLen == pos + hashLen;
      var input := t + info + [(i + 1) % 256];
      t := mac(input);
      CopyBlock(outBuf, pos, t);
      pos := pos + hashLen;
    }
    result := new byte[length];
    forall j | 0 <= j < length { result[j] := outBuf[j]; }
    assert result[..] == outBuf[..pos][..length];
  }

  lemma FirstBlock(mac: bytes -> bytes, info: bytes)
    ensures Block(mac, info, 0) == []
  {}

  lemma NextBlock(mac: bytes -> bytes, hashLen: nat, info: bytes, i: nat)
    requires OutputsLength(mac, hashLen)
    ensures Block(mac, info, i + 1) == mac(Block(mac, info, i) + info + [(i + 1) % 256])
    ensures |Block(mac, info, i + 1)| == hashLen
  {}

  /** The Python oracle: appends until long enough, and refuses more than 255 blocks. */
  method OracleExpand(mac: bytes -> bytes, hashLen: nat, info: bytes, length: nat) returns (okm: Option<bytes>)
    requires hashLen > 0 && OutputsLength(mac, hashLen)
    ensures okm == if length > 255 * hashLen then None else Some(Okm(mac, hashLen, info, length))
  {
    hide OutputsLength, Block, BlockCount;
    if length > 255 * hashLen { return None; }
    ghost var n := BlockCount(length, hashLen);
    NeedsBlock(length, hashLen, n);
    var t, out: bytes, i := [], [], 0;
    FirstBlock(mac, info);
    while |out| < length
      invariant 0 <= i <= n && |out| == i * hashLen
      invariant t == Block(mac, info, i) && out == Blocks(mac, info, i)
      decreases n - i
    {
      NextBlock(mac, hashLen, info, i);
      NeedsBlock(length, hashLen, i);
      t := mac(t + info + [(i + 1) % 256]);
      out := out + t;
      assert (i + 1) * hashLen == i * hashLen + hashLen;
      i := i + 1;
    }
    NeedsBlock(length, hashLen, i);
    assert i == n;
    return Some(out[..length]);
  }

  /** Block i really is numbered i, for every block of an output, exactly up to 255 blocks. */
  lemma CountersDistinct(length: nat, hashLen: nat)
    requires hashLen > 0
    ensures (forall j :: 1 <= j <= BlockCount(length, hashLen) ==> j % 256 == j) <==> length <= 255 * hashLen
  {
    hide BlockCount;
    NeedsBlock(length, hashLen, 255);
    assert 256 % 256 == 0;
  }

  /** Every whole block of an output is the MAC of the block before it, the info and its own number; the first has none before it. */
  lemma OkmBlock(mac: bytes -> bytes, hashLen: nat, info: bytes, length: nat, i: nat)
    requires hashLen > 0 && OutputsLength(mac, hashLen) && (i + 1) * hashLen <= length
    ensures 0 <= i * hashLen <= (i + 1) * hashLen
    ensures var okm := Okm(mac, hashLen, info, length);
            okm[i * hashLen..(i + 1) * hashLen] == mac(PreviousBlock(okm, hashLen, i) + info + [(i + 1) % 256])
  {
    hide OutputsLength, Block, Blocks, BlockCount;
    var okm := Okm(mac, hashLen, info, length);
    assert (i + 1) * hashLen == i * hashLen + hashLen;
    NextBlock(mac, hashLen, info, i);
    BlockAt(mac, hashLen, info, length, i);
    if i == 0 {
      FirstBlock(mac, info);
    } else {
      assert i * hashLen == (i - 1) * hashLen + hashLen;
      BlockAt(mac, hashLen, info, length, i - 1);
    }
  }

  function PreviousBlock(okm: bytes, hashLen: nat, i: nat): bytes
    requires i * hashLen <= |okm|
  {
    if i == 0 then []
    else
      MulMonotone(i - 1, i, hashLen);
      okm[(i - 1) * hashLen..i * hashLen]
  }

  lemma BlockAt(mac: bytes -> bytes, hashLen: nat, info: bytes, length: nat, i: nat)
    requires hashLen > 0 && OutputsLength(mac, hashLen) && (i + 1) * hashLen <= length
    ensures 0 <= i * hashLen <= (i + 1) * hashLen
    ensures Okm(mac, hashLen, info, length)[i * hashLen..(i + 1) * hashLen] == Block(mac, info, i + 1)
  {
    hide OutputsLength, Block, BlockCount;
    var n := BlockCount(length, hashLen);
    assert (i + 1) * hashLen == i * hashLen + hashLen;
    NeedsBlock(length, hashLen, i);
    NeedsBlock(length, hashLen, n);
    BlocksLength(mac, hashLen, info, i);
    BlocksLength(mac, hashLen, info, i + 1);
    BlocksLength(mac, hashLen, info, n);
    BlocksPrefix(mac, info, i + 1, n);
    var all, upTo := Blocks(mac, info, n), Blocks(mac, info, i + 1);
    assert all[..length][..|upTo|] == upTo;
    assert upTo[i * hashLen..] == Block(mac, info, i + 1);
  }

  /** Shorter outputs for the same key and info are prefixes of longer ones. */
  lemma OkmPrefix(mac: bytes -> bytes, hashLen: nat, info: bytes, short: nat, long: nat)
    requires hashLen > 0 && OutputsLength(mac, hashLen) && short <= long
    ensures Okm(mac, hashLen, info, short) == Okm(mac, hashLen, info, long)[..short]
  {
    hide Blocks, OutputsLength, BlockCount;
    var n, m := BlockCount(short, hashLen), BlockCount(long, hashLen);
    NeedsBlock(short, hashLen, n);
    NeedsBlock(short, hashLen, m);
    NeedsBlock(long, hashLen, m);
    BlocksLength(mac, hashLen, info, n);
    BlocksLength(mac, hashLen, info, m);
    BlocksPrefix(mac, info, n, m);
    PrefixOfPrefix(Blocks(mac, info, n), Blocks(mac, info, m), short, long);
  }

  lemma PrefixOfPrefix(a: bytes, b: bytes, short: nat, long: nat)
    requires a <= b && short <= |a| && short <= long <= |b|
    ensures a[..short] == b[..long][..short]
  {}
}
