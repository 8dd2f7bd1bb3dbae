/** HMAC-SHA-512 and PBKDF2 (wallet_crypto.c:275-390). */
module Hmac {
  import opened Bits
  import opened Bytes
  import opened Positional
  import opened Sha512
  import opened Sha512Words
  import opened Wrappers
  import Machine

  const BLOCK: nat := 128
  const DIGEST: nat := 64

  /** Byte strings that fit any of the digests below. */
  const MAX_LENGTH: nat := 0x1fff_ffff_ffff_ff80

  // -------------------------------------------------------------------------------------------
  // What they are
  // -------------------------------------------------------------------------------------------

  function XorByte(x: Byte, y: Byte): Byte {
    XorBound(x, y, 8);
    Xor(x, y)
  }

  function XorBytes(s: seq<Byte>, t: seq<Byte>): (r: seq<Byte>)
    requires |s| == |t|
    ensures |r| == |s|
  {
    seq(|s|, i requires 0 <= i < |s| => XorByte(s[i], t[i]))
  }

  function XorWith(s: seq<Byte>, x: Byte): (r: seq<Byte>)
    ensures |r| == |s|
  {
    seq(|s|, i requires 0 <= i < |s| => XorByte(s[i], x))
  }

  /** Masking twice gives the text back. */
  lemma XorTwice(s: seq<Byte>, t: seq<Byte>)
    requires |s| == |t|
    ensures XorBytes(XorBytes(s, t), t) == s
  {
    forall i | 0 <= i < |s|
      ensures XorByte(XorByte(s[i], t[i]), t[i]) == s[i]
    {
      XorSymmetric(s[i], t[i]);
      XorSymmetric(Xor(s[i], t[i]), t[i]);
      XorCancels(t[i], s[i]);
    }
  }

  /** The key as one block: keys that are too long are hashed. */
  function KeyBlock(key: seq<Byte>): (k: seq<Byte>)
    requires |key| < MAX_LENGTH
    ensures |k| == BLOCK
  {
    var k := if |key| > BLOCK then Digest(key) else key;
    k + Zeros(BLOCK - |k|)
  }

  /** Section 2 of RFC 2104. */
  function Mac(key: seq<Byte>, text: seq<Byte>): (d: seq<Byte>)
    requires |key| < MAX_LENGTH && |text| < MAX_LENGTH
    ensures |d| == DIGEST
  {
    Digest(XorWith(KeyBlock(key), 0x5c) + Digest(XorWith(KeyBlock(key), 0x36) + text))
  }

  /** A key of up to a block: the bytes of both pads, for a key followed by zeros. */
  lemma MacIs(key: seq<Byte>, text: seq<Byte>, inner: seq<Byte>, outer: seq<Byte>)
    requires |key| <= 128 == |inner| == |outer| && |text| < MAX_LENGTH
    requires forall i :: 0 <= i < 128 ==> inner[i] == Xor(if i < |key| then key[i] else 0, 0x36)
    requires forall i :: 0 <= i < 128 ==> outer[i] == Xor(if i < |key| then key[i] else 0, 0x5c)
    ensures Mac(key, text) == Digest(outer + Digest(inner + text))
  {
    hide Digest, Xor;
    assert XorWith(KeyBlock(key), 0x36) == inner;
    assert XorWith(KeyBlock(key), 0x5c) == outer;
  }

  /** Without a key the pads are constants. */
  lemma MacOfNoKey(text: seq<Byte>)
    requires |text| < MAX_LENGTH
    ensures Mac([], text) == Digest(seq(128, _ => 0x5c) + Digest(seq(128, _ => 0x36) + text))
  {
    hide Mac, Digest, Xor;
    XorSymmetric(0, 0x36);
    XorSymmetric(0, 0x5c);
    XorZero(0x36);
    XorZero(0x5c);
    MacIs([], text, seq(128, _ => 0x36), seq(128, _ => 0x5c));
  }

  /** A longer key is hashed first. */
  lemma MacOfLongKey(key: seq<Byte>, text: seq<Byte>)
    requires 128 < |key| < MAX_LENGTH && |text| < MAX_LENGTH
    ensures Mac(key, text) == Mac(Digest(key), text)
  {
    hide Digest, XorWith;
  }

  /** INT(i) of RFC 8018: four bytes, the highest first. */
  function Int4(i: nat): (s: seq<Byte>)
    ensures |s| == 4
  {
    [i / 0x100_0000 % 0x100, i / 0x1_0000 % 0x100, i / 0x100 % 0x100, i % 0x100]
  }

  lemma Int4Value(i: nat)
    requires i < 0x1_0000_0000
    ensures Number(256, Int4(i)) == i
  {
    hide Continued;
    var s := Int4(i);
    assert s[..4] == s;
    NumberNone();
    NumberStep(s, 0);
    NumberStep(s, 1);
    NumberStep(s, 2);
    NumberStep(s, 3);
    DivDiv(i, 0x100, 0x100);
    DivDiv(i, 0x1_0000, 0x100);
  }

  /** U_j of block i. */
  function Iterated(password: seq<Byte>, salt: seq<Byte>, i: nat, j: nat): (u: seq<Byte>)
    requires |password| < MAX_LENGTH && |salt| <= 16 && j > 0
    ensures |u| == DIGEST
    decreases j, |password|
  {
    if j == 1 then Mac(password, salt + Int4(i)) else Mac(password, Iterated(password, salt, i, j - 1))
  }

  /** F(P, S, c, i) = U_1 xor ... xor U_c. */
  function Folded(password: seq<Byte>, salt: seq<Byte>, c: nat, i: nat): (t: seq<Byte>)
    requires |password| < MAX_LENGTH && |salt| <= 16 && c > 0
    ensures |t| == DIGEST
    decreases c, |password|
  {
    if c == 1 then Iterated(password, salt, i, 1)
    else XorBytes(Folded(password, salt, c - 1, i), Iterated(password, salt, i, c))
  }

  /** T_1 || ... || T_n. */
  function Blocks(password: seq<Byte>, salt: seq<Byte>, c: nat, n: nat): (s: seq<Byte>)
    requires |password| < MAX_LENGTH && |salt| <= 16 && c > 0
    ensures |s| == DIGEST * n
    decreases n, |password|
  {
    if n == 0 then [] else Blocks(password, salt, c, n - 1) + Folded(password, salt, c, n)
  }

  function BlockCount(length: nat): nat {
    (length + DIGEST - 1) / DIGEST
  }

  /** Section 5.2 of RFC 8018. */
  function DerivedKey(password: seq<Byte>, salt: seq<Byte>, c: nat, length: nat): (k: seq<Byte>)
    requires |password| < MAX_LENGTH && |salt| <= 16 && c > 0
    ensures |k| == length
  {
    Blocks(password, salt, c, BlockCount(length))[..length]
  }

  /** One iteration: the MACs of the salt and the block numbers 1 and 2. */
  lemma OneIteration(password: seq<Byte>, salt: seq<Byte>)
    requires |password| < MAX_LENGTH && |salt| <= 16
    ensures DerivedKey(password, salt, 1, 128)
            == Mac(password, salt + [0, 0, 0, 1]) + Mac(password, salt + [0, 0, 0, 2])
  {
    hide Mac;
    assert Blocks(password, salt, 1, 1) == Folded(password, salt, 1, 1);
    assert Blocks(password, salt, 1, 2) == Folded(password, salt, 1, 1) + Folded(password, salt, 1, 2);
  }

  /** Two iterations: the MAC and the MAC of the MAC, one masked with the other. */
  lemma TwoIterations(password: seq<Byte>, salt: seq<Byte>)
    requires |password| < MAX_LENGTH && |salt| <= 16
    ensures var u := Mac(password, salt + [0, 0, 0, 1]);
            DerivedKey(password, salt, 2, 64) == XorBytes(u, Mac(password, u))
  {
    hide Mac, XorBytes;
    assert Blocks(password, salt, 2, 1) == Folded(password, salt, 2, 1);
    assert Folded(password, salt, 1, 1) == Iterated(password, salt, 1, 1);
  }

  // -------------------------------------------------------------------------------------------
  // hmac_sha512
  // -------------------------------------------------------------------------------------------

  /** A pad: the key, zeros, and a mask over both. */
  method MakePad(key: seq<Byte>, mask: Byte) returns (pad: array<Byte>)
    requires |key| <= BLOCK
    ensures fresh(pad) && pad.Length == BLOCK && pad[..] == XorWith(key + Zeros(BLOCK - |key|), mask)
  {
    pad := new Byte[BLOCK](_ => 0);
    Store(pad, 0, key);
    ghost var block := pad[..];
    assert block == key + Zeros(BLOCK - |key|);
    for i := 0 to BLOCK
      invariant pad.Length == BLOCK
      invariant forall k :: 0 <= k < i ==> pad[k] == XorByte(block[k], mask)
      invariant forall k :: i <= k < BLOCK ==> pad[k] == block[k]
    {
      pad[i] := XorByte(pad[i], mask);
    }
  }

  /** One hash of two parts. */
  method HashTwo(first: seq<Byte>, second: seq<Byte>, out: array<Byte>)
    requires |first| == BLOCK && |second| < MAX_LENGTH && out.Length >= DIGEST
    modifies out
    ensures out[..DIGEST] == Digest(first + second) && out[DIGEST..] == old(out[DIGEST..])
  {
    hide Digest, Context.Holds;
    var ctx := new Context();
    ghost var b, t := ctx.Update(first, [], []);
    b, t := ctx.Update(second, b, t);
    assert b + t == first + second;
    ctx.Final(out, b, t);
  }

  /** hmac_sha512.  The digest may overwrite the data. */
  method HmacSha512(key: seq<Byte>, data: array<Byte>, length: nat, out: array<Byte>)
    requires |key| < MAX_LENGTH && length <= data.Length && length < MAX_LENGTH && out.Length >= DIGEST
    modifies out
    ensures out[..DIGEST] == Mac(key, old(data[..length])) && out[DIGEST..] == old(out[DIGEST..])
  {
    hide Digest, XorWith;
    var short := key;
    if |key| > BLOCK {
      var tempKey := new Byte[64];
      Hash(key, tempKey);
      short := tempKey[..64];
    }
    var kopad := MakePad(short, 0x5c);
    var kipad := MakePad(short, 0x36);
    var inner := new Byte[64];
    HashTwo(kipad[..], data[..length], inner);
    HashTwo(kopad[..], inner[..64], out);
  }

  // -------------------------------------------------------------------------------------------
  // pbkdf2_hmac_sha512
  // -------------------------------------------------------------------------------------------

  /** t ^= u */
  method XorInto(t: array<Byte>, u: array<Byte>)
    requires t.Length == u.Length && t != u
    modifies t
    ensures t[..] == XorBytes(old(t[..]), u[..])
  {
    ghost var was := t[..];
    for i := 0 to t.Length
      invariant forall k :: 0 <= k < i ==> t[k] == XorByte(was[k], u[k])
      invariant forall k :: i <= k < t.Length ==> t[k] == was[k]
    {
      t[i] := XorByte(t[i], u[i]);
    }
  }

  /** The next of the iterated MACs, in place. */
  method NextMac(password: seq<Byte>, u: array<Byte>)
    requires |password| < MAX_LENGTH && u.Length == DIGEST
    modifies u
    ensures u[..] == Mac(password, old(u[..]))
  {
    hide Mac;
    assert u[..DIGEST] == u[..];
    HmacSha512(password, u, DIGEST, u);
    assert u[..DIGEST] == u[..];
  }

  /** The first of the iterated MACs. */
  method FirstMac(password: seq<Byte>, salt: seq<Byte>, block: nat, u: array<Byte>)
    requires |password| < MAX_LENGTH && |salt| <= 16 && u.Length == DIGEST
    modifies u
    ensures u[..] == Iterated(password, salt, block, 1)
  {
    hide Mac, Int4;
    var firstInput := new Byte[20](_ => 0);
    Store(firstInput, 0, salt + Int4(block));
    assert firstInput[..|salt| + 4] == salt + Int4(block);
    HmacSha512(password, firstInput, |salt| + 4, u);
    assert u[..DIGEST] == u[..];
  }

  /** One turn of the outer loop: the block in t. */
  method FoldBlock(password: seq<Byte>, salt: seq<Byte>, iterations: nat, block: nat, u: array<Byte>, t: array<Byte>)
    requires |password| < MAX_LENGTH && |salt| <= 16 && iterations > 0 && u.Length == t.Length == DIGEST && u != t
    modifies u, t
    ensures t[..] == Folded(password, salt, iterations, block)
  {
    hide Mac, XorBytes, Int4;
    FirstMac(password, salt, block, u);
    Store(t, 0, u[..]);
    assert t[..] == u[..];
    for j := 1 to iterations
      invariant u[..] == Iterated(password, salt, block, j)
      invariant t[..] == Folded(password, salt, j, block)
    {
      NextMac(password, u);
      XorInto(t, u);
    }
  }

  /** How many blocks are made: the number is cut to a uint32_t. */
  function BlocksMade(length: nat): nat {
    BlockCount(length) % 0x1_0000_0000
  }

  /** How much of the output is written. */
  function BytesMade(length: nat): (n: nat)
    ensures n <= length && (BlockCount(length) < 0x1_0000_0000 ==> n == length)
  {
    if DIGEST * BlocksMade(length) < length then DIGEST * BlocksMade(length) else length
  }

  /** A length for which the test of the block counter, a uint32_t, never fails. */
  lemma EndlessLength()
    ensures BlocksMade(DIGEST * 0xffff_ffff) == 0xffff_ffff
  {
  }

  /** pbkdf2_hmac_sha512, for all lengths for which it ends. */
  method Pbkdf2(password: seq<Byte>, salt: seq<Byte>, iterations: nat, output: array<Byte>, length: nat)
    returns (status: Status)
    requires |password| < MAX_LENGTH && length <= output.Length
    requires iterations > 0 && |salt| <= 16 ==> BlocksMade(length) < 0xffff_ffff
    modifies output
    ensures iterations == 0 || |salt| > 16 ==> status == AppErrIo && output[..] == old(output[..])
    ensures iterations > 0 && |salt| <= 16 ==>
              var n := BytesMade(length);
              status == AppOk && output[..n] == DerivedKey(password, salt, iterations, length)[..n]
              && output[n..] == old(output[n..])
  {
    hide Folded, Blocks, DerivedKey, BlocksMade, BytesMade;
    if iterations == 0 || |salt| > 16 {
      return AppErrIo;
    }
    var u := new Byte[64](_ => 0);
    var t := new Byte[64](_ => 0);
    var blocks := BlocksMade(length);
    var block, offset := 1, 0;
    NoBlocks(password, salt, iterations);
    while block <= blocks
      invariant 1 <= block <= blocks + 1 && offset == DIGEST * (block - 1)
      invariant fresh(u) && fresh(t) && u != t && u.Length == t.Length == DIGEST
      invariant Written(output, old(output[..]), length, offset, Blocks(password, salt, iterations, block - 1))
    {
      BlockStarts(length, block);
      FoldBlock(password, salt, iterations, block, u, t);
      NextBlocks(password, salt, iterations, block);
      PutBlock(output, old(output[..]), length, offset, t[..], Blocks(password, salt, iterations, block - 1));
      block := Machine.U32(block + 1);
      offset := offset + DIGEST;
    }
    Finished(password, salt, iterations, length);
    return AppOk;
  }

  /** The part of the output before the offset is the beginning of the key, and the rest as it was. */
  ghost predicate Written(output: array<Byte>, was: seq<Byte>, length: nat, offset: nat, key: seq<Byte>)
    reads output
  {
    var n := if offset < length then offset else length;
    && length <= output.Length == |was| && |key| == offset
    && output[..n] == key[..n] && output[n..] == was[n..]
  }

  /** output[offset..] = t, as much of it as is asked for. */
  method PutBlock(output: array<Byte>, ghost was: seq<Byte>, length: nat, offset: nat, t: seq<Byte>,
                  ghost key: seq<Byte>)
    requires |t| == DIGEST && offset < length && Written(output, was, length, offset, key)
    modifies output
    ensures Written(output, was, length, offset + DIGEST, key + t)
  {
    var count := length - offset;
    if count > DIGEST {
      count := DIGEST;
    }
    Store(output, offset, t[..count]);
    assert output[..offset + count] == (key + t)[..offset + count];
  }

  lemma NoBlocks(password: seq<Byte>, salt: seq<Byte>, c: nat)
    requires |password| < MAX_LENGTH && |salt| <= 16 && c > 0
    ensures Blocks(password, salt, c, 0) == []
  {
  }

  lemma NextBlocks(password: seq<Byte>, salt: seq<Byte>, c: nat, n: nat)
    requires |password| < MAX_LENGTH && |salt| <= 16 && c > 0 && n > 0
    ensures Blocks(password, salt, c, n) == Blocks(password, salt, c, n - 1) + Folded(password, salt, c, n)
  {
    hide Folded;
  }

  lemma BlockStarts(length: nat, block: nat)
    requires 0 < block <= BlocksMade(length)
    ensures DIGEST * (block - 1) < length
  {
  }

  lemma Finished(password: seq<Byte>, salt: seq<Byte>, c: nat, length: nat)
    requires |password| < MAX_LENGTH && |salt| <= 16 && c > 0
    ensures var m := DIGEST * BlocksMade(length);
            BytesMade(length) == (if m < length then m else length)
            && DerivedKey(password, salt, c, length)[..BytesMade(length)]
               == Blocks(password, salt, c, BlocksMade(length))[..BytesMade(length)]
  {
    hide Blocks;
    BlocksPrefix(password, salt, c, BlocksMade(length), BlockCount(length));
  }

  lemma {:induction false} BlocksPrefix(password: seq<Byte>, salt: seq<Byte>, c: nat, m: nat, n: nat)
    requires |password| < MAX_LENGTH && |salt| <= 16 && c > 0 && m <= n
    ensures Blocks(password, salt, c, m) == Blocks(password, salt, c, n)[..DIGEST * m]
    decreases n
  {
    hide Folded;
    if m < n {
      BlocksPrefix(password, salt, c, m, n - 1);
    }
  }
}
