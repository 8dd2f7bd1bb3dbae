/** The SHA-512 of keypair/sha512.c: the compression function with its eight-way renaming of registers,
    and the streaming context, against sections 5.1.2 and 6.4.2 of FIPS 180-4. */
module Sha512 {
  import opened Bits
  import opened Bytes
  import opened Positional
  import opened Sha512Words
  import opened Sha512Constants
  import Machine

  // -------------------------------------------------------------------------------------------
  // The standard
  // -------------------------------------------------------------------------------------------

  type Block = s: seq<Byte> | |s| == 128 witness seq(128, i => 0)

  /** W_t of the message schedule. */
  function Schedule(block: Block, t: nat): Word
    decreases t, block
  {
    if t < 16 then WordAt(block, 8 * t)
    else Add(Add(Add(Gamma1(Schedule(block, t - 2)), Schedule(block, t - 7)), Gamma0(Schedule(block, t - 15))),
             Schedule(block, t - 16))
  }

  function T1(e: Word, f: Word, g: Word, h: Word, k: Word, w: Word): Word {
    Add(Add(Add(Add(h, Sigma1(e)), Choose(e, f, g)), k), w)
  }

  function T2(a: Word, b: Word, c: Word): Word {
    Add(Sigma0(a), Majority(a, b, c))
  }

  /** One round: every working variable moves on by one place. */
  function Round(v: Eight, k: Word, w: Word): Eight {
    var t := T1(v[4], v[5], v[6], v[7], k, w);
    [Add(t, T2(v[0], v[1], v[2])), v[0], v[1], v[2], Add(v[3], t), v[4], v[5], v[6]]
  }

  /** The working variables after t rounds. */
  function Rounds(v: Eight, block: Block, t: nat): Eight
    requires t <= 80
    decreases t, v, 1
  {
    if t == 0 then v else NextRound(v, block, t - 1)
  }

  /** Round t on the working variables that the rounds before it leave. */
  function NextRound(v: Eight, block: Block, t: nat): Eight
    requires t < 80
    decreases t + 1, v, 0
  {
    Round(Rounds(v, block, t), K[t], Schedule(block, t))
  }

  function AddAll(v: Eight, u: Eight): Eight {
    [Add(v[0], u[0]), Add(v[1], u[1]), Add(v[2], u[2]), Add(v[3], u[3]),
     Add(v[4], u[4]), Add(v[5], u[5]), Add(v[6], u[6]), Add(v[7], u[7])]
  }

  function Compressed(v: Eight, block: Block): Eight {
    AddAll(v, Rounds(v, block, 80))
  }

  /** The hash value after the blocks of s. */
  function Chained(s: seq<Byte>): Eight
    requires |s| % 128 == 0
    decreases |s|, s
  {
    if |s| == 0 then IV else Compressed(Chained(s[..|s| - 128]), s[|s| - 128..])
  }

  function Zeros(n: nat): seq<Byte> {
    seq(n, i => 0)
  }

  /** The zeros that bring n + 1 bytes up to 112 mod 128. */
  function PadCount(n: nat): (k: nat)
    ensures (n + k + 17) % 128 == 0 && k < 128
  {
    (239 - n % 128) % 128
  }

  /** A one bit, zeros up to 112 mod 128 bytes, and the bit length in 16 bytes. */
  function Padded(m: seq<Byte>): (s: seq<Byte>)
    requires |m| < 0x2000_0000_0000_0000
    ensures |s| % 128 == 0
  {
    m + [0x80] + Zeros(PadCount(|m|)) + Zeros(8) + CountBytes(8 * |m|)
  }

  /** The eight words as 64 bytes. */
  function StateBytes(v: Eight): (s: seq<Byte>)
    ensures |s| == 64
  {
    WordBytes(v[0]) + WordBytes(v[1]) + WordBytes(v[2]) + WordBytes(v[3])
    + WordBytes(v[4]) + WordBytes(v[5]) + WordBytes(v[6]) + WordBytes(v[7])
  }

  /** The digest, after a countdown from n. */
  function DigestAfter(n: nat, m: seq<Byte>): (d: seq<Byte>)
    requires |m| < 0x2000_0000_0000_0000
    ensures |d| == 64
    decreases n
  {
    if n > 0 then DigestAfter(n - 1, m) else StateBytes(Chained(Padded(m)))
  }

  /** SHA-512 of messages below 2^61 bytes; DigestIs says what it is. */
  function Digest(m: seq<Byte>): (d: seq<Byte>)
    requires |m| < 0x2000_0000_0000_0000
    ensures |d| == 64
  {
    DigestAfter(|m| + 2, m)
  }

  lemma {:induction false} DigestAfterIs(n: nat, m: seq<Byte>)
    requires |m| < 0x2000_0000_0000_0000
    ensures DigestAfter(n, m) == StateBytes(Chained(Padded(m)))
    decreases n
  {
    hide StateBytes, Chained, Padded;
    if n > 0 {
      DigestAfterIs(n - 1, m);
    }
  }

  lemma DigestIs(m: seq<Byte>)
    requires |m| < 0x2000_0000_0000_0000
    ensures Digest(m) == StateBytes(Chained(Padded(m)))
  {
    hide StateBytes, Chained, Padded;
    DigestAfterIs(|m| + 2, m);
  }

  // -------------------------------------------------------------------------------------------
  // The padding and the chain of blocks
  // -------------------------------------------------------------------------------------------

  /** Section 5.1.2 of FIPS 180-4: the message, a one bit, as few zeros as make whole blocks, and the number of
      bits in 16 bytes. */
  lemma PaddedIs(m: seq<Byte>)
    requires |m| < 0x2000_0000_0000_0000
    ensures var s := Padded(m);
            && |s| % 128 == 0 && |m| + 17 <= |s| <= |m| + 144
            && s[..|m|] == m && s[|m|] == 0x80 && (forall i :: |m| < i < |s| - 16 ==> s[i] == 0)
            && Number(256, s[|s| - 16..]) == 8 * |m|
  {
    hide CountBytes, Number;
    var s, count := Padded(m), CountBytes(8 * |m|);
    var end: seq<int> := s[|s| - 16..];
    assert end == Repeat<int>(0, 8) + count;
    LeadingZeros(256, 8, count);
    CountValue(8 * |m|);
  }

  /** Starting from the value v, one block after the other. */
  function Absorbed(v: Eight, s: seq<Byte>): Eight
    requires |s| % 128 == 0
    decreases |s|, v
  {
    if |s| == 0 then v else Absorbed(Compressed(v, s[..128]), s[128..])
  }

  lemma {:induction false} AbsorbedStep(v: Eight, s: seq<Byte>, block: Block)
    requires |s| % 128 == 0
    ensures Absorbed(v, s + block) == Compressed(Absorbed(v, s), block)
    decreases |s|
  {
    hide Compressed;
    if |s| == 0 {
      assert (s + block)[..128] == block && (s + block)[128..] == [];
    } else {
      AbsorbedStep(Compressed(v, s[..128]), s[128..], block);
      assert (s + block)[..128] == s[..128] && (s + block)[128..] == s[128..] + block;
    }
  }

  /** The hash value of a chain, block by block from the front. */
  lemma {:induction false} ChainedIs(s: seq<Byte>)
    requires |s| % 128 == 0
    ensures Chained(s) == Absorbed(IV, s)
    decreases |s|
  {
    hide Compressed;
    if |s| > 0 {
      ChainedIs(s[..|s| - 128]);
      AbsorbedStep(IV, s[..|s| - 128], s[|s| - 128..]);
      assert s[..|s| - 128] + s[|s| - 128..] == s;
    }
  }

  // -------------------------------------------------------------------------------------------
  // The compression function of the C code
  // -------------------------------------------------------------------------------------------

  lemma ScheduleFirst(block: Block, t: nat)
    requires t < 16
    ensures Schedule(block, t) == WordAt(block, 8 * t)
  {
  }

  lemma ScheduleNext(block: Block, t: nat)
    requires t >= 16
    ensures Schedule(block, t)
            == Add(Add(Add(Gamma1(Schedule(block, t - 2)), Schedule(block, t - 7)), Gamma0(Schedule(block, t - 15))),
                   Schedule(block, t - 16))
  {
    hide Add, Gamma0, Gamma1;
  }

  method FillSchedule(block: Block) returns (w: seq<Word>)
    ensures |w| == 80 && forall t :: 0 <= t < 80 ==> w[t] == Schedule(block, t)
  {
    hide Add, Gamma0, Gamma1, Gamma0Macro, Gamma1Macro, WordAt, Schedule;
    w := [];
    for i := 0 to 16
      invariant |w| == i && forall t :: 0 <= t < i ==> w[t] == Schedule(block, t)
    {
      ScheduleFirst(block, i);
      w := w + [WordAt(block, 8 * i)];
    }
    for i := 16 to 80
      invariant |w| == i && forall t :: 0 <= t < i ==> w[t] == Schedule(block, t)
    {
      RotationsAre(w[i - 2]);
      RotationsAre(w[i - 15]);
      ScheduleNext(block, i);
      w := w + [Add(Add(Add(Gamma1Macro(w[i - 2]), w[i - 7]), Gamma0Macro(w[i - 15])), w[i - 16])];
    }
  }

  /** The registers a..h of a round. */
  function View(s: Eight, a: nat, b: nat, c: nat, d: nat, e: nat, f: nat, g: nat, h: nat): Eight
    requires a < 8 && b < 8 && c < 8 && d < 8 && e < 8 && f < 8 && g < 8 && h < 8
  {
    [s[a], s[b], s[c], s[d], s[e], s[f], s[g], s[h]]
  }

  /** t0 and t1 of a round, by the macros. */
  method Temporaries(a: Word, b: Word, c: Word, e: Word, f: Word, g: Word, h: Word, k: Word, w: Word)
    returns (t0: Word, t1: Word)
    ensures t0 == T1(e, f, g, h, k, w) && t1 == T2(a, b, c)
  {
    hide Add, Sigma0, Sigma1, Sigma0Macro, Sigma1Macro, Choose, ChooseMacro, Majority, MajorityMacro;
    RotationsAre(e);
    RotationsAre(a);
    ChooseIs(e, f, g);
    MajorityIs(a, b, c);
    t0 := Add(Add(Add(Add(h, Sigma1Macro(e)), ChooseMacro(e, f, g)), k), w);
    t1 := Add(Sigma0Macro(a), MajorityMacro(a, b, c));
  }

  /** The macro RND: only d and h change. */
  method Rnd(s: Eight, a: nat, b: nat, c: nat, d: nat, e: nat, f: nat, g: nat, h: nat, k: Word,
             w: Word) returns (r: Eight)
    requires a < 8 && b < 8 && c < 8 && d < 8 && e < 8 && f < 8 && g < 8 && h < 8
    requires d != a && d != b && d != c && d != e && d != f && d != g && d != h
    requires h != a && h != b && h != c && h != e && h != f && h != g
    ensures View(r, h, a, b, c, d, e, f, g) == Round(View(s, a, b, c, d, e, f, g, h), k, w)
  {
    hide T1, T2, Add;
    var t0, t1 := Temporaries(s[a], s[b], s[c], s[e], s[f], s[g], s[h], k, w);
    r := s[d := Add(s[d], t0)];
    r := r[h := Add(t0, t1)];
  }

  lemma ViewAll(s: Eight)
    ensures View(s, 0, 1, 2, 3, 4, 5, 6, 7) == s
  {
  }

  lemma RoundFollows(v: Eight, block: Block, t: nat)
    requires t < 80
    ensures Rounds(v, block, t + 1) == Round(Rounds(v, block, t), K[t], Schedule(block, t))
  {
    hide Schedule, Round;
  }

  method FirstFour(s: Eight, i: nat, w: seq<Word>, ghost v: Eight, ghost block: Block) returns (r: Eight)
    requires i + 8 <= 80 && |w| == 80 && forall t :: 0 <= t < 80 ==> w[t] == Schedule(block, t)
    requires s == Rounds(v, block, i)
    ensures View(r, 4, 5, 6, 7, 0, 1, 2, 3) == Rounds(v, block, i + 4)
  {
    hide Round, Rounds, Schedule, View;
    ViewAll(s);
    r := Rnd(s, 0, 1, 2, 3, 4, 5, 6, 7, K[i], w[i]);
    RoundFollows(v, block, i);
    r := Rnd(r, 7, 0, 1, 2, 3, 4, 5, 6, K[i + 1], w[i + 1]);
    RoundFollows(v, block, i + 1);
    r := Rnd(r, 6, 7, 0, 1, 2, 3, 4, 5, K[i + 2], w[i + 2]);
    RoundFollows(v, block, i + 2);
    r := Rnd(r, 5, 6, 7, 0, 1, 2, 3, 4, K[i + 3], w[i + 3]);
    RoundFollows(v, block, i + 3);
  }

  method LastFour(s: Eight, i: nat, w: seq<Word>, ghost v: Eight, ghost block: Block) returns (r: Eight)
    requires i + 8 <= 80 && |w| == 80 && forall t :: 0 <= t < 80 ==> w[t] == Schedule(block, t)
    requires View(s, 4, 5, 6, 7, 0, 1, 2, 3) == Rounds(v, block, i + 4)
    ensures r == Rounds(v, block, i + 8)
  {
    hide Round, Rounds, Schedule, View;
    r := Rnd(s, 4, 5, 6, 7, 0, 1, 2, 3, K[i + 4], w[i + 4]);
    RoundFollows(v, block, i + 4);
    r := Rnd(r, 3, 4, 5, 6, 7, 0, 1, 2, K[i + 5], w[i + 5]);
    RoundFollows(v, block, i + 5);
    r := Rnd(r, 2, 3, 4, 5, 6, 7, 0, 1, K[i + 6], w[i + 6]);
    RoundFollows(v, block, i + 6);
    r := Rnd(r, 1, 2, 3, 4, 5, 6, 7, 0, K[i + 7], w[i + 7]);
    RoundFollows(v, block, i + 7);
    ViewAll(r);
  }

  /** Eight rounds bring the registers back to where they were. */
  method EightRounds(s: Eight, i: nat, w: seq<Word>, ghost v: Eight, ghost block: Block) returns (r: Eight)
    requires i + 8 <= 80 && |w| == 80 && forall t :: 0 <= t < 80 ==> w[t] == Schedule(block, t)
    requires s == Rounds(v, block, i)
    ensures r == Rounds(v, block, i + 8)
  {
    r := FirstFour(s, i, w, v, block);
    r := LastFour(r, i, w, v, block);
  }

  lemma NoRounds(v: Eight, block: Block)
    ensures Rounds(v, block, 0) == v
  {
  }

  method Compress(state: Eight, block: Block) returns (r: Eight)
    ensures r == Compressed(state, block)
  {
    hide Schedule, Rounds, AddAll;
    NoRounds(state, block);
    var s := state;
    var w := FillSchedule(block);
    var i := 0;
    while i < 80
      invariant 0 <= i <= 80 && i % 8 == 0 && s == Rounds(state, block, i)
    {
      s := EightRounds(s, i, w, state, block);
      i := i + 8;
    }
    r := AddAll(state, s);
  }

  // -------------------------------------------------------------------------------------------
  // The streaming context
  // -------------------------------------------------------------------------------------------

  lemma ChainedStep(s: seq<Byte>, block: Block)
    requires |s| % 128 == 0
    ensures (|s| + 128) % 128 == 0 && Chained(s + block) == Compressed(Chained(s), block)
  {
    assert (s + block)[..|s + block| - 128] == s && (s + block)[|s + block| - 128..] == block;
  }

  /** The C type sha512_context. */
  class Context {
    var length: U64
    var state: Eight
    var curlen: nat
    const buf: array<Byte>

    /** The whole blocks are in the state, and the bytes after them in the buffer. */
    ghost predicate Buffered(blocks: seq<Byte>, tail: seq<Byte>)
      reads this, buf
    {
      && buf.Length == 128 && curlen == |tail| <= 128 && |blocks| % 128 == 0
      && state == Chained(blocks) && buf[..curlen] == tail
    }

    /** The bytes blocks + tail have been absorbed. */
    ghost predicate Holds(blocks: seq<Byte>, tail: seq<Byte>)
      reads this, buf
    {
      Buffered(blocks, tail) && curlen < 128 && length == (8 * |blocks|) % 0x1_0000_0000_0000_0000
    }

    /** A context, after sha512_init. */
    constructor ()
      ensures Holds([], []) && fresh(buf)
    {
      buf := new Byte[128](i => 0);
      curlen := 0;
      length := 0;
      state := IV;
    }

    /** A whole block from the input. */
    method TakeBlock(block: Block, ghost blocks: seq<Byte>)
      requires Holds(blocks, [])
      modifies this
      ensures Holds(blocks + block, [])
    {
      hide Compressed, Chained;
      ChainedStep(blocks, block);
      state := Compress(state, block);
      length := Machine.ToU64(length + 128 * 8);
    }

    /** Bytes copied into the buffer. */
    method Fill(x: seq<Byte>, ghost blocks: seq<Byte>, ghost tail: seq<Byte>)
      requires Buffered(blocks, tail) && |tail| + |x| <= 128
      modifies this`curlen, buf
      ensures Buffered(blocks, tail + x)
    {
      Store(buf, curlen, x);
      curlen := curlen + |x|;
    }

    /** The buffer, which is full, is compressed. */
    method Flush(ghost blocks: seq<Byte>, ghost tail: seq<Byte>)
      requires Buffered(blocks, tail) && |tail| == 128
      modifies this`state, this`curlen
      ensures Buffered(blocks + tail, [])
    {
      hide Compressed, Chained;
      assert buf[..] == buf[..curlen];
      ChainedStep(blocks, tail);
      state := Compress(state, buf[..]);
      curlen := 0;
    }

    /** As many of the next bytes as fit the buffer, which is compressed when it is full. */
    method TakePart(x: seq<Byte>, pos: nat, ghost blocks: seq<Byte>, ghost tail: seq<Byte>)
      returns (n: nat, ghost b: seq<Byte>, ghost t: seq<Byte>)
      requires Holds(blocks, tail) && pos < |x|
      modifies this, buf
      ensures 0 < n <= |x| - pos && Holds(b, t) && b + t == blocks + tail + x[pos..pos + n]
    {
      hide Chained;
      n := if |x| - pos < 128 - curlen then |x| - pos else 128 - curlen;
      Fill(x[pos..pos + n], blocks, tail);
      b, t := blocks, tail + x[pos..pos + n];
      if curlen == 128 {
        Flush(blocks, t);
        length := Machine.ToU64(length + 8 * 128);
        b, t := blocks + t, [];
      }
    }

    /** One turn of the loop of sha512_update: the next n bytes of x from pos on. */
    method Take(x: seq<Byte>, pos: nat, ghost blocks: seq<Byte>, ghost tail: seq<Byte>)
      returns (n: nat, ghost b: seq<Byte>, ghost t: seq<Byte>)
      requires Holds(blocks, tail) && pos < |x|
      modifies this, buf
      ensures 0 < n <= |x| - pos && Holds(b, t) && b + t == blocks + tail + x[pos..pos + n]
    {
      hide Chained;
      if curlen == 0 && |x| - pos >= 128 {
        n := 128;
        TakeBlock(x[pos..pos + n], blocks);
        b, t := blocks + x[pos..pos + n], [];
      } else {
        n, b, t := TakePart(x, pos, blocks, tail);
      }
    }

    /** sha512_update. */
    method Update(x: seq<Byte>, ghost blocks: seq<Byte>, ghost tail: seq<Byte>)
      returns (ghost b: seq<Byte>, ghost t: seq<Byte>)
      requires Holds(blocks, tail)
      modifies this, buf
      ensures Holds(b, t) && b + t == blocks + tail + x
    {
      hide Holds;
      var pos := 0;
      b, t := blocks, tail;
      while pos < |x|
        invariant 0 <= pos <= |x| && Holds(b, t) && b + t == blocks + tail + x[..pos]
      {
        var n;
        n, b, t := Take(x, pos, b, t);
        assert x[..pos + n] == x[..pos] + x[pos..pos + n];
        pos := pos + n;
      }
      assert x[..|x|] == x;
    }

    /** Zeros up to n bytes in the buffer. */
    method PadZeros(n: nat, ghost blocks: seq<Byte>, ghost tail: seq<Byte>)
      requires Buffered(blocks, tail) && |tail| <= n <= 128
      modifies this`curlen, buf
      ensures Buffered(blocks, tail + Zeros(n - |tail|))
    {
      hide Chained;
      while curlen < n
        invariant |tail| <= curlen <= n && Buffered(blocks, tail + Zeros(curlen - |tail|))
      {
        assert tail + Zeros(curlen - |tail|) + [0] == tail + Zeros(curlen + 1 - |tail|);
        Fill([0], blocks, tail + Zeros(curlen - |tail|));
      }
    }

    /** The end of the padding: zeros up to 120 bytes, then the length. */
    method PadLength(ghost blocks: seq<Byte>, ghost tail: seq<Byte>, ghost padded: seq<Byte>)
      requires Buffered(blocks, tail) && |tail| <= 120 && |padded| % 128 == 0
      requires padded == blocks + (tail + Zeros(120 - |tail|) + CountBytes(length))
      modifies this, buf
      ensures state == Chained(padded)
    {
      hide Chained, CountBytes;
      ghost var zeros, count := Zeros(120 - |tail|), CountBytes(length);
      PadZeros(120, blocks, tail);
      Fill(CountBytes(length), blocks, tail + zeros);
      Flush(blocks, tail + zeros + count);
    }

    /** sha512_final: padding, and the digest of everything absorbed. */
    method Final(out: array<Byte>, ghost blocks: seq<Byte>, ghost tail: seq<Byte>)
      requires Holds(blocks, tail) && |blocks| + |tail| < 0x2000_0000_0000_0000
      requires out.Length >= 64 && out != buf
      modifies this, buf, out
      ensures out[..64] == Digest(blocks + tail) && out[64..] == old(out[64..])
    {
      hide Chained, CountBytes, StateBytes, Padded;
      DigestIs(blocks + tail);
      length := Machine.ToU64(length + curlen * 8);
      Fill([0x80], blocks, tail);
      if curlen > 112 {
        PaddedTwo(blocks, tail);
        PadZeros(128, blocks, tail + [0x80]);
        ghost var block := tail + [0x80] + Zeros(127 - |tail|);
        Flush(blocks, block);
        PadLength(blocks + block, [], Padded(blocks + tail));
      } else {
        PaddedOne(blocks, tail);
        PadLength(blocks, tail + [0x80], Padded(blocks + tail));
      }
      Store(out, 0, StateBytes(state));
      assert out[..64] == StateBytes(state);
    }
  }

  lemma PadCountOf(n: nat, c: nat, b: nat)
    requires n == b + c && b % 128 == 0 && c < 128
    ensures PadCount(n) == if c <= 111 then 111 - c else 239 - c
  {
    DivModUnique(n, 128, b / 128, c);
  }

  lemma ZerosAdd(a: nat, b: nat)
    ensures Zeros(a + b) == Zeros(a) + Zeros(b)
  {
  }

  lemma PaddedOne(blocks: seq<Byte>, tail: seq<Byte>)
    requires |blocks| % 128 == 0 && |tail| <= 111 && |blocks| + |tail| < 0x2000_0000_0000_0000
    ensures Padded(blocks + tail)
            == blocks + (tail + [0x80] + Zeros(119 - |tail|) + CountBytes(8 * (|blocks| + |tail|)))
  {
    hide CountBytes, PadCount, Zeros;
    PadCountOf(|blocks| + |tail|, |tail|, |blocks|);
    ZerosAdd(111 - |tail|, 8);
  }

  lemma PaddedTwo(blocks: seq<Byte>, tail: seq<Byte>)
    requires |blocks| % 128 == 0 && 112 <= |tail| < 128 && |blocks| + |tail| < 0x2000_0000_0000_0000
    ensures Padded(blocks + tail)
            == (blocks + (tail + [0x80] + Zeros(127 - |tail|))) + ([] + Zeros(120) + CountBytes(8 * (|blocks| + |tail|)))
  {
    hide CountBytes, PadCount, Zeros;
    PadCountOf(|blocks| + |tail|, |tail|, |blocks|);
    ZerosAdd(127 - |tail|, 112);
    ZerosAdd(112, 8);
  }

  /** A message in any number of parts: one sha512_update for each of them. */
  method HashParts(parts: seq<seq<Byte>>, out: array<Byte>)
    requires |Concat(parts)| < 0x2000_0000_0000_0000 && out.Length >= 64
    modifies out
    ensures out[..64] == Digest(Concat(parts)) && out[64..] == old(out[64..])
  {
    hide Digest, Context.Holds, Concat;
    var ctx := new Context();
    ghost var b, t := [], [];
    ConcatNone();
    for i := 0 to |parts|
      invariant ctx.Holds(b, t) && b + t == Concat(parts[..i]) && fresh(ctx) && fresh(ctx.buf)
      invariant out[..] == old(out[..])
    {
      ConcatNext(parts[..i + 1]);
      assert parts[..i + 1][..i] == parts[..i];
      b, t := ctx.Update(parts[i], b, t);
    }
    assert parts[..|parts|] == parts;
    ctx.Final(out, b, t);
  }

  lemma ConcatNone()
    ensures Concat([]) == []
  {
  }

  lemma {:induction false} ConcatNext(l: seq<seq<Byte>>)
    requires l != []
    ensures Concat(l) == Concat(l[..|l| - 1]) + l[|l| - 1]
  {
    if |l| > 1 {
      ConcatNext(l[1..]);
      assert l[1..][..|l| - 2] == l[..|l| - 1][1..];
    }
  }

  /** sha512: the digest of one message. */
  method Hash(message: seq<Byte>, out: array<Byte>)
    requires |message| < 0x2000_0000_0000_0000 && out.Length >= 64
    modifies out
    ensures out[..64] == Digest(message) && out[64..] == old(out[64..])
  {
    hide Digest;
    var ctx := new Context();
    ghost var b, t := ctx.Update(message, [], []);
    assert [] + [] + message == message;
    ctx.Final(out, b, t);
  }
}
