/** The wire layout of Solana transactions, as main.c:826-972 and transaction.rs:73-127 write it, and a
    parser of that layout. */
module SolanaWire {
  import opened Bytes
  import opened Wrappers

  datatype Header = Header(signatures: Byte, readonlySigned: Byte, readonlyUnsigned: Byte)

  datatype Instruction = Instruction(program: Byte, accounts: seq<Byte>, data: seq<Byte>)

  datatype Message = Message(header: Header, accounts: seq<seq<Byte>>, blockhash: seq<Byte>,
                             instructions: seq<Instruction>)

  datatype Transaction = Transaction(signatures: seq<seq<Byte>>, message: Message)

  /** What a parser returns: a value and the bytes after it. */
  datatype Parsed<T> = Parsed(value: T, rest: seq<Byte>)

  // -------------------------------------------------------------------------------------------
  // Numbers
  // -------------------------------------------------------------------------------------------

  /** A compact number: seven bits a byte, the lowest first, the top bit set on all but the last. */
  function Shortvec(v: nat): (s: seq<Byte>)
    ensures |s| > 0
  {
    if v < 128 then [v] else [v % 128 + 128] + Shortvec(v / 128)
  }

  /** The number that groups of seven bits make, the lowest first. */
  function Sevens(s: seq<Byte>): nat {
    if s == [] then 0 else s[0] % 128 + 128 * Sevens(s[1..])
  }

  /** The bytes of a compact number: seven bits of it each, as few as hold it, all but the last with the top
      bit set. */
  lemma {:induction false} ShortvecIs(v: nat)
    ensures var s := Shortvec(v);
            && Sevens(s) == v && s[|s| - 1] < 128 && (|s| > 1 ==> s[|s| - 1] > 0)
            && forall i :: 0 <= i < |s| - 1 ==> s[i] >= 128
    decreases v
  {
    var s := Shortvec(v);
    if v < 128 {
      assert Sevens(s[1..]) == 0;
    } else {
      ShortvecIs(v / 128);
      var r := Shortvec(v / 128);
      assert s[1..] == r;
      forall i | 0 <= i < |s| - 1
        ensures s[i] >= 128
      {
        assert i > 0 ==> s[i] == r[i - 1];
      }
    }
  }

  function ParseShortvec(s: seq<Byte>): Option<Parsed<nat>> {
    if s == [] then None
    else if s[0] < 128 then Some(Parsed(s[0], s[1..]))
    else
      var r := ParseShortvec(s[1..]);
      if r.None? then None else Some(Parsed(s[0] - 128 + 128 * r.value.value, r.value.rest))
  }

  lemma {:induction false} ShortvecParses(v: nat, rest: seq<Byte>)
    ensures ParseShortvec(Shortvec(v) + rest) == Some(Parsed(v, rest))
    decreases v
  {
    var s := Shortvec(v) + rest;
    if v < 128 {
      assert s[1..] == rest;
    } else {
      ShortvecParses(v / 128, rest);
      assert s[1..] == Shortvec(v / 128) + rest;
    }
  }

  /** The k low bytes of n, lowest first. */
  function LittleEndian(n: nat, k: nat): (s: seq<Byte>)
    ensures |s| == k
    decreases k
  {
    if k == 0 then [] else [n % 256] + LittleEndian(n / 256, k - 1)
  }

  lemma {:induction false} LittleEndianValue(n: nat, k: nat, m: nat)
    requires m == Bits.Pow2(8 * k) && n < m
    ensures LE(LittleEndian(n, k)) == n
    decreases k
  {
    if k > 0 {
      Power.Pow2Add(8, 8 * (k - 1));
      assert Bits.Pow2(8) == 256;
      LittleEndianValue(n / 256, k - 1, Bits.Pow2(8 * (k - 1)));
      LEShift([n % 256], LittleEndian(n / 256, k - 1), 0);
    }
  }

  // -------------------------------------------------------------------------------------------
  // Lists of byte strings of one size
  // -------------------------------------------------------------------------------------------

  predicate AllOf(size: nat, l: seq<seq<Byte>>) {
    forall i :: 0 <= i < |l| ==> |l[i]| == size
  }

  function ParseChunks(size: nat, n: nat, s: seq<Byte>): Option<Parsed<seq<seq<Byte>>>>
    decreases n
  {
    if n == 0 then Some(Parsed([], s))
    else if |s| < size then None
    else
      var r := ParseChunks(size, n - 1, s[size..]);
      if r.None? then None else Some(Parsed([s[..size]] + r.value.value, r.value.rest))
  }

  lemma {:induction false} ConcatParses(size: nat, l: seq<seq<Byte>>, rest: seq<Byte>)
    requires AllOf(size, l)
    ensures ParseChunks(size, |l|, Concat(l) + rest) == Some(Parsed(l, rest))
    decreases |l|
  {
    if l == [] {
      assert Concat(l) + rest == rest;
    } else {
      var s := Concat(l) + rest;
      assert s == l[0] + (Concat(l[1..]) + rest);
      assert s[..size] == l[0] && s[size..] == Concat(l[1..]) + rest;
      ConcatParses(size, l[1..], rest);
      assert l == [l[0]] + l[1..];
    }
  }

  // -------------------------------------------------------------------------------------------
  // Instructions
  // -------------------------------------------------------------------------------------------

  /** A byte string after its length. */
  function Counted(s: seq<Byte>): seq<Byte> {
    Shortvec(|s|) + s
  }

  function ParseCounted(s: seq<Byte>): Option<Parsed<seq<Byte>>> {
    var n := ParseShortvec(s);
    if n.None? || |n.value.rest| < n.value.value then None
    else Some(Parsed(n.value.rest[..n.value.value], n.value.rest[n.value.value..]))
  }

  lemma CountedParses(s: seq<Byte>, rest: seq<Byte>)
    ensures ParseCounted(Counted(s) + rest) == Some(Parsed(s, rest))
  {
    ShortvecParses(|s|, s + rest);
    assert Counted(s) + rest == Shortvec(|s|) + (s + rest);
    assert (s + rest)[..|s|] == s && (s + rest)[|s|..] == rest;
  }

  function InstructionBytes(i: Instruction): seq<Byte> {
    [i.program] + Counted(i.accounts) + Counted(i.data)
  }

  function ParseInstruction(s: seq<Byte>): Option<Parsed<Instruction>> {
    if s == [] then None else
      var a := ParseCounted(s[1..]);
      if a.None? then None else
        var d := ParseCounted(a.value.rest);
        if d.None? then None else Some(Parsed(Instruction(s[0], a.value.value, d.value.value), d.value.rest))
  }

  lemma InstructionParses(i: Instruction, rest: seq<Byte>)
    ensures ParseInstruction(InstructionBytes(i) + rest) == Some(Parsed(i, rest))
  {
    hide Counted, ParseCounted;
    var s := InstructionBytes(i) + rest;
    assert s[1..] == Counted(i.accounts) + (Counted(i.data) + rest);
    CountedParses(i.accounts, Counted(i.data) + rest);
    CountedParses(i.data, rest);
  }

  function InstructionsBytes(l: seq<Instruction>): seq<Byte> {
    if l == [] then [] else InstructionBytes(l[0]) + InstructionsBytes(l[1..])
  }

  function ParseInstructions(n: nat, s: seq<Byte>): Option<Parsed<seq<Instruction>>>
    decreases n
  {
    if n == 0 then Some(Parsed([], s)) else
      var i := ParseInstruction(s);
      if i.None? then None else
        var r := ParseInstructions(n - 1, i.value.rest);
        if r.None? then None else Some(Parsed([i.value.value] + r.value.value, r.value.rest))
  }

  lemma {:induction false} InstructionsParse(l: seq<Instruction>, rest: seq<Byte>)
    ensures ParseInstructions(|l|, InstructionsBytes(l) + rest) == Some(Parsed(l, rest))
    decreases |l|
  {
    hide InstructionBytes, ParseInstruction;
    if l == [] {
      assert InstructionsBytes(l) + rest == rest;
    } else {
      assert InstructionsBytes(l) + rest == InstructionBytes(l[0]) + (InstructionsBytes(l[1..]) + rest);
      InstructionParses(l[0], InstructionsBytes(l[1..]) + rest);
      InstructionsParse(l[1..], rest);
      assert l == [l[0]] + l[1..];
    }
  }

  // -------------------------------------------------------------------------------------------
  // Messages and transactions
  // -------------------------------------------------------------------------------------------

  /** Keys and block hashes take 32 bytes. */
  predicate IsMessage(m: Message) {
    AllOf(32, m.accounts) && |m.blockhash| == 32
  }

  function MessageBytes(m: Message): seq<Byte> {
    [m.header.signatures, m.header.readonlySigned, m.header.readonlyUnsigned]
    + (Shortvec(|m.accounts|) + (Concat(m.accounts)
    + (m.blockhash
    + (Shortvec(|m.instructions|) + InstructionsBytes(m.instructions)))))
  }

  function ParseTail(header: Header, accounts: seq<seq<Byte>>, s: seq<Byte>): Option<Message> {
    if |s| < 32 then None else
      var n := ParseShortvec(s[32..]);
      if n.None? then None else
        var l := ParseInstructions(n.value.value, n.value.rest);
        if l.None? || l.value.rest != [] then None else Some(Message(header, accounts, s[..32], l.value.value))
  }

  function ParseMessage(s: seq<Byte>): Option<Message> {
    if |s| < 3 then None else
      var n := ParseShortvec(s[3..]);
      if n.None? then None else
        var a := ParseChunks(32, n.value.value, n.value.rest);
        if a.None? then None else ParseTail(Header(s[0], s[1], s[2]), a.value.value, a.value.rest)
  }

  lemma TailParses(m: Message)
    requires |m.blockhash| == 32
    ensures ParseTail(m.header, m.accounts,
                      m.blockhash + (Shortvec(|m.instructions|) + InstructionsBytes(m.instructions)))
            == Some(m)
  {
    hide Shortvec, ParseShortvec, InstructionsBytes, ParseInstructions;
    var rest := Shortvec(|m.instructions|) + InstructionsBytes(m.instructions);
    assert (m.blockhash + rest)[32..] == rest && (m.blockhash + rest)[..32] == m.blockhash;
    ShortvecParses(|m.instructions|, InstructionsBytes(m.instructions));
    InstructionsParse(m.instructions, []);
    assert InstructionsBytes(m.instructions) + [] == InstructionsBytes(m.instructions);
  }

  /** Every message is the parse of its bytes. */
  lemma MessageParses(m: Message)
    requires IsMessage(m)
    ensures ParseMessage(MessageBytes(m)) == Some(m)
  {
    hide Shortvec, ParseShortvec, InstructionsBytes, ParseTail, ParseChunks, Concat;
    var tail := m.blockhash + (Shortvec(|m.instructions|) + InstructionsBytes(m.instructions));
    var s := MessageBytes(m);
    assert s[3..] == Shortvec(|m.accounts|) + (Concat(m.accounts) + tail);
    ShortvecParses(|m.accounts|, Concat(m.accounts) + tail);
    ConcatParses(32, m.accounts, tail);
    TailParses(m);
  }

  function TransactionBytes(t: Transaction): seq<Byte> {
    Shortvec(|t.signatures|) + (Concat(t.signatures) + MessageBytes(t.message))
  }

  function ParseTransaction(s: seq<Byte>): Option<Transaction> {
    var n := ParseShortvec(s);
    if n.None? then None else
      var l := ParseChunks(64, n.value.value, n.value.rest);
      if l.None? then None else
        var m := ParseMessage(l.value.rest);
        if m.None? then None else Some(Transaction(l.value.value, m.value))
  }

  /** Every transaction is the parse of its bytes. */
  lemma TransactionParses(t: Transaction)
    requires AllOf(64, t.signatures) && IsMessage(t.message)
    ensures ParseTransaction(TransactionBytes(t)) == Some(t)
  {
    hide Shortvec, ParseShortvec, MessageBytes, ParseMessage, ParseChunks, Concat;
    ShortvecParses(|t.signatures|, Concat(t.signatures) + MessageBytes(t.message));
    ConcatParses(64, t.signatures, MessageBytes(t.message));
    MessageParses(t.message);
  }
}
