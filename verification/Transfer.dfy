/** The transfer transaction, built twice: by solana_build_transfer_transaction (main.c:826-995) and by
    build_transfer (ui/cwallet-ui/src/transaction.rs:24-127). */
module Transfer {
  import Bits
  import Power
  import opened Bytes
  import opened Wrappers
  import opened CurveGroup
  import opened Ge
  import opened Ed25519
  import opened SolanaWire
  import opened SolanaAppend
  import GeEncoding
  import MemoProgram
  import Base58
  import Base64
  import BaseOrder
  import opened BasePoint

  const SYSTEM_PROGRAM: seq<Byte> := Base58.ZeroBytes(32)

  const MAX_MEMO: nat := 120

  // -------------------------------------------------------------------------------------------
  // What both build
  // -------------------------------------------------------------------------------------------

  /** What the caller asks for. */
  datatype Order = Order(sender: seq<Byte>, receiver: seq<Byte>, lamports: nat, blockhash: seq<Byte>, memo: seq<Byte>)

  predicate IsOrder(o: Order) {
    |o.sender| == |o.receiver| == |o.blockhash| == 32 && o.lamports < 0x1_0000_0000_0000_0000 && |o.memo| <= MAX_MEMO
  }

  /** A call of the system program, and one of the memo program if there is a memo. */
  function TransferMessage(o: Order): Message {
    var transfer := Instruction(2, [0, 1], [2, 0, 0, 0] + LittleEndian(o.lamports, 8));
    if o.memo == [] then
      Message(Header(1, 0, 1), [o.sender, o.receiver, SYSTEM_PROGRAM], o.blockhash, [transfer])
    else
      Message(Header(1, 0, 2), [o.sender, o.receiver, SYSTEM_PROGRAM, MemoProgram.ADDRESS], o.blockhash,
              [transfer, Instruction(3, [], o.memo)])
  }

  function Signed(signature: seq<Byte>, o: Order): Transaction {
    Transaction([signature], TransferMessage(o))
  }

  // The layout, piece by piece in the order of writing.

  function MemoPart(memo: seq<Byte>): seq<Byte> {
    if memo == [] then [] else [3] + (Shortvec(0) + (Shortvec(|memo|) + memo))
  }

  function TransferPart(o: Order): seq<Byte> {
    [2] + (Shortvec(2) + ([0] + ([1]
    + (Shortvec(12) + (([2, 0, 0, 0] + LittleEndian(o.lamports, 8)) + MemoPart(o.memo))))))
  }

  function Layout(o: Order): seq<Byte> {
    var n := if o.memo == [] then 0 else 1;
    [1] + ([0] + ([1 + n] + (Shortvec(3 + n) + (o.sender + (o.receiver + (SYSTEM_PROGRAM
    + ((if o.memo == [] then [] else MemoProgram.ADDRESS) + (o.blockhash + (Shortvec(1 + n) + TransferPart(o))))))))))
  }

  lemma SmallShortvec(v: nat)
    requires v < 128
    ensures Shortvec(v) == [v]
  {
  }

  lemma ConcatKeys(a: seq<Byte>, b: seq<Byte>, c: seq<Byte>, d: seq<Byte>)
    ensures Concat([a, b, c]) == a + (b + c) && Concat([a, b, c, d]) == a + (b + (c + d))
  {
    assert [a, b, c, d][1..] == [b, c, d] && [b, c, d][1..] == [c, d] && [c, d][1..] == [d] && [d][1..] == [];
    assert [a, b, c][1..] == [b, c] && [b, c][1..] == [c] && [c][1..] == [];
    assert Concat([c, d]) == c + d && Concat([c]) == c;
  }

  lemma InstructionParts(o: Order)
    ensures InstructionsBytes(TransferMessage(o).instructions) == TransferPart(o)
  {
    hide Shortvec, LittleEndian;
    var data := [2, 0, 0, 0] + LittleEndian(o.lamports, 8);
    var transfer := Instruction(2, [0, 1], data);
    var memo := Instruction(3, [], o.memo);
    assert InstructionBytes(transfer) == [2] + (Shortvec(2) + ([0] + ([1] + (Shortvec(12) + data))));
    assert InstructionBytes(memo) == [3] + (Shortvec(0) + (Shortvec(|o.memo|) + o.memo));
    assert [transfer][1..] == [] && [transfer, memo][1..] == [memo] && [memo][1..] == [];
    assert InstructionsBytes([memo]) == InstructionBytes(memo);
  }

  lemma LayoutIs(o: Order)
    requires IsOrder(o)
    ensures MessageBytes(TransferMessage(o)) == Layout(o)
  {
    hide Shortvec, InstructionsBytes, TransferPart, Concat, MemoProgram.ADDRESS;
    InstructionParts(o);
    ConcatKeys(o.sender, o.receiver, SYSTEM_PROGRAM, MemoProgram.ADDRESS);
  }

  lemma Flattened(a: seq<Byte>, b: seq<Byte>, c: seq<Byte>, d: seq<Byte>, e: seq<Byte>, f: seq<Byte>)
    ensures a + (b + (c + (d + (e + f)))) == a + b + c + d + e + f
  {
  }

  lemma FourBytes(a: Byte, b: Byte, c: Byte, d: Byte, rest: seq<Byte>)
    ensures [a] + ([b] + ([c] + ([d] + rest))) == [a, b, c, d] + rest
  {
  }

  lemma MemoPartIs(memo: seq<Byte>)
    requires |memo| <= MAX_MEMO
    ensures MemoPart(memo) == if memo == [] then [] else [3, 0, |memo|] + memo
  {
    hide Shortvec;
    SmallShortvec(0);
    SmallShortvec(|memo|);
  }

  lemma TransferPartIs(o: Order)
    ensures TransferPart(o) == [2, 2, 0, 1, 12, 2, 0, 0, 0] + LittleEndian(o.lamports, 8) + MemoPart(o.memo)
  {
    hide Shortvec, LittleEndian, MemoPart;
    SmallShortvec(2);
    SmallShortvec(12);
    var rest := ([2, 0, 0, 0] + LittleEndian(o.lamports, 8)) + MemoPart(o.memo);
    FourBytes(2, 2, 0, 1, [12] + rest);
    assert rest == [2, 0, 0, 0] + (LittleEndian(o.lamports, 8) + MemoPart(o.memo));
  }

  lemma LayoutParts(o: Order, n: nat, address: seq<Byte>)
    requires IsOrder(o) && n == (if o.memo == [] then 0 else 1)
    requires address == if o.memo == [] then [] else MemoProgram.ADDRESS
    ensures Layout(o) == [1, 0, 1 + n, 3 + n] + o.sender + o.receiver + SYSTEM_PROGRAM + (address + o.blockhash)
                         + ([1 + n] + TransferPart(o))
  {
    hide Shortvec, TransferPart, MemoProgram.ADDRESS, SYSTEM_PROGRAM;
    SmallShortvec(1 + n);
    SmallShortvec(3 + n);
    var tail := [1 + n] + TransferPart(o);
    FourBytes(1, 0, 1 + n, 3 + n, o.sender + (o.receiver + (SYSTEM_PROGRAM + (address + (o.blockhash + tail)))));
    assert address + (o.blockhash + tail) == (address + o.blockhash) + tail;
    Flattened([1, 0, 1 + n, 3 + n], o.sender, o.receiver, SYSTEM_PROGRAM, address + o.blockhash, tail);
  }

  lemma SystemProgram()
    ensures SYSTEM_PROGRAM == seq(32, _ => 0)
  {
  }

  lemma TailIs(o: Order, n: Byte)
    requires IsOrder(o)
    ensures [n] + TransferPart(o)
            == [n, 2, 2, 0, 1, 12, 2, 0, 0, 0] + LittleEndian(o.lamports, 8)
               + if o.memo == [] then [] else [3, 0, |o.memo|] + o.memo
  {
    hide TransferPart, LittleEndian, MemoPart;
    TransferPartIs(o);
    MemoPartIs(o.memo);
  }

  /** The bytes of a message, one after the other. */
  lemma MessageBytesAre(o: Order)
    requires IsOrder(o)
    ensures o.memo == [] ==>
              MessageBytes(TransferMessage(o))
              == [1, 0, 1, 3] + o.sender + o.receiver + seq(32, _ => 0) + o.blockhash
                 + ([1, 2, 2, 0, 1, 12, 2, 0, 0, 0] + LittleEndian(o.lamports, 8))
    ensures o.memo != [] ==>
              MessageBytes(TransferMessage(o))
              == [1, 0, 2, 4] + o.sender + o.receiver + seq(32, _ => 0) + (MemoProgram.ADDRESS + o.blockhash)
                 + ([2, 2, 2, 0, 1, 12, 2, 0, 0, 0] + LittleEndian(o.lamports, 8) + ([3, 0, |o.memo|] + o.memo))
  {
    hide Layout, MessageBytes, TransferMessage, TransferPart, LittleEndian, MemoProgram.ADDRESS, SYSTEM_PROGRAM;
    LayoutIs(o);
    SystemProgram();
    if o.memo == [] {
      LayoutParts(o, 0, []);
      TailIs(o, 1);
      assert [] + o.blockhash == o.blockhash;
      assert LittleEndian(o.lamports, 8) + [] == LittleEndian(o.lamports, 8);
    } else {
      LayoutParts(o, 1, MemoProgram.ADDRESS);
      TailIs(o, 2);
    }
  }

  lemma TransactionBytesAre(o: Order, signature: seq<Byte>)
    ensures TransactionBytes(Signed(signature, o)) == [1] + signature + MessageBytes(TransferMessage(o))
  {
    hide MessageBytes, TransferMessage;
    SmallShortvec(1);
    assert Concat([signature]) == signature;
  }

  /** A message takes 150 bytes, or 185 and the memo; a transaction 65 more, at most 370. */
  lemma Sizes(o: Order, signature: seq<Byte>)
    requires IsOrder(o) && |signature| == 64
    ensures |MessageBytes(TransferMessage(o))| == if o.memo == [] then 150 else 185 + |o.memo|
    ensures |TransactionBytes(Signed(signature, o))| == 65 + |MessageBytes(TransferMessage(o))| <= 370
    ensures |Base64.Encoded(TransactionBytes(Signed(signature, o)))| <= 496
  {
    hide MessageBytes, MemoProgram.ADDRESS;
    LayoutIs(o);
    MemoProgram.AddressDecoded();
    SmallShortvec(|o.memo|);
    assert Concat([signature]) == signature;
  }

  // -------------------------------------------------------------------------------------------
  // What a reader gets back
  // -------------------------------------------------------------------------------------------

  /** What a reader makes of a text: Base64, then the layout. */
  function Received(text: string): Option<Transaction> {
    var bytes := Base64.Decoded(text);
    if bytes.None? then None else ParseTransaction(bytes.value)
  }

  lemma SignedForm(o: Order, signature: seq<Byte>)
    requires IsOrder(o) && |signature| == 64
    ensures AllOf(64, Signed(signature, o).signatures) && IsMessage(Signed(signature, o).message)
  {
    hide MemoProgram.ADDRESS, Shortvec, LittleEndian;
    MemoProgram.AddressDecoded();
  }

  /** The reader gets the transaction. */
  lemma Recovered(o: Order, signature: seq<Byte>)
    requires IsOrder(o) && |signature| == 64
    ensures Received(Base64.Encoded(TransactionBytes(Signed(signature, o)))) == Some(Signed(signature, o))
  {
    hide TransactionBytes, ParseTransaction, Signed, Base64.Encoded, Base64.Decoded;
    SignedForm(o, signature);
    Base64.DecodeEncode(TransactionBytes(Signed(signature, o)));
    TransactionParses(Signed(signature, o));
  }

  lemma AmountValue(n: nat)
    requires n < 0x1_0000_0000_0000_0000
    ensures LE(LittleEndian(n, 8)) == n
  {
    Bits.PowersOfTwo();
    Power.Pow2Add(32, 32);
    LittleEndianValue(n, 8, 0x1_0000_0000_0000_0000);
  }

  // -------------------------------------------------------------------------------------------
  // main.c
  // -------------------------------------------------------------------------------------------

  lemma AmountBytes(n: nat)
    ensures LittleEndian(n, 8)
            == [n % 256, n / 0x100 % 256, n / 0x1_0000 % 256, n / 0x100_0000 % 256, n / 0x1_0000_0000 % 256,
                n / 0x100_0000_0000 % 256, n / 0x1_0000_0000_0000 % 256, n / 0x100_0000_0000_0000 % 256]
  {
    var a, b, c := n / 0x100, n / 0x1_0000, n / 0x1_0000_0000;
    DivDiv(n, 0x100, 0x100);
    DivDiv(n, 0x1_0000, 0x100);
    DivDiv(n, 0x100_0000, 0x100);
    DivDiv(n, 0x1_0000_0000, 0x100);
    DivDiv(n, 0x100_0000_0000, 0x100);
    DivDiv(n, 0x1_0000_0000_0000, 0x100);
    LastByte(n / 0x100_0000_0000_0000);
    assert LittleEndian(n / 0x1_0000_0000_0000, 2)
        == [n / 0x1_0000_0000_0000 % 256] + LittleEndian(n / 0x100_0000_0000_0000, 1);
    assert LittleEndian(n / 0x100_0000_0000, 3)
        == [n / 0x100_0000_0000 % 256] + LittleEndian(n / 0x1_0000_0000_0000, 2);
    assert LittleEndian(n / 0x1_0000_0000, 4) == [n / 0x1_0000_0000 % 256] + LittleEndian(n / 0x100_0000_0000, 3);
    assert LittleEndian(n / 0x100_0000, 5) == [n / 0x100_0000 % 256] + LittleEndian(n / 0x1_0000_0000, 4);
    assert LittleEndian(n / 0x1_0000, 6) == [n / 0x1_0000 % 256] + LittleEndian(n / 0x100_0000, 5);
    assert LittleEndian(n / 0x100, 7) == [n / 0x100 % 256] + LittleEndian(n / 0x1_0000, 6);
  }

  lemma LastByte(n: nat)
    ensures LittleEndian(n, 1) == [n % 256]
  {
    assert LittleEndian(n / 256, 0) == [];
  }

  /** The part of the message before the transfer instruction. */
  method AppendHead(message: array<Byte>, o: Order, memoProgram: seq<Byte>) returns (ok: bool, length: nat)
    requires IsOrder(o) && message.Length == 512 && |memoProgram| == 32
    requires o.memo != [] ==> memoProgram == MemoProgram.ADDRESS
    modifies message
    ensures ok && length <= 200 && message[..length] + TransferPart(o) == Layout(o)
  {
    hide Shortvec, TransferPart, MemoProgram.ADDRESS;
    var includeMemo := o.memo != [];
    var accountKeys, instructions, readonlyUnsigned := 3, 1, 1;
    if includeMemo {
      accountKeys, instructions, readonlyUnsigned := accountKeys + 1, instructions + 1, 2;
    }
    SmallShortvec(accountKeys);
    SmallShortvec(instructions);
    ghost var r9 := Shortvec(instructions) + TransferPart(o);
    ghost var r8 := o.blockhash + r9;
    ghost var r7 := (if includeMemo then memoProgram else []) + r8;
    ghost var r6 := SYSTEM_PROGRAM + r7;
    ghost var r5 := o.receiver + r6;
    ghost var r4 := o.sender + r5;
    ghost var r3 := Shortvec(accountKeys) + r4;
    ghost var r2 := [readonlyUnsigned] + r3;
    ghost var r1 := [0] + r2;
    assert message[..0] + ([1] + r1) == Layout(o);
    var more: bool;
    ok, length := AppendU8(message, 0, 1, r1);
    more, length := AppendU8(message, length, 0, r2);
    ok := ok && more;
    more, length := AppendU8(message, length, readonlyUnsigned, r3);
    ok := ok && more;
    more, length := AppendShortvec(message, length, accountKeys, r4);
    ok := ok && more;
    more, length := AppendBytes(message, length, o.sender, r5);
    ok := ok && more;
    more, length := AppendBytes(message, length, o.receiver, r6);
    ok := ok && more;
    more, length := AppendBytes(message, length, SYSTEM_PROGRAM, r7);
    ok := ok && more;
    if includeMemo && ok {
      more, length := AppendBytes(message, length, memoProgram, r8);
      ok := ok && more;
    } else {
      assert r7 == r8;
    }
    more, length := AppendBytes(message, length, o.blockhash, r9);
    ok := ok && more;
    more, length := AppendShortvec(message, length, instructions, TransferPart(o));
    ok := ok && more;
  }

  method TransferData(n: nat) returns (data: seq<Byte>)
    ensures data == [2, 0, 0, 0] + LittleEndian(n, 8)
  {
    hide LittleEndian;
    AmountBytes(n);
    data := [2, 0, 0, 0, n % 256, n / 0x100 % 256, n / 0x1_0000 % 256, n / 0x100_0000 % 256, n / 0x1_0000_0000 % 256,
             n / 0x100_0000_0000 % 256, n / 0x1_0000_0000_0000 % 256, n / 0x100_0000_0000_0000 % 256];
  }

  /** The transfer instruction. */
  method AppendTransfer(message: array<Byte>, start: nat, o: Order) returns (ok: bool, length: nat)
    requires IsOrder(o) && message.Length == 512 && start <= 200
    requires message[..start] + TransferPart(o) == Layout(o)
    modifies message
    ensures ok && length == start + 17 && message[..length] + MemoPart(o.memo) == Layout(o)
  {
    hide Shortvec, Layout, MemoPart, LittleEndian;
    SmallShortvec(2);
    SmallShortvec(12);
    ghost var data := [2, 0, 0, 0] + LittleEndian(o.lamports, 8);
    ghost var r5 := data + MemoPart(o.memo);
    ghost var r4 := Shortvec(12) + r5;
    ghost var r3 := [1] + r4;
    ghost var r2 := [0] + r3;
    ghost var r1 := Shortvec(2) + r2;
    var more: bool;
    ok, length := AppendU8(message, start, 2, r1);
    more, length := AppendShortvec(message, length, 2, r2);
    ok := ok && more;
    more, length := AppendU8(message, length, 0, r3);
    ok := ok && more;
    more, length := AppendU8(message, length, 1, r4);
    ok := ok && more;
    if ok {
      var instructionData := TransferData(o.lamports);
      ok, length := AppendShortvec(message, length, |instructionData|, r5);
      if ok {
        ok, length := AppendBytes(message, length, instructionData, MemoPart(o.memo));
      }
    }
  }

  /** The memo instruction, if there is a memo. */
  method AppendMemo(message: array<Byte>, start: nat, o: Order) returns (ok: bool, length: nat)
    requires IsOrder(o) && message.Length == 512 && start <= 217
    requires message[..start] + MemoPart(o.memo) == Layout(o)
    modifies message
    ensures ok && length <= message.Length && message[..length] == Layout(o)
  {
    hide Shortvec, Layout;
    ok, length := true, start;
    if o.memo != [] {
      SmallShortvec(0);
      SmallShortvec(|o.memo|);
      ghost var r2 := Shortvec(|o.memo|) + o.memo;
      var more: bool;
      ok, length := AppendU8(message, start, 3, Shortvec(0) + r2);
      more, length := AppendShortvec(message, length, 0, r2);
      ok := ok && more;
      more, length := AppendShortvec(message, length, |o.memo|, o.memo);
      ok := ok && more;
      assert o.memo + [] == o.memo;
      more, length := AppendBytes(message, length, o.memo, []);
      ok := ok && more;
    }
    assert message[..length] + [] == message[..length];
  }

  /** 1 signature, the signature and the message. */
  method AppendSigned(transaction: array<Byte>, signature: seq<Byte>, message: seq<Byte>, o: Order)
    returns (ok: bool, length: nat)
    requires IsOrder(o) && transaction.Length == 1024 && |signature| == 64
            && message == MessageBytes(TransferMessage(o))
    modifies transaction
    ensures ok && length <= transaction.Length && transaction[..length] == TransactionBytes(Signed(signature, o))
  {
    hide MessageBytes;
    Sizes(o, signature);
    SmallShortvec(1);
    assert Concat([signature]) == signature;
    assert transaction[..0] + TransactionBytes(Signed(signature, o)) == Shortvec(1) + (signature + message);
    ok, length := AppendShortvec(transaction, 0, 1, signature + message);
    if ok {
      ok, length := AppendBytes(transaction, length, signature, message);
    }
    if ok {
      assert message + [] == message;
      ok, length := AppendBytes(transaction, length, message, []);
    }
    assert transaction[..length] + [] == transaction[..length];
  }

  /** The bytes that are signed. */
  function OrderBytes(o: Order): (s: seq<Byte>)
    requires IsOrder(o)
    ensures |s| <= 305
  {
    Sizes(o, seq(64, _ => 0));
    MessageBytes(TransferMessage(o))
  }

  /** The Base64 text that is sent. */
  function OrderText(signature: seq<Byte>, o: Order): (t: string)
    requires IsOrder(o) && |signature| == 64
    ensures 0 < |t| <= 496
  {
    Sizes(o, signature);
    Base64.Encoded(TransactionBytes(Signed(signature, o)))
  }

  /** The signature of the order, which both builders make. */
  ghost predicate IsSigned(signature: seq<Byte>, o: Order, privateKey: seq<Byte>, b: Point)
    requires IsOrder(o) && |signature| == |privateKey| == 64
  {
    IsSignature(signature, OrderBytes(o), o.sender, privateKey[..32], b)
  }

  /** The message in its buffer. */
  method WriteMessage(message: array<Byte>, o: Order) returns (status: Status, length: nat)
    requires IsOrder(o) && message.Length == 512
    modifies message
    ensures status == AppOk && length <= message.Length && message[..length] == OrderBytes(o)
  {
    hide TransferPart, MemoPart, Layout, MessageBytes, MemoProgram.ADDRESS;
    var memoProgram := new Byte[32](_ => 0);
    status, length := AppOk, 0;
    if o.memo != [] {
      MemoProgram.AddressDecoded();
      var decoded := Base58.Decode(MemoProgram.BASE58, memoProgram);
      if decoded != 32 {
        status := AppErrIo;
      }
      assert memoProgram[..] == memoProgram[..32];
    }
    LayoutIs(o);
    var ok: bool;
    if status == AppOk {
      ok, length := AppendHead(message, o, memoProgram[..]);
      if !ok {
        status := AppErrIo;
      }
    }
    if status == AppOk {
      ok, length := AppendTransfer(message, length, o);
      if !ok {
        status := AppErrIo;
      }
    }
    if status == AppOk {
      ok, length := AppendMemo(message, length, o);
      if !ok {
        status := AppErrIo;
      }
    }
  }

  /** A text that the caller asked for fits its buffer. */
  predicate Fits(text: string, out: array?<char>) {
    out == null || out.Length == 0 || |text| < out.Length
  }

  /** The memo that a pointer and a length stand for; no memo is the empty memo. */
  function MemoOf(memo: Option<seq<Byte>>, memoLength: nat): seq<Byte>
    requires memo.Some? ==> memoLength <= |memo.value|
  {
    if memo.None? then [] else memo.value[..memoLength]
  }

  /** The text and a terminator at the front of the buffer. */
  predicate Holds(out: array<char>, text: string)
    reads out
  {
    |text| < out.Length && out[..|text|] == text && out[|text|] == '\0'
  }

  /** solana_build_transfer_transaction.  A null memo is None.  Anything else than a memo of up to 120
      bytes is refused; otherwise the order is signed, and the status says whether both texts fit. */
  method BuildTransferTransaction(sender: seq<Byte>, receiver: seq<Byte>, lamports: nat, blockhash: seq<Byte>,
                                  privateKey: seq<Byte>, memo: Option<seq<Byte>>, memoLength: nat,
                                  outBase64: array<char>, outSignature: array?<char>,
                                  rows: seq<seq<GePrecomp>>, bi: seq<GePrecomp>, ghost b: Point)
    returns (status: Status, ghost signature: seq<Byte>)
    requires Tables(rows, bi, b)
    requires |sender| == |receiver| == |blockhash| == 32 && |privateKey| == 64 && lamports < 0x1_0000_0000_0000_0000
    requires memo.Some? ==> memoLength <= |memo.value|
    requires outSignature != null ==> outSignature != outBase64
    modifies outBase64, outSignature
    ensures |signature| == 64
    ensures memoLength > MAX_MEMO || (memoLength > 0 && memo.None?) ==>
              && status == AppErrIo && outBase64[..] == old(outBase64[..])
              && (outSignature != null ==> outSignature[..] == old(outSignature[..]))
    ensures memoLength <= MAX_MEMO && (memoLength > 0 ==> memo.Some?) ==>
              var o := Order(sender, receiver, lamports, blockhash, MemoOf(memo, memoLength));
              && IsSigned(signature, o, privateKey, b)
              && (status == AppOk <==>
                    |OrderText(signature, o)| < outBase64.Length && Fits(Base58.Encoded(signature), outSignature))
              && (|OrderText(signature, o)| >= outBase64.Length ==>
                    && outBase64[..] == old(outBase64[..])
                    && (outSignature != null ==> outSignature[..] == old(outSignature[..])))
              && (status == AppOk ==> Holds(outBase64, OrderText(signature, o)))
              && (status == AppOk && outSignature != null && outSignature.Length > 0 ==>
                    Holds(outSignature, Base58.Encoded(signature)))
  {
    hide TransactionBytes, MessageBytes, IsSignature, Base64.Encoded, Base58.Encoded, IsPrecomp;
    signature := seq(64, _ => 0);
    if memoLength > MAX_MEMO || (memoLength > 0 && memo.None?) {
      return AppErrIo, signature;
    }
    var o := Order(sender, receiver, lamports, blockhash, MemoOf(memo, memoLength));
    var message := new Byte[512](_ => 0);
    var transaction := new Byte[1024](_ => 0);
    var sign := new Byte[64](_ => 0);
    var length: nat, ok: bool;
    status, length := WriteMessage(message, o);
    if status == AppOk {
      Sign(sign, message[..length], sender, privateKey[..32], rows, bi, b);
      ok, length := AppendSigned(transaction, sign[..], message[..length], o);
      if !ok {
        status := AppErrIo;
      }
    }
    signature := sign[..];
    status := WriteTexts(transaction[..length], sign[..], status, o, outBase64, outSignature);
  }

  /** The end of the function: the texts of the transaction and of its signature. */
  method WriteTexts(transaction: seq<Byte>, signature: seq<Byte>, before: Status, o: Order, outBase64: array<char>,
                    outSignature: array?<char>)
    returns (status: Status)
    requires IsOrder(o) && |signature| == 64 && before == AppOk && transaction == TransactionBytes(Signed(signature, o))
    requires outSignature != null ==> outSignature != outBase64
    modifies outBase64, outSignature
    ensures status == AppOk <==>
              |OrderText(signature, o)| < outBase64.Length && Fits(Base58.Encoded(signature), outSignature)
    ensures |OrderText(signature, o)| >= outBase64.Length ==>
              && outBase64[..] == old(outBase64[..])
              && (outSignature != null ==> outSignature[..] == old(outSignature[..]))
    ensures status == AppOk ==> Holds(outBase64, OrderText(signature, o))
    ensures status == AppOk && outSignature != null && outSignature.Length > 0 ==>
              Holds(outSignature, Base58.Encoded(signature))
  {
    hide TransactionBytes, Base64.Encoded, Base58.Encoded;
    status := before;
    if status == AppOk {
      var written := Base64.Encode(transaction, outBase64);
      if written == 0 {
        status := AppErrIo;
      }
    }
    if status == AppOk && outSignature != null && outSignature.Length > 0 {
      SignatureText(signature);
      var encoded := Base58.Encode(signature, outSignature);
      if encoded <= 0 {
        status := AppErrIo;
      }
    }
  }

  /** The Base58 text of a signature has at most 89 characters. */
  lemma SignatureText(signature: seq<Byte>)
    requires |signature| == 64
    ensures 0 < |Base58.Encoded(signature)| <= 89
  {
    Base58.DecodeEncode(signature);
    Base58.EncodedSize(signature);
  }

  // -------------------------------------------------------------------------------------------
  // transaction.rs
  // -------------------------------------------------------------------------------------------

  datatype SignedTransaction = SignedTransaction(base64: string, signatureBase58: string)

  /** base58_decode of ffi.rs:355-363. */
  method Base58Bytes(input: string) returns (r: Result<seq<Byte>>)
    requires 733 * |input| < 0x1_0000_0000_0000_0000
    ensures r == if input != [] && Base58.Decoded(input).Some? && |Base58.Decoded(input).value| <= 64
                 then Ok(Base58.Decoded(input).value) else Err
  {
    var buf := new Byte[64](_ => 0);
    var n := Base58.Decode(input, buf);
    if n <= 0 {
      return Err;
    }
    return Ok(buf[..n]);
  }

  /** base58_encode of ffi.rs:337-353, for a signature. */
  method Base58Text(signature: seq<Byte>) returns (r: Result<string>)
    requires |signature| == 64
    ensures r == Ok(Base58.Encoded(signature))
  {
    SignatureText(signature);
    var buf := new char[128](_ => '\0');
    var n := Base58.Encode(signature, buf);
    if n <= 0 {
      return Err;
    }
    return Ok(buf[..n]);
  }

  /** base64_encode of ffi.rs:365-381, for data that is not empty. */
  method Base64Text(data: seq<Byte>) returns (r: Result<string>)
    requires data != []
    ensures r == Ok(Base64.Encoded(data))
  {
    var buf := new char[|data| * 2 + 4](_ => '\0');
    var n := Base64.Encode(data, buf);
    if n == 0 {
      return Err;
    }
    return Ok(buf[..n]);
  }

  /** What build_transfer refuses. */
  predicate Refused(blockhash: string, memo: seq<Byte>) {
    |memo| > MAX_MEMO || Base58.Decoded(blockhash).None? || |Base58.Decoded(blockhash).value| != 32
  }

  /** The message of build_transfer. */
  method PushMessage(o: Order, memoProgram: Option<seq<Byte>>) returns (msg: seq<Byte>)
    requires IsOrder(o) && memoProgram == if o.memo == [] then None else Some(MemoProgram.ADDRESS)
    ensures msg == OrderBytes(o)
  {
    hide Shortvec, TransferPart, MessageBytes, MemoProgram.ADDRESS;
    LayoutIs(o);
    var includeMemo := memoProgram.Some?;
    var accountKeys := if includeMemo then 4 else 3;
    var instructions := if includeMemo then 2 else 1;
    var readonlyUnsigned := if includeMemo then 2 else 1;
    ghost var r9 := Shortvec(instructions) + TransferPart(o);
    ghost var r8 := o.blockhash + r9;
    ghost var r7 := (if includeMemo then memoProgram.value else []) + r8;
    ghost var r6 := SYSTEM_PROGRAM + r7;
    ghost var r5 := o.receiver + r6;
    ghost var r4 := o.sender + r5;
    ghost var r3 := Shortvec(accountKeys) + r4;
    ghost var r2 := [readonlyUnsigned] + r3;
    assert [] + ([1] + ([0] + r2)) == Layout(o);
    msg := Extend([], [1], [0] + r2);
    msg := Extend(msg, [0], r2);
    msg := Extend(msg, [readonlyUnsigned], r3);
    msg := PushShortvec(msg, accountKeys, r4);
    msg := Extend(msg, o.sender, r5);
    msg := Extend(msg, o.receiver, r6);
    msg := Extend(msg, SYSTEM_PROGRAM, r7);
    if memoProgram.Some? {
      msg := Extend(msg, memoProgram.value, r8);
    } else {
      assert r7 == r8;
    }
    msg := Extend(msg, o.blockhash, r9);
    msg := PushShortvec(msg, instructions, TransferPart(o));
    msg := PushInstructions(msg, o, accountKeys);
  }

  method PushInstructions(head: seq<Byte>, o: Order, accountKeys: nat) returns (msg: seq<Byte>)
    requires IsOrder(o) && head + TransferPart(o) == Layout(o) && accountKeys == if o.memo == [] then 3 else 4
    ensures msg == Layout(o)
  {
    hide Shortvec, LittleEndian, Layout;
    var instructionData := [2, 0, 0, 0] + LittleEndian(o.lamports, 8);
    ghost var r5 := instructionData + MemoPart(o.memo);
    ghost var r4 := Shortvec(12) + r5;
    ghost var r3 := [1] + r4;
    ghost var r2 := [0] + r3;
    msg := Extend(head, [2], Shortvec(2) + r2);
    msg := PushShortvec(msg, 2, r2);
    msg := Extend(msg, [0], r3);
    msg := Extend(msg, [1], r4);
    msg := PushShortvec(msg, |instructionData|, r5);
    msg := Extend(msg, instructionData, MemoPart(o.memo));
    if o.memo != [] {
      ghost var r7 := Shortvec(|o.memo|) + o.memo;
      msg := Extend(msg, [accountKeys - 1], Shortvec(0) + r7);
      msg := PushShortvec(msg, 0, r7);
      msg := PushShortvec(msg, |o.memo|, o.memo);
      msg := Extend(msg, o.memo, []);
    }
    assert msg + [] == msg;
  }

  /** build_transfer: the same texts as the C function, in strings of their own. */
  method BuildTransfer(sender: seq<Byte>, receiver: seq<Byte>, lamports: nat, blockhash: string, privateKey: seq<Byte>,
                       memo: Option<seq<Byte>>, rows: seq<seq<GePrecomp>>, bi: seq<GePrecomp>, ghost b: Point)
    returns (r: Result<SignedTransaction>, ghost signature: seq<Byte>)
    requires Tables(rows, bi, b)
    requires |sender| == |receiver| == 32 && |privateKey| == 64 && lamports < 0x1_0000_0000_0000_0000
    requires 733 * |blockhash| < 0x1_0000_0000_0000_0000
    ensures |signature| == 64
    ensures var text := if memo.None? then [] else memo.value;
            if Refused(blockhash, text) then r == Err else
              var o := Order(sender, receiver, lamports, Base58.Decoded(blockhash).value, text);
              IsSigned(signature, o, privateKey, b)
              && r == Ok(SignedTransaction(OrderText(signature, o), Base58.Encoded(signature)))
  {
    hide TransactionBytes, MessageBytes, IsSignature, Base64.Encoded, Base58.Encoded, Base58.Decoded, IsPrecomp,
      MemoProgram.ADDRESS, MemoProgram.BASE58;
    signature := seq(64, _ => 0);
    var text := if memo.None? then [] else memo.value;
    if |text| > MAX_MEMO {
      return Err, signature;
    }
    var decoded := Base58Bytes(blockhash);
    if decoded.Err? || |decoded.value| != 32 {
      Base58.DecodedNonempty(blockhash);
      EmptyText();
      return Err, signature;
    }
    var memoProgram: Option<seq<Byte>> := None;
    if text != [] {
      MemoProgram.AddressDecoded();
      MemoProgram.TextSize();
      var bytes := Base58Bytes(MemoProgram.BASE58);
      if bytes.Err? || |bytes.value| != 32 {
        assert false;
        return Err, signature;
      }
      memoProgram := Some(bytes.value);
    }
    var o := Order(sender, receiver, lamports, decoded.value, text);
    var msg := PushMessage(o, memoProgram);
    var sign := new Byte[64](_ => 0);
    Sign(sign, msg, sender, privateKey[..32], rows, bi, b);
    signature := sign[..];
    var tx := PushSigned(sign[..], msg, o);
    Sizes(o, signature);
    var base64 := Base64Text(tx);
    var signatureBase58 := Base58Text(sign[..]);
    if base64.Err? || signatureBase58.Err? {
      assert false;
      return Err, signature;
    }
    return Ok(SignedTransaction(base64.value, signatureBase58.value)), signature;
  }

  lemma EmptyText()
    ensures Base58.Decoded([]) == Some([])
  {
    Base58.DecodedIs([], []);
  }

  method PushSigned(signature: seq<Byte>, msg: seq<Byte>, o: Order) returns (tx: seq<Byte>)
    requires IsOrder(o) && |signature| == 64 && msg == OrderBytes(o)
    ensures tx == TransactionBytes(Signed(signature, o))
  {
    hide MessageBytes;
    tx := PushShortvec([], 1, []);
    tx := tx + signature;
    tx := tx + msg;
    assert Concat([signature]) == signature;
  }

  // -------------------------------------------------------------------------------------------
  // Both together
  // -------------------------------------------------------------------------------------------

  /** An order has one signature, so both builders send the same texts. */
  lemma OneSignature(o: Order, privateKey: seq<Byte>, b: Point, s: seq<Byte>, t: seq<Byte>)
    requires IsOrder(o) && |s| == |t| == |privateKey| == 64 && IsSigned(s, o, privateKey, b)
            && IsSigned(t, o, privateKey, b)
    ensures s == t
  {
    hide IsSignature, MessageBytes;
    SignatureUnique(s, t, OrderBytes(o), o.sender, privateKey[..32], b);
  }

  /** What a reader of the sent text finds: who pays whom, how much, by which program, and the memo. */
  lemma OrderShown(o: Order, signature: seq<Byte>, t: Transaction)
    requires IsOrder(o) && |signature| == 64 && Received(OrderText(signature, o)) == Some(t)
    ensures t.signatures == [signature] && t.message.blockhash == o.blockhash
    ensures t.message.header == Header(1, 0, if o.memo == [] then 1 else 2)
    ensures |t.message.accounts| == if o.memo == [] then 3 else 4
    ensures |t.message.instructions| == if o.memo == [] then 1 else 2
    ensures var accounts, transfer := t.message.accounts, t.message.instructions[0];
            && transfer.program < 3 && accounts[transfer.program] == seq(32, _ => 0)
            && |transfer.accounts| == 2 && transfer.accounts[0] < 3 && transfer.accounts[1] < 3
            && accounts[transfer.accounts[0]] == o.sender && accounts[transfer.accounts[1]] == o.receiver
            && |transfer.data| == 12 && transfer.data[..4] == [2, 0, 0, 0] && LE(transfer.data[4..]) == o.lamports
    ensures o.memo != [] ==>
              var memo := t.message.instructions[1];
              && memo.program < 4 && Base58.Decoded(MemoProgram.BASE58) == Some(t.message.accounts[memo.program])
              && memo.accounts == [] && memo.data == o.memo
  {
    hide Received, OrderText, MemoProgram.ADDRESS, MemoProgram.BASE58, Base58.Decoded;
    Recovers(o, signature);
    AmountValue(o.lamports);
    MemoProgram.AddressDecoded();
    var data := [2, 0, 0, 0] + LittleEndian(o.lamports, 8);
    assert data[4..] == LittleEndian(o.lamports, 8) && data[..4] == [2, 0, 0, 0];
  }

  lemma Recovers(o: Order, signature: seq<Byte>)
    requires IsOrder(o) && |signature| == 64
    ensures Received(OrderText(signature, o)) == Some(Signed(signature, o))
  {
    hide Received, Signed, TransactionBytes, Base64.Encoded;
    Recovered(o, signature);
  }

  /** The one signature of the transaction is the first account's, whose key decodes to p. */
  ghost predicate Verifies(t: Transaction, b: Point, p: Point) {
    && |t.signatures| == 1 && |t.signatures[0]| == 64 && |t.message.accounts| > 0 && |t.message.accounts[0]| == 32
    && |MessageBytes(t.message)| <= MAX_MESSAGE
    && Decodes(t.message.accounts[0], p)
    && Accepts(t.signatures[0], MessageBytes(t.message), t.message.accounts[0], b, p)
  }

  /** What is sent reads as a transaction that verifies, if the sender's key is that of the private key. */
  lemma SentVerifies(o: Order, privateKey: seq<Byte>, signature: seq<Byte>)
    requires IsOrder(o) && |signature| == |privateKey| == 64 && IsSigned(signature, o, privateKey, B)
    requires LE(o.sender) == GeEncoding.Encoding(Mul(Secret(privateKey[..32]), B))
    ensures Received(OrderText(signature, o)) == Some(Signed(signature, o))
    ensures exists p :: Verifies(Signed(signature, o), B, p)
  {
    hide MessageBytes, Accepts, Decodes, IsSignature, TransactionBytes, Base64.Encoded, Mul;
    Recovered(o, signature);
    BaseOrder.OrderOfBase();
    BasePoint.BaseIsPoint();
    SignedAccepts(signature, OrderBytes(o), o.sender, privateKey[..32], B);
    assert Verifies(Signed(signature, o), B, Neg(Mul(Secret(privateKey[..32]), B)));
  }
}
