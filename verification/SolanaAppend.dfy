/** The append helpers of main.c:714-779.  A buffer and an offset stand for the bytes before the offset;
    the ghost argument rest is what the caller still has to write. */
module SolanaAppend {
  import opened Bytes
  import opened SolanaWire
  import Machine

  lemma Assoc(a: seq<Byte>, b: seq<Byte>, c: seq<Byte>)
    ensures (a + b) + c == a + (b + c)
  {
  }

  method AppendU8(buffer: array<Byte>, offset: nat, value: Byte, ghost rest: seq<Byte>) returns (ok: bool, next: nat)
    modifies buffer
    ensures ok <==> offset < buffer.Length
    ensures ok ==> next == offset + 1 && buffer[..] == old(buffer[..offset]) + [value] + old(buffer[next..])
    ensures ok ==> buffer[..next] + rest == old(buffer[..offset]) + ([value] + rest)
    ensures !ok ==> next == offset && buffer[..] == old(buffer[..])
  {
    if offset >= buffer.Length {
      return false, offset;
    }
    ghost var text := buffer[..offset];
    buffer[offset] := value;
    assert buffer[..offset + 1] == text + [value];
    Assoc(text, [value], rest);
    return true, offset + 1;
  }

  method AppendBytes(buffer: array<Byte>, offset: nat, data: seq<Byte>, ghost rest: seq<Byte>)
    returns (ok: bool, next: nat)
    requires buffer.Length < 0x1_0000_0000_0000_0000
    requires offset <= buffer.Length || Machine.SizeDifference(buffer.Length, offset) < |data|
    modifies buffer
    ensures ok <==> offset + |data| <= buffer.Length
    ensures ok ==> next == offset + |data| && buffer[..] == old(buffer[..offset]) + data + old(buffer[next..])
    ensures ok ==> buffer[..next] + rest == old(buffer[..offset]) + (data + rest)
    ensures !ok ==> next == offset && buffer[..] == old(buffer[..])
  {
    if Machine.SizeDifference(buffer.Length, offset) < |data| {
      return false, offset;
    }
    ghost var text := buffer[..offset];
    Store(buffer, offset, data);
    assert buffer[..offset + |data|] == text + data;
    Assoc(text, data, rest);
    return true, offset + |data|;
  }

  /** Fails, after it has filled the buffer, when the encoding of the value does not fit. */
  method AppendShortvec(buffer: array<Byte>, offset: nat, value: nat, ghost rest: seq<Byte>)
    returns (ok: bool, next: nat)
    modifies buffer
    ensures ok <==> offset + |Shortvec(value)| <= buffer.Length
    ensures ok ==> next == offset + |Shortvec(value)|
    ensures ok ==> buffer[..] == old(buffer[..offset]) + Shortvec(value) + old(buffer[next..])
    ensures ok ==> buffer[..next] + rest == old(buffer[..offset]) + (Shortvec(value) + rest)
    ensures !ok ==> next == offset && (offset <= buffer.Length ==> buffer[..offset] == old(buffer[..offset]))
    ensures offset > buffer.Length ==> buffer[..] == old(buffer[..])
  {
    if offset > buffer.Length {
      return false, offset;
    }
    ok, next := AppendInside(buffer, offset, value, rest);
  }

  /** The loop of solana_append_shortvec. */
  method AppendInside(buffer: array<Byte>, offset: nat, value: nat, ghost rest: seq<Byte>)
    returns (ok: bool, next: nat)
    requires offset <= buffer.Length
    modifies buffer
    ensures ok <==> offset + |Shortvec(value)| <= buffer.Length
    ensures ok ==> next == offset + |Shortvec(value)|
    ensures ok ==> buffer[..] == old(buffer[..offset]) + Shortvec(value) + old(buffer[next..])
    ensures ok ==> buffer[..next] + rest == old(buffer[..offset]) + (Shortvec(value) + rest)
    ensures !ok ==> next == offset && buffer[..offset] == old(buffer[..offset])
  {
    hide Shortvec;
    var current, left, more := offset, value, true;
    ghost var text, done, todo := buffer[..offset], [], Shortvec(value);
    while more
      invariant offset <= current <= buffer.Length
      invariant buffer[..current] == text + done && buffer[current..] == old(buffer[current..])
      invariant todo == (if more then Shortvec(left) else []) && done + todo == Shortvec(value)
      decreases if more then left + 1 else 0
    {
      ShortvecSize(left);
      var byte;
      byte, left, more := NextByte(left);
      if current >= buffer.Length {
        return false, offset;
      }
      PutByte(buffer, current, byte);
      current := current + 1;
      todo := if more then Shortvec(left) else [];
      Moved(text, done, [byte], todo);
      done := done + [byte];
    }
    WholeBuffer(buffer[..], text, done, current, old(buffer[current..]));
    Assoc(text, Shortvec(value), rest);
    return true, current;
  }

  lemma Moved(text: seq<Byte>, done: seq<Byte>, next: seq<Byte>, todo: seq<Byte>)
    ensures (done + next) + todo == done + (next + todo) && text + (done + next) == (text + done) + next
  {
  }

  lemma WholeBuffer(s: seq<Byte>, text: seq<Byte>, done: seq<Byte>, n: nat, tail: seq<Byte>)
    requires n <= |s| && s[..n] == text + done && s[n..] == tail
    ensures s == text + done + tail
  {
    assert s == s[..n] + s[n..];
  }

  /** The next byte of a compact number and what is left of the number. */
  method NextByte(value: nat) returns (byte: Byte, left: nat, more: bool)
    ensures Shortvec(value) == [byte] + (if more then Shortvec(left) else []) && (more ==> left < value)
  {
    byte := value % 128;
    ShortvecStep(value);
    left := value / 128;
    if left != 0 {
      byte := byte + 128;
    }
    more := left != 0;
  }

  lemma ShortvecSize(value: nat)
    ensures |Shortvec(value)| > 0
  {
  }

  method PutByte(buffer: array<Byte>, i: nat, byte: Byte)
    requires i < buffer.Length
    modifies buffer
    ensures buffer[..i + 1] == old(buffer[..i]) + [byte] && buffer[i + 1..] == old(buffer[i + 1..])
  {
    buffer[i] := byte;
  }

  lemma ShortvecStep(v: nat)
    ensures v >= 128 ==> v / 128 != 0 && Shortvec(v) == [v % 128 + 128] + Shortvec(v / 128)
    ensures v < 128 ==> v / 128 == 0 && v % 128 == v && Shortvec(v) == [v] + []
  {
  }

  /** append_shortvec of transaction.rs:133-145, on a vector that grows. */
  method PushShortvec(buf: seq<Byte>, value: nat, ghost rest: seq<Byte>) returns (result: seq<Byte>)
    ensures result == buf + Shortvec(value) && result + rest == buf + (Shortvec(value) + rest)
  {
    result := buf;
    var left, more := value, true;
    while more
      invariant result + (if more then Shortvec(left) else []) == buf + Shortvec(value)
      decreases if more then left + 1 else 0
    {
      ghost var done := result;
      var byte;
      byte, left, more := NextByte(left);
      result := result + [byte];
      Assoc(done, [byte], if more then Shortvec(left) else []);
    }
    Assoc(buf, Shortvec(value), rest);
  }

  /** push and extend_from_slice. */
  method Extend(buf: seq<Byte>, data: seq<Byte>, ghost rest: seq<Byte>) returns (result: seq<Byte>)
    ensures result == buf + data && result + rest == buf + (data + rest)
  {
    result := buf + data;
    Assoc(buf, data, rest);
  }
}
