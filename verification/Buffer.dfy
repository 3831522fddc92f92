/** Bytes and integers in network order (muduo/net/Endian.h through muduo/net/Buffer.h). */
module NetworkOrder {

  /** A C++ char taken as an unsigned octet. */
  type Byte = c: char | c as int < 256 witness '\0'

  function Pow256(n: nat): int
    ensures Pow256(n) > 0
  {
    if n == 0 then 1 else 256 * Pow256(n - 1)
  }

  /** The range of a signed integer of n bytes. */
  predicate Fits(x: int, n: nat) {
    -Pow256(n) <= 2 * x < Pow256(n)
  }

  /** hostToNetwork: the n bytes of the two's complement of x, most significant first. */
  function Encode(x: int, n: nat): (s: seq<Byte>)
    ensures |s| == n
    decreases n
  {
    if n == 0 then [] else Encode(x / 256, n - 1) + [(x % 256) as char]
  }

  /** The value of a byte string read as a positional numeral in base 256. */
  function Unsigned(s: seq<Byte>): (v: int)
    ensures 0 <= v < Pow256(|s|)
  {
    if s == [] then 0 else Unsigned(s[..|s| - 1]) * 256 + s[|s| - 1] as int
  }

  /** networkToHost: the numeral, moved into the signed range. */
  function Decode(s: seq<Byte>): int {
    var v := Unsigned(s);
    if 2 * v < Pow256(|s|) then v else v - Pow256(|s|)
  }

  lemma {:induction false} UnsignedOfEncode(x: int, n: nat)
    ensures Unsigned(Encode(x, n)) == x % Pow256(n)
    decreases n
  {
    if n > 0 {
      UnsignedOfEncode(x / 256, n - 1);
      var s := Encode(x, n);
      assert s[..n - 1] == Encode(x / 256, n - 1);
      ModSplit(x, Pow256(n - 1));
    }
  }

  lemma ModSplit(x: int, p: int)
    requires p > 0
    ensures (x / 256 % p) * 256 + x % 256 == x % (256 * p)
  {
    var q := x / 256;
    var k := q / p;
    assert q == p * k + q % p;
    var r := (q % p) * 256 + x % 256;
    assert x == 256 * p * k + r by {
      assert 256 * (p * k) == 256 * p * k;
    }
    assert 0 <= r < 256 * p;
    Remainder(x, 256 * p, k, r);
  }

  lemma Remainder(x: int, m: int, k: int, r: int)
    requires m > 0 && x == m * k + r && 0 <= r < m
    ensures x % m == r
  {
    var q := x / m;
    assert m * (q - k) == r - x % m;
    assert q - k >= 1 ==> m * (q - k) >= m;
    assert q - k <= -1 ==> m * (q - k) <= -m;
  }

  /** What appendIntN, prependIntN write, peekIntN reads back, for every value of the width. */
  lemma DecodeInvertsEncode(x: int, n: nat)
    requires Fits(x, n)
    ensures Decode(Encode(x, n)) == x
  {
    UnsignedOfEncode(x, n);
    var p := Pow256(n);
    if x >= 0 {
      Remainder(x, p, 0, x);
    } else {
      Remainder(x, p, -1, x + p);
    }
  }

  /** Every byte string is the encoding of the integer read from it. */
  lemma {:induction false} EncodeInvertsUnsigned(s: seq<Byte>, k: int)
    ensures Encode(Unsigned(s) + k * Pow256(|s|), |s|) == s
  {
    if s != [] {
      var n := |s|;
      var v := Unsigned(s[..n - 1]);
      var x := Unsigned(s) + k * Pow256(n);
      assert x == 256 * (v + k * Pow256(n - 1)) + s[n - 1] as int;
      assert x / 256 == v + k * Pow256(n - 1) && x % 256 == s[n - 1] as int;
      EncodeInvertsUnsigned(s[..n - 1], k);
      assert s == s[..n - 1] + [s[n - 1]];
    }
  }

  lemma EncodeInvertsDecode(s: seq<Byte>)
    ensures Fits(Decode(s), |s|) && Encode(Decode(s), |s|) == s
  {
    hide Encode, Unsigned, Pow256;
    EncodeInvertsUnsigned(s, 0);
    EncodeInvertsUnsigned(s, -1);
  }

  lemma DivideTwice(x: int, p: int)
    requires p > 0
    ensures x / 256 / p == x / (256 * p)
  {
    var q := x / 256;
    var k := q / p;
    assert q == p * k + q % p && x == 256 * q + x % 256;
    var r := 256 * (q % p) + x % 256;
    assert x == 256 * p * k + r by { assert 256 * (p * k) == 256 * p * k; }
    Remainder(x, 256 * p, k, r);
    SameQuotient(x, 256 * p, k, r);
  }

  lemma SameQuotient(x: int, m: int, k: int, r: int)
    requires m > 0 && x == m * k + r && x % m == r
    ensures x / m == k
  {
    assert m * (x / m - k) == 0;
  }

  /** Network order: byte i of n is the digit of weight 256 to the n - 1 - i, so the most significant
      one comes first, for every value and width. */
  lemma {:induction false} MostSignificantFirst(x: int, n: nat, i: nat)
    requires i < n
    ensures Encode(x, n)[i] as int == x / Pow256(n - 1 - i) % 256
    decreases n
  {
    if i < n - 1 {
      MostSignificantFirst(x / 256, n - 1, i);
      DivideTwice(x, Pow256(n - 2 - i));
    }
  }
}

/** The growable byte buffer between a socket and its user (muduo/net/Buffer.h, Buffer.cc). */
module Buffers {
  import opened NetworkOrder

  const CHEAP_PREPEND: nat := 8
  const INITIAL_SIZE: nat := 1024
  const EXTRA_SIZE: nat := 65536

  /** Where std::search finds CRLF: the first index, or |s| when there is none. */
  function FindCRLF(s: seq<Byte>): (k: nat)
    ensures k <= |s|
    ensures k < |s| ==> k + 1 < |s| && s[k] == '\r' && s[k + 1] == '\n'
    ensures forall i :: 0 <= i < k && i + 1 < |s| ==> !(s[i] == '\r' && s[i + 1] == '\n')
  {
    if |s| < 2 then |s|
    else if s[0] == '\r' && s[1] == '\n' then 0
    else 1 + FindCRLF(s[1..])
  }

  class Buffer {
    var buffer: seq<Byte>
    var readerIndex: nat
    var writerIndex: nat

    ghost predicate Valid()
      reads this
    {
      CHEAP_PREPEND <= |buffer| && readerIndex <= writerIndex <= |buffer|
    }

    /** The abstract value: the readable region. */
    function Contents(): seq<Byte>
      requires Valid()
      reads this
    {
      buffer[readerIndex..writerIndex]
    }

    function ReadableBytes(): nat
      requires Valid()
      reads this
    {
      writerIndex - readerIndex
    }

    function WritableBytes(): nat
      requires Valid()
      reads this
    {
      |buffer| - writerIndex
    }

    function PrependableBytes(): nat
      reads this
    {
      readerIndex
    }

    /** The cheap prepend area is only ever used up by Prepend. */
    twostate predicate KeepsHeadroom()
      reads this
    {
      readerIndex >= CHEAP_PREPEND || readerIndex >= old(readerIndex)
    }

    constructor (initialSize: nat := INITIAL_SIZE)
      ensures Valid() && Contents() == []
      ensures WritableBytes() == initialSize && PrependableBytes() == CHEAP_PREPEND
    {
      buffer := seq(CHEAP_PREPEND + initialSize, _ => '\0');
      readerIndex := CHEAP_PREPEND;
      writerIndex := CHEAP_PREPEND;
    }

    method RetrieveAll()
      requires Valid()
      modifies this
      ensures Valid() && Contents() == [] && buffer == old(buffer)
      ensures PrependableBytes() == CHEAP_PREPEND
    {
      readerIndex := CHEAP_PREPEND;
      writerIndex := CHEAP_PREPEND;
    }

    method Retrieve(len: nat)
      requires Valid() && len <= ReadableBytes()
      modifies this
      ensures Valid() && Contents() == old(Contents())[len..]
      ensures buffer == old(buffer)
      ensures KeepsHeadroom()
    {
      if len < ReadableBytes() {
        readerIndex := readerIndex + len;
      } else {
        RetrieveAll();
      }
    }

    method RetrieveAsString(len: nat) returns (result: seq<Byte>)
      requires Valid() && len <= ReadableBytes()
      modifies this
      ensures Valid() && result == old(Contents())[..len] && Contents() == old(Contents())[len..]
    {
      result := buffer[readerIndex..readerIndex + len];
      Retrieve(len);
    }

    method Unwrite(len: nat)
      requires Valid() && len <= ReadableBytes()
      modifies this
      ensures Valid() && Contents() == old(Contents())[..old(ReadableBytes()) - len]
      ensures KeepsHeadroom()
    {
      ghost var was := Contents();
      writerIndex := writerIndex - len;
      assert Contents() == was[..|was| - len];
    }

    /** Reached with too little writable space only, so the assertion before compaction holds. */
    method MakeSpace(len: nat)
      requires Valid() && WritableBytes() < len
      modifies this
      ensures Valid() && Contents() == old(Contents()) && WritableBytes() >= len
      ensures old(WritableBytes() + PrependableBytes()) >= len + CHEAP_PREPEND ==> |buffer| == old(|buffer|)
      ensures KeepsHeadroom()
    {
      if WritableBytes() + PrependableBytes() < len + CHEAP_PREPEND {
        buffer := buffer[..writerIndex] + seq(len, _ => '\0');
      } else {
        assert CHEAP_PREPEND < readerIndex;
        var readable := ReadableBytes();
        var moved := buffer[readerIndex..writerIndex];
        buffer := buffer[..CHEAP_PREPEND] + moved + buffer[CHEAP_PREPEND + readable..];
        readerIndex := CHEAP_PREPEND;
        writerIndex := readerIndex + readable;
      }
    }

    method EnsureWritableBytes(len: nat)
      requires Valid()
      modifies this
      ensures Valid() && Contents() == old(Contents()) && WritableBytes() >= len
      ensures old(WritableBytes()) >= len ==> WritableBytes() == old(WritableBytes())
      ensures KeepsHeadroom()
    {
      if WritableBytes() < len {
        MakeSpace(len);
      }
    }

    method Append(data: seq<Byte>)
      requires Valid()
      modifies this
      ensures Valid() && Contents() == old(Contents()) + data
      ensures WritableBytes() >= old(WritableBytes()) - |data|
      ensures KeepsHeadroom()
    {
      EnsureWritableBytes(|data|);
      buffer := buffer[..writerIndex] + data + buffer[writerIndex + |data|..];
      writerIndex := writerIndex + |data|;
    }

    method Prepend(data: seq<Byte>)
      requires Valid() && |data| <= PrependableBytes()
      modifies this
      ensures Valid() && Contents() == data + old(Contents())
      ensures PrependableBytes() == old(PrependableBytes()) - |data|
    {
      readerIndex := readerIndex - |data|;
      buffer := buffer[..readerIndex] + data + buffer[readerIndex + |data|..];
    }

    method Swap(rhs: Buffer)
      requires Valid() && rhs.Valid()
      modifies this, rhs
      ensures Valid() && rhs.Valid()
      ensures Contents() == old(rhs.Contents()) && rhs.Contents() == old(Contents())
      ensures WritableBytes() == old(rhs.WritableBytes()) && rhs.WritableBytes() == old(WritableBytes())
      ensures PrependableBytes() == old(rhs.PrependableBytes()) && rhs.PrependableBytes() == old(PrependableBytes())
    {
      buffer, rhs.buffer := rhs.buffer, buffer;
      readerIndex, rhs.readerIndex := rhs.readerIndex, readerIndex;
      writerIndex, rhs.writerIndex := rhs.writerIndex, writerIndex;
    }

    method Shrink(reserve: nat)
      requires Valid()
      modifies this
      ensures Valid() && Contents() == old(Contents()) && WritableBytes() >= reserve
      ensures KeepsHeadroom()
    {
      var other := new Buffer();
      other.EnsureWritableBytes(ReadableBytes() + reserve);
      other.Append(Contents());
      Swap(other);
    }

    /** readv fills the writable region first and the stack area next; n < 0 is an error.
        `incoming` is what the kernel delivered. */
    method ReadFd(incoming: seq<Byte>, failed: bool) returns (n: int)
      requires Valid()
      requires |incoming| <= WritableBytes() + if WritableBytes() < EXTRA_SIZE then EXTRA_SIZE else 0
      modifies this
      ensures Valid()
      ensures if failed then n < 0 && Contents() == old(Contents())
              else n == |incoming| && Contents() == old(Contents()) + incoming
      ensures KeepsHeadroom()
    {
      var writable := WritableBytes();
      if failed {
        n := -1;
        return;
      }
      n := |incoming|;
      var first := if |incoming| <= writable then incoming else incoming[..writable];
      var extrabuf := incoming[|first|..];
      buffer := buffer[..writerIndex] + first + buffer[writerIndex + |first|..];
      if n <= writable {
        writerIndex := writerIndex + n;
      } else {
        writerIndex := |buffer|;
        assert Contents() == old(Contents()) + first;
        Append(extrabuf);
        assert incoming == first + extrabuf;
      }
    }

    method AppendInt(x: int, width: nat)
      requires Valid() && Fits(x, width)
      modifies this
      ensures Valid() && Contents() == old(Contents()) + Encode(x, width)
      ensures KeepsHeadroom()
    {
      Append(Encode(x, width));
    }

    method PrependInt(x: int, width: nat)
      requires Valid() && Fits(x, width) && width <= PrependableBytes()
      modifies this
      ensures Valid() && Contents() == Encode(x, width) + old(Contents())
    {
      Prepend(Encode(x, width));
    }

    method PeekInt(width: nat) returns (x: int)
      requires Valid() && width <= ReadableBytes()
      ensures Fits(x, width) && Encode(x, width) == Contents()[..width]
    {
      var bytes := buffer[readerIndex..readerIndex + width];
      assert bytes == Contents()[..width];
      EncodeInvertsDecode(bytes);
      x := Decode(bytes);
    }

    method ReadInt(width: nat) returns (x: int)
      requires Valid() && width <= ReadableBytes()
      modifies this
      ensures Valid() && Fits(x, width)
      ensures old(Contents()) == Encode(x, width) + Contents()
    {
      x := PeekInt(width);
      Retrieve(width);
    }
  }

  // ---------- whole runs ----------

  datatype Op = Append(data: seq<Byte>) | Prepend(data: seq<Byte>) | Retrieve(len: nat) | Unwrite(len: nat)
              | Shrink(reserve: nat) | ReadFd(data: seq<Byte>, failed: bool) | EnsureWritable(len: nat)

  /** What an operation does to the abstract byte sequence. */
  function Apply(s: seq<Byte>, op: Op): seq<Byte> {
    match op
    case Append(d) => s + d
    case Prepend(d) => d + s
    case Retrieve(n) => if n <= |s| then s[n..] else s
    case Unwrite(n) => if n <= |s| then s[..|s| - n] else s
    case Shrink(_) => s
    case ReadFd(d, failed) => if failed then s else s + d
    case EnsureWritable(_) => s
  }

  function ApplyAll(s: seq<Byte>, ops: seq<Op>): seq<Byte> {
    if ops == [] then s else Apply(ApplyAll(s, ops[..|ops| - 1]), ops[|ops| - 1])
  }

  function PrependSize(op: Op): nat {
    match op case Prepend(d) => |d| case _ => 0
  }

  /** The bytes prepended so far. */
  function Prepended(ops: seq<Op>): nat {
    if ops == [] then 0
    else Prepended(ops[..|ops| - 1]) + PrependSize(ops[|ops| - 1])
  }

  /** The operation asks for what the source does not promise after `ops` left content `s`: more bytes
      than there are, more prepended bytes than eight in all, more than 64 KiB in one read. */
  predicate Illegal(s: seq<Byte>, ops: seq<Op>, op: Op) {
    match op
    case Retrieve(n) => n > |s|
    case Unwrite(n) => n > |s|
    case Prepend(d) => Prepended(ops) + |d| > CHEAP_PREPEND
    case ReadFd(d, failed) => |d| > EXTRA_SIZE
    case _ => false
  }

  /** One operation, unless its precondition does not hold. */
  method Perform(b: Buffer, op: Op) returns (ok: bool)
    requires b.Valid()
    modifies b
    ensures b.Valid() && b.Contents() == if ok then Apply(old(b.Contents()), op) else old(b.Contents())
    ensures b.PrependableBytes() >= CHEAP_PREPEND || b.PrependableBytes() + PrependSize(op) >= old(b.PrependableBytes())
    ensures !ok ==> old(b.PrependableBytes()) < PrependSize(op) || (!op.Prepend? && Illegal(b.Contents(), [], op))
  {
    ok := true;
    match op
    case Append(d) => b.Append(d);
    case Prepend(d) =>
      if |d| > b.PrependableBytes() { return false; }
      b.Prepend(d);
    case Retrieve(n) =>
      if n > b.ReadableBytes() { return false; }
      b.Retrieve(n);
    case Unwrite(n) =>
      if n > b.ReadableBytes() { return false; }
      b.Unwrite(n);
    case Shrink(r) => b.Shrink(r);
    case ReadFd(d, failed) =>
      if |d| > b.WritableBytes() + (if b.WritableBytes() < EXTRA_SIZE then EXTRA_SIZE else 0) { return false; }
      var n := b.ReadFd(d, failed);
    case EnsureWritable(n) => b.EnsureWritableBytes(n);
  }

  /** Any sequence of operations on a fresh buffer of any size.  A run only ends early at an
      illegal operation: prepends of up to eight bytes together and every read of up to 64 KiB fit. */
  method Run(initialSize: nat, ops: seq<Op>) returns (result: seq<Byte>, done: nat)
    ensures done <= |ops| && result == ApplyAll([], ops[..done])
    ensures done < |ops| ==> Illegal(result, ops[..done], ops[done])
  {
    hide Apply;
    var b := new Buffer(initialSize);
    done := 0;
    while done < |ops|
      invariant b.Valid() && done <= |ops| && b.Contents() == ApplyAll([], ops[..done])
      invariant fresh(b)
      invariant b.PrependableBytes() + Prepended(ops[..done]) >= CHEAP_PREPEND
    {
      assert ops[..done + 1][..done] == ops[..done];
      var ok := Perform(b, ops[done]);
      if !ok { return b.Contents(), done; }
      done := done + 1;
    }
    assert ops[..done] == ops;
    result := b.Contents();
  }
}
