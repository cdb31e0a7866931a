/** Length-encoded integers, and the packet writers of lib/packets/packet.js that everything else is written with. */
module LengthCoded {
  import opened Bytes
  import opened Protocol

  const TWO16: nat := 0x1_0000
  const TWO24: nat := 0x100_0000
  const TWO32: nat := 0x1_0000_0000
  const TWO53: nat := 0x20_0000_0000_0000

  /** `lengthCodedNumberLength`. */
  function LcLength(n: nat): nat {
    if n < 0xfb then 1 else if n < 0xffff then 3 else if n < 0xffffff then 4 else 9
  }

  /** Eight bytes, written and read as two words of four. */
  function Words(n: nat): (b: Buffer)
    ensures |b| == 8
  {
    Le(n % TWO32, 4) + Le(n / TWO32 % TWO32, 4)
  }

  function FromWords(b: Buffer): nat
    requires |b| == 8
  {
    FromLe(b[..4]) + TWO32 * FromLe(b[4..])
  }

  /** The bytes `writeLengthCodedNumber` writes. */
  function LcBytes(n: nat): (b: Buffer)
    ensures |b| == LcLength(n)
  {
    if n < 0xfb then [n]
    else if n < 0xffff then [0xfc] + Le(n, 2)
    else if n < 0xffffff then [0xfd] + Le(n, 3)
    else [0xfe] + Words(n)
  }

  datatype LcResult = LcNull(end: nat) | LcNumber(n: nat, end: nat) | LcBad

  /** `readLengthCodedNumber`, on the bytes from an offset. Numbers above 2^53 are kept exact here. */
  function ReadLc(b: Buffer, offset: nat): LcResult {
    if offset >= |b| then LcBad
    else if b[offset] < 251 then LcNumber(b[offset], offset + 1)
    else if b[offset] == 0xfb then LcNull(offset + 1)
    else if b[offset] == 0xfc && offset + 3 <= |b| then LcNumber(FromLe(b[offset + 1..offset + 3]), offset + 3)
    else if b[offset] == 0xfd && offset + 4 <= |b| then LcNumber(FromLe(b[offset + 1..offset + 4]), offset + 4)
    else if b[offset] == 0xfe && offset + 9 <= |b| then LcNumber(FromWords(b[offset + 1..offset + 9]), offset + 9)
    else LcBad
  }

  lemma Pow256Values()
    ensures Pow256(1) == 0x100 && Pow256(2) == TWO16 && Pow256(3) == TWO24 && Pow256(4) == TWO32
            && Pow256(8) == TWO32 * TWO32
  {
    assert Pow256(1) == 256 * Pow256(0) && Pow256(2) == 256 * Pow256(1) && Pow256(3) == 256 * Pow256(2);
    assert Pow256(4) == 256 * Pow256(3) && Pow256(5) == 256 * Pow256(4) && Pow256(6) == 256 * Pow256(5);
    assert Pow256(7) == 256 * Pow256(6) && Pow256(8) == 256 * Pow256(7);
  }

  lemma LeStep(n: nat, width: nat)
    requires width > 0
    ensures Le(n, width) == [n % 256] + Le(n / 256, width - 1)
  {
  }

  lemma LeNone(n: nat)
    ensures Le(n, 0) == []
  {
  }

  lemma WordsRoundTrip(n: nat)
    requires n < TWO32 * TWO32
    ensures FromWords(Words(n)) == n
  {
    hide Le, FromLe, Pow256;
    Pow256Values();
    LeRoundTrip(n % TWO32, 4);
    LeRoundTrip(n / TWO32 % TWO32, 4);
    assert Words(n)[..4] == Le(n % TWO32, 4) && Words(n)[4..] == Le(n / TWO32 % TWO32, 4);
    assert n / TWO32 < TWO32;
  }

  lemma LcDigits(n: nat)
    ensures n < 0xffff ==> FromLe(Le(n, 2)) == n
    ensures n < 0xffffff ==> FromLe(Le(n, 3)) == n
  {
    hide Le, FromLe, Pow256;
    Pow256Values();
    if n < 0xffff {
      LeRoundTrip(n, 2);
    }
    if n < 0xffffff {
      LeRoundTrip(n, 3);
    }
  }

  /** Every length below 2^53 is read back from what is written, and nothing more is consumed. */
  lemma LcRoundTrip(b: Buffer, offset: nat, n: nat)
    requires n < TWO53 && Holds(b, offset, LcBytes(n))
    ensures ReadLc(b, offset) == LcNumber(n, offset + LcLength(n))
  {
    hide Le, FromLe, Pow256, Words, FromWords, Holds;
    HoldsAt(b, offset, LcBytes(n), 0, LcLength(n));
    HoldsAt(b, offset, LcBytes(n), 1, LcLength(n));
    LcDigits(n);
    if 0xfb <= n < 0xffff {
      assert LcBytes(n)[1..3] == Le(n, 2);
    } else if 0xffff <= n < 0xffffff {
      assert LcBytes(n)[1..4] == Le(n, 3);
    } else if 0xffffff <= n {
      WordsRoundTrip(n);
      assert LcLength(n) == 9;
      assert b[offset + 1..offset + 9] == LcBytes(n)[1..9] == Words(n);
    }
  }

  // ---------------------------------------------------------------- the protocol's integers

  lemma FromLeFirst(b: Buffer)
    requires b != []
    ensures FromLe(b) == b[0] + 256 * FromLe(b[1..])
  {
  }

  /** The little-endian readers read the protocol's fixed-length integers. */
  lemma FromLeIsFixedLength(b: Buffer)
    requires 1 <= |b| <= 4
    ensures IsFixedLength(b, FromLe(b))
  {
    hide FromLe;
    FromLeFirst(b);
    FromLeEmpty();
    if |b| > 1 {
      FromLeFirst(b[1..]);
      assert b[1..][0] == b[1] && b[1..][1..] == b[2..];
    }
    if |b| > 2 {
      FromLeFirst(b[2..]);
      assert b[2..][0] == b[2] && b[2..][1..] == b[3..];
    }
    if |b| > 3 {
      FromLeFirst(b[3..]);
      assert b[3..][0] == b[3] && b[3..][1..] == b[4..];
    }
  }

  lemma FromLeEmpty()
    ensures FromLe([]) == 0
  {
  }

  lemma FromWordsIsFixedLength(b: Buffer)
    requires |b| == 8
    ensures IsFixedLength(b, FromWords(b))
  {
    hide FromLe;
    FromLeIsFixedLength(b[..4]);
    FromLeIsFixedLength(b[4..]);
  }

  /** The little-endian writers write them. */
  lemma LeIsFixedLength(n: nat, width: nat)
    requires n < Pow256(width) && 1 <= width <= 4
    ensures IsFixedLength(Le(n, width), n)
  {
    hide Le, FromLe, IsFixedLength;
    LeRoundTrip(n, width);
    FromLeIsFixedLength(Le(n, width));
  }

  lemma OneNumber(b: Buffer, n: nat, m: nat)
    requires IsFixedLength(b, n) && IsFixedLength(b, m)
    ensures n == m
  {
  }

  /** What is written is the protocol's length-encoded integer. */
  lemma LcIsLengthEncoded(n: nat)
    requires n < TWO53
    ensures IsLengthEncoded(LcBytes(n), n)
  {
    hide Le, FromLe, Pow256, Words, FromWords, IsFixedLength;
    Pow256Values();
    var b := LcBytes(n);
    if n < 0xfb {
      Single(b, n);
    } else if n < 0xffff {
      LeIsFixedLength(n, 2);
      assert b[1..] == Le(n, 2);
    } else if n < 0xffffff {
      LeIsFixedLength(n, 3);
      assert b[1..] == Le(n, 3);
    } else {
      WordsRoundTrip(n);
      FromWordsIsFixedLength(Words(n));
      assert b[1..] == Words(n);
    }
  }

  lemma Single(b: Buffer, n: nat)
    requires b == [n]
    ensures IsFixedLength(b, n)
  {
  }

  /** Any length-encoded integer of the protocol is read as its number, and nothing more is consumed. */
  lemma ReadsLengthEncoded(b: Buffer, offset: nat, part: Buffer, n: nat)
    requires IsLengthEncoded(part, n) && Holds(b, offset, part)
    ensures ReadLc(b, offset) == LcNumber(n, offset + |part|)
  {
    hide FromLe, FromWords, IsFixedLength, Holds;
    HoldsAt(b, offset, part, 0, |part|);
    HoldsAt(b, offset, part, 1, |part|);
    var digits := part[1..];
    assert digits == part[1..|part|];
    if |part| == 1 {
      FirstByte(part, n);
    } else if |part| == 9 {
      FromWordsIsFixedLength(digits);
      OneNumber(digits, n, FromWords(digits));
    } else {
      FromLeIsFixedLength(digits);
      OneNumber(digits, n, FromLe(digits));
    }
  }

  lemma FirstByte(b: Buffer, n: nat)
    requires |b| == 1 && IsFixedLength(b, n)
    ensures n == b[0]
  {
  }

  // ---------------------------------------------------------------- writers

  /** An outgoing packet: a buffer of its final size, the first four bytes left for the header. */
  class Packet {
    const buffer: array<Byte>
    var offset: nat

    ghost predicate Valid() reads this {
      4 <= offset <= buffer.Length
    }

    /** The payload written so far. */
    ghost function Written(): (b: Buffer)
      reads this, buffer
      requires Valid()
      ensures |b| == offset - 4
    {
      buffer[4..offset]
    }

    constructor (length: nat)
      requires length >= 4
      ensures Valid() && fresh(buffer) && buffer.Length == length && offset == 4 && Written() == []
    {
      buffer := new Byte[length];
      offset := 4;
    }

    method WriteInt8(n: Byte)
      requires Valid() && offset + 1 <= buffer.Length
      modifies this`offset, buffer
      ensures Valid() && Written() == old(Written()) + [n]
    {
      buffer[offset] := n;
      offset := offset + 1;
    }

    /** The little-endian writers of 2, 4 and 8 bytes. */
    method WriteUIntLE(n: nat, bytes: nat)
      requires Valid() && offset + bytes <= buffer.Length && n < Pow256(bytes)
      modifies this`offset, buffer
      ensures Valid() && Written() == old(Written()) + Le(n, bytes)
    {
      hide Le, Pow256, Packet.Written;
      var rest, k := n, 0;
      while k < bytes
        invariant k <= bytes && Valid() && offset == old(offset) + k
        invariant Written() + Le(rest, bytes - k) == old(Written()) + Le(n, bytes)
      {
        LeStep(rest, bytes - k);
        ghost var before := Written();
        WriteInt8(rest % 256);
        assert before + ([rest % 256] + Le(rest / 256, bytes - k - 1)) == Written() + Le(rest / 256, bytes - k - 1);
        rest := rest / 256;
        k := k + 1;
      }
      LeNone(rest);
      assert Written() + [] == Written();
    }

    method WriteBuffer(b: Buffer)
      requires Valid() && offset + |b| <= buffer.Length
      modifies this`offset, buffer
      ensures Valid() && Written() == old(Written()) + b
    {
      var start := offset;
      for k := 0 to |b|
        invariant offset == old(offset) && buffer[4..offset] == old(buffer[4..offset])
        invariant buffer[offset..offset + k] == b[..k]
      {
        buffer[start + k] := b[k];
      }
      offset := offset + |b|;
      assert buffer[4..offset] == buffer[4..start] + buffer[start..offset];
    }

    method WriteInt24(n: nat)
      requires Valid() && offset + 3 <= buffer.Length && n < TWO24
      modifies this`offset, buffer
      ensures Valid() && Written() == old(Written()) + Le(n, 3)
    {
      WriteInt8(n % 0x100);
      Pow256Values();
      WriteUIntLE(n / 0x100, 2);
      assert [n % 0x100] + Le(n / 0x100, 2) == Le(n, 3);
      assert old(Written()) + [n % 0x100] + Le(n / 0x100, 2) == old(Written()) + ([n % 0x100] + Le(n / 0x100, 2));
    }

    /** The two words of an eight-byte length; the upper one is floor(n / 2^32). */
    method WriteWords(n: nat)
      requires Valid() && offset + 8 <= buffer.Length && n < TWO53
      modifies this`offset, buffer
      ensures Valid() && Written() == old(Written()) + Words(n)
    {
      hide Le, Pow256;
      Pow256Values();
      assert n / TWO32 < TWO32;
      WriteUIntLE(n % TWO32, 4);
      WriteUIntLE(n / TWO32, 4);
      assert n / TWO32 % TWO32 == n / TWO32;
      assert old(Written()) + Le(n % TWO32, 4) + Le(n / TWO32, 4) == old(Written()) + Words(n);
    }

    method WriteLengthCodedNumber(n: nat)
      requires Valid() && n < TWO53 && offset + LcLength(n) <= buffer.Length
      modifies this`offset, buffer
      ensures Valid() && Written() == old(Written()) + LcBytes(n)
    {
      hide Le, Pow256, Words;
      Pow256Values();
      if n < 0xfb {
        WriteInt8(n);
      } else if n < 0xffff {
        WriteInt8(0xfc);
        WriteUIntLE(n, 2);
        assert old(Written()) + [0xfc] + Le(n, 2) == old(Written()) + ([0xfc] + Le(n, 2));
      } else if n < 0xffffff {
        WriteInt8(0xfd);
        WriteInt24(n);
        assert old(Written()) + [0xfd] + Le(n, 3) == old(Written()) + ([0xfd] + Le(n, 3));
      } else {
        WriteInt8(0xfe);
        WriteWords(n);
        assert old(Written()) + [0xfe] + Words(n) == old(Written()) + ([0xfe] + Words(n));
      }
    }

    /** `writeLengthCodedBuffer`; also `writeLengthCodedUtf8String` of a string with these bytes. */
    method WriteLengthCodedBuffer(b: Buffer)
      requires Valid() && |b| < TWO53 && offset + LcLength(|b|) + |b| <= buffer.Length
      modifies this`offset, buffer
      ensures Valid() && Written() == old(Written()) + LcBytes(|b|) + b
    {
      hide LcBytes;
      WriteLengthCodedNumber(|b|);
      WriteBuffer(b);
    }
  }
}
