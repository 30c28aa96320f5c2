/** The table-driven CRC-32 program, against the bit-at-a-time reflected CRC of section 8 of RFC 1952. */
module Crc32 {

  const POLY: bv32 := 3988292384

  // Named so that proofs about them need not look at bits.
  function Xor(x: bv32, y: bv32): bv32 { x ^ y }
  function Half(x: bv32): bv32 { x >> 1 }
  predicate Odd(x: bv32) { x & 1 == 1 }
  function DropByte(x: bv32): bv32 { x >> 8 }
  function LowByte(x: bv32): (r: bv32) ensures r < 256 { x & 255 }

  // ---------------------------------------------------------------- the reference

  /** One message bit, the lowest of `bits`. */
  function SerialStep(crc: bv32, bits: bv32): bv32 {
    if Odd(crc) != Odd(bits) then Xor(Half(crc), POLY) else Half(crc)
  }

  /** The next `n` bits of a byte, least significant first. */
  function SerialBits(crc: bv32, bits: bv32, n: nat): bv32
    decreases n
  {
    if n == 0 then crc else SerialBits(SerialStep(crc, bits), Half(bits), n - 1)
  }

  function SerialBytes(crc: bv32, msg: seq<bv8>): bv32 {
    if msg == [] then crc
    else SerialBits(SerialBytes(crc, msg[..|msg| - 1]), msg[|msg| - 1] as bv32, 8)
  }

  /** The CRC-32 of a message, one bit at a time. */
  function Reference(msg: seq<bv8>): bv32 {
    SerialBytes(0xFFFF_FFFF, msg) ^ 0xFFFF_FFFF
  }

  // ---------------------------------------------------------------- table entries

  function Step(crc: bv32): bv32 {
    if Odd(crc) then Xor(Half(crc), POLY) else Half(crc)
  }

  function Steps(crc: bv32, n: nat): bv32 {
    if n == 0 then crc else Step(Steps(crc, n - 1))
  }

  method TableEntry(idx: bv32) returns (crc: bv32)
    ensures crc == Steps(idx, 8)
  {
    crc := idx;
    for i := 0 to 8
      invariant crc == Steps(idx, i)
    {
      if crc & 1 == 1 {
        crc := (crc >> 1) ^ POLY;
      } else {
        crc := crc >> 1;
      }
    }
  }

  /** The four bytes of a word, least significant first. */
  function LittleEndian(w: bv32): (bs: seq<bv8>)
    ensures |bs| == 4
  {
    [(w & 255) as bv8, ((w >> 8) & 255) as bv8, ((w >> 16) & 255) as bv8, ((w >> 24) & 255) as bv8]
  }

  function Word(b0: bv8, b1: bv8, b2: bv8, b3: bv8): bv32 {
    (b0 as bv32) | ((b1 as bv32) << 8) | ((b2 as bv32) << 16) | ((b3 as bv32) << 24)
  }

  lemma WordOfBytes(w: bv32)
    ensures Word(LittleEndian(w)[0], LittleEndian(w)[1], LittleEndian(w)[2], LittleEndian(w)[3]) == w
  {
  }

  /** The word a table slot must hold, as bytes. */
  function Slot(k: int): (bs: seq<bv8>)
    requires 0 <= k < 256
    ensures |bs| == 4
  {
    LittleEndian(Steps(k as bv32, 8))
  }

  ghost predicate TableUpTo(table: seq<bv8>, n: nat)
    requires |table| == 1024 && n <= 256
  {
    forall k :: 0 <= k < n ==> table[4 * k..4 * k + 4] == Slot(k)
  }

  /** The 256 words, each stored as four little-endian bytes. */
  method BuildTable() returns (table: array<bv8>)
    ensures fresh(table) && table.Length == 1024 && TableUpTo(table[..], 256)
  {
    hide Steps, LittleEndian;
    table := new bv8[1024];
    for i := 0 to 256
      invariant TableUpTo(table[..], i)
    {
      var val := TableEntry(i as bv32);
      var bytes := LittleEndian(val);
      assert bytes == Slot(i);
      hide Slot;
      ghost var before := table[..];
      table[i * 4], table[i * 4 + 1], table[i * 4 + 2], table[i * 4 + 3] := bytes[0], bytes[1], bytes[2], bytes[3];
      TableGrows(before, table[..], i, bytes);
    }
  }

  lemma TableGrows(before: seq<bv8>, after: seq<bv8>, i: nat, bytes: seq<bv8>)
    requires |before| == |after| == 1024 && i < 256 && TableUpTo(before, i) && |bytes| == 4 && bytes == Slot(i)
    requires after == before[4 * i := bytes[0]][4 * i + 1 := bytes[1]][4 * i + 2 := bytes[2]][4 * i + 3 := bytes[3]]
    ensures TableUpTo(after, i + 1)
  {
    hide Slot;
    forall k | 0 <= k < i + 1 ensures after[4 * k..4 * k + 4] == Slot(k) {
      if k < i {
        assert after[4 * k..4 * k + 4] == before[4 * k..4 * k + 4];
      } else {
        assert after[4 * k..4 * k + 4] == bytes;
      }
    }
  }

  // ---------------------------------------------------------------- why the table works

  lemma XorBits(x: bv32, y: bv32)
    ensures Half(Xor(x, y)) == Xor(Half(x), Half(y))
    ensures Odd(Xor(x, y)) == (Odd(x) != Odd(y))
  {
  }

  lemma XorLaws(a: bv32, b: bv32, p: bv32)
    ensures Xor(Xor(a, p), b) == Xor(Xor(a, b), p)
    ensures Xor(a, Xor(b, p)) == Xor(Xor(a, b), p)
    ensures Xor(Xor(a, p), Xor(b, p)) == Xor(a, b)
  {
  }

  lemma StepLinear(x: bv32, y: bv32)
    ensures Step(Xor(x, y)) == Xor(Step(x), Step(y))
  {
    hide Xor, Half, Odd;
    XorBits(x, y);
    XorLaws(Half(x), Half(y), POLY);
  }

  lemma {:induction false} StepsLinear(x: bv32, y: bv32, n: nat)
    ensures Steps(Xor(x, y), n) == Xor(Steps(x, n), Steps(y, n))
  {
    hide Step, Xor;
    if n > 0 {
      StepsLinear(x, y, n - 1);
      StepLinear(Steps(x, n - 1), Steps(y, n - 1));
    }
  }

  /** Eight steps on a word whose low byte is zero only shift it. */
  lemma HighBytesShift(h: bv32)
    requires h & 255 == 0
    ensures Steps(h, 8) == h >> 8
  {
    assert Steps(h, 1) == h >> 1;
    assert Steps(h, 2) == h >> 2;
    assert Steps(h, 3) == h >> 3;
    assert Steps(h, 4) == h >> 4;
    assert Steps(h, 5) == h >> 5;
    assert Steps(h, 6) == h >> 6;
    assert Steps(h, 7) == h >> 7;
  }

  function HighBytes(x: bv32): bv32 { x & 0xFFFF_FF00 }

  lemma SplitLowByte(x: bv32)
    ensures x == Xor(HighBytes(x), LowByte(x)) && HighBytes(x) & 255 == 0 && HighBytes(x) >> 8 == DropByte(x)
  {
  }

  /** Eight steps are a shift by a byte and one table word. */
  lemma StepsByTable(x: bv32)
    ensures Steps(x, 8) == Xor(DropByte(x), Steps(LowByte(x), 8))
  {
    hide Steps, Xor, HighBytes, LowByte, DropByte;
    SplitLowByte(x);
    StepsLinear(HighBytes(x), LowByte(x), 8);
    HighBytesShift(HighBytes(x));
  }

  /** Feeding a byte bit by bit is mixing it in first and then stepping. */
  lemma {:induction false} SerialIsMixed(crc: bv32, bits: bv32, n: nat)
    ensures Mixed(SerialBits(crc, bits, n), bits, n) == Steps(Xor(crc, bits), n)
    decreases n
  {
    hide Step, SerialStep, Xor, Half;
    if n > 0 {
      MixStep(crc, bits);
      SerialIsMixed(SerialStep(crc, bits), Half(bits), n - 1);
      StepsFirst(Xor(crc, bits), n);
    }
  }

  /** The state with the bits not yet fed mixed in. */
  function Mixed(crc: bv32, bits: bv32, n: nat): bv32
    decreases n
  {
    if n == 0 then Xor(crc, bits) else Mixed(crc, Half(bits), n - 1)
  }

  lemma MixStep(crc: bv32, bits: bv32)
    ensures Xor(SerialStep(crc, bits), Half(bits)) == Step(Xor(crc, bits))
  {
    hide Xor, Half, Odd;
    XorBits(crc, bits);
    XorLaws(Half(crc), Half(bits), POLY);
  }

  lemma {:induction false} StepsFirst(x: bv32, n: nat)
    requires n > 0
    ensures Steps(x, n) == Steps(Step(x), n - 1)
  {
    hide Step;
    if n > 1 {
      StepsFirst(x, n - 1);
    }
  }

  /** One turn of the message loop feeds exactly one byte. */
  lemma TableTurn(crc: bv32, b: bv8)
    ensures Xor(DropByte(crc), Steps(LowByte(Xor(crc, b as bv32)), 8)) == SerialBits(crc, b as bv32, 8)
  {
    hide Steps, SerialBits, Xor, Mixed, DropByte, LowByte;
    var bits := b as bv32;
    SerialIsMixed(crc, bits, 8);
    ByteBits(crc, b);
    MixedByte(SerialBits(crc, bits, 8), bits);
    StepsByTable(Xor(crc, bits));
  }

  lemma ByteBits(crc: bv32, b: bv8)
    ensures DropByte(Xor(crc, b as bv32)) == DropByte(crc) && (b as bv32) < 256
  {
  }

  lemma MixedByte(crc: bv32, bits: bv32)
    requires bits < 256
    ensures Mixed(crc, bits, 8) == crc
  {
    assert Mixed(crc, bits >> 7, 1) == crc;
    assert Mixed(crc, bits >> 6, 2) == crc;
    assert Mixed(crc, bits >> 5, 3) == crc;
    assert Mixed(crc, bits >> 4, 4) == crc;
    assert Mixed(crc, bits >> 3, 5) == crc;
    assert Mixed(crc, bits >> 2, 6) == crc;
    assert Mixed(crc, bits >> 1, 7) == crc;
  }

  // ---------------------------------------------------------------- the program

  /** The bytes of slot `n`, one by one. */
  lemma SlotBytes(table: seq<bv8>, n: nat)
    requires |table| == 1024 && n < 256 && TableUpTo(table, 256)
    ensures Slot(n) == [table[4 * n], table[4 * n + 1], table[4 * n + 2], table[4 * n + 3]]
  {
    hide Slot;
    var part := table[4 * n..4 * n + 4];
    assert part == Slot(n);
    assert part == [part[0], part[1], part[2], part[3]];
  }

  lemma WordOfSlot(idx: bv32, bytes: seq<bv8>)
    requires bytes == LittleEndian(Steps(idx, 8))
    ensures |bytes| == 4 && Word(bytes[0], bytes[1], bytes[2], bytes[3]) == Steps(idx, 8)
  {
    hide Steps, LittleEndian, Word;
    WordOfBytes(Steps(idx, 8));
  }

  /** Reading a table word back. */
  method Lookup(table: array<bv8>, idx: bv32) returns (tval: bv32)
    requires table.Length == 1024 && idx < 256 && TableUpTo(table[..], 256)
    ensures tval == Steps(idx, 8)
  {
    hide Steps, LittleEndian, Word, Slot, TableUpTo;
    var n := IndexOf(idx);
    var t0, t1, t2, t3 := table[n * 4], table[n * 4 + 1], table[n * 4 + 2], table[n * 4 + 3];
    SlotBytes(table[..], n);
    WordOfSlot(idx, [t0, t1, t2, t3]);
    tval := Word(t0, t1, t2, t3);
  }

  function IndexOf(idx: bv32): (n: int)
    requires idx < 256
    ensures 0 <= n < 256 && Slot(n) == LittleEndian(Steps(idx, 8))
  {
    idx as int
  }

  /** The whole program: the bytes it writes are the little-endian CRC-32 of the message. */
  method Run(msg: seq<bv8>) returns (out: seq<bv8>)
    ensures out == LittleEndian(Reference(msg))
  {
    hide Steps, LittleEndian, SerialBits, TableUpTo, SerialBytes, Xor;
    var table := BuildTable();
    var crc: bv32 := 0xFFFF_FFFF;
    SerialStart(crc, msg);
    for i := 0 to |msg|
      invariant TableUpTo(table[..], 256)
      invariant crc == SerialBytes(0xFFFF_FFFF, msg[..i])
    {
      var idx := LowByte(Xor(crc, msg[i] as bv32));
      var tval := Lookup(table, idx);
      TableTurn(crc, msg[i]);
      SerialNext(0xFFFF_FFFF, msg, i);
      crc := Xor(DropByte(crc), tval);
    }
    assert msg[..|msg|] == msg;
    out := LittleEndian(crc ^ 0xFFFF_FFFF);
  }

  lemma SerialStart(crc: bv32, msg: seq<bv8>)
    ensures SerialBytes(crc, msg[..0]) == crc
  {
  }

  lemma SerialNext(crc: bv32, msg: seq<bv8>, i: nat)
    requires i < |msg|
    ensures SerialBytes(crc, msg[..i + 1]) == SerialBits(SerialBytes(crc, msg[..i]), msg[i] as bv32, 8)
  {
    hide SerialBits;
    assert msg[..i + 1][..i] == msg[..i];
  }
}
