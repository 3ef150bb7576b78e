/** Instruction words of the interpreter: how two memory bytes form a 16-bit
    opcode, how the opcode splits into four nibbles, and which nibble tuples
    the dispatcher recognises. */
module Opcode {

  /** Rust's `u8`: memory cells, registers and the decoded nibbles. */
  newtype Byte = b: int | 0 <= b < 0x100

  /** Rust's `u16`: a fetched opcode. */
  newtype Word = w: int | 0 <= w < 0x1_0000

  /** The four nibbles of an opcode, each held in a byte as the source casts
      them: `c` the instruction class (bits 15-12), `x` the first register
      operand (bits 11-8), `y` the second register operand (bits 7-4) and `d`
      the sub-opcode (bits 3-0). */
  datatype Nibbles = Nibbles(c: Byte, x: Byte, y: Byte, d: Byte)

  predicate IsNibble(b: Byte) { b < 16 }

  predicate WellFormed(n: Nibbles)
  {
    IsNibble(n.c) && IsNibble(n.x) && IsNibble(n.y) && IsNibble(n.d)
  }

  /** Big-endian packing of the byte at the program counter (`hi`) and the
      byte after it (`lo`): `hi << 8 | lo`, where the shift is a multiplication
      by 256 and, since `lo` has no bit above bit 7, the `or` an addition.
      The first byte becomes the high byte of the word, the second the low one. */
  function Pack(hi: Byte, lo: Byte): (op: Word)
    ensures op as int / 256 == hi as int && op as int % 256 == lo as int
  {
    (hi as int * 256 + lo as int) as Word
  }

  /** On 16-bit machine words, `hi << 8 | lo` of two bytes is `Pack`. */
  lemma PackIsShiftOr(hi: bv16, lo: bv16)
    requires hi < 256 && lo < 256
    ensures ((hi << 8) | lo) as int == Pack(hi as int as Byte, lo as int as Byte) as int
  {
  }

  /** Masking and shifting an opcode into its four nibbles: `(op & 0xF000) >> 12`
      and so on, where masking with a run of ones followed by a shift to the
      right is a division by a power of two and a remainder by 16. The result
      is the unique tuple of nibbles whose positional value is the opcode. */
  function Decode(op: Word): (n: Nibbles)
    ensures WellFormed(n)
    ensures n.c as int * 4096 + n.x as int * 256 + n.y as int * 16 + n.d as int == op as int
  {
    PlaceValue(op as int);
    Nibbles((op as int / 0x1000) as Byte,
            (op as int / 0x100 % 0x10) as Byte,
            (op as int / 0x10 % 0x10) as Byte,
            (op as int % 0x10) as Byte)
  }

  /** A number below 0x10000 is the place-value sum of its four hex digits. */
  lemma PlaceValue(w: int)
    requires 0 <= w < 0x1_0000
    ensures w == w / 0x1000 * 4096 + w / 0x100 % 0x10 * 256 + w / 0x10 % 0x10 * 16 + w % 0x10
  {
    assert w == w / 0x10 * 16 + w % 0x10;
    var q := w / 0x10;
    assert q == q / 0x10 * 16 + q % 0x10;
    assert q / 0x10 == w / 0x100;
    var r := w / 0x100;
    assert r == r / 0x10 * 16 + r % 0x10;
    assert r / 0x10 == w / 0x1000;
  }

  /** The opcode written with the four given nibbles, by place value:
      the layout that the decoder takes apart. */
  function Encode(n: Nibbles): (w: Word)
    requires WellFormed(n)
  {
    (n.c as int * 4096 + n.x as int * 256 + n.y as int * 16 + n.d as int) as Word
  }

  /** Decoding takes apart exactly what encoding puts together. */
  lemma DecodeEncode(n: Nibbles)
    requires WellFormed(n)
    ensures Decode(Encode(n)) == n
  {
    var m := Decode(Encode(n));
    assert m.c as int * 4096 + m.x as int * 256 + m.y as int * 16 + m.d as int
        == n.c as int * 4096 + n.x as int * 256 + n.y as int * 16 + n.d as int;
    PlaceValueUnique(m, n);
  }

  /** Encoding the decoded nibbles gives the opcode back. */
  lemma EncodeDecode(op: Word)
    ensures Encode(Decode(op)) == op
  {
  }

  /** Two well-formed nibble tuples with the same place value are equal. */
  lemma PlaceValueUnique(m: Nibbles, n: Nibbles)
    requires WellFormed(m) && WellFormed(n)
    requires m.c as int * 4096 + m.x as int * 256 + m.y as int * 16 + m.d as int
          == n.c as int * 4096 + n.x as int * 256 + n.y as int * 16 + n.d as int
    ensures m == n
  {
    Digits(m);
    Digits(n);
  }

  /** The hex digits of a place-value sum of nibbles are those nibbles. */
  lemma Digits(n: Nibbles)
    requires WellFormed(n)
    ensures var v := n.c as int * 4096 + n.x as int * 256 + n.y as int * 16 + n.d as int;
            v / 0x1000 == n.c as int && v / 0x100 % 0x10 == n.x as int &&
            v / 0x10 % 0x10 == n.y as int && v % 0x10 == n.d as int
  {
    var v := n.c as int * 4096 + n.x as int * 256 + n.y as int * 16 + n.d as int;
    var q1 := n.c as int * 256 + n.x as int * 16 + n.y as int;
    var q2 := n.c as int * 16 + n.x as int;
    assert v == q1 * 16 + n.d as int;
    assert v / 0x10 == q1 && v % 0x10 == n.d as int;
    assert q1 == q2 * 16 + n.y as int;
    assert q1 / 0x10 == q2 && q1 % 0x10 == n.y as int;
    assert v == q2 * 256 + (n.y as int * 16 + n.d as int);
    assert v / 0x100 == q2;
    assert q2 / 0x10 == n.c as int && q2 % 0x10 == n.x as int;
    assert v == n.c as int * 4096 + (n.x as int * 256 + n.y as int * 16 + n.d as int);
  }

  /** The class and first operand come from the high byte, the second operand
      and the sub-opcode from the low byte, high nibble first. */
  lemma DecodePack(hi: Byte, lo: Byte)
    ensures Decode(Pack(hi, lo)) == Nibbles(hi / 16, hi % 16, lo / 16, lo % 16)
  {
    var n := Nibbles(hi / 16, hi % 16, lo / 16, lo % 16);
    assert hi as int == n.c as int * 16 + n.x as int;
    assert lo as int == n.y as int * 16 + n.d as int;
    PlaceValueUnique(Decode(Pack(hi, lo)), n);
  }

  /** The worked examples of the decoder: 0x73EE and 0x8014 (ADD V0, V1). */
  lemma DecodeExamples()
    ensures Decode(0x73EE) == Nibbles(7, 3, 0xE, 0xE)
    ensures Decode(0x8014) == Nibbles(8, 0, 1, 4)
  {
  }

  /** What the dispatcher makes of a nibble tuple. */
  datatype Instruction =
    | Halt                          // (0, 0, 0, 0)
    | Add(x: Byte, y: Byte)           // (8, x, y, 4)
    | Unsupported                   // anything else: the `todo!` arm

  /** The dispatcher's match, arm by arm and in order. */
  function Classify(n: Nibbles): (i: Instruction)
    ensures i == Halt <==> n == Nibbles(0, 0, 0, 0)
    ensures i.Add? <==> n.c == 0x8 && n.d == 0x4
    ensures i.Add? ==> i.x == n.x && i.y == n.y
    // the operands of a decoded addition are valid register indices
    ensures WellFormed(n) && i.Add? ==> IsNibble(i.x) && IsNibble(i.y)
  {
    if n == Nibbles(0, 0, 0, 0) then Halt
    else if n.c == 0x8 && n.d == 0x4 then Add(n.x, n.y)
    else Unsupported
  }

  /** Matching on the nibble tuple agrees with matching on the raw opcode:
      only the word 0x0000 halts, exactly the words 0x8xy4 add, with the
      operands taken from bits 11-8 and 7-4, and every other word is
      unsupported. */
  lemma ClassifyWord(op: Word)
    ensures Classify(Decode(op)) == Halt <==> op == 0
    ensures Classify(Decode(op)).Add? <==> op / 0x1000 == 0x8 && op % 0x10 == 0x4
    ensures Classify(Decode(op)).Add? ==>
              Classify(Decode(op)).x as int == (op as int / 256) % 16 &&
              Classify(Decode(op)).y as int == (op as int / 16) % 16
    ensures Classify(Decode(op)) == Unsupported <==>
              op != 0 && !(op / 0x1000 == 0x8 && op % 0x10 == 0x4)
  {
    var n := Decode(op);
    if op == 0 {
      PlaceValueUnique(n, Nibbles(0, 0, 0, 0));
    }
  }
}
