/** C's machine integers as ranges of `int`: a value of one of these types is
    known not to have wrapped, so each assignment to one is an overflow proof. */
module Words {
  const TWO32 := 0x1_0000_0000

  type Byte = x: int | 0 <= x < 0x100
  type Word = x: int | 0 <= x < 0x1_0000
  type Dword = x: int | 0 <= x < 0x1_0000_0000
  type Int32 = x: int | -0x8000_0000 <= x < 0x8000_0000

  function WordBytes(x: Word): (b: seq<Byte>)
    ensures |b| == 2
  {
    [x % 0x100, x / 0x100]
  }

  function WordOf(b: seq<Byte>): (x: Word)
    requires |b| == 2
  {
    b[0] as int + 0x100 * (b[1] as int)
  }

  lemma WordRoundTrip(x: Word)
    ensures WordOf(WordBytes(x)) == x
  {
  }

  /** Little-endian, as the driver's host stores it. */
  function DwordBytes(x: Dword): (b: seq<Byte>)
    ensures |b| == 4
  {
    [x % 0x100, x / 0x100 % 0x100, x / 0x1_0000 % 0x100, x / 0x100_0000]
  }

  function DwordOf(b: seq<Byte>): (x: Dword)
    requires |b| == 4
  {
    Assemble(b[0], b[1], b[2], b[3])
  }

  function Assemble(b0: int, b1: int, b2: int, b3: int): (x: int)
    ensures 0 <= b0 < 0x100 && 0 <= b1 < 0x100 && 0 <= b2 < 0x100 && 0 <= b3 < 0x100 ==> 0 <= x < 0x1_0000_0000
  {
    b0 + 0x100 * b1 + 0x1_0000 * b2 + 0x100_0000 * b3
  }

  lemma DwordRoundTrip(x: Dword)
    ensures DwordOf(DwordBytes(x)) == x
  {
    var y := x / 0x100;
    var z := y / 0x100;
    assert x / 0x1_0000 == z && x / 0x100_0000 == z / 0x100;
    assert x == 0x100 * y + x % 0x100 && y == 0x100 * z + y % 0x100 && z == 0x100 * (z / 0x100) + z % 0x100;
  }
}
