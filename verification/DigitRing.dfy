/** The ring of reported digits with its one-bit indication handshake
    (kernel/capidtmf.c:472-515). */
module DigitRing {
  import opened Words

  const SIZE := 32

  /** At most 31 digits fit; a digit that does not fit is dropped. */
  function Push(q: seq<Byte>, digit: Byte): seq<Byte> {
    if |q| < SIZE - 1 then q + [digit] else q
  }

  function PushAll(q: seq<Byte>, digits: seq<Byte>): (r: seq<Byte>)
    requires |q| < SIZE
    ensures |r| < SIZE
    decreases |digits|
  {
    if digits == [] then q else Push(PushAll(q, digits[..|digits| - 1]), digits[|digits| - 1])
  }

  /** What the ring holds is the old content and then the new digits, cut off
      where the ring is full: first come, first kept. */
  lemma {:induction false} PushAllPrefix(q: seq<Byte>, digits: seq<Byte>)
    requires |q| < SIZE
    ensures var all := q + digits;
      PushAll(q, digits) == if |all| < SIZE then all else all[..SIZE - 1]
    decreases |digits|
  {
    if digits == [] {
      assert q + digits == q;
    } else {
      var m := |digits| - 1;
      PushAllPrefix(q, digits[..m]);
      assert q + digits == (q + digits[..m]) + [digits[m]];
    }
  }

  lemma {:induction false} PushAllConcat(q: seq<Byte>, a: seq<Byte>, b: seq<Byte>)
    requires |q| < SIZE
    ensures PushAll(q, a + b) == PushAll(PushAll(q, a), b)
    decreases |b|
  {
    if b == [] {
      assert a + b == a;
    } else {
      var m := |b| - 1;
      assert (a + b)[..|a + b| - 1] == a + b[..m];
      PushAllConcat(q, a, b[..m]);
    }
  }

  lemma PushNone(q: seq<Byte>)
    requires |q| < SIZE
    ensures PushAll(q, []) == q
  {
  }

  /** The unread digits between the two positions, oldest first. */
  function Content(buffer: seq<Byte>, read: nat, write: nat): (q: seq<Byte>)
    requires |buffer| == SIZE && read < SIZE && write < SIZE
    ensures |q| < SIZE && (q == [] <==> read == write)
  {
    if read <= write then buffer[read..write] else buffer[read..] + buffer[..write]
  }

  function Next(pos: nat): nat
    requires pos < SIZE
  {
    if pos == SIZE - 1 then 0 else pos + 1
  }

  lemma ContentStep(buffer: seq<Byte>, read: nat, write: nat)
    requires |buffer| == SIZE && read < SIZE && write < SIZE && read != write
    ensures Content(buffer, read, write) == [buffer[read]] + Content(buffer, Next(read), write)
  {
  }

  class Ring {
    const buffer: array<Byte>
    var writePos: nat
    var readPos: nat
    var indication: bool      // the one bit of indication_state that is used
    var ack: bool

    ghost predicate Valid()
      reads this, buffer
    {
      && buffer.Length == SIZE && writePos < SIZE && readPos < SIZE
      && (indication != ack <==> Unread() != [])
    }

    ghost function Unread(): (q: seq<Byte>)
      requires buffer.Length == SIZE && writePos < SIZE && readPos < SIZE
      reads this, buffer
      ensures |q| < SIZE
    {
      Content(buffer[..], readPos, writePos)
    }

    constructor ()
      ensures Valid() && Unread() == [] && fresh(buffer)
    {
      buffer := new Byte[SIZE];
      writePos, readPos, indication, ack := 0, 0, false, false;
    }

    /** The part of `capidtmf_recv_init` that empties the ring. */
    method Reset()
      requires Valid()
      modifies this
      ensures Valid() && Unread() == []
    {
      writePos, readPos, indication, ack := 0, 0, false, false;
    }

    method IndicateDigit(digit: Byte)
      requires Valid()
      modifies this, buffer
      ensures Valid() && Unread() == Push(old(Unread()), digit)
    {
      var i := if writePos == SIZE - 1 then 0 else writePos + 1;
      if i != readPos {
        buffer[writePos] := digit;
        writePos := i;
        indication := !ack;
      }
    }

    /** Hands over all unread digits and acknowledges the indication. */
    method Indication() returns (digits: seq<Byte>)
      requires Valid()
      modifies this
      ensures Valid() && Unread() == [] && digits == old(Unread())
      ensures indication == old(indication) && ack == indication
    {
      hide Content;
      var flags := indication != ack;
      ack := ack != flags;
      digits := [];
      if writePos != readPos {
        var k: nat, j: nat := writePos, readPos;
        ghost var all := Unread();
        assert all == digits + Content(buffer[..], j, k);
        while true
          invariant j < SIZE && j != k
          invariant all == digits + Content(buffer[..], j, k)
          modifies {}
          decreases |all| - |digits|
        {
          ContentStep(buffer[..], j, k);
          digits := digits + [buffer[j]];
          j := if j == SIZE - 1 then 0 else j + 1;
          if j == k {
            break;
          }
        }
        readPos := k;
        return;
      }
      ack := ack != flags;
    }
  }
}
