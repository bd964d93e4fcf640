/** The UART receive buffer: a circular buffer that keeps one slot free. */
module RingBuffer {
  import opened Bytes

  const SIZE: nat := 256

  /** The bytes held, oldest first: from `tail` up to but not including `head`. */
  function Contents(buf: seq<Byte>, head: nat, tail: nat): (q: seq<Byte>)
    requires |buf| == SIZE && head < SIZE && tail < SIZE
    ensures |q| < SIZE
  {
    if tail <= head then buf[tail..head] else buf[tail..] + buf[..head]
  }

  function Next(i: nat): (n: nat)
    requires i < SIZE
    ensures n < SIZE
  {
    (i + 1) % SIZE
  }

  lemma Occupancy(buf: seq<Byte>, head: nat, tail: nat)
    requires |buf| == SIZE && head < SIZE && tail < SIZE
    ensures Next(head) == tail <==> |Contents(buf, head, tail)| == 255
    ensures head == tail <==> Contents(buf, head, tail) == []
    ensures head != tail ==> Contents(buf, head, tail)[0] == buf[tail]
  {
  }

  /** Writing the free slot at `head` changes nothing until `head` moves. */
  lemma WriteFree(buf: seq<Byte>, head: nat, tail: nat, b: Byte)
    requires |buf| == SIZE && head < SIZE && tail < SIZE
    ensures Contents(buf[head := b], head, tail) == Contents(buf, head, tail)
  {
  }

  lemma AdvanceHead(buf: seq<Byte>, head: nat, tail: nat)
    requires |buf| == SIZE && head < SIZE && tail < SIZE && Next(head) != tail
    ensures Contents(buf, Next(head), tail) == Contents(buf, head, tail) + [buf[head]]
  {
  }

  lemma AdvanceTail(buf: seq<Byte>, head: nat, tail: nat)
    requires |buf| == SIZE && head < SIZE && tail < SIZE && head != tail
    ensures Contents(buf, head, Next(tail)) == Contents(buf, head, tail)[1..]
  {
  }

  class UartBuffer {
    const buffer: array<Byte>
    var head: nat
    var tail: nat

    ghost predicate Valid()
      reads this
    {
      buffer.Length == SIZE && head < SIZE && tail < SIZE
    }

    ghost function Queue(): seq<Byte>
      requires Valid()
      reads this, buffer
    {
      Contents(buffer[..], head, tail)
    }

    constructor ()
      ensures Valid() && Queue() == [] && fresh(buffer)
    {
      buffer := new Byte[SIZE](_ => 0);
      head, tail := 0, 0;
    }

    /** Refuses exactly when 255 bytes are held. */
    method Push(b: Byte) returns (ok: bool)
      requires Valid()
      modifies this`head, buffer
      ensures Valid()
      ensures ok <==> |old(Queue())| < 255
      ensures Queue() == if ok then old(Queue()) + [b] else old(Queue())
    {
      Occupancy(buffer[..], head, tail);
      var next := (head + 1) % SIZE;
      if next == tail {
        return false;
      }
      WriteFree(buffer[..], head, tail, b);
      AdvanceHead(buffer[..][head := b], head, tail);
      buffer[head] := b;
      head := next;
      ok := true;
    }

    /** None exactly when no byte is held, else the oldest byte. */
    method Pop() returns (r: Option<Byte>)
      requires Valid()
      modifies this`tail
      ensures Valid()
      ensures r.None? <==> old(Queue()) == []
      ensures r.Some? ==> r.value == old(Queue())[0] && Queue() == old(Queue())[1..]
      ensures r.None? ==> Queue() == []
    {
      Occupancy(buffer[..], head, tail);
      if head == tail {
        return None;
      }
      AdvanceTail(buffer[..], head, tail);
      r := Some(buffer[tail]);
      tail := (tail + 1) % SIZE;
    }
  }
}
