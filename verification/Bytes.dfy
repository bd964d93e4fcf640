/** Bytes, big-endian cells and NUL-terminated strings in a memory image. */
module Bytes {

  type Byte = b: int | 0 <= b < 256

  datatype Option<+T> = None | Some(value: T)

  /** How a piece of kernel code can end: normally, in a Rust panic, or with a
      raw-pointer read outside the memory image it was given. */
  datatype Outcome<+T> = Ok(value: T) | Panic | Fault {
    predicate IsFailure() {
      !Ok?
    }

    function PropagateFailure<U>(): Outcome<U>
      requires IsFailure()
    {
      if Panic? then Panic else Fault
    }

    function Extract(): T
      requires !IsFailure()
    {
      value
    }
  }

  const U32_LIMIT: nat := 0x1_0000_0000

  function Pow256(n: nat): (p: nat)
    ensures p > 0
  {
    if n == 0 then 1 else 256 * Pow256(n - 1)
  }

  /** The unsigned value of a byte string, most significant byte first. */
  function BigEndian(bs: seq<Byte>): (v: nat)
    ensures v < Pow256(|bs|)
  {
    if bs == [] then 0 else 256 * BigEndian(bs[..|bs| - 1]) + bs[|bs| - 1]
  }

  /** The low `n` bytes of `w`, most significant first. */
  function BytesOf(w: nat, n: nat): (bs: seq<Byte>)
    ensures |bs| == n
  {
    if n == 0 then [] else BytesOf(w / 256, n - 1) + [w % 256]
  }

  lemma {:induction false} BigEndianRoundTrip(w: nat, n: nat)
    requires w < Pow256(n)
    ensures BigEndian(BytesOf(w, n)) == w
  {
    if n > 0 {
      BigEndianRoundTrip(w / 256, n - 1);
      assert BytesOf(w, n)[..n - 1] == BytesOf(w / 256, n - 1);
    }
  }

  /** A cell is a 32-bit big-endian value. */
  function CellBytes(w: nat): (bs: seq<Byte>)
    requires w < U32_LIMIT
    ensures |bs| == 4
  {
    BytesOf(w, 4)
  }

  function ReadCell(mem: seq<Byte>, at: nat): (w: nat)
    requires at + 4 <= |mem|
    ensures w < U32_LIMIT
  {
    assert Pow256(4) == 256 * Pow256(3) && Pow256(3) == 256 * Pow256(2) && Pow256(2) == 256 * Pow256(1);
    BigEndian(mem[at..at + 4])
  }

  /** read_be_u32: the first byte is the most significant. */
  lemma CellIsBigEndian(mem: seq<Byte>, at: nat)
    requires at + 4 <= |mem|
    ensures ReadCell(mem, at) ==
      0x100_0000 * (mem[at] as int) + 0x1_0000 * (mem[at + 1] as int)
      + 0x100 * (mem[at + 2] as int) + mem[at + 3] as int
  {
    var bs := mem[at..at + 4];
    assert bs[..3][..2][..1] == [bs[0]] && bs[..3][..2] == bs[..2] && bs[..2][..1] == bs[..1];
    assert BigEndian(bs[..1]) == 256 * BigEndian(bs[..1][..0]) + bs[0];
    assert BigEndian(bs[..2]) == 256 * BigEndian(bs[..2][..1]) + bs[1];
    assert BigEndian(bs[..3]) == 256 * BigEndian(bs[..3][..2]) + bs[2];
  }

  function TryReadCell(mem: seq<Byte>, at: nat): Outcome<nat> {
    if at + 4 <= |mem| then Ok(ReadCell(mem, at)) else Fault
  }

  /** A cell read where a cell was written gives it back. */
  lemma ReadCellAt(mem: seq<Byte>, at: nat, w: nat)
    requires w < U32_LIMIT && HasAt(mem, at, CellBytes(w))
    ensures at + 4 <= |mem| && ReadCell(mem, at) == w
  {
    HasAtIsSlice(mem, at, CellBytes(w));
    assert Pow256(4) == 256 * Pow256(3) && Pow256(3) == 256 * Pow256(2) && Pow256(2) == 256 * Pow256(1);
    BigEndianRoundTrip(w, 4);
  }

  /** `mem` holds `bs` at `at`. */
  ghost predicate HasAt(mem: seq<Byte>, at: nat, bs: seq<Byte>)
    decreases |bs|
  {
    if bs == [] then at <= |mem|
    else at < |mem| && mem[at] == bs[0] && HasAt(mem, at + 1, bs[1..])
  }

  lemma {:induction false} HasAtIsSlice(mem: seq<Byte>, at: nat, bs: seq<Byte>)
    ensures HasAt(mem, at, bs) <==> at + |bs| <= |mem| && mem[at..at + |bs|] == bs
    decreases |bs|
  {
    if bs != [] {
      HasAtIsSlice(mem, at + 1, bs[1..]);
      if at + |bs| <= |mem| {
        assert mem[at..at + |bs|] == [mem[at]] + mem[at + 1..at + 1 + |bs[1..]|];
        assert bs == [bs[0]] + bs[1..];
      }
    }
  }

  lemma {:induction false} HasAtConcat(mem: seq<Byte>, at: nat, a: seq<Byte>, b: seq<Byte>)
    ensures HasAt(mem, at, a + b) <==> HasAt(mem, at, a) && HasAt(mem, at + |a|, b)
    decreases |a|
  {
    if a == [] {
      assert a + b == b;
      HasAtIsSlice(mem, at, b);
    } else {
      HasAtConcat(mem, at + 1, a[1..], b);
      assert (a + b)[0] == a[0] && (a + b)[1..] == a[1..] + b;
    }
  }

  lemma HasAtSplit(mem: seq<Byte>, at: nat, a: seq<Byte>, b: seq<Byte>, c: seq<Byte>)
    requires HasAt(mem, at, a + b + c)
    ensures HasAt(mem, at, a) && HasAt(mem, at + |a|, b + c)
  {
    assert a + b + c == a + (b + c);
    HasAtConcat(mem, at, a, b + c);
  }

  lemma HasAtThree(mem: seq<Byte>, at: nat, a: seq<Byte>, b: seq<Byte>, c: seq<Byte>)
    requires HasAt(mem, at, a + (b + c))
    ensures HasAt(mem, at, a) && HasAt(mem, at + |a|, b) && HasAt(mem, at + |a| + |b|, c)
  {
    HasAtConcat(mem, at, a, b + c);
    HasAtConcat(mem, at + |a|, b, c);
  }

  lemma CellThen(mem: seq<Byte>, at: nat, w: nat, rest: seq<Byte>)
    requires w < U32_LIMIT && HasAt(mem, at, CellBytes(w) + rest)
    ensures at + 4 <= |mem| && ReadCell(mem, at) == w && HasAt(mem, at + 4, rest)
  {
    HasAtConcat(mem, at, CellBytes(w), rest);
    ReadCellAt(mem, at, w);
  }

  /** The next multiple of four. */
  function AlignUp(n: nat): (r: nat)
    ensures r % 4 == 0 && n <= r < n + 4
  {
    (n + 3) / 4 * 4
  }

  predicate NulFree(s: seq<Byte>) {
    forall i :: 0 <= i < |s| ==> s[i] != 0
  }

  /** Length of the NUL-terminated string starting at `at`, if it is terminated inside `mem`. */
  function StringLength(mem: seq<Byte>, at: nat): (r: Option<nat>)
    ensures r.Some? ==> at + r.value < |mem|
    decreases if at < |mem| then |mem| - at else 0
  {
    if at >= |mem| then None
    else if mem[at] == 0 then Some(0)
    else
      match StringLength(mem, at + 1)
      case None => None
      case Some(n) => Some(n + 1)
  }

  lemma {:induction false} StringLengthIsFirstNul(mem: seq<Byte>, at: nat)
    ensures match StringLength(mem, at)
      case Some(n) => mem[at + n] == 0 && forall i :: at <= i < at + n ==> mem[i] != 0
      case None => forall i :: at <= i < |mem| ==> mem[i] != 0
    decreases if at < |mem| then |mem| - at else 0
  {
    if at < |mem| && mem[at] != 0 {
      StringLengthIsFirstNul(mem, at + 1);
    }
  }

  /** A NUL-free name followed by a NUL is found with exactly its length. */
  lemma {:induction false} StringLengthAt(mem: seq<Byte>, at: nat, name: seq<Byte>)
    requires NulFree(name)
    requires at + |name| < |mem| && mem[at..at + |name|] == name && mem[at + |name|] == 0
    ensures StringLength(mem, at) == Some(|name|)
    decreases |name|
  {
    if name != [] {
      assert mem[at] == mem[at..at + |name|][0];
      assert mem[at + 1..at + 1 + |name[1..]|] == mem[at..at + |name|][1..];
      StringLengthAt(mem, at + 1, name[1..]);
    }
  }

  lemma TerminatedAt(mem: seq<Byte>, at: nat, name: seq<Byte>)
    requires NulFree(name) && HasAt(mem, at, name + [0])
    ensures StringLength(mem, at) == Some(|name|)
    ensures at + |name| < |mem| && mem[at..at + |name|] == name
  {
    HasAtConcat(mem, at, name, [0]);
    HasAtIsSlice(mem, at, name);
    HasAtIsSlice(mem, at + |name|, [0]);
    assert mem[at + |name|] == mem[at + |name|..at + |name| + 1][0];
    StringLengthAt(mem, at, name);
  }

  /** The byte-by-byte scan the kernel does for node and property names. */
  method ScanString(mem: seq<Byte>, at: nat) returns (r: Option<nat>)
    ensures r == StringLength(mem, at)
  {
    var n := 0;
    while at + n < |mem| && mem[at + n] != 0
      invariant n == 0 || at + n <= |mem|
      invariant forall i :: at <= i < at + n ==> mem[i] != 0
      decreases |mem| - (at + n)
    {
      n := n + 1;
    }
    StringLengthIsFirstNul(mem, at);
    if at + n < |mem| {
      r := Some(n);
    } else {
      r := None;
    }
  }
}
