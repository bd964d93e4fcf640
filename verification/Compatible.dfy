/** Matching a "compatible" value: NUL-separated strings. */
module Compatible {
  import opened Bytes
  import opened DeviceTable

  /** The end of the segment starting at `at`: the next NUL, or the end of the value. */
  function SegmentEnd(v: seq<Byte>, at: nat): (e: nat)
    requires at <= |v|
    ensures at <= e <= |v| && (e < |v| ==> v[e] == 0)
    ensures forall k :: at <= k < e ==> v[k] != 0
    decreases |v| - at
  {
    if at == |v| || v[at] == 0 then at else SegmentEnd(v, at + 1)
  }

  /** A segment starts at the beginning of the value and after each NUL inside it. */
  predicate SegmentStart(v: seq<Byte>, i: nat) {
    i < |v| && (i == 0 || v[i - 1] == 0)
  }

  function Segment(v: seq<Byte>, i: nat): seq<Byte>
    requires i <= |v|
  {
    v[i..SegmentEnd(v, i)]
  }

  /** Some maximal NUL-free segment that starts inside the value is the target. */
  ghost predicate Matches(v: seq<Byte>, target: string) {
    exists i :: SegmentStart(v, i) && TextIs(Segment(v, i), target)
  }

  /** compatible_matches on the value's bytes. */
  method CompatibleMatches(v: seq<Byte>, target: string) returns (r: bool)
    ensures r <==> Matches(v, target)
  {
    var offset := 0;
    while offset < |v|
      invariant offset <= |v| ==> offset == 0 || v[offset - 1] == 0
      invariant offset <= |v| + 1
      invariant forall i :: 0 <= i < offset && SegmentStart(v, i) ==> !TextIs(Segment(v, i), target)
      decreases |v| + 1 - offset
    {
      var len := 0;
      while offset + len < |v| && v[offset + len] != 0
        invariant offset + len <= |v|
        invariant SegmentEnd(v, offset) == SegmentEnd(v, offset + len)
        invariant forall k :: offset <= k < offset + len ==> v[k] != 0
        decreases |v| - (offset + len)
      {
        len := len + 1;
      }
      if TextIs(v[offset..offset + len], target) {
        assert SegmentStart(v, offset);
        return true;
      }
      offset := offset + len + 1;
    }
    r := false;
  }

  // ---------- Lists of strings ----------

  /** The strings of a list, each followed by a NUL. */
  function Join(list: seq<seq<Byte>>): seq<Byte> {
    if list == [] then [] else list[0] + [0] + Join(list[1..])
  }

  lemma SegmentEndAt(v: seq<Byte>, at: nat, e: nat)
    requires at <= e < |v| && v[e] == 0 && forall k :: at <= k < e ==> v[k] != 0
    ensures SegmentEnd(v, at) == e
  {
  }

  /** Segments after a prefix that ends in a NUL are the segments of the rest. */
  lemma {:induction false} SegmentEndShift(p: seq<Byte>, v: seq<Byte>, i: nat)
    requires i <= |v|
    ensures SegmentEnd(p + v, |p| + i) == |p| + SegmentEnd(v, i)
    decreases |v| - i
  {
    if i < |v| && v[i] != 0 {
      assert (p + v)[|p| + i] == v[i];
      SegmentEndShift(p, v, i + 1);
    } else if i < |v| {
      assert (p + v)[|p| + i] == v[i];
    }
  }

  lemma HeadSegment(s: seq<Byte>, v: seq<Byte>, i: nat)
    requires NulFree(s) && i <= |s|
    ensures var w := s + [0] + v;
      SegmentStart(w, i) <==> i == 0 && Segment(w, 0) == s
  {
    var w := s + [0] + v;
    assert forall k :: 0 <= k < |s| ==> w[k] == s[k];
    SegmentEndAt(w, 0, |s|);
    assert w[0..|s|] == s;
  }

  lemma TailSegment(s: seq<Byte>, v: seq<Byte>, i: nat)
    requires i < |v|
    ensures var w := s + [0] + v;
      (SegmentStart(w, |s| + 1 + i) <==> SegmentStart(v, i)) && Segment(w, |s| + 1 + i) == Segment(v, i)
  {
    var p := s + [0];
    var w := p + v;
    SegmentEndShift(p, v, i);
    var e := SegmentEnd(v, i);
    assert w[|p| + i..|p| + e] == v[i..e];
    assert w[|p| + i - 1] == if i == 0 then 0 else v[i - 1];
  }

  lemma MatchesCons(s: seq<Byte>, v: seq<Byte>, target: string)
    requires NulFree(s)
    ensures Matches(s + [0] + v, target) <==> TextIs(s, target) || Matches(v, target)
  {
    hide SegmentEnd, Segment, TextIs;
    var w := s + [0] + v;
    HeadSegment(s, v, 0);
    if Matches(v, target) {
      var i: nat :| SegmentStart(v, i) && TextIs(Segment(v, i), target);
      TailSegment(s, v, i);
      assert SegmentStart(w, |s| + 1 + i) && TextIs(Segment(w, |s| + 1 + i), target);
    }
    if Matches(w, target) {
      var i: nat :| SegmentStart(w, i) && TextIs(Segment(w, i), target);
      if i <= |s| {
        HeadSegment(s, v, i);
      } else {
        TailSegment(s, v, i - |s| - 1);
      }
    }
  }

  /** On a well-formed list of strings, matching is membership. */
  lemma {:induction false} MatchesIsMembership(list: seq<seq<Byte>>, target: string)
    requires forall j :: 0 <= j < |list| ==> NulFree(list[j])
    ensures Matches(Join(list), target) <==> exists j :: 0 <= j < |list| && TextIs(list[j], target)
  {
    if list != [] {
      MatchesIsMembership(list[1..], target);
      MatchesCons(list[0], Join(list[1..]), target);
      if exists j :: 0 <= j < |list| && TextIs(list[j], target) {
        var j :| 0 <= j < |list| && TextIs(list[j], target);
        if j > 0 {
          assert list[1..][j - 1] == list[j];
        }
      }
    }
  }

  lemma MatchesOne(s: seq<Byte>, target: string)
    requires NulFree(s)
    ensures Matches(s, target) <==> s != [] && TextIs(s, target)
  {
    hide TextIs, SegmentEnd;
    assert SegmentEnd(s, 0) == |s|;
    assert Segment(s, 0) == s;
    if s != [] {
      assert SegmentStart(s, 0);
    }
    assert forall i :: SegmentStart(s, i) ==> i == 0;
  }

  /** On any bytes at all, that is, a list of strings and then some bytes without
      a NUL: those bytes count as a string too, unless there are none. */
  lemma {:induction false} MatchesUnterminated(list: seq<seq<Byte>>, last: seq<Byte>, target: string)
    requires NulFree(last) && forall j :: 0 <= j < |list| ==> NulFree(list[j])
    ensures Matches(Join(list) + last, target) <==>
      (exists j :: 0 <= j < |list| && TextIs(list[j], target)) || (last != [] && TextIs(last, target))
  {
    hide TextIs, Matches;
    if list == [] {
      assert Join(list) + last == last;
      MatchesOne(last, target);
    } else {
      var rest := Join(list[1..]) + last;
      MatchesUnterminated(list[1..], last, target);
      assert Join(list) + last == list[0] + [0] + rest;
      MatchesCons(list[0], rest, target);
      if exists j :: 0 <= j < |list| && TextIs(list[j], target) {
        var j :| 0 <= j < |list| && TextIs(list[j], target);
        assert j > 0 ==> list[1..][j - 1] == list[j];
      }
    }
  }

  /** A string's characters as bytes. */
  function Ascii(s: string): (bs: seq<Byte>)
    requires forall i :: 0 <= i < |s| ==> 0 < s[i] as int < 256
    ensures NulFree(bs) && TextIs(bs, s)
    decreases |s|
  {
    if s == "" then []
    else
      assert s == [s[0]] + s[1..];
      [s[0] as int] + Ascii(s[1..])
  }

  predicate AllAscii(list: seq<string>) {
    forall j, i :: 0 <= j < |list| && 0 <= i < |list[j]| ==> 0 < list[j][i] as int < 256
  }

  function AsciiList(list: seq<string>): (r: seq<seq<Byte>>)
    requires AllAscii(list)
    ensures |r| == |list|
  {
    seq(|list|, j requires 0 <= j < |list| => Ascii(list[j]))
  }

  lemma TextIsOneString(bs: seq<Byte>, s: string, s': string)
    requires TextIs(bs, s) && TextIs(bs, s')
    ensures s == s'
  {
    TextIsCharacters(bs, s);
    TextIsCharacters(bs, s');
  }

  /** compatible_matches on a list of strings: the target is one of them. */
  lemma MatchesIsIn(list: seq<string>, target: string)
    requires AllAscii(list)
    ensures Matches(Join(AsciiList(list)), target) <==> target in list
  {
    hide TextIs, Matches, Join, Ascii;
    var bytes := AsciiList(list);
    MatchesIsMembership(bytes, target);
    forall j | 0 <= j < |list| ensures TextIs(bytes[j], target) <==> list[j] == target {
      if TextIs(bytes[j], target) {
        TextIsOneString(bytes[j], list[j], target);
      }
    }
  }
}
