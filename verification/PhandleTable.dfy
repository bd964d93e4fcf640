/** The phandle table of an encoded tree, in terms of the bytes of its
    properties, and lookups in it. */
module PhandleTable {
  import opened Bytes
  import opened DeviceTable
  import opened Fdt
  import opened FdtTree
  import opened FdtEncoding
  import opened TableMaps
  import opened Lookup
  import opened Readers

  /** A property named "phandle", by its bytes. */
  predicate NamedPhandle(p: TreeProp) {
    p.name == [112, 104, 97, 110, 100, 108, 101]
  }

  /** The first four bytes of a value, the first the most significant. */
  function FirstCell(v: seq<Byte>): nat
    requires |v| >= 4
  {
    0x100_0000 * (v[0] as int) + 0x1_0000 * (v[1] as int) + 0x100 * (v[2] as int) + v[3] as int
  }

  /** Every "phandle" property has at least the four bytes of a cell. */
  predicate CellPhandles(f: Forest) {
    forall i, k :: 0 <= i < Size(f) && 0 <= k < |NodeAt(f, i).props| ==> HoldsCell(NodeAt(f, i).props[k])
  }

  predicate HoldsCell(p: TreeProp) {
    NamedPhandle(p) ==> |p.value| >= 4
  }

  /** The entries of one node: a pair for each of its "phandle" properties. */
  function NodePhandles(props: seq<TreeProp>, node: nat): seq<PhandleEntry> {
    if props == [] then []
    else
      (if NamedPhandle(props[0]) && |props[0].value| >= 4
       then [PhandleEntry(FirstCell(props[0].value), node)] else [])
      + NodePhandles(props[1..], node)
  }

  /** The entries of the first `n` nodes in preorder; node `i` is device `base + i`. */
  function TreePhandles(f: Forest, base: nat, n: nat): seq<PhandleEntry>
    requires n <= Size(f)
  {
    if n == 0 then []
    else TreePhandles(f, base, n - 1) + NodePhandles(NodeAt(f, n - 1).props, base + n - 1)
  }

  // ---------- What the parser records ----------

  lemma PropPhandleIs(p: TreeProp, node: nat)
    ensures PropPhandle(p, node) ==
      if NamedPhandle(p) && |p.value| >= 4 then [PhandleEntry(FirstCell(p.value), node)] else []
    ensures PhandleIsCell(p) <==> HoldsCell(p)
  {
    hide TextIs, IsPhandle, ReadCell;
    PhandleBytes(p.name);
    if |p.value| >= 4 {
      CellIsBigEndian(p.value, 0);
    }
  }

  lemma {:induction false} PropPhandlesAre(props: seq<TreeProp>, node: nat)
    ensures PropPhandles(props, node) == NodePhandles(props, node)
  {
    hide PropPhandle, NamedPhandle, FirstCell;
    if props != [] {
      PropPhandleIs(props[0], node);
      PropPhandlesAre(props[1..], node);
    }
  }

  lemma NodeAtKids(f: Forest, i: nat)
    requires f.Node? && i < Size(f.kids)
    ensures 1 + i < Size(f) && NodeAt(f, 1 + i) == NodeAt(f.kids, i)
  {
  }

  lemma NodeAtNext(f: Forest, i: nat, k: nat)
    requires f.Node? && i < Size(f.next) && k == 1 + Size(f.kids) + i
    ensures k < Size(f) && NodeAt(f, k) == NodeAt(f.next, i)
  {
  }

  lemma {:induction false} KidsPhandles(f: Forest, base: nat, n: nat)
    requires f.Node? && n <= Size(f.kids)
    ensures 1 + n <= Size(f)
    ensures TreePhandles(f, base, 1 + n) == NodePhandles(f.props, base) + TreePhandles(f.kids, base + 1, n)
    decreases n
  {
    hide NodePhandles, NodeAt;
    if n == 0 {
      RecordedIsLast(f);
      assert TreePhandles(f, base, 1) == TreePhandles(f, base, 0) + NodePhandles(NodeAt(f, 0).props, base);
    } else {
      KidsPhandles(f, base, n - 1);
      NodeAtKids(f, n - 1);
    }
  }

  lemma {:induction false} NextPhandles(f: Forest, base: nat, n: nat, m: nat)
    requires f.Node? && n <= Size(f.next) && m == 1 + Size(f.kids) + n
    ensures m <= Size(f)
    ensures TreePhandles(f, base, m) ==
      TreePhandles(f, base, 1 + Size(f.kids)) + TreePhandles(f.next, base + 1 + Size(f.kids), n)
    decreases n
  {
    hide NodePhandles, NodeAt;
    if n > 0 {
      NextPhandles(f, base, n - 1, m - 1);
      NodeAtNext(f, n - 1, m - 1);
    }
  }

  /** The tree's phandles are those of its nodes one after the other. */
  lemma {:induction false} PhandlesInPreorder(f: Forest, base: nat)
    ensures Phandles(f, base) == TreePhandles(f, base, Size(f))
    decreases f
  {
    hide NodePhandles, NodeAt, TreePhandles, PropPhandles;
    match f
    case Leafless => NoPhandles(base);
    case Node(_, props, kids, next) =>
      PropPhandlesAre(props, base);
      PhandlesInPreorder(kids, base + 1);
      PhandlesInPreorder(next, base + 1 + Size(kids));
      KidsPhandles(f, base, Size(kids));
      NextPhandles(f, base, Size(next), Size(f));
  }

  lemma NoPhandles(base: nat)
    ensures TreePhandles(Leafless, base, 0) == []
  {
  }

  lemma {:induction false} CellsOfTree(f: Forest)
    ensures PhandlesAreCells(f) <==> CellPhandles(f)
    decreases f
  {
    hide NodeAt, HoldsCell, PhandleIsCell;
    if f.Node? {
      CellsOfTree(f.kids);
      CellsOfTree(f.next);
      CellsSplit(f);
      forall k | 0 <= k < |f.props| ensures PhandleIsCell(f.props[k]) <==> HoldsCell(f.props[k]) {
        PropPhandleIs(f.props[k], 0);
      }
    }
  }

  lemma CellsSplit(f: Forest)
    requires f.Node?
    ensures CellPhandles(f) <==>
      (forall k :: 0 <= k < |f.props| ==> HoldsCell(f.props[k])) && CellPhandles(f.kids) && CellPhandles(f.next)
  {
    hide NodeAt, HoldsCell;
    RecordedIsLast(f);
    forall i | 0 <= i < Size(f.kids) ensures NodeAt(f.kids, i) == NodeAt(f, 1 + i) {
      NodeAtKids(f, i);
    }
    forall i | 0 <= i < Size(f.next) ensures NodeAt(f.next, i) == NodeAt(f, 1 + Size(f.kids) + i) {
      NodeAtNext(f, i, 1 + Size(f.kids) + i);
    }
    if CellPhandles(f) {
      forall i, k | 0 <= i < Size(f.kids) && 0 <= k < |NodeAt(f.kids, i).props|
        ensures HoldsCell(NodeAt(f.kids, i).props[k]) {
        assert HoldsCell(NodeAt(f, 1 + i).props[k]);
      }
      forall i, k | 0 <= i < Size(f.next) && 0 <= k < |NodeAt(f.next, i).props|
        ensures HoldsCell(NodeAt(f.next, i).props[k]) {
        assert HoldsCell(NodeAt(f, 1 + Size(f.kids) + i).props[k]);
      }
    }
    if (forall k :: 0 <= k < |f.props| ==> HoldsCell(f.props[k])) && CellPhandles(f.kids) && CellPhandles(f.next) {
      forall i, k | 0 <= i < Size(f) && 0 <= k < |NodeAt(f, i).props| ensures HoldsCell(NodeAt(f, i).props[k]) {
        if 0 < i <= Size(f.kids) {
          assert NodeAt(f.kids, i - 1) == NodeAt(f, i);
        } else if i > Size(f.kids) {
          assert NodeAt(f.next, i - 1 - Size(f.kids)) == NodeAt(f, i);
        }
      }
    }
  }

  /** After an encoded tree is parsed from boot-time tables, the registered
      entries are exactly, in preorder and property order, the first cells of the
      properties named "phandle", each with its node's index. */
  lemma ParsedPhandles(blob: seq<Byte>, ws: seq<Item>, f: Forest, t: Tables<nat>)
    requires t.Valid() && t.deviceCount == 0 && t.phandleCount == 0
    requires IsBlob(blob, ws) && Meaning(ws) == Flatten(f) && CellPhandles(f) && Fits(f, 0, 0, 0)
    ensures Parsed(blob, t).Ok?
    ensures var t' := Parsed(blob, t).value.state.tables;
      t'.phandleCount <= |t'.phandles| && t'.phandles[..t'.phandleCount] == TreePhandles(f, 0, Size(f))
  {
    hide IsBlob, Parsed, Listing, Flatten, Meaning, PhandlesAreCells, CellPhandles, SlotsSuffice, TreePhandles;
    CellsOfTree(f);
    PhandlesInPreorder(f, 0);
    RoundTrip(blob, ws, f, t);
  }

  // ---------- Lookups in the recorded entries ----------

  /** A "phandle" property with this cell. */
  predicate HasCell(p: TreeProp, phandle: nat) {
    NamedPhandle(p) && |p.value| >= 4 && FirstCell(p.value) == phandle
  }

  ghost predicate HasPhandle(props: seq<TreeProp>, phandle: nat) {
    exists k :: 0 <= k < |props| && HasCell(props[k], phandle)
  }

  lemma HasPhandleCons(props: seq<TreeProp>, phandle: nat)
    requires props != []
    ensures HasPhandle(props, phandle) <==> HasCell(props[0], phandle) || HasPhandle(props[1..], phandle)
  {
    hide HasCell;
    if HasPhandle(props, phandle) {
      var k :| 0 <= k < |props| && HasCell(props[k], phandle);
      assert k > 0 ==> props[1..][k - 1] == props[k];
    }
  }

  lemma {:induction false} NodePhandlesMembers(props: seq<TreeProp>, node: nat, e: PhandleEntry)
    ensures e in NodePhandles(props, node) <==> e.device == node && HasPhandle(props, e.phandle)
  {
    hide HasPhandle, NamedPhandle, FirstCell;
    if props == [] {
      NoProps(e.phandle);
    } else {
      NodePhandlesMembers(props[1..], node, e);
      HasPhandleCons(props, e.phandle);
    }
  }

  lemma NoProps(phandle: nat)
    ensures !HasPhandle([], phandle)
  {
  }

  lemma {:induction false} TreePhandlesMembers(f: Forest, n: nat, e: PhandleEntry)
    requires n <= Size(f)
    ensures e in TreePhandles(f, 0, n) <==> e.device < n && HasPhandle(NodeAt(f, e.device).props, e.phandle)
  {
    hide HasPhandle, NodePhandles, NodeAt;
    if n > 0 {
      TreePhandlesMembers(f, n - 1, e);
      NodePhandlesMembers(NodeAt(f, n - 1).props, n - 1, e);
    }
  }

  ghost predicate Ordered(entries: seq<PhandleEntry>, limit: nat) {
    && (forall k :: 0 <= k < |entries| ==> entries[k].device < limit)
    && (forall j, k :: 0 <= j < k < |entries| ==> entries[j].device <= entries[k].device)
  }

  lemma OrderedAppend(a: seq<PhandleEntry>, b: seq<PhandleEntry>, node: nat)
    requires Ordered(a, node) && forall e :: e in b ==> e.device == node
    ensures Ordered(a + b, node + 1)
  {
    forall k | 0 <= k < |a + b| ensures (a + b)[k].device <= node && (k >= |a| ==> (a + b)[k].device == node) {
      assert k >= |a| ==> (a + b)[k] == b[k - |a|] && b[k - |a|] in b;
    }
  }

  lemma {:induction false} TreePhandlesOrdered(f: Forest, n: nat)
    requires n <= Size(f)
    ensures Ordered(TreePhandles(f, 0, n), n)
  {
    hide NodePhandles, NodeAt, Ordered;
    if n == 0 {
      NothingOrdered();
    } else {
      TreePhandlesOrdered(f, n - 1);
      var last := NodePhandles(NodeAt(f, n - 1).props, n - 1);
      forall e | e in last ensures e.device == n - 1 {
        NodePhandlesMembers(NodeAt(f, n - 1).props, n - 1, e);
      }
      OrderedAppend(TreePhandles(f, 0, n - 1), last, n - 1);
    }
  }

  lemma NothingOrdered()
    ensures Ordered([], 0)
  {
  }

  /** Node `i` is the first in preorder with that phandle. */
  ghost predicate FirstWithPhandle(f: Forest, i: nat, phandle: nat) {
    && i < Size(f) && HasPhandle(NodeAt(f, i).props, phandle)
    && forall j :: 0 <= j < i ==> !HasPhandle(NodeAt(f, j).props, phandle)
  }

  lemma FirstEntryIsFirstNode(f: Forest, entries: seq<PhandleEntry>, phandle: nat, k: nat)
    requires entries == TreePhandles(f, 0, Size(f)) && k < |entries| && entries[k].phandle == phandle
    requires forall j :: 0 <= j < k ==> entries[j].phandle != phandle
    ensures FirstWithPhandle(f, entries[k].device, phandle)
  {
    hide HasPhandle, NodeAt, TreePhandles;
    TreePhandlesMembers(f, Size(f), entries[k]);
    TreePhandlesOrdered(f, Size(f));
    forall j | 0 <= j < entries[k].device ensures !HasPhandle(NodeAt(f, j).props, phandle) {
      TreePhandlesMembers(f, Size(f), PhandleEntry(phandle, j));
    }
  }

  /** find_device_by_phandle on the tables of an encoded tree: the first node in
      preorder with that phandle, None when no node has it. */
  lemma ParsedPhandleLookup(blob: seq<Byte>, ws: seq<Item>, f: Forest, t: Tables<nat>, phandle: nat)
    requires t.Valid() && t.deviceCount == 0 && t.phandleCount == 0
    requires IsBlob(blob, ws) && Meaning(ws) == Flatten(f) && CellPhandles(f) && Fits(f, 0, 0, 0)
    ensures Parsed(blob, t).Ok?
    ensures match DeviceByPhandle(Parsed(blob, t).value.state.tables, phandle)
      case Some(i) => FirstWithPhandle(f, i, phandle)
      case None => forall i :: 0 <= i < Size(f) ==> !HasPhandle(NodeAt(f, i).props, phandle)
  {
    hide IsBlob, Parsed, Flatten, Meaning, CellPhandles, Fits, TreePhandles, HasPhandle, NodeAt, DeviceByPhandle;
    ParsedPhandles(blob, ws, f, t);
    var t' := Parsed(blob, t).value.state.tables;
    var entries, r := t'.phandles[..t'.phandleCount], DeviceByPhandle(t', phandle);
    DeviceByPhandleMeaning(t', phandle);
    if r.Some? {
      var k :| 0 <= k < t'.phandleCount && IsFirstEntry(t', phandle, k) && t'.phandles[k].device == r.value;
      FirstEntryIsFirstNode(f, entries, phandle, k);
    } else {
      forall i | 0 <= i < Size(f) ensures !HasPhandle(NodeAt(f, i).props, phandle) {
        TreePhandlesMembers(f, Size(f), PhandleEntry(phandle, i));
        assert PhandleEntry(phandle, i) !in entries;
      }
    }
  }
}
