/** A writer of device-tree blobs in the layout of chapter 5 of the Devicetree
    Specification: header, memory reservation block, structure block, strings
    block. It shows that every tree has a flattened form, so that the round trip
    applies to every tree. */
module FdtWriter {
  import opened Bytes
  import opened DeviceTable
  import opened Fdt
  import opened FdtTree
  import opened TableMaps
  import opened FdtEncoding

  predicate Writable(f: Forest) {
    match f
    case Leafless => true
    case Node(name, props, kids, next) =>
      && NulFree(name) && Writable(kids) && Writable(next)
      && forall i :: 0 <= i < |props| ==> NulFree(props[i].name) && |props[i].value| < U32_LIMIT
  }

  function PropStrings(props: seq<TreeProp>): seq<Byte> {
    if props == [] then [] else (props[0].name + [0]) + PropStrings(props[1..])
  }

  /** The strings block: every property name, in order, each with its NUL. */
  function Strings(f: Forest): seq<Byte> {
    match f
    case Leafless => []
    case Node(_, props, kids, next) => PropStrings(props) + (Strings(kids) + Strings(next))
  }

  function PropItems(props: seq<TreeProp>, nameoff: nat): seq<Item> {
    if props == [] then []
    else [PropItem(nameoff, props[0].name, props[0].value)] + PropItems(props[1..], nameoff + |props[0].name| + 1)
  }

  function KidsOffset(f: Forest, nameoff: nat): nat
    requires f.Node?
  {
    nameoff + |PropStrings(f.props)|
  }

  function NextOffset(f: Forest, nameoff: nat): nat
    requires f.Node?
  {
    KidsOffset(f, nameoff) + |Strings(f.kids)|
  }

  /** The items of `f` when its names start at `nameoff` in the strings block. */
  function Items(f: Forest, nameoff: nat): seq<Item> {
    match f
    case Leafless => []
    case Node(name, props, kids, next) =>
      [BeginItem(name)] + (PropItems(props, nameoff)
        + (Items(kids, KidsOffset(f, nameoff)) + ([EndItem] + Items(next, NextOffset(f, nameoff)))))
  }

  lemma {:induction false} MeaningConcat(a: seq<Item>, b: seq<Item>)
    ensures Meaning(a + b) == Meaning(a) + Meaning(b)
  {
    if a == [] {
      assert a + b == b;
    } else {
      MeaningConcat(a[1..], b);
      assert (a + b)[0] == a[0] && (a + b)[1..] == a[1..] + b;
    }
  }

  lemma {:induction false} PropItemsMean(props: seq<TreeProp>, nameoff: nat)
    ensures Meaning(PropItems(props, nameoff)) == PropTokens(props)
  {
    if props != [] {
      var ws := PropItems(props, nameoff);
      PropItemsMean(props[1..], nameoff + |props[0].name| + 1);
      assert ws[1..] == PropItems(props[1..], nameoff + |props[0].name| + 1);
    }
  }

  lemma MeaningFirst(w: Item, ws: seq<Item>)
    requires !w.NopItem?
    ensures Meaning([w] + ws) == [TokenOf(w)] + Meaning(ws)
  {
    assert ([w] + ws)[0] == w && ([w] + ws)[1..] == ws;
  }

  lemma NodeItemsMean(name: seq<Byte>, ps: seq<Item>, ks: seq<Item>, ns: seq<Item>)
    ensures Meaning([BeginItem(name)] + (ps + (ks + ([EndItem] + ns)))) ==
            [Begin(name)] + (Meaning(ps) + (Meaning(ks) + ([End] + Meaning(ns))))
  {
    MeaningFirst(EndItem, ns);
    MeaningConcat(ks, [EndItem] + ns);
    MeaningConcat(ps, ks + ([EndItem] + ns));
    MeaningFirst(BeginItem(name), ps + (ks + ([EndItem] + ns)));
  }

  lemma ItemsMeanAtNode(f: Forest, nameoff: nat)
    requires f.Node?
    requires Meaning(Items(f.kids, KidsOffset(f, nameoff))) == Flatten(f.kids)
    requires Meaning(Items(f.next, NextOffset(f, nameoff))) == Flatten(f.next)
    ensures Meaning(Items(f, nameoff)) == Flatten(f)
  {
    PropItemsMean(f.props, nameoff);
    NodeItemsMean(f.name, PropItems(f.props, nameoff),
      Items(f.kids, KidsOffset(f, nameoff)), Items(f.next, NextOffset(f, nameoff)));
  }

  lemma {:induction false} ItemsMean(f: Forest, nameoff: nat)
    ensures Meaning(Items(f, nameoff)) == Flatten(f)
  {
    if f.Node? {
      ItemsMean(f.kids, KidsOffset(f, nameoff));
      ItemsMean(f.next, NextOffset(f, nameoff));
      ItemsMeanAtNode(f, nameoff);
    }
  }

  /** Every item is well formed and names are where the items say, for a strings block at `at`. */
  ghost predicate ItemsOk(blob: seq<Byte>, at: nat, ws: seq<Item>) {
    forall i :: 0 <= i < |ws| ==>
      WellFormed(ws[i]) && (ws[i].PropItem? ==> NameAt(blob, at + ws[i].nameoff, ws[i].name))
  }

  lemma ItemsOkConcat(blob: seq<Byte>, at: nat, a: seq<Item>, b: seq<Item>)
    requires ItemsOk(blob, at, a) && ItemsOk(blob, at, b)
    ensures ItemsOk(blob, at, a + b)
  {
  }

  lemma {:induction false} PropItemsOk(blob: seq<Byte>, at: nat, props: seq<TreeProp>, o: nat)
    requires forall i :: 0 <= i < |props| ==> NulFree(props[i].name) && |props[i].value| < U32_LIMIT
    requires HasAt(blob, at + o, PropStrings(props)) && o + |PropStrings(props)| <= U32_LIMIT
    ensures ItemsOk(blob, at, PropItems(props, o))
  {
    hide HasAt;
    if props != [] {
      var first := props[0].name + [0];
      HasAtConcat(blob, at + o, first, PropStrings(props[1..]));
      PropItemsOk(blob, at, props[1..], o + |first|);
    }
  }

  lemma NodeItemsOk(blob: seq<Byte>, at: nat, name: seq<Byte>, ps: seq<Item>, ks: seq<Item>, ns: seq<Item>)
    requires NulFree(name) && ItemsOk(blob, at, ps) && ItemsOk(blob, at, ks) && ItemsOk(blob, at, ns)
    ensures ItemsOk(blob, at, [BeginItem(name)] + (ps + (ks + ([EndItem] + ns))))
  {
    ItemsOkConcat(blob, at, [EndItem], ns);
    ItemsOkConcat(blob, at, ks, [EndItem] + ns);
    ItemsOkConcat(blob, at, ps, ks + ([EndItem] + ns));
    ItemsOkConcat(blob, at, [BeginItem(name)], ps + (ks + ([EndItem] + ns)));
  }

  lemma StringsSplit(blob: seq<Byte>, at: nat, f: Forest)
    requires f.Node? && HasAt(blob, at, Strings(f))
    ensures HasAt(blob, at, PropStrings(f.props))
    ensures HasAt(blob, at + |PropStrings(f.props)|, Strings(f.kids))
    ensures HasAt(blob, at + |PropStrings(f.props)| + |Strings(f.kids)|, Strings(f.next))
    ensures |Strings(f)| == |PropStrings(f.props)| + |Strings(f.kids)| + |Strings(f.next)|
  {
    HasAtThree(blob, at, PropStrings(f.props), Strings(f.kids), Strings(f.next));
  }

  lemma {:induction false} TreeItemsOk(blob: seq<Byte>, at: nat, f: Forest, o: nat)
    requires Writable(f) && HasAt(blob, at + o, Strings(f)) && o + |Strings(f)| <= U32_LIMIT
    ensures ItemsOk(blob, at, Items(f, o))
  {
    hide HasAt, PropItems, Strings, PropStrings;
    if f.Node? {
      StringsSplit(blob, at + o, f);
      PropItemsOk(blob, at, f.props, o);
      TreeItemsOk(blob, at, f.kids, KidsOffset(f, o));
      TreeItemsOk(blob, at, f.next, NextOffset(f, o));
      NodeItemsOk(blob, at, f.name,
        PropItems(f.props, o), Items(f.kids, KidsOffset(f, o)), Items(f.next, NextOffset(f, o)));
    }
  }

  /** Items(f, 0) is well formed whatever the blob. */
  lemma ItemsWellFormed(f: Forest)
    requires Writable(f) && |Strings(f)| <= U32_LIMIT
    ensures AllWellFormed(Items(f, 0))
  {
    HasAtIsSlice(Strings(f), 0, Strings(f));
    assert Strings(f)[0..|Strings(f)|] == Strings(f);
    TreeItemsOk(Strings(f), 0, f, 0);
  }

  const RESERVATION_SIZE: nat := 16
  const STRUCT_OFFSET: nat := 40 + RESERVATION_SIZE

  function StructBlock(f: Forest): seq<Byte>
    requires Writable(f) && |Strings(f)| <= U32_LIMIT
  {
    ItemsWellFormed(f);
    EncodeAll(Items(f, 0)) + CellBytes(9)
  }

  /** The blob's offsets are cells. */
  predicate Addressable(f: Forest) {
    && Writable(f) && |Strings(f)| <= U32_LIMIT
    && STRUCT_OFFSET + |StructBlock(f)| + |Strings(f)| < U32_LIMIT
  }

  /** magic, totalsize, off_dt_struct, off_dt_strings, and the six fields the parser does not use. */
  function HeaderBytes(structSize: nat, stringsSize: nat): (bs: seq<Byte>)
    requires STRUCT_OFFSET + structSize + stringsSize < U32_LIMIT
    ensures |bs| == 40
  {
    (CellBytes(0xd00dfeed) + CellBytes(STRUCT_OFFSET + structSize + stringsSize))
    + (CellBytes(STRUCT_OFFSET) + CellBytes(STRUCT_OFFSET + structSize))
    + (CellBytes(40) + CellBytes(17) + CellBytes(16) + CellBytes(0)
       + CellBytes(stringsSize) + CellBytes(structSize))
  }

  function Write(f: Forest): seq<Byte>
    requires Addressable(f)
  {
    HeaderBytes(|StructBlock(f)|, |Strings(f)|) + (Zeros(RESERVATION_SIZE) + (StructBlock(f) + Strings(f)))
  }

  lemma HeaderReadsBack(blob: seq<Byte>, structSize: nat, stringsSize: nat)
    requires STRUCT_OFFSET + structSize + stringsSize < U32_LIMIT
    requires HasAt(blob, 0, HeaderBytes(structSize, stringsSize))
    ensures |blob| >= 40 && ReadCell(blob, 0) == 0xd00dfeed
    ensures ReadCell(blob, 8) == STRUCT_OFFSET && ReadCell(blob, 12) == STRUCT_OFFSET + structSize
  {
    hide HasAt, BytesOf, ReadCell, BigEndian;
    var a, b := CellBytes(0xd00dfeed), CellBytes(STRUCT_OFFSET + structSize + stringsSize);
    var c, d := CellBytes(STRUCT_OFFSET), CellBytes(STRUCT_OFFSET + structSize);
    var rest := CellBytes(40) + CellBytes(17) + CellBytes(16) + CellBytes(0)
                + CellBytes(stringsSize) + CellBytes(structSize);
    HasAtConcat(blob, 0, (a + b) + (c + d), rest);
    HasAtIsSlice(blob, 16, rest);
    HasAtConcat(blob, 0, a + b, c + d);
    HasAtConcat(blob, 0, a, b);
    HasAtConcat(blob, 8, c, d);
    ReadCellAt(blob, 0, 0xd00dfeed);
    ReadCellAt(blob, 8, STRUCT_OFFSET);
    ReadCellAt(blob, 12, STRUCT_OFFSET + structSize);
  }

  lemma Layout(head: seq<Byte>, gap: seq<Byte>, body: seq<Byte>, tail: seq<Byte>)
    ensures var blob := head + (gap + (body + tail));
      && HasAt(blob, 0, head)
      && HasAt(blob, |head| + |gap|, body)
      && HasAt(blob, |head| + |gap| + |body|, tail)
  {
    var blob := head + (gap + (body + tail));
    HasAtIsSlice(blob, 0, blob);
    assert blob[0..|blob|] == blob;
    HasAtConcat(blob, 0, head, gap + (body + tail));
    HasAtConcat(blob, |head|, gap, body + tail);
    HasAtConcat(blob, |head| + |gap|, body, tail);
  }

  lemma EncodeAllSplit(blob: seq<Byte>, at: nat, ws: seq<Item>)
    requires AllWellFormed(ws) && ws != [] && HasAt(blob, at, EncodeAll(ws) + CellBytes(9))
    ensures HasAt(blob, at, Encode(ws[0]))
    ensures HasAt(blob, at + |Encode(ws[0])|, EncodeAll(ws[1..]) + CellBytes(9))
  {
    hide HasAt, Encode, CellBytes, BytesOf;
    HasAtSplit(blob, at, Encode(ws[0]), EncodeAll(ws[1..]), CellBytes(9));
  }

  lemma {:induction false} OkItemsHold(blob: seq<Byte>, h: Header, off: nat, ws: seq<Item>)
    requires ItemsOk(blob, h.stringsOff, ws) && AllWellFormed(ws)
    requires HasAt(blob, h.structOff + off, EncodeAll(ws) + CellBytes(9))
    ensures Holds(blob, h, off, ws)
    decreases |ws|
  {
    hide HasAt, Encode, BytesOf, CellBytes;
    if ws == [] {
      assert EncodeAll(ws) + CellBytes(9) == CellBytes(9);
    } else {
      EncodeAllSplit(blob, h.structOff + off, ws);
      OkItemsHold(blob, h, off + |Encode(ws[0])|, ws[1..]);
    }
  }

  lemma WriteIsBlob(f: Forest)
    requires Addressable(f)
    ensures IsBlob(Write(f), Items(f, 0))
  {
    hide HasAt, Items, EncodeAll, HeaderBytes, Strings, Holds, ItemsOk, Encode, Zeros;
    var blob, body, strings := Write(f), StructBlock(f), Strings(f);
    Layout(HeaderBytes(|body|, |strings|), Zeros(RESERVATION_SIZE), body, strings);
    HeaderReadsBack(blob, |body|, |strings|);
    TreeItemsOk(blob, STRUCT_OFFSET + |body|, f, 0);
    ItemsWellFormed(f);
    OkItemsHold(blob, Header(STRUCT_OFFSET, STRUCT_OFFSET + |body|), 0, Items(f, 0));
  }

  /** Parsing what was written, from boot-time tables, lists the tree. */
  lemma WriteParseRoundTrip(f: Forest, t: Tables<nat>)
    requires Addressable(f) && PhandlesAreCells(f)
    requires t.Valid() && t.deviceCount == 0 && t.phandleCount == 0
    ensures Parsed(Write(f), t).Ok? <==> Fits(f, 0, 0, 0)
    ensures Fits(f, 0, 0, 0) ==>
      var t' := MapTables(Deref(Write(f)), Parsed(Write(f), t).value.state.tables);
      && t'.deviceCount == Size(f)
      && t'.devices[..t'.deviceCount] == Listing(f, None, 0)
      && t'.phandles[..t'.phandleCount] == Phandles(f, 0)
  {
    hide IsBlob, Parsed, Run, Write, Items, Flatten, Meaning, EncodeAll, TextIs, IsPhandle, Listing, Phandles,
      PhandlesAreCells;
    WriteIsBlob(f);
    ItemsMean(f, 0);
    RoundTrip(Write(f), Items(f, 0), f, t);
  }
}
