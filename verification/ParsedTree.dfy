/** What the drivers see of a tree once its blob is parsed: find_property and
    the driver selection on the parsed tables, against the tree itself. */
module ParsedTree {
  import opened Bytes
  import opened DeviceTable
  import opened TableMaps
  import opened Fdt
  import opened FdtTree
  import opened FdtEncoding
  import opened Lookup
  import opened Probe

  /** The blob holds the tree, flattened, and the tree fits the static arrays. */
  ghost predicate Encodes(blob: seq<Byte>, ws: seq<Item>, f: Forest) {
    IsBlob(blob, ws) && Meaning(ws) == Flatten(f) && PhandlesAreCells(f) && Fits(f, 0, 0, 0)
  }

  /** The tables the kernel starts with. */
  ghost predicate Empty(t: Tables<nat>) {
    t.Valid() && t.deviceCount == 0 && t.phandleCount == 0
  }

  /** The parsed table has one entry per node of the tree, in preorder. */
  lemma ParsedEntries(blob: seq<Byte>, ws: seq<Item>, f: Forest, t: Tables<nat>)
    requires Empty(t) && Encodes(blob, ws, f)
    ensures Parsed(blob, t).Ok?
    ensures var t' := Parsed(blob, t).value.state.tables;
      && t'.deviceCount == Size(f) <= |t'.devices| && |Listing(f, None, 0)| == Size(f)
      && forall i :: 0 <= i < Size(f) ==> MapDevice(Deref(blob), t'.devices[i]) == Listing(f, None, 0)[i]
  {
    hide IsBlob, Parsed, Listing, Flatten, PhandlesAreCells, SlotsSuffice, Phandles;
    RoundTrip(blob, ws, f, t);
    var t' := Parsed(blob, t).value.state.tables;
    forall i | 0 <= i < Size(f) ensures MapDevice(Deref(blob), t'.devices[i]) == Listing(f, None, 0)[i] {
      assert MapTables(Deref(blob), t').devices[i] == MapDevice(Deref(blob), t'.devices[i]);
    }
  }

  /** Names are kept when pointers are replaced by the bytes they point to. */
  lemma {:induction false} FirstSlotMapped(blob: seq<Byte>, ps: seq<Property<nat>>, n: nat, name: string)
    requires n <= |ps|
    ensures FirstSlot(MapProperties(Deref(blob), ps), n, name) == FirstSlot(ps, n, name)
  {
    hide TextIs;
    if n > 0 {
      FirstSlotMapped(blob, ps, n - 1, name);
    }
  }

  /** find_property on the entry of node `i` of an encoded tree: it returns the
      bytes of the node's first property of that name when that property is below
      the property count of the last node of the node's subtree, and nothing
      otherwise. */
  lemma ParsedLookup(blob: seq<Byte>, ws: seq<Item>, f: Forest, t: Tables<nat>, i: nat, name: string)
    requires Empty(t) && Encodes(blob, ws, f) && i < Size(f) && name != ""
    ensures Parsed(blob, t).Ok? && i < |Parsed(blob, t).value.state.tables.devices|
    ensures var d, n := Parsed(blob, t).value.state.tables.devices[i], NodeAt(f, i);
      && d.propCount <= |d.properties|
      && match TreeLookup(n.props, name)
         case None => Find<nat>(d, name) == None
         case Some(k) =>
           if k >= |LastBelow(f, i).props| then Find<nat>(d, name) == None
           else Find<nat>(d, name).Some? && ValueOf(blob, Find<nat>(d, name).value) == n.props[k].value
  {
    hide Encodes, Parsed, Listing, NodeAt, LastBelow, TreeLookup, Slots, TextIs, MapProperties, FirstSlot;
    ParsedEntries(blob, ws, f, t);
    EncodedSlots(blob, ws, f);
    var d, n := Parsed(blob, t).value.state.tables.devices[i], NodeAt(f, i);
    LookupMeaning(f, None, 0, i, name);
    FirstSlotMapped(blob, d.properties, d.propCount, name);
    CountMeaning(f, None, 0, i);
    VisibleLookup(n.props, d.propCount, name);
    var k := FirstSlot(d.properties, d.propCount, name);
    if k.Some? {
      SlotBytes(blob, d.properties, n.props, k.value);
    }
  }

  /** A slot that maps to a tree property holds that property's bytes. */
  lemma SlotBytes(blob: seq<Byte>, ps: seq<Property<nat>>, props: seq<TreeProp>, k: nat)
    requires |props| <= MAX_PROPS && MapProperties(Deref(blob), ps) == Slots(props) && k < |props|
    ensures k < |ps| && ValueOf(blob, ps[k]) == props[k].value
  {
    assert MapProperties(Deref(blob), ps)[k] == MapProperty(Deref(blob), ps[k]);
    assert Slots(props)[k].len == |props[k].value|;
  }

  lemma EncodedSlots(blob: seq<Byte>, ws: seq<Item>, f: Forest)
    requires Encodes(blob, ws, f)
    ensures SlotsSuffice(f)
  {
  }

  /** The driver of a node, by the part of the tree that the parsed table shows. */
  ghost function TreeDriver(f: Forest, i: nat): Option<DriverKind>
    requires i < Size(f)
  {
    match TreeLookup(NodeAt(f, i).props, "compatible")
    case None => None
    case Some(k) => if k < |LastBelow(f, i).props| then FirstMatch(NodeAt(f, i).props[k].value) else None
  }

  /** The driver that init_devices selects for a device of an encoded tree is the
      first match of its node's "compatible" value, if that property is visible. */
  lemma ParsedDriver(blob: seq<Byte>, ws: seq<Item>, f: Forest, t: Tables<nat>, i: nat)
    requires Empty(t) && Encodes(blob, ws, f) && i < Size(f)
    ensures Parsed(blob, t).Ok? && Linked(Parsed(blob, t).value.state.tables)
    ensures i < Parsed(blob, t).value.state.tables.deviceCount
    ensures DriverOf(Parsed(blob, t).value.state.tables, blob, i) == TreeDriver(f, i)
  {
    hide Encodes, Parsed, NodeAt, LastBelow, TreeLookup, FirstMatch, Find, ValueOf;
    ParsedEntries(blob, ws, f, t);
    ParsedTablesAreSafe(blob, t);
    ParsedLookup(blob, ws, f, t, i, "compatible");
  }
}
