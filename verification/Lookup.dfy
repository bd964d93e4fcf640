/** Reading the device table after parsing: property lookup, the phandle table
    and the walk to the interrupt parent; and what the recorded property count
    means for a lookup. */
module Lookup {
  import opened Bytes
  import opened DeviceTable
  import opened Fdt
  import opened FdtTree

  /** The first of the first `count` slots named `name`. */
  function FirstSlot<V>(ps: seq<Property<V>>, count: nat, name: string): (r: Option<nat>)
    requires count <= |ps|
    ensures r.Some? ==> r.value < count && TextIs(ps[r.value].name, name)
    ensures r.Some? ==> forall k :: 0 <= k < r.value ==> !TextIs(ps[k].name, name)
    ensures r.None? ==> forall k :: 0 <= k < count ==> !TextIs(ps[k].name, name)
  {
    if count == 0 then None
    else
      match FirstSlot(ps, count - 1, name)
      case Some(k) => Some(k)
      case None => if TextIs(ps[count - 1].name, name) then Some(count - 1) else None
  }

  /** find_property. */
  function Find<V>(d: PlatformDevice<V>, name: string): (r: Option<Property<V>>)
    requires d.propCount <= |d.properties|
  {
    match FirstSlot(d.properties, d.propCount, name)
    case None => None
    case Some(k) => Some(d.properties[k])
  }

  method FindProperty<V>(d: PlatformDevice<V>, name: string) returns (r: Option<Property<V>>)
    requires d.propCount <= |d.properties|
    ensures r == Find(d, name)
  {
    var i := 0;
    while i < d.propCount
      invariant i <= d.propCount
      invariant forall k :: 0 <= k < i ==> !TextIs(d.properties[k].name, name)
    {
      if TextIs(d.properties[i].name, name) {
        return Some(d.properties[i]);
      }
      i := i + 1;
    }
    r := None;
  }

  // ---------- The recorded count, in terms of the tree ----------

  /** Node `i` of `f` in preorder, with its siblings after it. Its subtree is
      the nodes from `i` to `i + Size(n.kids)`. */
  function NodeAt(f: Forest, i: nat): (n: Forest)
    requires i < Size(f)
    ensures n.Node? && i + Size(n.kids) < Size(f)
  {
    if i == 0 then f
    else if i - 1 < Size(f.kids) then NodeAt(f.kids, i - 1)
    else NodeAt(f.next, i - 1 - Size(f.kids))
  }

  /** The last node, in preorder, of node `i`'s own subtree. */
  function LastBelow(f: Forest, i: nat): Forest
    requires i < Size(f)
  {
    NodeAt(f, i + Size(NodeAt(f, i).kids))
  }

  lemma {:induction false} LastCountIsLast(f: Forest)
    requires f.Node?
    ensures LastCount(f) == |NodeAt(f, Size(f) - 1).props|
  {
    if f.next.Node? {
      LastCountIsLast(f.next);
    } else if f.kids.Node? {
      LastCountIsLast(f.kids);
    }
  }

  lemma ListingSplit(f: Forest, parent: Option<nat>, base: nat, i: nat)
    requires 0 < i < Size(f)
    ensures Listing(f, parent, base)[i] ==
      if i - 1 < Size(f.kids) then Listing(f.kids, Some(base), base + 1)[i - 1]
      else Listing(f.next, parent, base + 1 + Size(f.kids))[i - 1 - Size(f.kids)]
  {
    hide Slots, RecordedCount;
  }

  lemma ListingHead(f: Forest, parent: Option<nat>, base: nat)
    requires f.Node?
    ensures Size(f) > 0 && Listing(f, parent, base)[0] == PlatformDevice(parent, f.name, Slots(f.props), RecordedCount(f))
  {
    hide Slots, RecordedCount;
  }

  lemma NodeSplit(f: Forest, i: nat)
    requires 0 < i < Size(f)
    ensures
      if i - 1 < Size(f.kids) then NodeAt(f, i) == NodeAt(f.kids, i - 1) && LastBelow(f, i) == LastBelow(f.kids, i - 1)
      else
        var j := i - 1 - Size(f.kids);
        j < Size(f.next) && NodeAt(f, i) == NodeAt(f.next, j) && LastBelow(f, i) == LastBelow(f.next, j)
  {
  }

  /** The first node's recorded count is that of the last node below it. */
  lemma RecordedIsLast(f: Forest)
    requires f.Node?
    ensures Size(f) > 0 && NodeAt(f, 0) == f && RecordedCount(f) == |LastBelow(f, 0).props|
  {
    if f.kids.Node? {
      LastCountIsLast(f.kids);
    }
  }

  ghost predicate EntryIsNode(d: PlatformDevice<seq<Byte>>, n: Forest, last: Forest)
    requires n.Node? && last.Node?
  {
    d.name == n.name && d.properties == Slots(n.props) && d.propCount == |last.props|
  }

  /** Entry `i` of the listing is node `i`: its name, its slots, and as its
      count the number of properties of the last node of its own subtree. */
  lemma {:induction false} CountMeaning(f: Forest, parent: Option<nat>, base: nat, i: nat)
    requires i < Size(f)
    ensures EntryIsNode(Listing(f, parent, base)[i], NodeAt(f, i), LastBelow(f, i))
  {
    hide EntryIsNode, Listing, LastBelow, NodeAt;
    if i == 0 {
      CountMeaningHead(f, parent, base);
    } else {
      ListingSplit(f, parent, base, i);
      NodeSplit(f, i);
      if i - 1 < Size(f.kids) {
        CountMeaning(f.kids, Some(base), base + 1, i - 1);
      } else {
        CountMeaning(f.next, parent, base + 1 + Size(f.kids), i - 1 - Size(f.kids));
      }
    }
  }

  lemma CountMeaningHead(f: Forest, parent: Option<nat>, base: nat)
    requires f.Node?
    ensures Size(f) > 0 && EntryIsNode(Listing(f, parent, base)[0], NodeAt(f, 0), LastBelow(f, 0))
  {
    hide Listing, LastBelow, NodeAt;
    ListingHead(f, parent, base);
    RecordedIsLast(f);
  }

  /** Lookup in the tree: the first property of the node with that name. */
  function TreeLookup(props: seq<TreeProp>, name: string): (r: Option<nat>)
    ensures r.Some? ==> r.value < |props| && TextIs(props[r.value].name, name)
    ensures r.Some? ==> forall k :: 0 <= k < r.value ==> !TextIs(props[k].name, name)
    ensures r.None? ==> forall k :: 0 <= k < |props| ==> !TextIs(props[k].name, name)
  {
    if props == [] then None
    else if TextIs(props[0].name, name) then Some(0)
    else
      match TreeLookup(props[1..], name)
      case None => None
      case Some(k) => Some(k + 1)
  }

  /** A lookup that sees the first `count` slots of a node finds what the tree
      has exactly when the property is below the count; an absent name is also
      found absent, unless it is the empty name and default slots are visible. */
  lemma SlotLookup(props: seq<TreeProp>, count: nat, name: string)
    requires |props| <= MAX_PROPS && count <= MAX_PROPS
    ensures FirstSlot(Slots(props), count, name) == TreeLookup(props, name) <==>
      match TreeLookup(props, name)
      case Some(k) => k < count
      case None => !(name == "" && |props| < count)
  {
    var ps, r, t := Slots(props), FirstSlot(Slots(props), count, name), TreeLookup(props, name);
    assert forall k :: 0 <= k < |props| ==> ps[k].name == props[k].name;
    forall k | |props| <= k < MAX_PROPS ensures TextIs(ps[k].name, name) <==> name == "" {
      assert ps[k] == DefaultProperty<seq<Byte>>();
    }
    if t.Some? && t.value < count {
      assert TextIs(ps[t.value].name, name);
    }
    if r.Some? && r.value < |props| {
      assert TextIs(props[r.value].name, name);
    }
    if name == "" && |props| < count && t.None? {
      assert TextIs(ps[|props|].name, name);
    }
  }

  /** A lookup of a proper name that sees the first `count` slots finds the
      tree's first such property if that is below the count, and nothing otherwise. */
  lemma VisibleLookup(props: seq<TreeProp>, count: nat, name: string)
    requires |props| <= MAX_PROPS && count <= MAX_PROPS && name != ""
    ensures FirstSlot(Slots(props), count, name) ==
      match TreeLookup(props, name)
      case Some(k) => if k < count then Some(k) else None
      case None => None
  {
    SlotLookup(props, count, name);
    var ps := Slots(props);
    assert forall k :: 0 <= k < |props| ==> ps[k].name == props[k].name;
    forall k | |props| <= k < MAX_PROPS ensures ps[k].name == [] {
      assert ps[k] == DefaultProperty<seq<Byte>>();
    }
  }

  lemma {:induction false} SlotsSufficeAt(f: Forest, i: nat)
    requires i < Size(f) && SlotsSuffice(f)
    ensures |NodeAt(f, i).props| <= MAX_PROPS
  {
    if i > 0 {
      if i - 1 < Size(f.kids) {
        SlotsSufficeAt(f.kids, i - 1);
      } else {
        SlotsSufficeAt(f.next, i - 1 - Size(f.kids));
      }
    }
  }

  /** find_property on entry `i`, as a slot number, against the source tree:
      it agrees exactly on the properties below the count of the last node of
      the subtree, and on everything when the node is a leaf. */
  lemma LookupMeaning(f: Forest, parent: Option<nat>, base: nat, i: nat, name: string)
    requires i < Size(f) && SlotsSuffice(f)
    ensures var d, n, visible := Listing(f, parent, base)[i], NodeAt(f, i), |LastBelow(f, i).props|;
      && d.propCount == visible <= MAX_PROPS && |n.props| <= MAX_PROPS
      && (FirstSlot(d.properties, d.propCount, name) == TreeLookup(n.props, name) <==>
          match TreeLookup(n.props, name)
          case Some(k) => k < visible
          case None => !(name == "" && |n.props| < visible))
      && (n.kids.Leafless? ==> FirstSlot(d.properties, d.propCount, name) == TreeLookup(n.props, name))
  {
    hide Slots;
    CountMeaning(f, parent, base, i);
    SlotsSufficeAt(f, i);
    SlotsSufficeAt(f, i + Size(NodeAt(f, i).kids));
    SlotLookup(NodeAt(f, i).props, |LastBelow(f, i).props|, name);
  }

  /** An interior node can lose a property: with "a" on the root and one child
      without properties, the root's entry has count 0 and its "a" is not found. */
  lemma InteriorPropertyLost() returns (f: Forest, name: string)
    ensures Size(f) == 2 && SlotsSuffice(f)
    ensures TreeLookup(NodeAt(f, 0).props, name) == Some(0)
    ensures Listing(f, None, 0)[0].propCount == 0
  {
    var prop := TreeProp([97], []);
    f, name := Node([], [prop], Node([], [], Leafless, Leafless), Leafless), "a";
    assert TextIs(prop.name, "a");
    CountMeaning(f, None, 0, 0);
  }

  /** Node `i` is in the subtree of node `q`, below it. */
  predicate Encloses(f: Forest, q: nat, i: nat)
    requires q < Size(f)
  {
    q < i <= q + Size(NodeAt(f, q).kids)
  }

  predicate Outermost(f: Forest, i: nat)
    requires i < Size(f)
  {
    forall q :: 0 <= q < i ==> !Encloses(f, q, i)
  }

  predicate NearestEnclosing(f: Forest, p: nat, i: nat)
    requires p < Size(f) && i < Size(f)
  {
    Encloses(f, p, i) && forall q :: p < q < i ==> !Encloses(f, q, i)
  }

  /** Entry `i`'s parent link is the nearest node whose subtree contains node
      `i`, or the parent of the whole list when there is none. */
  lemma {:induction false} ParentIsNearest(f: Forest, parent: Option<nat>, base: nat, i: nat)
    requires i < Size(f)
    ensures var link := Listing(f, parent, base)[i].parent;
      || (Outermost(f, i) && link == parent)
      || (link.Some? && base <= link.value < base + i && NearestEnclosing(f, link.value - base, i))
  {
    hide Listing, NodeAt;
    var k := Size(f.kids);
    if i == 0 {
      ListingHead(f, parent, base);
    } else {
      ListingSplit(f, parent, base, i);
      forall q | 0 <= q < i
        ensures Encloses(f, q, i) <==>
          if i - 1 < k then q == 0 || Encloses(f.kids, q - 1, i - 1) else q > k && Encloses(f.next, q - 1 - k, i - 1 - k)
      {
        EnclosesSplit(f, q, i);
      }
      if i - 1 < k {
        ParentIsNearest(f.kids, Some(base), base + 1, i - 1);
      } else {
        ParentIsNearest(f.next, parent, base + 1 + k, i - 1 - k);
      }
    }
  }

  lemma EnclosesSplit(f: Forest, q: nat, i: nat)
    requires q < i < Size(f)
    ensures Encloses(f, q, i) <==>
      if i - 1 < Size(f.kids) then q == 0 || Encloses(f.kids, q - 1, i - 1)
      else q > Size(f.kids) && Encloses(f.next, q - 1 - Size(f.kids), i - 1 - Size(f.kids))
  {
    hide NodeAt;
    RecordedIsLast(f);
    if q > 0 {
      NodeSplit(f, q);
    }
  }
}
