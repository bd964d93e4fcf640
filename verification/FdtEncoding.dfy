/** The flattened form of a device tree (sections 5.4 and 5.5 of the Devicetree
    Specification), and the round trip through the parser. */
module FdtEncoding {
  import opened Bytes
  import opened DeviceTable
  import opened Fdt
  import opened FdtTree
  import opened TableMaps

  /** One item of the structure block as it is written. */
  datatype Item =
    | BeginItem(name: seq<Byte>)
    | EndItem
    | PropItem(nameoff: nat, name: seq<Byte>, value: seq<Byte>)
    | NopItem

  function Zeros(n: nat): (r: seq<Byte>)
    ensures |r| == n
  {
    seq(n, _ => 0)
  }

  /** `bs` with zeros added up to a multiple of four bytes. */
  function Padded(bs: seq<Byte>): (r: seq<Byte>)
    ensures bs <= r && |r| == AlignUp(|bs|)
  {
    bs + Zeros(AlignUp(|bs|) - |bs|)
  }

  predicate WellFormed(w: Item) {
    match w
    case BeginItem(name) => NulFree(name)
    case PropItem(nameoff, name, value) => NulFree(name) && nameoff < U32_LIMIT && |value| < U32_LIMIT
    case _ => true
  }

  function Encode(w: Item): (bs: seq<Byte>)
    requires WellFormed(w)
    ensures |bs| >= 4
  {
    match w
    case BeginItem(name) => CellBytes(1) + Padded(name + [0])
    case EndItem => CellBytes(2)
    case PropItem(nameoff, name, value) =>
      CellBytes(3) + (CellBytes(|value|) + (CellBytes(nameoff) + Padded(value)))
    case NopItem => CellBytes(4)
  }

  predicate AllWellFormed(ws: seq<Item>) {
    forall i :: 0 <= i < |ws| ==> WellFormed(ws[i])
  }

  function EncodeAll(ws: seq<Item>): (bs: seq<Byte>)
    requires AllWellFormed(ws)
  {
    if ws == [] then [] else Encode(ws[0]) + EncodeAll(ws[1..])
  }

  function TokenOf(w: Item): Token<seq<Byte>> {
    match w
    case BeginItem(name) => Begin(name)
    case EndItem => End
    case PropItem(_, name, value) => PropToken(TreeProp(name, value))
    case NopItem => Nop
  }

  /** The items other than FDT_NOP, as tokens. */
  function Meaning(ws: seq<Item>): seq<Token<seq<Byte>>> {
    if ws == [] then []
    else if ws[0].NopItem? then Meaning(ws[1..])
    else [TokenOf(ws[0])] + Meaning(ws[1..])
  }

  /** A NUL-terminated copy of `name` at `at`. */
  ghost predicate NameAt(blob: seq<Byte>, at: nat, name: seq<Byte>) {
    HasAt(blob, at, name + [0])
  }

  /** The structure block from `off` on is `ws`, item after item, followed by
      FDT_END, and each property's name is in the strings block where its item says. */
  ghost predicate Holds(blob: seq<Byte>, h: Header, off: nat, ws: seq<Item>)
    requires AllWellFormed(ws)
    decreases |ws|
  {
    if ws == [] then HasAt(blob, h.structOff + off, CellBytes(9))
    else
      && HasAt(blob, h.structOff + off, Encode(ws[0]))
      && (ws[0].PropItem? ==> NameAt(blob, h.stringsOff + ws[0].nameoff, ws[0].name))
      && Holds(blob, h, off + |Encode(ws[0])|, ws[1..])
  }

  /** `blob` is a device-tree blob whose structure block is `ws`: it starts with the
      magic number, and its third and fourth cells locate the two blocks. */
  ghost predicate IsBlob(blob: seq<Byte>, ws: seq<Item>) {
    && AllWellFormed(ws) && |blob| >= 40 && ReadCell(blob, 0) == 0xd00dfeed
    && Holds(blob, Header(ReadCell(blob, 8), ReadCell(blob, 12)), 0, ws)
  }

  /** The bytes a stored value pointer refers to. */
  function Deref(blob: seq<Byte>): (nat, nat) -> seq<Byte> {
    (at: nat, len: nat) => if at + len <= |blob| then blob[at..at + len] else []
  }

  lemma AlignUpShift(off: nat, n: nat)
    requires off % 4 == 0
    ensures AlignUp(off + n) == off + AlignUp(n)
  {
  }

  lemma PaddedAt(mem: seq<Byte>, at: nat, bs: seq<Byte>)
    requires HasAt(mem, at, Padded(bs))
    ensures HasAt(mem, at, bs)
  {
    HasAtConcat(mem, at, bs, Zeros(AlignUp(|bs|) - |bs|));
  }

  lemma LexBeginNamed(blob: seq<Byte>, h: Header, off: nat, at: nat, n: nat)
    requires at == h.structOff + off && off % 4 == 0 && StringLength(blob, at) == Some(n)
    ensures LexBegin(blob, h, off) == Ok(Lexeme(Begin(blob[at..at + n]), off + AlignUp(n + 1)))
  {
    AlignUpShift(off, n + 1);
  }

  lemma LexPropNamed(blob: seq<Byte>, h: Header, off: nat, at: nat, nameAt: nat, n: nat)
    requires at == h.structOff + off && at + 8 <= |blob| && nameAt == h.stringsOff + ReadCell(blob, at + 4)
    requires StringLength(blob, nameAt) == Some(n)
    ensures LexProp(blob, h, off) == Ok(PropLexeme(blob, blob[nameAt..nameAt + n], ReadCell(blob, at), at + 8, off + 8))
  {
  }

  lemma LexBeginAt(blob: seq<Byte>, h: Header, off: nat, at: nat, name: seq<Byte>)
    requires at == h.structOff + off && NulFree(name) && off % 4 == 0 && HasAt(blob, at, name + [0])
    ensures LexBegin(blob, h, off) == Ok(Lexeme(Begin(name), off + AlignUp(|name| + 1)))
  {
    hide HasAt, LexBegin, StringLength, AlignUp;
    TerminatedAt(blob, at, name);
    LexBeginNamed(blob, h, off, at, |name|);
  }

  lemma LexPropAt(blob: seq<Byte>, h: Header, off: nat, at: nat, nameoff: nat, name: seq<Byte>, len: nat)
    requires NulFree(name) && nameoff < U32_LIMIT && len < U32_LIMIT && off % 4 == 0
    requires at == h.structOff + off && HasAt(blob, at, CellBytes(len) + CellBytes(nameoff))
    requires NameAt(blob, h.stringsOff + nameoff, name)
    ensures LexProp(blob, h, off) == Ok(PropLexeme(blob, name, len, at + 8, off + 8))
  {
    hide HasAt, BigEndian, BytesOf, LexProp;
    HasAtConcat(blob, at, CellBytes(len), CellBytes(nameoff));
    ReadCellAt(blob, at, len);
    ReadCellAt(blob, at + 4, nameoff);
    TerminatedAt(blob, h.stringsOff + nameoff, name);
    LexPropNamed(blob, h, off, at, h.stringsOff + nameoff, |name|);
  }

  lemma PropLexemeAt(blob: seq<Byte>, off: nat, at: nat, name: seq<Byte>, value: seq<Byte>)
    requires HasAt(blob, at, value) && off % 4 == 0
    requires PhandleIsCell(TreeProp(name, value))
    ensures var l := PropLexeme(blob, name, |value|, at, off);
      l.next == off + AlignUp(|value|) && MapToken(Deref(blob), l.token) == PropToken(TreeProp(name, value))
  {
    hide HasAt, BigEndian;
    AlignUpShift(off, |value|);
    HasAtIsSlice(blob, at, value);
    if IsPhandle(name) {
      assert blob[at..at + 4] == blob[at..at + |value|][0..4];
      assert ReadCell(blob, at) == ReadCell(value, 0);
    }
  }

  lemma LexPropItem(blob: seq<Byte>, h: Header, off: nat, w: Item)
    requires w.PropItem? && WellFormed(w) && off % 4 == 0
    requires HasAt(blob, h.structOff + off, Encode(w))
    requires NameAt(blob, h.stringsOff + w.nameoff, w.name)
    ensures h.structOff + off + 4 <= |blob| && ReadCell(blob, h.structOff + off) == FDT_PROP
    ensures LexProp(blob, h, off + 4) == Ok(PropLexeme(blob, w.name, |w.value|, h.structOff + off + 12, off + 12))
    ensures HasAt(blob, h.structOff + off + 12, w.value)
  {
    hide HasAt, BigEndian, AlignUp, Lex;
    var at, tail := h.structOff + off, Padded(w.value);
    var len, nameoff := CellBytes(|w.value|), CellBytes(w.nameoff);
    CellThen(blob, at, FDT_PROP, len + (nameoff + tail));
    assert len + (nameoff + tail) == (len + nameoff) + tail;
    HasAtConcat(blob, at + 4, len + nameoff, tail);
    PaddedAt(blob, at + 12, w.value);
    LexPropAt(blob, h, off + 4, at + 4, w.nameoff, w.name, |w.value|);
  }

  lemma LexBeginItem(blob: seq<Byte>, h: Header, off: nat, name: seq<Byte>)
    requires NulFree(name) && off % 4 == 0
    requires HasAt(blob, h.structOff + off, CellBytes(1) + Padded(name + [0]))
    ensures h.structOff + off + 4 <= |blob| && ReadCell(blob, h.structOff + off) == FDT_BEGIN_NODE
    ensures LexBegin(blob, h, off + 4) == Ok(Lexeme(Begin(name), off + 4 + AlignUp(|name| + 1)))
  {
    hide HasAt, BigEndian, BytesOf, AlignUp;
    var at := h.structOff + off;
    CellThen(blob, at, FDT_BEGIN_NODE, Padded(name + [0]));
    PaddedAt(blob, at + 4, name + [0]);
    LexBeginAt(blob, h, off + 4, at + 4, name);
  }

  lemma LexDispatch(blob: seq<Byte>, h: Header, off: nat)
    requires h.structOff + off + 4 <= |blob|
    ensures var token := ReadCell(blob, h.structOff + off);
      && (token == FDT_BEGIN_NODE ==> Lex(blob, h, off) == LexBegin(blob, h, off + 4))
      && (token == FDT_END_NODE ==> Lex(blob, h, off) == Ok(Lexeme(End, off + 4)))
      && (token == FDT_PROP ==> Lex(blob, h, off) == LexProp(blob, h, off + 4))
      && (token == FDT_NOP ==> Lex(blob, h, off) == Ok(Lexeme(Nop, off + 4)))
      && (token == FDT_END ==> Lex(blob, h, off) == Ok(Finished(off + 4)))
  {
  }

  ghost predicate ReadsBack(blob: seq<Byte>, l: Outcome<Lexeme>, off: nat, w: Item)
    requires WellFormed(w)
  {
    && l.Ok? && l.value.Lexeme?
    && l.value.next == off + |Encode(w)|
    && MapToken(Deref(blob), l.value.token) == TokenOf(w)
  }

  lemma BeginReadsBack(blob: seq<Byte>, h: Header, off: nat, w: Item)
    requires w.BeginItem? && WellFormed(w) && off % 4 == 0 && HasAt(blob, h.structOff + off, Encode(w))
    ensures ReadsBack(blob, Lex(blob, h, off), off, w)
  {
    LexBeginItem(blob, h, off, w.name);
    LexDispatch(blob, h, off);
  }

  lemma PropReadsBack(blob: seq<Byte>, h: Header, off: nat, w: Item)
    requires w.PropItem? && WellFormed(w) && off % 4 == 0 && HasAt(blob, h.structOff + off, Encode(w))
    requires NameAt(blob, h.stringsOff + w.nameoff, w.name)
    requires PhandleIsCell(TreeProp(w.name, w.value))
    ensures ReadsBack(blob, Lex(blob, h, off), off, w)
  {
    LexPropItem(blob, h, off, w);
    PropLexemeAt(blob, off + 12, h.structOff + off + 12, w.name, w.value);
    LexDispatch(blob, h, off);
  }

  ghost predicate ItemOk(blob: seq<Byte>, h: Header, w: Item) {
    && WellFormed(w)
    && (w.PropItem? ==> NameAt(blob, h.stringsOff + w.nameoff, w.name))
    && (w.PropItem? ==> PhandleIsCell(TreeProp(w.name, w.value)))
  }

  /** The parser reads back each item: its token, and the offset just past it. */
  lemma LexItem(blob: seq<Byte>, h: Header, off: nat, w: Item)
    requires ItemOk(blob, h, w) && off % 4 == 0 && HasAt(blob, h.structOff + off, Encode(w))
    ensures ReadsBack(blob, Lex(blob, h, off), off, w)
  {
    match w
    case BeginItem(_) => BeginReadsBack(blob, h, off, w);
    case PropItem(_, _, _) => PropReadsBack(blob, h, off, w);
    case EndItem =>
      ReadCellAt(blob, h.structOff + off, FDT_END_NODE);
      LexDispatch(blob, h, off);
    case NopItem =>
      ReadCellAt(blob, h.structOff + off, FDT_NOP);
      LexDispatch(blob, h, off);
  }

  // ---------- Whole runs ----------

  ghost predicate PhandleTokenOk(t: Token<seq<Byte>>) {
    t.Prop? ==> !t.phandle.Unreadable?
  }

  ghost predicate PhandleTokensOk(ts: seq<Token<seq<Byte>>>) {
    forall i :: 0 <= i < |ts| ==> PhandleTokenOk(ts[i])
  }

  lemma {:induction false} PropTokensOk(props: seq<TreeProp>)
    requires forall i :: 0 <= i < |props| ==> PhandleIsCell(props[i])
    ensures PhandleTokensOk(PropTokens(props))
  {
    hide PhandleOf;
    if props != [] {
      assert PhandleIsCell(props[0]);
      PropTokensOk(props[1..]);
    }
  }

  lemma FlattenOk(f: Forest)
    requires PhandlesAreCells(f)
    ensures PhandleTokensOk(Flatten(f))
  {
    if f.Node? {
      PropTokensOk(f.props);
    }
  }

  /** What a run over encoded items gives, compared with running their tokens. */
  ghost predicate Follows(blob: seq<Byte>, run: Outcome<Cursor>, tokens: Outcome<State<seq<Byte>>>, end: nat) {
    match tokens
    case Ok(s) => run.Ok? && run.value.off == end && MapState(Deref(blob), run.value.state) == s
    case Panic => run == Panic
    case Fault => run == Fault
  }

  lemma {:induction false} RunItems(blob: seq<Byte>, h: Header, c: Cursor, ws: seq<Item>)
    requires c.state.Valid() && c.off % 4 == 0
    requires AllWellFormed(ws) && Holds(blob, h, c.off, ws) && PhandleTokensOk(Meaning(ws))
    ensures MapState(Deref(blob), c.state).Valid()
    ensures Follows(blob, Run(blob, h, c), ApplyAll(Meaning(ws), MapState(Deref(blob), c.state)),
                    c.off + |EncodeAll(ws)| + 4)
    decreases |ws|
  {
    hide HasAt, Encode, TextIs, ReadCell, Lex;
    MapValid(Deref(blob), c.state);
    if ws == [] {
      RunEnd(blob, h, c);
    } else {
      MeaningCons(ws);
      LexItem(blob, h, c.off, ws[0]);
      var l := Lex(blob, h, c.off).value;
      RunStep(blob, h, c, l);
      ApplyCommutes(Deref(blob), l.token, c.state);
      var r := Apply(l.token, c.state);
      if r.Ok? {
        RunItems(blob, h, Cursor(l.next, r.value), ws[1..]);
      }
    }
  }

  lemma RunEnd(blob: seq<Byte>, h: Header, c: Cursor)
    requires c.state.Valid() && Holds(blob, h, c.off, [])
    ensures Run(blob, h, c) == Ok(Cursor(c.off + 4, c.state))
  {
    var at := h.structOff + c.off;
    ReadCellAt(blob, at, FDT_END);
    LexDispatch(blob, h, c.off);
  }

  lemma RunStep(blob: seq<Byte>, h: Header, c: Cursor, l: Lexeme)
    requires c.state.Valid() && Lex(blob, h, c.off) == Ok(l) && l.Lexeme?
    ensures Run(blob, h, c) ==
      match Apply(l.token, c.state)
      case Ok(s) => Run(blob, h, Cursor(l.next, s))
      case Panic => Panic
      case Fault => Fault
  {
  }

  lemma FirstTokenOk(t: Token<seq<Byte>>, ts: seq<Token<seq<Byte>>>)
    requires PhandleTokensOk([t] + ts)
    ensures PhandleTokenOk(t) && PhandleTokensOk(ts)
    ensures ([t] + ts)[0] == t && ([t] + ts)[1..] == ts
  {
    var all := [t] + ts;
    assert all[0] == t;
    assert forall i :: 0 <= i < |ts| ==> ts[i] == all[i + 1];
  }

  lemma MeaningCons(ws: seq<Item>)
    requires ws != [] && PhandleTokensOk(Meaning(ws))
    ensures PhandleTokensOk(Meaning(ws[1..])) && PhandleTokenOk(TokenOf(ws[0]))
    ensures !ws[0].NopItem? ==> Meaning(ws)[0] == TokenOf(ws[0]) && Meaning(ws)[1..] == Meaning(ws[1..])
  {
    hide PhandleTokensOk;
    if !ws[0].NopItem? {
      FirstTokenOk(TokenOf(ws[0]), Meaning(ws[1..]));
    }
  }

  /** The tables, with value bytes in place of pointers, that parsing `f` on top of `t` should leave. */
  ghost function Expected(blob: seq<Byte>, f: Forest, t: Tables<nat>): Tables<seq<Byte>>
    requires t.Valid() && Fits(f, 0, t.deviceCount, t.phandleCount)
  {
    MapValid(Deref(blob), Start(t).state);
    Appended(f, MapState(Deref(blob), Start(t).state)).tables
  }

  /** Round trip. For every tree, every flattened form of it (any FDT_NOPs, any
      placement of names in the strings block, any layout of the blob) and any
      earlier table contents: when the tree fits, the parser stops just past
      FDT_END having appended exactly the tree's preorder listing; when it does
      not fit, the parser panics. */
  lemma RoundTrip(blob: seq<Byte>, ws: seq<Item>, f: Forest, t: Tables<nat>)
    requires t.Valid() && IsBlob(blob, ws) && Meaning(ws) == Flatten(f) && PhandlesAreCells(f)
    ensures
      if Fits(f, 0, t.deviceCount, t.phandleCount) then
        && Parsed(blob, t).Ok?
        && Parsed(blob, t).value.off == |EncodeAll(ws)| + 4
        && MapTables(Deref(blob), Parsed(blob, t).value.state.tables) == Expected(blob, f, t)
      else Parsed(blob, t) == Panic
  {
    var h := ReadHeader(blob).value;
    FlattenOk(f);
    RunItems(blob, h, Start(t), ws);
    RunForest(f, MapState(Deref(blob), Start(t).state));
  }
}
