/** The structure-block parser over a device-tree blob. Property values are
    offsets into the blob (`V` is `nat`). */
module Fdt {
  import opened Bytes
  import opened DeviceTable

  const MAGIC: nat := 0xd00dfeed
  const FDT_BEGIN_NODE: nat := 1
  const FDT_END_NODE: nat := 2
  const FDT_PROP: nat := 3
  const FDT_NOP: nat := 4
  const FDT_END: nat := 9
  const HEADER_SIZE: nat := 40

  /** The header fields the parser uses. */
  datatype Header = Header(structOff: nat, stringsOff: nat)

  function ReadHeader(blob: seq<Byte>): Outcome<Header> {
    if |blob| < HEADER_SIZE then Fault
    else if ReadCell(blob, 0x00) != MAGIC then Panic
    else Ok(Header(ReadCell(blob, 0x08), ReadCell(blob, 0x0C)))
  }

  /** A token with its operands and the offset of the next token. */
  datatype Lexeme = Lexeme(token: Token<nat>, next: nat) | Finished(next: nat)

  function LexBegin(blob: seq<Byte>, h: Header, off: nat): (r: Outcome<Lexeme>)
    ensures r.Ok? ==> r.value.Lexeme? && off < r.value.next && r.value.next % 4 == 0
  {
    var at := h.structOff + off;
    match StringLength(blob, at)
    case None => Fault
    case Some(n) => Ok(Lexeme(Begin(blob[at..at + n]), AlignUp(off + n + 1)))
  }

  function PhandleAt(blob: seq<Byte>, name: seq<Byte>, at: nat): PhandleCell {
    if !IsPhandle(name) then NotPhandle
    else if at + 4 <= |blob| then Phandle(ReadCell(blob, at))
    else Unreadable
  }

  function PropLexeme(blob: seq<Byte>, name: seq<Byte>, len: nat, at: nat, off: nat): (l: Lexeme)
    ensures l.Lexeme? && off <= l.next && l.next % 4 == 0
  {
    Lexeme(Prop(name, len, at, PhandleAt(blob, name, at)), AlignUp(off + len))
  }

  function LexProp(blob: seq<Byte>, h: Header, off: nat): (r: Outcome<Lexeme>)
    ensures r.Ok? ==> r.value.Lexeme? && off + 8 <= r.value.next && r.value.next % 4 == 0
  {
    var at := h.structOff + off;
    if at + 8 > |blob| then Fault
    else
      var nameAt := h.stringsOff + ReadCell(blob, at + 4);
      match StringLength(blob, nameAt)
      case None => Fault
      case Some(n) => Ok(PropLexeme(blob, blob[nameAt..nameAt + n], ReadCell(blob, at), at + 8, off + 8))
  }

  /** Reads the token at `off`. */
  function Lex(blob: seq<Byte>, h: Header, off: nat): (r: Outcome<Lexeme>)
    ensures r.Ok? ==> h.structOff + off + 4 <= |blob| && off + 4 <= r.value.next
    ensures r.Ok? && off % 4 == 0 ==> r.value.next % 4 == 0
  {
    var at := h.structOff + off;
    if at + 4 > |blob| then Fault
    else if ReadCell(blob, at) == FDT_BEGIN_NODE then LexBegin(blob, h, off + 4)
    else if ReadCell(blob, at) == FDT_END_NODE then Ok(Lexeme(End, off + 4))
    else if ReadCell(blob, at) == FDT_PROP then LexProp(blob, h, off + 4)
    else if ReadCell(blob, at) == FDT_NOP then Ok(Lexeme(Nop, off + 4))
    else if ReadCell(blob, at) == FDT_END then Ok(Finished(off + 4))
    else Panic
  }

  /** A parser position: the offset into the structure block and the rest. */
  datatype Cursor = Cursor(off: nat, state: State<nat>)

  /** One iteration of the parser's loop that does not reach FDT_END. */
  function Step(blob: seq<Byte>, h: Header, c: Cursor): (r: Outcome<Cursor>)
    requires c.state.Valid()
    requires Lex(blob, h, c.off).Ok? && Lex(blob, h, c.off).value.Lexeme?
    ensures r.Ok? ==> r.value.state.Valid() && c.off + 4 <= r.value.off
  {
    var lexeme := Lex(blob, h, c.off).value;
    var s :- Apply(lexeme.token, c.state);
    Ok(Cursor(lexeme.next, s))
  }

  /** The parser's loop from a given position. The result's offset is just past FDT_END. */
  function Run(blob: seq<Byte>, h: Header, c: Cursor): (r: Outcome<Cursor>)
    requires c.state.Valid()
    ensures r.Ok? ==> r.value.state.Valid()
    decreases if c.off <= |blob| then |blob| + 1 - c.off else 0
  {
    var lexeme :- Lex(blob, h, c.off);
    if lexeme.Finished? then Ok(Cursor(lexeme.next, c.state))
    else
      var c' :- Step(blob, h, c);
      Run(blob, h, c')
  }

  function Start(t: Tables<nat>): Cursor {
    Cursor(0, State(t, [], 0))
  }

  /** What parsing `blob` does to the tables. */
  function Parsed(blob: seq<Byte>, t: Tables<nat>): (r: Outcome<Cursor>)
    requires t.Valid()
    ensures r.Ok? ==> r.value.state.Valid()
  {
    var h :- ReadHeader(blob);
    Run(blob, h, Start(t))
  }

  // ---------- What stops the parser ----------

  /** A blob with another magic number is refused. */
  lemma WrongMagicPanics(blob: seq<Byte>, t: Tables<nat>)
    requires t.Valid() && |blob| >= 40 && ReadCell(blob, 0) != 0xd00dfeed
    ensures Parsed(blob, t) == Panic
  {
  }

  /** Wherever the parser is: FDT_END (9) ends it at any depth, FDT_NOP (4) is
      skipped, FDT_END_NODE (2) outside every node and any token other than 1, 2,
      3, 4 and 9 are refused. */
  lemma TokenMeaning(blob: seq<Byte>, h: Header, c: Cursor, at: nat)
    requires c.state.Valid() && at == h.structOff + c.off && at + 4 <= |blob|
    ensures var w := ReadCell(blob, at);
      && (w == 9 ==> Run(blob, h, c) == Ok(Cursor(c.off + 4, c.state)))
      && (w == 4 ==> Run(blob, h, c) == Run(blob, h, Cursor(c.off + 4, c.state)))
      && (w == 2 && c.state.stack == [] ==> Run(blob, h, c) == Panic)
      && (w != 1 && w != 2 && w != 3 && w != 4 && w != 9 ==> Run(blob, h, c) == Panic)
  {
  }

  /** A node or property that the parser can read is refused when it has no
      room: a node in a full device table or ten levels deep, a property outside
      every node, a "phandle" in a full phandle table, a seventeenth property. */
  lemma NoRoomPanics(blob: seq<Byte>, h: Header, c: Cursor)
    requires c.state.Valid() && Lex(blob, h, c.off).Ok? && Lex(blob, h, c.off).value.Lexeme?
    ensures var token, s := Lex(blob, h, c.off).value.token, c.state;
      && (token.Begin? && (s.tables.deviceCount == 256 || |s.stack| == 10) ==> Run(blob, h, c) == Panic)
      && (token.Prop? && s.stack == [] ==> Run(blob, h, c) == Panic)
      && (token.Prop? && token.phandle.Phandle? && s.tables.phandleCount == 32 ==> Run(blob, h, c) == Panic)
      && (token.Prop? && !token.phandle.Unreadable? && s.propId >= 16 ==> Run(blob, h, c) == Panic)
  {
    hide Lex;
  }

  // ---------- Invariants of every run ----------

  /** The position after `n` iterations of the loop, if the parser gets that far. */
  ghost function After(blob: seq<Byte>, h: Header, c: Cursor, n: nat): (r: Option<Cursor>)
    requires c.state.Valid()
    ensures r.Some? ==> r.value.state.Valid()
    decreases n
  {
    if n == 0 then Some(c)
    else
      match Lex(blob, h, c.off)
      case Ok(Lexeme(_, _)) =>
        (match Step(blob, h, c)
         case Ok(c') => After(blob, h, c', n - 1)
         case _ => None)
      case _ => None
  }

  /** Every value stored so far ends at or before the current offset. */
  ghost predicate ValuesBefore(t: Tables<nat>, limit: nat)
    requires t.Valid()
  {
    forall i, k :: 0 <= i < t.deviceCount && 0 <= k < MAX_PROPS ==>
      ValueBefore(t.devices[i].properties[k], limit)
  }

  ghost predicate ValueBefore(p: Property<nat>, limit: nat) {
    match p.value
    case None => p.name == [] && p.len == 0
    case Some(at) => at + p.len <= limit
  }

  ghost predicate CursorInv(h: Header, c: Cursor) {
    && Inv(c.state)
    && c.off % 4 == 0
    && ValuesBefore(c.state.tables, h.structOff + c.off)
  }

  lemma ApplyKeepsValues(t: Token<nat>, s: State<nat>, limit: nat, limit': nat)
    requires s.Valid() && ValuesBefore(s.tables, limit) && limit <= limit'
    requires t.Prop? ==> t.value + t.len <= limit'
    ensures Apply(t, s).Ok? ==> ValuesBefore(Apply(t, s).value.tables, limit')
  {
  }

  lemma StepKeepsInv(blob: seq<Byte>, h: Header, c: Cursor)
    requires CursorInv(h, c)
    requires Lex(blob, h, c.off).Ok? && Lex(blob, h, c.off).value.Lexeme?
    ensures Step(blob, h, c).Ok? ==> CursorInv(h, Step(blob, h, c).value)
  {
    var l := Lex(blob, h, c.off).value;
    ApplyKeepsInv(l.token, c.state);
    ApplyKeepsValues(l.token, c.state, h.structOff + c.off, h.structOff + l.next);
  }

  /** At every loop head of every run over every blob, well formed or not, the
      offset is aligned and has grown by at least four per iteration, and the
      table, stack and phandle invariant holds. */
  lemma {:induction false} LoopHeadInv(blob: seq<Byte>, h: Header, c: Cursor, n: nat)
    requires CursorInv(h, c)
    ensures After(blob, h, c, n).Some? ==>
      CursorInv(h, After(blob, h, c, n).value) && c.off + 4 * n <= After(blob, h, c, n).value.off
    decreases n
  {
    hide Lex, Apply, Linked, Chain, ValuesBefore;
    if n > 0 && After(blob, h, c, n).Some? {
      StepKeepsInv(blob, h, c);
      LoopHeadInv(blob, h, Step(blob, h, c).value, n - 1);
    }
  }

  /** Every named slot of every device has a value, and that value and the cell
      at its start lie inside the blob. */
  ghost predicate ValuesInside(blob: seq<Byte>, t: Tables<nat>)
    requires t.Valid()
  {
    forall i, k :: 0 <= i < t.deviceCount && 0 <= k < MAX_PROPS ==>
      ValueInside(blob, t.devices[i].properties[k])
  }

  ghost predicate ValueInside(blob: seq<Byte>, p: Property<nat>) {
    match p.value
    case None => p.name == [] && p.len == 0
    case Some(at) => at + p.len <= |blob| && at + 4 <= |blob|
  }

  lemma {:induction false} RunKeepsInv(blob: seq<Byte>, h: Header, c: Cursor)
    requires CursorInv(h, c)
    ensures Run(blob, h, c).Ok? ==>
      CursorInv(h, Run(blob, h, c).value) && ValuesInside(blob, Run(blob, h, c).value.state.tables)
    decreases if c.off <= |blob| then |blob| + 1 - c.off else 0
  {
    var l := Lex(blob, h, c.off);
    if l.Ok? && l.value.Lexeme? && Step(blob, h, c).Ok? {
      StepKeepsInv(blob, h, c);
      RunKeepsInv(blob, h, Step(blob, h, c).value);
    }
  }

  /** Whatever the blob, a parse that completes leaves links that point
      backwards and values that the drivers can read without leaving the blob. */
  lemma ParsedTablesAreSafe(blob: seq<Byte>, t: Tables<nat>)
    requires t.Valid() && t.deviceCount == 0 && t.phandleCount == 0
    ensures Parsed(blob, t).Ok? ==>
      var t' := Parsed(blob, t).value.state.tables;
      Linked(t') && ValuesInside(blob, t')
  {
    if ReadHeader(blob).Ok? {
      RunKeepsInv(blob, ReadHeader(blob).value, Start(t));
    }
  }

  // ---------- The parser itself ----------

  /** Reads the token at `off` with its operands, scanning names byte by byte. */
  method ReadToken(blob: seq<Byte>, h: Header, off: nat) returns (l: Outcome<Lexeme>)
    ensures l == Lex(blob, h, off)
  {
    var at := h.structOff + off;
    if at + 4 > |blob| {
      return Fault;
    }
    var token := ReadCell(blob, at);
    if token == FDT_BEGIN_NODE {
      var n := ScanString(blob, at + 4);
      l := if n.None? then Fault
           else Ok(Lexeme(Begin(blob[at + 4..at + 4 + n.value]), AlignUp(off + 4 + n.value + 1)));
    } else if token == FDT_END_NODE {
      l := Ok(Lexeme(End, off + 4));
    } else if token == FDT_PROP {
      l := ReadProperty(blob, h, off + 4);
    } else if token == FDT_NOP {
      l := Ok(Lexeme(Nop, off + 4));
    } else if token == FDT_END {
      l := Ok(Finished(off + 4));
    } else {
      l := Panic;
    }
  }

  method ReadProperty(blob: seq<Byte>, h: Header, off: nat) returns (l: Outcome<Lexeme>)
    ensures l == LexProp(blob, h, off)
  {
    var at := h.structOff + off;
    if at + 8 > |blob| {
      return Fault;
    }
    var len, nameAt := ReadCell(blob, at), h.stringsOff + ReadCell(blob, at + 4);
    var n := ScanString(blob, nameAt);
    if n.None? {
      return Fault;
    }
    l := Ok(PropLexeme(blob, blob[nameAt..nameAt + n.value], len, at + 8, off + 8));
  }

  /** The static tables, updated in place. */
  class DeviceTree {
    const devices: array<PlatformDevice<nat>>
    var deviceCount: nat
    const phandles: array<PhandleEntry>
    var phandleCount: nat

    ghost predicate Valid()
      reads this, devices
    {
      && devices.Length == MAX_DEVICES && deviceCount <= MAX_DEVICES
      && phandles.Length == MAX_HANDLES && phandleCount <= MAX_HANDLES
      && forall i :: 0 <= i < devices.Length ==> |devices[i].properties| == MAX_PROPS
    }

    ghost function Snapshot(): (t: Tables<nat>)
      requires Valid()
      reads this, devices, phandles
      ensures t.Valid()
    {
      Tables(devices[..], deviceCount, phandles[..], phandleCount)
    }

    /** The parser's depth stack: separate from the tables, holding table indices. */
    ghost predicate StackReady(stack: array<nat>, depth: nat)
      reads stack
    {
      && stack.Length == MAX_DEPTH && depth <= MAX_DEPTH
      && stack as object != devices && stack as object != phandles
      && forall k :: 0 <= k < depth ==> stack[k] < MAX_DEVICES
    }

    constructor ()
      ensures Valid() && fresh(devices) && fresh(phandles)
      ensures deviceCount == 0 && phandleCount == 0
    {
      devices := new PlatformDevice<nat>[MAX_DEVICES](_ => NewDevice(None, []));
      phandles := new PhandleEntry[MAX_HANDLES](_ => PhandleEntry(0, 0));
      deviceCount, phandleCount := 0, 0;
    }

    /** FDT_BEGIN_NODE: appends a device and pushes its index. */
    method BeginNode(name: seq<Byte>, stack: array<nat>, depth: nat) returns (ok: bool)
      requires Valid() && StackReady(stack, depth)
      modifies this`deviceCount, devices, stack
      ensures Valid()
      ensures match Apply(Begin(name), State(old(Snapshot()), old(stack[..depth]), 0))
        case Ok(s) => ok && StackReady(stack, depth + 1) && s == State(Snapshot(), stack[..depth + 1], 0)
        case _ => !ok
    {
      var parent: Option<nat> := None;
      if depth > 0 {
        parent := Some(stack[depth - 1]);
      }
      var device := NewDevice(parent, name);
      if deviceCount >= devices.Length {
        return false;
      }
      devices[deviceCount] := device;
      if depth >= stack.Length {
        return false;
      }
      stack[depth] := deviceCount;
      deviceCount := deviceCount + 1;
      ok := true;
    }

    /** FDT_END_NODE: records the property count of the innermost open node. */
    method EndNode(propId: nat, stack: array<nat>, depth: nat) returns (ok: bool)
      requires Valid() && StackReady(stack, depth)
      modifies devices
      ensures Valid() && StackReady(stack, depth)
      ensures match Apply(End, State(old(Snapshot()), old(stack[..depth]), propId))
        case Ok(s) => ok && depth > 0 && s == State(Snapshot(), stack[..depth - 1], propId)
        case _ => !ok
    {
      if depth == 0 {
        return false;
      }
      var d := stack[depth - 1];
      devices[d] := devices[d].(propCount := propId);
      assert stack[..depth][..depth - 1] == stack[..depth - 1];
      ok := true;
    }

    /** Registers a phandle of device `d`. */
    method RecordPhandle(p: PhandleCell, d: nat) returns (r: Outcome<()>)
      requires Valid()
      modifies this`phandleCount, phandles
      ensures Valid()
      ensures match DeviceTable.RecordPhandle(p, d, old(Snapshot()))
        case Ok(t) => r.Ok? && Snapshot() == t
        case Panic => r.Panic?
        case Fault => r.Fault?
    {
      r := Ok(());
      match p {
        case NotPhandle =>
        case Unreadable => r := Fault;
        case Phandle(cell) =>
          if phandleCount >= phandles.Length {
            return Panic;
          }
          phandles[phandleCount] := PhandleEntry(cell, d);
          phandleCount := phandleCount + 1;
      }
    }

    /** FDT_PROP: stores a property in slot `propId` of the innermost open node. */
    method AddProperty(t: Token<nat>, propId: nat, stack: array<nat>, depth: nat) returns (r: Outcome<()>)
      requires Valid() && StackReady(stack, depth) && t.Prop?
      modifies this`phandleCount, devices, phandles
      ensures Valid() && StackReady(stack, depth)
      ensures match Apply(t, State(old(Snapshot()), old(stack[..depth]), propId))
        case Ok(s) => r.Ok? && s == State(Snapshot(), stack[..depth], propId + 1)
        case Panic => r.Panic?
        case Fault => r.Fault?
    {
      if depth == 0 {
        return Panic;
      }
      var d := stack[depth - 1];
      r := RecordPhandle(t.phandle, d);
      if r.IsFailure() {
        return;
      }
      if propId >= MAX_PROPS {
        return Panic;
      }
      devices[d] := devices[d].(properties := devices[d].properties[propId := Property(t.name, Some(t.value), t.len)]);
      r := Ok(());
    }

    /** Dispatches on the token. */
    method ApplyToken(t: Token<nat>, propId: nat, stack: array<nat>, depth: nat)
      returns (r: Outcome<()>, propId': nat, depth': nat)
      requires Valid() && StackReady(stack, depth)
      modifies this`deviceCount, this`phandleCount, devices, phandles, stack
      ensures Valid()
      ensures match Apply(t, State(old(Snapshot()), old(stack[..depth]), propId))
        case Ok(s) => r.Ok? && StackReady(stack, depth') && s == State(Snapshot(), stack[..depth'], propId')
        case Panic => r.Panic?
        case Fault => r.Fault?
    {
      r, propId', depth' := Ok(()), propId, depth;
      match t {
        case Begin(name) =>
          var ok := BeginNode(name, stack, depth);
          r, propId', depth' := if ok then Ok(()) else Panic, 0, depth + 1;
        case End =>
          var ok := EndNode(propId, stack, depth);
          r, depth' := if ok then Ok(()) else Panic, if ok then depth - 1 else 0;
        case Prop(_, _, _, _) =>
          r := AddProperty(t, propId, stack, depth);
          propId' := propId + 1;
        case Nop =>
      }
    }

    /** Walks the structure block token by token. */
    method Parse(blob: seq<Byte>) returns (r: Outcome<nat>)
      requires Valid()
      modifies this`deviceCount, this`phandleCount, devices, phandles
      ensures Valid()
      ensures match Parsed(blob, old(Snapshot()))
        case Ok(c) => r == Ok(c.off) && Snapshot() == c.state.tables
        case Panic => r.Panic?
        case Fault => r.Fault?
    {
      if |blob| < HEADER_SIZE {
        return Fault;
      }
      if ReadCell(blob, 0x00) != MAGIC {
        return Panic;
      }
      var h := Header(ReadCell(blob, 0x08), ReadCell(blob, 0x0C));
      var off: nat, propId: nat, depth: nat := 0, 0, 0;
      var stack := new nat[MAX_DEPTH](_ => 0);
      ghost var whole := Run(blob, h, Start(Snapshot()));
      assert stack[..0] == [];
      while true
        invariant Valid() && fresh(stack) && StackReady(stack, depth)
        invariant whole == Run(blob, h, Cursor(off, State(Snapshot(), stack[..depth], propId)))
        decreases if off <= |blob| then |blob| + 1 - off else 0
      {
        var lexeme := ReadToken(blob, h, off);
        if lexeme.IsFailure() {
          return lexeme.PropagateFailure();
        }
        if lexeme.value.Finished? {
          return Ok(lexeme.value.next);
        }
        var done;
        done, propId, depth := ApplyToken(lexeme.value.token, propId, stack, depth);
        if done.IsFailure() {
          return done.PropagateFailure();
        }
        off := lexeme.value.next;
      }
    }
  }
}
