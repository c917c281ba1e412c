/**
 * The mobile record of the packet-log editor (`Mobile`): its status flag
 * byte, notoriety colour, name normalisation, change-guarded setters, the
 * list of items it wears or carries, and its ordered field save and load.
 */
module Mobiles {
  import opened Common

  type uint16 = x: int | 0 <= x < 0x1_0000
  type uint32 = x: int | 0 <= x < 0x1_0000_0000

  /** An item as the mobile sees it: its serial and the layer it is worn on. */
  datatype Item = Item(serial: uint32, layer: byte)

  /** An entry of the item list: a bare serial until `AfterLoad` resolves it, then the item. */
  datatype Entry = Unresolved(serial: uint32) | Resolved(item: Item)

  /** One value a `BinaryWriter` writes, with the width it is written at. */
  datatype Field = U8(b: byte) | U16(h: uint16) | U32(w: uint32) | I32(i: int) | Str(s: string)

  /** A call of a change hook: `OnNotoChange` or `OnMapChange`, with the old and new value. */
  datatype Change = NotorietyChange(from: byte, to: byte) | MapChange(from: byte, to: byte)

  /** What `GetItemOnLayer` yields: the first item on the layer, none, or the cast fault on a bare serial. */
  datatype Lookup = Found(item: Item) | NotFound | CastFault

  /** The layer a backpack is worn on. */
  const BACKPACK_LAYER: byte := 0x15

  // ---------------------------------------------------------------- flags

  /** The five status booleans the flag byte carries. */
  datatype Flags = Flags(female: bool, poisoned: bool, blessed: bool, warmode: bool, visible: bool)

  /** `GetPacketFlags`: 0x02 female, 0x04 poisoned, 0x08 blessed, 0x40 war mode, 0x80 hidden. */
  function EncodeFlags(f: Flags): bv8 {
    (if f.female then 0x02 else 0) |
    (if f.poisoned then 0x04 else 0) |
    (if f.blessed then 0x08 else 0) |
    (if f.warmode then 0x40 else 0) |
    (if !f.visible then 0x80 else 0)
  }

  /** `ProcessPacketFlags`: each boolean from its bit; visible when 0x80 is clear. */
  function DecodeFlags(b: bv8): Flags {
    Flags(b & 0x02 != 0, b & 0x04 != 0, b & 0x08 != 0, b & 0x40 != 0, b & 0x80 == 0)
  }

  /** Only bits within 0xCE are ever set. */
  lemma FlagBits(f: Flags)
    ensures EncodeFlags(f) & !0xCE == 0 && EncodeFlags(f) & 0xCE == EncodeFlags(f)
    ensures EncodeFlags(f) & 0x80 != 0 <==> !f.visible
  {
  }

  /** Decoding the encoded byte gives back all five booleans. */
  lemma FlagsRoundTrip(f: Flags)
    ensures DecodeFlags(EncodeFlags(f)) == f
  {
  }

  /** Encoding a decoded byte gives the byte with its unused bits cleared. */
  lemma FlagsMask(b: bv8)
    ensures EncodeFlags(DecodeFlags(b)) == b & 0xCE
  {
  }

  // ---------------------------------------------------------------- notoriety

  /** `m_NotoHues`: black, blue, green, greyish, grey, orange, red, yellow. */
  const NOTO_HUES: seq<int> := [0x000000, 0x30d0e0, 0x60e000, 0x9090b2, 0x909090, 0xd88038, 0xb01000, 0xe0e000]

  function NotorietyColor(n: byte): int {
    if n as int >= |NOTO_HUES| then NOTO_HUES[0] else NOTO_HUES[n as int]
  }

  /** The colour is black exactly for notoriety 0 and every value past the table; 1..7 get their own. */
  lemma NotorietyColors(n: byte)
    ensures NotorietyColor(n) == 0 <==> n == 0 || n >= 8
    ensures 1 <= n <= 7 ==> NotorietyColor(n) == NOTO_HUES[n]
    ensures NotorietyColor(1) == 0x30d0e0 && NotorietyColor(6) == 0xb01000
  {
  }

  // ---------------------------------------------------------------- names

  /** `Char.IsWhiteSpace`. */
  predicate IsWhiteSpace(c: char) {
    c == ' ' || ('\t' <= c <= '\r') || c == '\U{0085}' || c == '\U{00A0}' || c == '\U{1680}' ||
    ('\U{2000}' <= c <= '\U{200A}') || c == '\U{2028}' || c == '\U{2029}' || c == '\U{202F}' ||
    c == '\U{205F}' || c == '\U{3000}'
  }

  /** How many leading characters are white space. */
  function LeadingSpace(s: string): (n: nat)
    ensures n <= |s|
    ensures forall i :: 0 <= i < n ==> IsWhiteSpace(s[i])
    ensures n < |s| ==> !IsWhiteSpace(s[n])
  {
    if s == [] || !IsWhiteSpace(s[0]) then 0 else 1 + LeadingSpace(s[1..])
  }

  /** How many trailing characters are white space. */
  function TrailingSpace(s: string): (n: nat)
    ensures n <= |s|
    ensures forall i :: |s| - n <= i < |s| ==> IsWhiteSpace(s[i])
    ensures n < |s| ==> !IsWhiteSpace(s[|s| - n - 1])
  {
    if s == [] || !IsWhiteSpace(s[|s| - 1]) then 0 else 1 + TrailingSpace(s[..|s| - 1])
  }

  /** `String.Trim`: white space removed from both ends. */
  function Trim(s: string): (r: string)
    ensures |r| <= |s|
  {
    var a := LeadingSpace(s);
    s[a..][..|s[a..]| - TrailingSpace(s[a..])]
  }

  /** The trimmed string is a slice of `s` that neither starts nor ends with white space, and only white space was cut. */
  lemma TrimProperties(s: string)
    ensures var a, r := LeadingSpace(s), Trim(s);
      a + |r| <= |s| && r == s[a..a + |r|] &&
      (forall i :: 0 <= i < a ==> IsWhiteSpace(s[i])) &&
      (forall i :: a + |r| <= i < |s| ==> IsWhiteSpace(s[i]))
    ensures var r := Trim(s); |r| > 0 ==> !IsWhiteSpace(r[0]) && !IsWhiteSpace(r[|r| - 1])
    ensures |Trim(s)| == 0 <==> forall i :: 0 <= i < |s| ==> IsWhiteSpace(s[i])
  {
    var a := LeadingSpace(s);
    var t := s[a..];
    var b := TrailingSpace(t);
    var r := Trim(s);
    assert r == s[a..a + |r|];
    forall i | a + |r| <= i < |s|
      ensures IsWhiteSpace(s[i])
    {
      assert s[i] == t[i - a];
    }
    if |r| > 0 {
      assert r[0] == t[0];
      assert r[|r| - 1] == t[|t| - b - 1];
    }
  }

  /** Trimming twice is trimming once. */
  lemma TrimIdempotent(s: string)
    ensures Trim(Trim(s)) == Trim(s)
  {
    TrimProperties(s);
    var r := Trim(s);
    if |r| > 0 {
      assert LeadingSpace(r) == 0;
      assert TrailingSpace(r) == 0;
      assert r[0..] == r;
    }
  }

  // ---------------------------------------------------------------- item lists

  /** `GetItemOnLayer` over the list: the first resolved item on `layer`, stopping at the first bare serial. */
  function FirstOnLayer(entries: seq<Entry>, layer: byte): (r: Lookup)
  {
    if entries == [] then NotFound
    else match entries[0]
      case Unresolved(_) => CastFault
      case Resolved(it) => if it.layer == layer then Found(it) else FirstOnLayer(entries[1..], layer)
  }

  /** The first item on the layer is found; none is found only when no item is on it and no serial was met. */
  lemma {:induction false} FirstOnLayerMeans(entries: seq<Entry>, layer: byte)
    ensures var r := FirstOnLayer(entries, layer);
      (r.Found? ==> exists i :: 0 <= i < |entries| && entries[i] == Resolved(r.item) && r.item.layer == layer &&
                      forall k :: 0 <= k < i ==> entries[k].Resolved? && entries[k].item.layer != layer) &&
      (r.NotFound? <==> forall k :: 0 <= k < |entries| ==> entries[k].Resolved? && entries[k].item.layer != layer)
  {
    if entries != [] {
      FirstOnLayerMeans(entries[1..], layer);
      var r := FirstOnLayer(entries, layer);
      if entries[0].Resolved? && entries[0].item.layer != layer {
        if r.Found? {
          var i :| 0 <= i < |entries[1..]| && entries[1..][i] == Resolved(r.item) && r.item.layer == layer &&
                   forall k :: 0 <= k < i ==> entries[1..][k].Resolved? && entries[1..][k].item.layer != layer;
          assert entries[i + 1] == Resolved(r.item);
          assert forall k :: 0 < k < i + 1 ==> entries[k] == entries[1..][k - 1];
        }
        assert forall k :: 0 < k < |entries| ==> entries[k] == entries[1..][k - 1];
      }
    }
  }

  /** What `AfterLoad` makes of one entry: the resolved item, nothing if the world lacks it, an item as it was. */
  function ResolveOne(e: Entry, find: uint32 -> Option<Item>): seq<Entry> {
    match e
    case Resolved(_) => [e]
    case Unresolved(s) => if find(s).Some? then [Resolved(find(s).value)] else []
  }

  /** `AfterLoad` over the whole list. */
  function ResolveAll(entries: seq<Entry>, find: uint32 -> Option<Item>): (r: seq<Entry>)
    ensures forall k :: 0 <= k < |r| ==> r[k].Resolved?
  {
    if entries == [] then [] else ResolveOne(entries[0], find) + ResolveAll(entries[1..], find)
  }

  /** The serials of the list that the world does not know. */
  function Missing(entries: seq<Entry>, find: uint32 -> Option<Item>): nat {
    if entries == [] then 0
    else (if entries[0].Unresolved? && find(entries[0].serial).None? then 1 else 0) + Missing(entries[1..], find)
  }

  /** Replacing one entry by what it resolves to leaves the resolved list unchanged. */
  lemma ResolveReplace(entries: seq<Entry>, i: int, repl: seq<Entry>, find: uint32 -> Option<Item>)
    requires 0 <= i < |entries| && ResolveAll(repl, find) == ResolveOne(entries[i], find)
    ensures ResolveAll(entries[..i] + repl + entries[i + 1..], find) == ResolveAll(entries, find)
  {
    assert entries == entries[..i] + [entries[i]] + entries[i + 1..];
    ResolveAllKeepsOrder(entries[..i] + [entries[i]], entries[i + 1..], find);
    ResolveAllKeepsOrder(entries[..i], [entries[i]], find);
    ResolveAllKeepsOrder(entries[..i] + repl, entries[i + 1..], find);
    ResolveAllKeepsOrder(entries[..i], repl, find);
    assert ResolveAll([entries[i]], find) == ResolveOne(entries[i], find) + ResolveAll([], find);
  }

  /** `AfterLoad` keeps the relative order: it distributes over concatenation. */
  lemma {:induction false} ResolveAllKeepsOrder(a: seq<Entry>, b: seq<Entry>, find: uint32 -> Option<Item>)
    ensures ResolveAll(a + b, find) == ResolveAll(a, find) + ResolveAll(b, find)
  {
    if a != [] {
      assert (a + b)[0] == a[0] && (a + b)[1..] == a[1..] + b;
      ResolveAllKeepsOrder(a[1..], b, find);
    } else {
      assert a + b == b;
    }
  }

  /** The list shrinks by exactly the number of serials the world does not know. */
  lemma {:induction false} ResolveAllLength(entries: seq<Entry>, find: uint32 -> Option<Item>)
    ensures |ResolveAll(entries, find)| == |entries| - Missing(entries, find)
  {
    if entries != [] {
      ResolveAllLength(entries[1..], find);
    }
  }

  /** Items already resolved are left alone: a list without serials is unchanged. */
  lemma {:induction false} ResolveAllResolved(entries: seq<Entry>, find: uint32 -> Option<Item>)
    requires forall k :: 0 <= k < |entries| ==> entries[k].Resolved?
    ensures ResolveAll(entries, find) == entries
  {
    if entries != [] {
      ResolveAllResolved(entries[1..], find);
    }
  }

  /** The items before the first bare serial: what `Remove` hands to `Item.Remove` before its cast fails. */
  function ResolvedPrefix(entries: seq<Entry>): (r: seq<Item>)
    ensures |r| <= |entries|
    ensures forall k :: 0 <= k < |r| ==> entries[k] == Resolved(r[k])
    ensures |r| < |entries| ==> entries[|r|].Unresolved?
  {
    if entries == [] || entries[0].Unresolved? then [] else [entries[0].item] + ResolvedPrefix(entries[1..])
  }

  /** Every entry is an item. */
  predicate AllResolved(entries: seq<Entry>) {
    forall k :: 0 <= k < |entries| ==> entries[k].Resolved?
  }

  // ---------------------------------------------------------------- persistence

  /** The fields `SaveState` writes in its fixed order; `name` is already "" for null. */
  datatype SavedMobile = SavedMobile(
    body: uint16, direction: byte, name: string, notoriety: byte, flags: bv8,
    hitsMax: uint16, hits: uint16, mapIndex: byte, serials: seq<uint32>)

  /** The fields of a saved mobile as the writer lays them out. */
  function Header(m: SavedMobile): (r: seq<Field>)
    ensures |r| == 9
  {
    [U16(m.body), U8(m.direction), Str(m.name), U8(m.notoriety), U8(m.flags as int as byte),
     U16(m.hitsMax), U16(m.hits), U8(m.mapIndex), I32(|m.serials|)]
  }

  function SerialFields(serials: seq<uint32>): (r: seq<Field>)
    ensures |r| == |serials|
    ensures forall k :: 0 <= k < |r| ==> r[k] == U32(serials[k])
  {
    if serials == [] then [] else [U32(serials[0])] + SerialFields(serials[1..])
  }

  /** The complete field sequence of a saved mobile. */
  function Encode(m: SavedMobile): seq<Field> {
    Header(m) + SerialFields(m.serials)
  }

  /**
   * The load constructor over a field sequence: the nine header fields in
   * order, then `count` serials. `None` when a field is missing or of another
   * kind, or when `count` is negative (`new ArrayList(count)` throws). Returns
   * the mobile and the fields after it.
   */
  function Decode(fields: seq<Field>): (r: Option<(SavedMobile, seq<Field>)>)
  {
    if |fields| < 9 then None
    else if !(fields[0].U16? && fields[1].U8? && fields[2].Str? && fields[3].U8? && fields[4].U8? &&
              fields[5].U16? && fields[6].U16? && fields[7].U8? && fields[8].I32?) then None
    else
      var count := fields[8].i;
      if count < 0 then None
      else match ReadSerials(fields[9..], count)
        case None => None
        case Some(serials) =>
          Some((SavedMobile(fields[0].h, fields[1].b, fields[2].s, fields[3].b, fields[4].b as int as bv8,
                            fields[5].h, fields[6].h, fields[7].b, serials),
                fields[9 + count..]))
  }

  /** `count` calls of `ReadUInt32`: `None` when the fields run out or one is of another kind. */
  function ReadSerials(fields: seq<Field>, count: nat): (r: Option<seq<uint32>>)
    ensures r.Some? <==> count <= |fields| && forall k :: 0 <= k < count ==> fields[k].U32?
    ensures r.Some? ==> |r.value| == count && forall k :: 0 <= k < count ==> r.value[k] == fields[k].w
  {
    if count == 0 then Some([])
    else if fields == [] || !fields[0].U32? then None
    else match ReadSerials(fields[1..], count - 1)
      case None => None
      case Some(rest) => Some([fields[0].w] + rest)
  }

  /** Loading what was saved gives back every field and every serial, and leaves what follows for the next reader. */
  lemma SaveLoadRoundTrip(m: SavedMobile, rest: seq<Field>)
    ensures Decode(Encode(m) + rest) == Some((m, rest))
  {
    var f := Encode(m) + rest;
    var n := |m.serials|;
    assert f[9..] == SerialFields(m.serials) + rest;
    var r := ReadSerials(f[9..], n);
    assert r.value == m.serials;
    assert f[9 + n..] == rest;
    assert (m.flags as int as byte) as int as bv8 == m.flags;
  }

  /** A record whose flag byte came from `GetPacketFlags` is loaded back exactly, flags included. */
  lemma ReloadKeepsRecord(m: SavedMobile, f: Flags, rest: seq<Field>)
    requires m.flags == EncodeFlags(f)
    ensures Decode(Encode(m) + rest).Some?
    ensures var d := Decode(Encode(m) + rest).value; d.0.(flags := d.0.flags & 0xCE) == m && d.1 == rest
  {
    SaveLoadRoundTrip(m, rest);
    FlagBits(f);
  }

  /** The serial an entry refers to, resolved or not. */
  function EntrySerial(e: Entry): uint32 {
    if e.Unresolved? then e.serial else e.item.serial
  }

  function Serials(entries: seq<Entry>): (r: seq<uint32>)
    ensures |r| == |entries|
    ensures forall k :: 0 <= k < |r| ==> r[k] == EntrySerial(entries[k])
  {
    if entries == [] then [] else [EntrySerial(entries[0])] + Serials(entries[1..])
  }

  class Mobile {
    const serial: uint32
    var body: uint16
    var direction: byte
    var name: Option<string>
    var notoriety: byte
    var visible: bool
    var female: bool
    var poisoned: bool
    var blessed: bool
    var warmode: bool
    var hitsMax: uint16
    var hits: uint16
    var items: seq<Entry>
    var mapIndex: byte
    /** The change hooks called, in order. */
    var changes: seq<Change>
    /** The items handed to `Item.Remove`, in order. */
    var removedItems: seq<Item>
    /** Whether `World.RemoveMobile` and the base removal have run. */
    var removedFromWorld: bool

    /** `Mobile(Serial)`: no items, visible, on the player's map (0 without a player). */
    constructor (serial: uint32, playerMap: Option<byte>)
      ensures this.serial == serial && items == [] && visible
      ensures mapIndex == (if playerMap.Some? then playerMap.value else 0)
      ensures name.None? && notoriety == 0 && changes == [] && removedItems == [] && !removedFromWorld
      ensures body == 0 && direction == 0 && hitsMax == 0 && hits == 0
      ensures !female && !poisoned && !blessed && !warmode
    {
      this.serial := serial;
      body, direction, name, notoriety := 0, 0, None, 0;
      visible, female, poisoned, blessed, warmode := true, false, false, false, false;
      hitsMax, hits := 0, 0;
      items := [];
      mapIndex := if playerMap.Some? then playerMap.value else 0;
      changes, removedItems, removedFromWorld := [], [], false;
    }

    function StatusFlags(): Flags
      reads this
    {
      Flags(female, poisoned, blessed, warmode, visible)
    }

    /** The `Name` getter: never null. */
    function Name(): (r: string)
      reads this
      ensures name.None? ==> r == ""
      ensures name.Some? ==> r == name.value
    {
      if name.None? then "" else name.value
    }

    /** The `Name` setter: null and blank values are ignored, any other is stored trimmed. */
    method SetName(value: Option<string>)
      modifies this`name
      ensures value.None? || |Trim(value.value)| == 0 ==> name == old(name)
      ensures value.Some? && |Trim(value.value)| > 0 ==> name == Some(Trim(value.value))
    {
      if value.Some? {
        var trim := Trim(value.value);
        if |trim| > 0 {
          name := Some(trim);
        }
      }
    }

    /** The `Notoriety` setter: the hook runs and the field changes only for a new value. */
    method SetNotoriety(value: byte)
      modifies this`notoriety, this`changes
      ensures notoriety == value
      ensures changes == old(changes) + (if value == old(notoriety) then [] else [NotorietyChange(old(notoriety), value)])
    {
      if value != notoriety {
        changes := changes + [NotorietyChange(notoriety, value)];
        notoriety := value;
      }
    }

    /** The `Map` setter: as `Notoriety`, with `OnMapChange`. */
    method SetMap(value: byte)
      modifies this`mapIndex, this`changes
      ensures mapIndex == value
      ensures changes == old(changes) + (if value == old(mapIndex) then [] else [MapChange(old(mapIndex), value)])
    {
      if mapIndex != value {
        changes := changes + [MapChange(mapIndex, value)];
        mapIndex := value;
      }
    }

    function GetNotorietyColor(): int
      reads this
    {
      NotorietyColor(notoriety)
    }

    /** 1 when poisoned, 0 otherwise. */
    function GetStatusCode(): (r: byte)
      reads this
      ensures r == 1 <==> poisoned
      ensures r == 0 <==> !poisoned
    {
      if poisoned then 1 else 0
    }

    function GetPacketFlags(): bv8
      reads this
    {
      EncodeFlags(StatusFlags())
    }

    method ProcessPacketFlags(flags: bv8)
      modifies this`female, this`poisoned, this`blessed, this`warmode, this`visible
      ensures StatusFlags() == DecodeFlags(flags)
    {
      female := flags & 0x02 != 0;
      poisoned := flags & 0x04 != 0;
      blessed := flags & 0x08 != 0;
      warmode := flags & 0x40 != 0;
      visible := flags & 0x80 == 0;
    }

    method AddItem(item: Item)
      modifies this`items
      ensures items == old(items) + [Resolved(item)]
    {
      items := items + [Resolved(item)];
    }

    /** `ArrayList.Remove`: the first entry holding `item` goes. */
    method RemoveItem(item: Item)
      modifies this`items
      ensures Resolved(item) !in old(items) ==> items == old(items)
      ensures Resolved(item) in old(items) ==>
        exists i :: 0 <= i < |old(items)| && old(items)[i] == Resolved(item) &&
          Resolved(item) !in old(items)[..i] && items == old(items)[..i] + old(items)[i + 1..]
    {
      var i := 0;
      while i < |items|
        invariant 0 <= i <= |items| && items == old(items)
        invariant Resolved(item) !in items[..i]
      {
        if items[i] == Resolved(item) {
          items := items[..i] + items[i + 1..];
          return;
        }
        assert items[..i + 1] == items[..i] + [items[i]];
        i := i + 1;
      }
      assert items[..i] == items;
    }

    /**
     * `Remove`: the list is emptied, then each former item is removed from the
     * world in order; a bare serial fails the cast and ends the call there.
     */
    method Remove()
      modifies this`items, this`removedItems, this`removedFromWorld
      ensures items == []
      ensures removedItems == old(removedItems) + ResolvedPrefix(old(items))
      ensures removedFromWorld == (old(removedFromWorld) || AllResolved(old(items)))
    {
      var rem := items;
      items := [];
      var i := 0;
      while i < |rem|
        invariant 0 <= i <= |rem| && items == []
        invariant forall k :: 0 <= k < i ==> rem[k].Resolved?
        invariant removedItems == old(removedItems) + ResolvedPrefix(rem[..i])
        invariant removedFromWorld == old(removedFromWorld)
      {
        if rem[i].Unresolved? {
          assert ResolvedPrefix(rem) == ResolvedPrefix(rem[..i]) by { PrefixStops(rem, i); }
          return;
        }
        PrefixExtends(rem, i);
        removedItems := removedItems + [rem[i].item];
        i := i + 1;
      }
      assert rem[..i] == rem;
      removedFromWorld := true;
    }

    /** `GetItemOnLayer`: the first item, in list order, worn on `layer`. */
    method GetItemOnLayer(layer: byte) returns (r: Lookup)
      ensures r == FirstOnLayer(items, layer)
    {
      var i := 0;
      while i < |items|
        invariant 0 <= i <= |items|
        invariant FirstOnLayer(items, layer) == FirstOnLayer(items[i..], layer)
      {
        assert items[i..][1..] == items[i + 1..];
        if items[i].Unresolved? {
          return CastFault;
        }
        if items[i].item.layer == layer {
          return Found(items[i].item);
        }
        i := i + 1;
      }
      return NotFound;
    }

    /** `Backpack`: the item on layer 0x15. */
    method Backpack() returns (r: Lookup)
      ensures r == FirstOnLayer(items, BACKPACK_LAYER)
    {
      r := GetItemOnLayer(BACKPACK_LAYER);
    }

    /**
     * `AfterLoad`: each bare serial is replaced by the item the world finds for
     * it, or removed (`RemoveAt(i); i--`) when there is none.
     */
    method AfterLoad(find: uint32 -> Option<Item>)
      modifies this`items
      ensures items == ResolveAll(old(items), find)
    {
      ghost var orig := items;
      var i := 0;
      while i < |items|
        invariant 0 <= i <= |items|
        invariant forall k :: 0 <= k < i ==> items[k].Resolved?
        invariant ResolveAll(items, find) == ResolveAll(orig, find)
        decreases |items| - i
      {
        i := ResolveEntry(i, find);
      }
      ResolveAllResolved(items, find);
    }

    /** One turn of the `AfterLoad` loop: the entry at `i` resolved, or removed when the world lacks it. */
    method ResolveEntry(i: nat, find: uint32 -> Option<Item>) returns (next: nat)
      requires i < |items| && forall k :: 0 <= k < i ==> items[k].Resolved?
      modifies this`items
      ensures next <= |items| && |items| - next < |old(items)| - i
      ensures forall k :: 0 <= k < next ==> items[k].Resolved?
      ensures ResolveAll(items, find) == ResolveAll(old(items), find)
    {
      next := i + 1;
      if items[i].Unresolved? {
        var found := find(items[i].serial);
        if found.None? {
          ResolveReplace(items, i, [], find);
          assert items[..i] + [] + items[i + 1..] == items[..i] + items[i + 1..];
          items := items[..i] + items[i + 1..];
          next := i;
        } else {
          ResolveReplace(items, i, [Resolved(found.value)], find);
          assert items[..i] + [Resolved(found.value)] + items[i + 1..] == items[i := Resolved(found.value)];
          items := items[i := Resolved(found.value)];
        }
      }
    }

    /** The field reads of the load constructor, in stream order; the flag byte goes through `ProcessPacketFlags`. */
    method Restore(body: uint16, direction: byte, name: string, notoriety: byte, flags: bv8,
                   hitsMax: uint16, hits: uint16, mapIndex: byte, list: seq<Entry>)
      modifies this`body, this`direction, this`name, this`notoriety, this`hitsMax, this`hits, this`mapIndex, this`items
      modifies this`female, this`poisoned, this`blessed, this`warmode, this`visible
      ensures Record() == SavedMobile(body, direction, name, notoriety, flags & 0xCE, hitsMax, hits, mapIndex, Serials(list))
      ensures StatusFlags() == DecodeFlags(flags) && items == list
    {
      this.body := body;
      this.direction := direction;
      this.name := Some(name);
      this.notoriety := notoriety;
      ProcessPacketFlags(flags);
      this.hitsMax := hitsMax;
      this.hits := hits;
      this.mapIndex := mapIndex;
      items := list;
      FlagsMask(flags);
    }

    /** The record `SaveState` writes for this mobile and the load constructor reads back. */
    function Record(): SavedMobile
      reads this
    {
      SavedMobile(body, direction, Name(), notoriety, GetPacketFlags(), hitsMax, hits, mapIndex, Serials(items))
    }

    /**
     * `SaveState`: the header fields, the item count, then one serial per item.
     * A bare serial fails the cast, so the write stops there and `ok` is false.
     */
    method SaveState() returns (written: seq<Field>, ok: bool)
      ensures ok == AllResolved(items)
      ensures ok ==> written == Encode(Record())
      ensures !ok ==> written == Header(Record()) + SerialFields(Serials(items[..|ResolvedPrefix(items)|]))
    {
      written := [U16(body), U8(direction), Str(Name()), U8(notoriety), U8(GetPacketFlags() as int as byte),
                  U16(hitsMax), U16(hits), U8(mapIndex), I32(|items|)];
      var more;
      more, ok := WriteSerials(items);
      written := written + more;
      if ok {
        assert items[..|ResolvedPrefix(items)|] == items;
      }
    }

    /**
     * The load constructor: a mobile read from `fields`, or `None` when they do
     * not hold one. The serials stay bare until `AfterLoad`.
     */
    static method Load(serial: uint32, fields: seq<Field>) returns (m: Option<Mobile>, rest: seq<Field>)
      ensures Decode(fields).None? <==> m.None?
      ensures m.Some? ==> fresh(m.value) && rest == Decode(fields).value.1
      ensures m.Some? ==> m.value.Record() == Decode(fields).value.0.(flags := Decode(fields).value.0.flags & 0xCE)
      ensures m.Some? ==> m.value.serial == serial && m.value.StatusFlags() == DecodeFlags(Decode(fields).value.0.flags)
      ensures m.Some? ==> forall k :: 0 <= k < |m.value.items| ==> m.value.items[k].Unresolved?
      ensures m.Some? ==> m.value.changes == [] && m.value.removedItems == [] && !m.value.removedFromWorld
    {
      rest := fields;
      if Decode(fields).None? {
        return None, fields;
      }
      ghost var saved := Decode(fields).value.0;
      var mob := new Mobile(serial, None);
      var list := ReadItems(fields[9..], fields[8].i);
      mob.Restore(fields[0].h, fields[1].b, fields[2].s, fields[3].b, fields[4].b as int as bv8,
                  fields[5].h, fields[6].h, fields[7].b, list);
      assert Serials(list) == saved.serials;
      m := Some(mob);
      rest := fields[9 + fields[8].i..];
    }
  }

  /**
   * The serial loop of `SaveState`: one serial per entry, stopping at the
   * first bare serial, whose cast to `Item` fails.
   */
  method WriteSerials(entries: seq<Entry>) returns (written: seq<Field>, ok: bool)
    ensures ok == AllResolved(entries)
    ensures written == SerialFields(Serials(entries[..|ResolvedPrefix(entries)|]))
  {
    written := [];
    var serials: seq<uint32> := [];
    var i := 0;
    while i < |entries|
      invariant 0 <= i <= |entries| && |serials| == i
      invariant forall k :: 0 <= k < i ==> entries[k].Resolved? && serials[k] == entries[k].item.serial
      invariant written == SerialFields(serials)
    {
      if entries[i].Unresolved? {
        PrefixStops(entries, i);
        assert serials == Serials(entries[..i]);
        return written, false;
      }
      SerialFieldsSnoc(serials, entries[i].item.serial);
      written := written + [U32(entries[i].item.serial)];
      serials := serials + [entries[i].item.serial];
      i := i + 1;
    }
    ok := true;
    assert entries[..|ResolvedPrefix(entries)|] == entries;
    assert serials == Serials(entries);
  }

  /** The serial loop of the load constructor: `count` bare serials, in stream order. */
  method ReadItems(fields: seq<Field>, count: nat) returns (list: seq<Entry>)
    requires ReadSerials(fields, count).Some?
    ensures |list| == count && Serials(list) == ReadSerials(fields, count).value
    ensures forall k :: 0 <= k < count ==> list[k].Unresolved?
  {
    ghost var serials := ReadSerials(fields, count).value;
    list := [];
    var i := 0;
    while i < count
      invariant 0 <= i <= count && |list| == i
      invariant forall k :: 0 <= k < i ==> list[k] == Unresolved(serials[k])
    {
      assert fields[i].U32? && serials[i] == fields[i].w;
      list := list + [Unresolved(fields[i].w)];
      i := i + 1;
    }
  }

  lemma {:induction false} SerialFieldsSnoc(serials: seq<uint32>, s: uint32)
    ensures SerialFields(serials + [s]) == SerialFields(serials) + [U32(s)]
  {
  }

  /** Before the first bare serial the prefix grows by the next item. */
  lemma {:induction false} PrefixExtends(entries: seq<Entry>, i: int)
    requires 0 <= i < |entries| && entries[i].Resolved?
    requires forall k :: 0 <= k < i ==> entries[k].Resolved?
    ensures ResolvedPrefix(entries[..i + 1]) == ResolvedPrefix(entries[..i]) + [entries[i].item]
  {
    if i > 0 {
      assert entries[..i + 1][1..] == entries[1..][..i];
      assert entries[..i][1..] == entries[1..][..i - 1];
      PrefixExtends(entries[1..], i - 1);
    }
  }

  /** At the first bare serial the prefix stops growing. */
  lemma {:induction false} PrefixStops(entries: seq<Entry>, i: int)
    requires 0 <= i < |entries| && entries[i].Unresolved?
    requires forall k :: 0 <= k < i ==> entries[k].Resolved?
    ensures ResolvedPrefix(entries) == ResolvedPrefix(entries[..i])
  {
    if i > 0 {
      assert entries[..i][1..] == entries[1..][..i - 1];
      PrefixStops(entries[1..], i - 1);
    }
  }
}
