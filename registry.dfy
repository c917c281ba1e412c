/**
 * The observer registry of the window-message interface: the windows that
 * asked to be told about the game (`m_WndReg`), the commands they added
 * (`m_NextCmdID`), and the broadcasts sent to them. `PostMessage` is a
 * foreign call; the model logs every post it attempts and takes whether it
 * was delivered from a function passed in.
 */
module Registry {
  import opened Common
  import opened UOAQueries

  /** One registered window: its handle and its type (1 = wants structure notifications). */
  datatype WndRegEnt = WndRegEnt(handle: int, kind: int)

  /** One `PostMessage` call: target window, message and its two parameters. */
  datatype Post = Post(hwnd: int, msg: int, wParam: int, lParam: int)

  /** A multi in the world, as REGISTER's back-fill reads it. */
  datatype WorldItem = WorldItem(itemId: int, x: int, y: int)

  /** A command a tool added: the message id it is called back with, its window and its name. */
  datatype WndCmd = WndCmd(id: int, hwnd: int, name: string)

  /** Item ids from 0x4000 up are multis (houses, boats). */
  const MULTI_ID: int := 0x4000

  /** The handles of the registry, in order. */
  function Handles(reg: seq<WndRegEnt>): (r: seq<int>)
    ensures |r| == |reg|
    ensures forall i :: 0 <= i < |reg| ==> r[i] == reg[i].handle
  {
    if reg == [] then [] else [reg[0].handle] + Handles(reg[1..])
  }

  /** No handle is registered twice. */
  predicate NoDuplicateHandles(reg: seq<WndRegEnt>) {
    forall i, j :: 0 <= i < j < |reg| ==> reg[i].handle != reg[j].handle
  }

  /** The first index of `h` in the registry, or -1: the search loop of REGISTER. */
  function IndexOf(reg: seq<WndRegEnt>, h: int): (i: int)
    ensures -1 <= i < |reg|
    ensures i >= 0 ==> reg[i].handle == h
    ensures forall k :: 0 <= k < |reg| && (i < 0 || k < i) ==> reg[k].handle != h
  {
    if reg == [] then -1
    else if reg[0].handle == h then 0
    else
      var i := IndexOf(reg[1..], h);
      if i < 0 then -1 else i + 1
  }

  /** The registry without the entry at index `i`. */
  function RemoveAt(reg: seq<WndRegEnt>, i: int): (r: seq<WndRegEnt>)
    requires 0 <= i < |reg|
    ensures |r| == |reg| - 1
  {
    reg[..i] + reg[i + 1..]
  }

  /** What REGISTER does to the registry: remove the window if present, else append it. */
  function Toggled(reg: seq<WndRegEnt>, hwnd: int, lParam: int): seq<WndRegEnt> {
    var i := IndexOf(reg, hwnd);
    if i >= 0 then RemoveAt(reg, i)
    else reg + [WndRegEnt(hwnd, if lParam == 1 then 1 else 0)]
  }

  /** ADD_MULTI for every multi of the world, posted to the window that just registered for them. */
  function BackFill(hwnd: int, items: seq<WorldItem>): (r: seq<Post>)
    ensures |r| <= |items|
    ensures forall k :: 0 <= k < |r| ==> r[k].hwnd == hwnd && r[k].msg == ADD_MULTI
  {
    if items == [] then []
    else
      var it := items[0];
      (if it.itemId >= MULTI_ID then [Post(hwnd, ADD_MULTI, Pack(it.x, it.y), it.itemId)] else [])
      + BackFill(hwnd, items[1..])
  }

  /** The message `msg` posted to every registered window, in registry order. */
  function Broadcast(reg: seq<WndRegEnt>, msg: int, w: int, l: int): (r: seq<Post>)
    ensures |r| == |reg|
    ensures forall k :: 0 <= k < |reg| ==> r[k] == Post(reg[k].handle, msg, w, l)
  {
    if reg == [] then [] else [Post(reg[0].handle, msg, w, l)] + Broadcast(reg[1..], msg, w, l)
  }

  /** The message posted to the type-1 windows only, in registry order. */
  function ToStructureWindows(reg: seq<WndRegEnt>, msg: int, w: int, l: int): (r: seq<Post>)
    ensures |r| <= |reg|
    ensures forall p :: p in r ==> p.msg == msg && p.wParam == w && p.lParam == l
  {
    if reg == [] then []
    else (if reg[0].kind == 1 then [Post(reg[0].handle, msg, w, l)] else [])
         + ToStructureWindows(reg[1..], msg, w, l)
  }

  /** The entries whose post of `(msg, w, l)` was delivered, in their old order. */
  function Survivors(reg: seq<WndRegEnt>, delivered: Post -> bool, msg: int, w: int, l: int): (r: seq<WndRegEnt>)
    ensures |r| <= |reg|
  {
    if reg == [] then []
    else (if delivered(Post(reg[0].handle, msg, w, l)) then [reg[0]] else [])
         + Survivors(reg[1..], delivered, msg, w, l)
  }

  /** The entries whose post failed, in registry order: the source's removal list. */
  function Failures(reg: seq<WndRegEnt>, delivered: Post -> bool, msg: int, w: int, l: int): (r: seq<WndRegEnt>)
    ensures |r| <= |reg|
  {
    if reg == [] then []
    else (if delivered(Post(reg[0].handle, msg, w, l)) then [] else [reg[0]])
         + Failures(reg[1..], delivered, msg, w, l)
  }

  /** `ArrayList.Remove`: the first entry equal to `e` goes; without one nothing changes. */
  function RemoveFirst(reg: seq<WndRegEnt>, e: WndRegEnt): (r: seq<WndRegEnt>)
    ensures e !in reg ==> r == reg
    ensures e in reg ==> |r| == |reg| - 1
  {
    if reg == [] then []
    else if reg[0] == e then reg[1..]
    else [reg[0]] + RemoveFirst(reg[1..], e)
  }

  /** The entries of `reg` that are not in `gone`, in order. */
  function Without(reg: seq<WndRegEnt>, gone: seq<WndRegEnt>): (r: seq<WndRegEnt>)
    ensures |r| <= |reg|
    ensures forall e :: e in r <==> e in reg && e !in gone
  {
    if reg == [] then []
    else (if reg[0] in gone then [] else [reg[0]]) + Without(reg[1..], gone)
  }

  /** Where the next command id goes: `m_NextCmdID++` on a `uint`. */
  function NextCmdId(id: int): int {
    (id + 1) % 0x1_0000_0000
  }

  class WndRegistry {
    var entries: seq<WndRegEnt>
    var nextCmdId: int
    var commands: seq<WndCmd>
    /** The names `Command.RemoveCommand` was called with. */
    var removedCommands: seq<string>
    /** Every `PostMessage` attempted, in order. */
    var posts: seq<Post>
    /** Whether `m_NextCmdID` has wrapped around; until it does, ids are unique. */
    ghost var wrapped: bool

    /** No window twice; until the counter wraps, command ids increase and stay below the next one. */
    ghost predicate Valid()
      reads this
    {
      NoDuplicateHandles(entries) &&
      0 <= nextCmdId < 0x1_0000_0000 &&
      (!wrapped ==>
        FIRST_CMD_ID <= nextCmdId &&
        (forall k :: 0 <= k < |commands| ==> FIRST_CMD_ID <= commands[k].id < nextCmdId) &&
        (forall j, k :: 0 <= j < k < |commands| ==> commands[j].id < commands[k].id))
    }

    /** The registry as the static constructor leaves it. */
    constructor ()
      ensures Valid()
      ensures entries == [] && nextCmdId == FIRST_CMD_ID && commands == [] && removedCommands == [] && posts == []
      ensures !wrapped
    {
      entries, nextCmdId, commands, removedCommands, posts := [], FIRST_CMD_ID, [], [], [];
      wrapped := false;
    }

    /**
     * REGISTER: a registered window is removed (reply 2); any other is appended
     * with type 1 iff `lParam == 1` (reply 1), and such a window is then sent an
     * ADD_MULTI for every multi of the world (`items`, `None` while the world has
     * no item table).
     */
    method Register(hwnd: int, lParam: int, items: Option<seq<WorldItem>>) returns (r: int)
      requires Valid()
      modifies this`entries, this`posts
      ensures Valid()
      ensures r == (if hwnd in Handles(old(entries)) then 2 else 1)
      ensures entries == Toggled(old(entries), hwnd, lParam)
      ensures posts == old(posts) +
        (if r == 1 && lParam == 1 && items.Some? then BackFill(hwnd, items.value) else [])
    {
      ToggleKeepsUnique(entries, hwnd, lParam);
      RegisteredAt(entries, hwnd);
      var i := Find(hwnd);
      if i >= 0 {
        entries := RemoveAt(entries, i);
        return 2;
      }
      entries := entries + [WndRegEnt(hwnd, if lParam == 1 then 1 else 0)];
      if lParam == 1 && items.Some? {
        PostBackFill(hwnd, items.value);
      }
      r := 1;
    }

    /** REGISTER's search: the first index holding `hwnd`, or -1. */
    method Find(hwnd: int) returns (i: int)
      ensures i == IndexOf(entries, hwnd)
    {
      i := 0;
      while i < |entries|
        invariant 0 <= i <= |entries|
        invariant forall k :: 0 <= k < i ==> entries[k].handle != hwnd
      {
        if entries[i].handle == hwnd {
          IndexOfFirst(entries, hwnd, i);
          return;
        }
        i := i + 1;
      }
      IndexOfNone(entries, hwnd);
      i := -1;
    }

    /** The ADD_MULTI back-fill to a window that just registered for structure notifications. */
    method PostBackFill(hwnd: int, items: seq<WorldItem>)
      requires Valid()
      modifies this`posts
      ensures Valid()
      ensures posts == old(posts) + BackFill(hwnd, items)
    {
      var j := 0;
      while j < |items|
        invariant 0 <= j <= |items|
        invariant posts == old(posts) + BackFill(hwnd, items[..j])
      {
        BackFillSnoc(hwnd, items[..j], items[j]);
        assert items[..j + 1] == items[..j] + [items[j]];
        if items[j].itemId >= MULTI_ID {
          posts := posts + [Post(hwnd, ADD_MULTI, Pack(items[j].x, items[j].y), items[j].itemId)];
        }
        j := j + 1;
      }
      assert items[..j] == items;
    }

    /**
     * `OnUOAMessage`: REGISTER and ADD_CMD change the registry, DISPLAY_TEXT
     * answers 1 once the player exists and the text's atom resolves, every
     * other message is a query. `atomName` is what `GlobalGetAtomName` yields
     * for `lParam`, `None` when it fails.
     */
    method OnUOAMessage(msg: int, w: int, l: int, player: Option<Player>, host: Host,
                        items: Option<seq<WorldItem>>, atomName: Option<string>)
      returns (reply: LockAnswer)
      requires Valid()
      modifies this
      ensures Valid()
      ensures reply.LockFault? <==> QueryFaults(player, msg, w, l)
      ensures msg == REGISTER ==>
        reply == LockReply(if w in Handles(old(entries)) then 2 else 1, None) &&
        entries == Toggled(old(entries), w, l) &&
        posts == old(posts) +
          (if w !in Handles(old(entries)) && l == 1 && items.Some? then BackFill(w, items.value) else []) &&
        nextCmdId == old(nextCmdId) && commands == old(commands) &&
        removedCommands == old(removedCommands) && wrapped == old(wrapped)
      ensures msg == ADD_CMD ==>
        reply.LockReply? && reply.sent.None? && entries == old(entries) && posts == old(posts)
      ensures msg == ADD_CMD && (atomName.None? || w == 0) ==>
        reply.code == 0 && nextCmdId == old(nextCmdId) && commands == old(commands) &&
        wrapped == old(wrapped) &&
        removedCommands == old(removedCommands) + (if atomName.Some? then [atomName.value] else [])
      ensures msg == ADD_CMD && atomName.Some? && w != 0 ==>
        reply.code == ToInt32(old(nextCmdId)) &&
        commands == old(commands) + [WndCmd(old(nextCmdId), w, atomName.value)] &&
        nextCmdId == NextCmdId(old(nextCmdId)) && removedCommands == old(removedCommands) &&
        wrapped == (old(wrapped) || nextCmdId == 0)
      ensures msg == DISPLAY_TEXT ==>
        reply == LockReply(if player.Some? && atomName.Some? then 1 else 0, None) && unchanged(this)
      ensures msg != REGISTER && msg != ADD_CMD && msg != DISPLAY_TEXT ==>
        reply == Query(player, host, msg, w, l) && unchanged(this)
    {
      if msg == REGISTER {
        var code := Register(w, l, if l == 1 then items else None);
        reply := LockReply(code, None);
      } else if msg == ADD_CMD {
        var code := AddCmd(w, atomName);
        reply := LockReply(code, None);
      } else if msg == DISPLAY_TEXT {
        reply := LockReply(if player.Some? && atomName.Some? then 1 else 0, None);
      } else {
        reply := Query(player, host, msg, w, l);
      }
    }

    /**
     * `PostToWndReg`: post to every window in order, collecting those whose post
     * failed, then remove each of them.
     */
    method PostToWndReg(msg: int, w: int, l: int, delivered: Post -> bool)
      requires Valid()
      modifies this`entries, this`posts
      ensures Valid()
      ensures posts == old(posts) + Broadcast(old(entries), msg, w, l)
      ensures entries == Survivors(old(entries), delivered, msg, w, l)
    {
      var rem := PostAll(msg, w, l, delivered);
      RemoveAll(rem);
      FailuresAreNotSurvivors(old(entries), delivered, msg, w, l);
    }

    /** The posting loop: every window in order, the failed ones collected. */
    method PostAll(msg: int, w: int, l: int, delivered: Post -> bool) returns (rem: seq<WndRegEnt>)
      requires Valid()
      modifies this`posts
      ensures Valid()
      ensures posts == old(posts) + Broadcast(entries, msg, w, l)
      ensures rem == Failures(entries, delivered, msg, w, l)
    {
      rem := [];
      var i := 0;
      while i < |entries|
        invariant 0 <= i <= |entries|
        invariant posts == old(posts) + Broadcast(entries[..i], msg, w, l)
        invariant rem == Failures(entries[..i], delivered, msg, w, l)
      {
        var p := Post(entries[i].handle, msg, w, l);
        posts := posts + [p];
        BroadcastSnoc(entries[..i], entries[i], msg, w, l);
        FailuresSnoc(entries[..i], entries[i], delivered, msg, w, l);
        assert entries[..i + 1] == entries[..i] + [entries[i]];
        if !delivered(p) {
          rem := rem + [entries[i]];
        }
        i := i + 1;
      }
      assert entries[..i] == entries;
    }

    /** The removal loop: `m_WndReg.Remove` for each collected entry. */
    method RemoveAll(rem: seq<WndRegEnt>)
      requires Valid()
      modifies this`entries
      ensures Valid()
      ensures entries == Without(old(entries), rem)
    {
      ghost var all := entries;
      WithoutNothing(all);
      var k := 0;
      while k < |rem|
        invariant 0 <= k <= |rem|
        invariant Valid()
        invariant entries == Without(all, rem[..k])
      {
        RemoveFirstIsWithout(all, rem[..k], rem[k]);
        assert rem[..k + 1] == rem[..k] + [rem[k]];
        entries := RemoveFirst(entries, rem[k]);
        WithoutKeepsNoDuplicates(all, rem[..k + 1]);
        k := k + 1;
      }
      assert rem[..k] == rem;
    }

    /** ADD_MULTI to every type-1 window, unless the packed position is 0. */
    method PostAddMulti(itemId: int, x: int, y: int)
      requires Valid()
      modifies this`posts
      ensures Valid()
      ensures posts == old(posts) +
        (if Pack(x, y) == 0 then [] else ToStructureWindows(entries, ADD_MULTI, Pack(x, y), itemId))
    {
      var pos := Pack(x, y);
      if pos == 0 {
        return;
      }
      PostToStructureWindows(ADD_MULTI, pos, itemId);
    }

    /** REM_MULTI to every type-1 window, unless the item is null or its packed position is 0. */
    method PostRemoveMulti(item: Option<WorldItem>)
      requires Valid()
      modifies this`posts
      ensures Valid()
      ensures posts == old(posts) +
        (if item.None? || Pack(item.value.x, item.value.y) == 0 then []
         else ToStructureWindows(entries, REM_MULTI, Pack(item.value.x, item.value.y), item.value.itemId))
    {
      if item.None? {
        return;
      }
      var pos := Pack(item.value.x, item.value.y);
      if pos == 0 {
        return;
      }
      PostToStructureWindows(REM_MULTI, pos, item.value.itemId);
    }

    /** The loop both multi notifications share: type-1 windows only, failures ignored. */
    method PostToStructureWindows(msg: int, pos: int, itemId: int)
      requires Valid()
      modifies this`posts
      ensures Valid()
      ensures posts == old(posts) + ToStructureWindows(entries, msg, pos, itemId)
    {
      var i := 0;
      while i < |entries|
        invariant 0 <= i <= |entries|
        invariant posts == old(posts) + ToStructureWindows(entries[..i], msg, pos, itemId)
      {
        StructureSnoc(entries[..i], entries[i], msg, pos, itemId);
        assert entries[..i + 1] == entries[..i] + [entries[i]];
        if entries[i].kind == 1 {
          posts := posts + [Post(entries[i].handle, msg, pos, itemId)];
        }
        i := i + 1;
      }
      assert entries[..i] == entries;
    }

    /** SKILL_LEVEL for every skill change, then MAGERY_LEVEL (whole points, tenths) for Magery. */
    method PostSkillUpdate(skill: int, val: int, delivered: Post -> bool)
      requires Valid()
      modifies this`entries, this`posts
      ensures Valid()
      ensures skill != MAGERY ==>
        posts == old(posts) + Broadcast(old(entries), SKILL_LEVEL, skill, val) &&
        entries == Survivors(old(entries), delivered, SKILL_LEVEL, skill, val)
      ensures skill == MAGERY ==>
        var mid := Survivors(old(entries), delivered, SKILL_LEVEL, skill, val);
        posts == old(posts) + Broadcast(old(entries), SKILL_LEVEL, skill, val) +
                 Broadcast(mid, MAGERY_LEVEL, MageryLevel(val).0, MageryLevel(val).1) &&
        entries == Survivors(mid, delivered, MAGERY_LEVEL, MageryLevel(val).0, MageryLevel(val).1)
    {
      PostToWndReg(SKILL_LEVEL, skill, val, delivered);
      if skill == MAGERY {
        PostToWndReg(MAGERY_LEVEL, TruncDiv(val, 10), TruncMod(val, 10), delivered);
      }
    }

    /**
     * ADD_CMD: the command's name is read from a global atom (`None` when that
     * fails: reply 0). `hwnd == 0` removes the command by name (reply 0);
     * otherwise the command gets the next id, which is the reply.
     */
    method AddCmd(hwnd: int, atomName: Option<string>) returns (r: int)
      requires Valid()
      modifies this`nextCmdId, this`commands, this`removedCommands, this`wrapped
      ensures Valid()
      ensures atomName.None? ==> r == 0 && unchanged(this)
      ensures atomName.Some? && hwnd == 0 ==>
        r == 0 && removedCommands == old(removedCommands) + [atomName.value] &&
        commands == old(commands) && nextCmdId == old(nextCmdId) && wrapped == old(wrapped)
      ensures atomName.Some? && hwnd != 0 ==>
        r == ToInt32(old(nextCmdId)) &&
        commands == old(commands) + [WndCmd(old(nextCmdId), hwnd, atomName.value)] &&
        nextCmdId == NextCmdId(old(nextCmdId)) && removedCommands == old(removedCommands) &&
        wrapped == (old(wrapped) || nextCmdId == 0)
      ensures atomName.Some? && hwnd != 0 && !wrapped ==>
        forall k :: 0 <= k < |old(commands)| ==> old(commands)[k].id < commands[|commands| - 1].id
    {
      if atomName.None? {
        return 0;
      }
      if hwnd == 0 {
        removedCommands := removedCommands + [atomName.value];
        return 0;
      }
      commands := commands + [WndCmd(nextCmdId, hwnd, atomName.value)];
      r := ToInt32(nextCmdId);
      nextCmdId := NextCmdId(nextCmdId);
      wrapped := wrapped || nextCmdId == 0;
    }
  }

  // ---------------------------------------------------------------- lemmas

  /** A search that stops at `i` returns `i`. */
  lemma {:induction false} IndexOfFirst(reg: seq<WndRegEnt>, h: int, i: int)
    requires 0 <= i < |reg| && reg[i].handle == h
    requires forall k :: 0 <= k < i ==> reg[k].handle != h
    ensures IndexOf(reg, h) == i
  {
    if i > 0 {
      IndexOfFirst(reg[1..], h, i - 1);
    }
  }

  /** A search that finds nothing returns -1. */
  lemma {:induction false} IndexOfNone(reg: seq<WndRegEnt>, h: int)
    requires forall k :: 0 <= k < |reg| ==> reg[k].handle != h
    ensures IndexOf(reg, h) == -1
  {
    if reg != [] {
      IndexOfNone(reg[1..], h);
    }
  }

  /** A handle is registered exactly when the search finds it. */
  lemma RegisteredAt(reg: seq<WndRegEnt>, h: int)
    ensures h in Handles(reg) <==> IndexOf(reg, h) >= 0
  {
    if IndexOf(reg, h) >= 0 {
      assert Handles(reg)[IndexOf(reg, h)] == h;
    }
  }

  /** With unique handles, the entry holding `h` is the one `Toggled` removes. */
  lemma RemovesTheOne(reg: seq<WndRegEnt>, h: int, i: int)
    requires NoDuplicateHandles(reg) && 0 <= i < |reg| && reg[i].handle == h
    ensures forall l :: Toggled(reg, h, l) == RemoveAt(reg, i)
  {
  }

  /** Dropping one entry keeps the others' handles distinct. */
  lemma RemoveAtKeepsUnique(reg: seq<WndRegEnt>, i: int)
    requires NoDuplicateHandles(reg) && 0 <= i < |reg|
    ensures NoDuplicateHandles(RemoveAt(reg, i))
    ensures forall k :: 0 <= k < |RemoveAt(reg, i)| ==> RemoveAt(reg, i)[k] == reg[if k < i then k else k + 1]
  {
  }

  /** REGISTER keeps the registry free of duplicate handles. */
  lemma ToggleKeepsUnique(reg: seq<WndRegEnt>, h: int, l: int)
    requires NoDuplicateHandles(reg)
    ensures NoDuplicateHandles(Toggled(reg, h, l))
  {
    if IndexOf(reg, h) >= 0 {
      RemoveAtKeepsUnique(reg, IndexOf(reg, h));
    }
  }

  /** A window that was not registered and registers twice in a row leaves the registry as it was. */
  lemma RegisterTwiceRestores(reg: seq<WndRegEnt>, h: int, l: int, l': int)
    requires NoDuplicateHandles(reg) && h !in Handles(reg)
    ensures h in Handles(Toggled(reg, h, l))
    ensures Toggled(Toggled(reg, h, l), h, l') == reg
  {
    RegisteredAt(reg, h);
    var added := Toggled(reg, h, l);
    assert added == reg + [WndRegEnt(h, if l == 1 then 1 else 0)];
    assert Handles(added)[|reg|] == h;
    assert IndexOf(added, h) == |reg|;
    assert RemoveAt(added, |reg|) == reg;
  }

  /** A registered window that registers again is gone, and the others keep their order. */
  lemma RegisterRemoves(reg: seq<WndRegEnt>, h: int, l: int)
    requires NoDuplicateHandles(reg) && h in Handles(reg)
    ensures h !in Handles(Toggled(reg, h, l))
    ensures |Toggled(reg, h, l)| == |reg| - 1
    ensures var i := IndexOf(reg, h); Toggled(reg, h, l) == reg[..i] + reg[i + 1..]
  {
    RegisteredAt(reg, h);
    var i := IndexOf(reg, h);
    RemoveAtKeepsUnique(reg, i);
    var r := RemoveAt(reg, i);
    forall k | 0 <= k < |r|
      ensures Handles(r)[k] != h
    {
      assert r[k] == reg[if k < i then k else k + 1];
    }
  }

  lemma {:induction false} BackFillSnoc(hwnd: int, items: seq<WorldItem>, it: WorldItem)
    ensures BackFill(hwnd, items + [it]) ==
      BackFill(hwnd, items) + (if it.itemId >= MULTI_ID then [Post(hwnd, ADD_MULTI, Pack(it.x, it.y), it.itemId)] else [])
  {
    if items != [] {
      assert (items + [it])[1..] == items[1..] + [it];
      BackFillSnoc(hwnd, items[1..], it);
    }
  }

  lemma BroadcastSnoc(reg: seq<WndRegEnt>, e: WndRegEnt, msg: int, w: int, l: int)
    ensures Broadcast(reg + [e], msg, w, l) == Broadcast(reg, msg, w, l) + [Post(e.handle, msg, w, l)]
  {
  }

  lemma {:induction false} FailuresSnoc(reg: seq<WndRegEnt>, e: WndRegEnt, delivered: Post -> bool, msg: int, w: int, l: int)
    ensures Failures(reg + [e], delivered, msg, w, l) ==
      Failures(reg, delivered, msg, w, l) + (if delivered(Post(e.handle, msg, w, l)) then [] else [e])
  {
    if reg != [] {
      assert (reg + [e])[1..] == reg[1..] + [e];
      FailuresSnoc(reg[1..], e, delivered, msg, w, l);
    }
  }

  lemma {:induction false} StructureSnoc(reg: seq<WndRegEnt>, e: WndRegEnt, msg: int, w: int, l: int)
    ensures ToStructureWindows(reg + [e], msg, w, l) ==
      ToStructureWindows(reg, msg, w, l) + (if e.kind == 1 then [Post(e.handle, msg, w, l)] else [])
  {
    if reg != [] {
      assert (reg + [e])[1..] == reg[1..] + [e];
      StructureSnoc(reg[1..], e, msg, w, l);
    }
  }

  /** The head of a registry without duplicate handles does not occur again in its tail. */
  lemma HeadNotInTail(reg: seq<WndRegEnt>)
    requires NoDuplicateHandles(reg) && reg != []
    ensures NoDuplicateHandles(reg[1..])
    ensures forall e :: e in reg[1..] ==> e.handle != reg[0].handle
  {
    forall e | e in reg[1..]
      ensures e.handle != reg[0].handle
    {
      var k :| 0 <= k < |reg[1..]| && reg[1..][k] == e;
      assert reg[k + 1] == e;
    }
  }

  /** Nothing gone: the whole registry. */
  lemma {:induction false} WithoutNothing(reg: seq<WndRegEnt>)
    ensures Without(reg, []) == reg
  {
    if reg != [] {
      WithoutNothing(reg[1..]);
    }
  }

  /** Removing the first copy of `e` from `Without(all, gone)` is `Without(all, gone + [e])`, when `all` has no duplicates. */
  lemma {:induction false} RemoveFirstIsWithout(all: seq<WndRegEnt>, gone: seq<WndRegEnt>, e: WndRegEnt)
    requires NoDuplicateHandles(all)
    ensures RemoveFirst(Without(all, gone), e) == Without(all, gone + [e])
  {
    if all != [] {
      HeadNotInTail(all);
      RemoveFirstIsWithout(all[1..], gone, e);
      if all[0] in gone {
        assert Without(all, gone) == Without(all[1..], gone);
      } else if all[0] == e {
        assert Without(all, gone) == [e] + Without(all[1..], gone);
        assert e !in all[1..];
        WithoutIgnores(all[1..], gone, e);
      } else {
        assert Without(all, gone) == [all[0]] + Without(all[1..], gone);
      }
    }
  }

  /** Adding to `gone` an entry that `all` lacks changes nothing. */
  lemma {:induction false} WithoutIgnores(all: seq<WndRegEnt>, gone: seq<WndRegEnt>, e: WndRegEnt)
    requires e !in all
    ensures Without(all, gone + [e]) == Without(all, gone)
  {
    if all != [] {
      WithoutIgnores(all[1..], gone, e);
    }
  }

  /** Putting in front of `gone` an entry that `all` lacks changes nothing. */
  lemma {:induction false} WithoutExtra(all: seq<WndRegEnt>, gone: seq<WndRegEnt>, e: WndRegEnt)
    requires e !in all
    ensures Without(all, [e] + gone) == Without(all, gone)
  {
    if all != [] {
      WithoutExtra(all[1..], gone, e);
    }
  }

  /** A sub-sequence of a registry without duplicate handles has none either. */
  lemma {:induction false} WithoutKeepsNoDuplicates(all: seq<WndRegEnt>, gone: seq<WndRegEnt>)
    requires NoDuplicateHandles(all)
    ensures NoDuplicateHandles(Without(all, gone))
  {
    if all != [] {
      HeadNotInTail(all);
      WithoutKeepsNoDuplicates(all[1..], gone);
    }
  }

  /** Every failure is one of the entries. */
  lemma {:induction false} FailuresWithin(reg: seq<WndRegEnt>, delivered: Post -> bool, msg: int, w: int, l: int)
    ensures forall e :: e in Failures(reg, delivered, msg, w, l) ==> e in reg
  {
    if reg != [] {
      FailuresWithin(reg[1..], delivered, msg, w, l);
    }
  }

  /** Removing the failures is keeping the survivors. */
  lemma {:induction false} FailuresAreNotSurvivors(all: seq<WndRegEnt>, delivered: Post -> bool, msg: int, w: int, l: int)
    requires NoDuplicateHandles(all)
    ensures Without(all, Failures(all, delivered, msg, w, l)) == Survivors(all, delivered, msg, w, l)
  {
    if all != [] {
      HeadNotInTail(all);
      FailuresAreNotSurvivors(all[1..], delivered, msg, w, l);
      var f' := Failures(all[1..], delivered, msg, w, l);
      var s' := Survivors(all[1..], delivered, msg, w, l);
      FailuresWithin(all[1..], delivered, msg, w, l);
      assert all[0] !in f' && all[0] !in all[1..];
      if delivered(Post(all[0].handle, msg, w, l)) {
        assert Failures(all, delivered, msg, w, l) == f';
        assert Without(all, f') == [all[0]] + Without(all[1..], f');
        assert Survivors(all, delivered, msg, w, l) == [all[0]] + s';
      } else {
        assert Failures(all, delivered, msg, w, l) == [all[0]] + f';
        assert Without(all, [all[0]] + f') == Without(all[1..], [all[0]] + f');
        WithoutExtra(all[1..], f', all[0]);
        assert Survivors(all, delivered, msg, w, l) == s';
      }
    }
  }

  /** Pruning keeps exactly the windows whose post was delivered. */
  lemma {:induction false} SurvivorsAreTheDelivered(reg: seq<WndRegEnt>, delivered: Post -> bool, msg: int, w: int, l: int)
    ensures forall e :: e in Survivors(reg, delivered, msg, w, l) <==>
      e in reg && delivered(Post(e.handle, msg, w, l))
  {
    if reg != [] {
      SurvivorsAreTheDelivered(reg[1..], delivered, msg, w, l);
      assert reg == [reg[0]] + reg[1..];
    }
  }

  /** A structure notification reaches exactly the windows registered with type 1. */
  lemma {:induction false} StructureRecipients(reg: seq<WndRegEnt>, msg: int, w: int, l: int)
    ensures forall p :: p in ToStructureWindows(reg, msg, w, l) <==>
      exists e :: e in reg && e.kind == 1 && p == Post(e.handle, msg, w, l)
  {
    if reg != [] {
      StructureRecipients(reg[1..], msg, w, l);
      assert reg == [reg[0]] + reg[1..];
      forall p | exists e :: e in reg && e.kind == 1 && p == Post(e.handle, msg, w, l)
        ensures p in ToStructureWindows(reg, msg, w, l)
      {
        var e :| e in reg && e.kind == 1 && p == Post(e.handle, msg, w, l);
        if e != reg[0] {
          assert e in reg[1..];
        }
      }
    }
  }

  /** The back-fill posts one ADD_MULTI per multi of the world and nothing else. */
  lemma {:induction false} BackFillPosts(hwnd: int, items: seq<WorldItem>)
    ensures forall p :: p in BackFill(hwnd, items) <==>
      exists it :: it in items && it.itemId >= MULTI_ID && p == Post(hwnd, ADD_MULTI, Pack(it.x, it.y), it.itemId)
  {
    if items != [] {
      BackFillPosts(hwnd, items[1..]);
      assert items == [items[0]] + items[1..];
      forall p | exists it :: it in items && it.itemId >= MULTI_ID && p == Post(hwnd, ADD_MULTI, Pack(it.x, it.y), it.itemId)
        ensures p in BackFill(hwnd, items)
      {
        var it :| it in items && it.itemId >= MULTI_ID && p == Post(hwnd, ADD_MULTI, Pack(it.x, it.y), it.itemId);
        if it != items[0] {
          assert it in items[1..];
        }
      }
    }
  }

  /** Pruning keeps the survivors' relative order: it distributes over concatenation. */
  lemma {:induction false} SurvivorsKeepOrder(a: seq<WndRegEnt>, b: seq<WndRegEnt>, delivered: Post -> bool, msg: int, w: int, l: int)
    ensures Survivors(a + b, delivered, msg, w, l) ==
      Survivors(a, delivered, msg, w, l) + Survivors(b, delivered, msg, w, l)
  {
    if a != [] {
      assert (a + b)[0] == a[0] && (a + b)[1..] == a[1..] + b;
      SurvivorsKeepOrder(a[1..], b, delivered, msg, w, l);
      var head := if delivered(Post(a[0].handle, msg, w, l)) then [a[0]] else [];
      assert Survivors(a + b, delivered, msg, w, l) == head + Survivors(a[1..] + b, delivered, msg, w, l);
      assert Survivors(a, delivered, msg, w, l) == head + Survivors(a[1..], delivered, msg, w, l);
    } else {
      assert a + b == b;
    }
  }
}
