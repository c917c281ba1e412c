/**
 * The window-message interface third-party tools use to talk to the
 * assistant (`OnUOAMessage`): the message codes, the 16/16-bit coordinate
 * packing, the installer's flag word and the queries that only read the
 * player's state. Everything here is a pure function of a snapshot of the
 * world; the registry of observer windows lives in module Registry.
 */
module UOAQueries {
  import opened Common

  const WM_USER: int := 0x400

  // incoming
  const REGISTER: int := WM_USER + 200
  const COUNT_RESOURCES: int := REGISTER + 1
  const GET_COORDS: int := REGISTER + 2
  const GET_SKILL: int := REGISTER + 3
  const GET_STAT: int := REGISTER + 4
  const SET_MACRO: int := REGISTER + 5
  const PLAY_MACRO: int := REGISTER + 6
  const DISPLAY_TEXT: int := REGISTER + 7
  const REQUEST_MULTIS: int := REGISTER + 8
  const ADD_CMD: int := REGISTER + 9
  const GET_UID: int := REGISTER + 10
  const GET_SHARDNAME: int := REGISTER + 11
  const ADD_USER_2_PARTY: int := REGISTER + 12
  const GET_UO_HWND: int := REGISTER + 13
  const GET_POISON: int := REGISTER + 14
  const SET_SKILL_LOCK: int := REGISTER + 15
  const GET_ACCT_ID: int := REGISTER + 16

  // outgoing
  const RES_COUNT_DONE: int := WM_USER + 301
  const CAST_SPELL: int := RES_COUNT_DONE + 1
  const LOGIN: int := RES_COUNT_DONE + 2
  const MAGERY_LEVEL: int := RES_COUNT_DONE + 3
  const INT_STATUS: int := RES_COUNT_DONE + 4
  const SKILL_LEVEL: int := RES_COUNT_DONE + 5
  const MACRO_DONE: int := RES_COUNT_DONE + 6
  const LOGOUT: int := RES_COUNT_DONE + 7
  const STR_STATUS: int := RES_COUNT_DONE + 8
  const DEX_STATUS: int := RES_COUNT_DONE + 9
  const ADD_MULTI: int := RES_COUNT_DONE + 10
  const REM_MULTI: int := RES_COUNT_DONE + 11
  const MAP_INFO: int := RES_COUNT_DONE + 12
  const POWERHOUR: int := RES_COUNT_DONE + 13

  /** The first id ADD_CMD hands out. */
  const FIRST_CMD_ID: int := WM_USER + 401

  /** The incoming codes sit below the outgoing ones, and the first command id above both. */
  lemma MessageCodesSeparate()
    ensures REGISTER == 0x4C8 && GET_ACCT_ID == 0x4D8
    ensures RES_COUNT_DONE == 0x52D && POWERHOUR == 0x53A
    ensures GET_ACCT_ID < RES_COUNT_DONE && POWERHOUR < FIRST_CMD_ID == 0x591
  {
  }

  // ---------------------------------------------------------------- coordinates

  /** `(x & 0xFFFF) | ((y & 0xFFFF) << 16)` on C# `int`: the shift keeps only the low 32 bits. */
  function Pack(x: int, y: int): (r: int)
    ensures IsInt32(r)
  {
    ToInt32(x % 0x1_0000 + (y % 0x1_0000) * 0x1_0000)
  }

  /** The low word is the X coordinate. */
  function PackedX(p: int): int {
    p % 0x1_0000
  }

  /** The high word, read as unsigned, is the Y coordinate. */
  function PackedY(p: int): int {
    (p % 0x1_0000_0000) / 0x1_0000
  }

  /** Both coordinates come back as their low 16 bits: a tool reading the word recovers the position. */
  lemma PackRoundTrip(x: int, y: int)
    ensures PackedX(Pack(x, y)) == x % 0x1_0000
    ensures PackedY(Pack(x, y)) == y % 0x1_0000
  {
    var u := x % 0x1_0000 + (y % 0x1_0000) * 0x1_0000;
    assert Pack(x, y) % 0x1_0000_0000 == u;
    assert Pack(x, y) % 0x1_0000 == u % 0x1_0000 by {
      assert Pack(x, y) == u || Pack(x, y) == u - 0x1_0000_0000;
    }
  }

  /** The packed word is zero exactly when both coordinates are multiples of 0x10000 (in practice: the origin). */
  lemma PackZero(x: int, y: int)
    ensures Pack(x, y) == 0 <==> x % 0x1_0000 == 0 && y % 0x1_0000 == 0
  {
    PackRoundTrip(x, y);
  }

  // ---------------------------------------------------------------- install flags

  /** The flag word handed to the installer: negotiation 0x04, client encryption 0x08, server encryption 0x10. */
  function InstallFlags(negotiate: bool, clientEncrypted: bool, serverEncrypted: bool): bv32 {
    var f: bv32 := 0;
    var f := if negotiate then f | 0x04 else f;
    var f := if clientEncrypted then f | 0x08 else f;
    if serverEncrypted then f | 0x10 else f
  }

  /** Each setting owns one bit, and no other bit is ever set. */
  lemma InstallFlagsDecode(negotiate: bool, clientEncrypted: bool, serverEncrypted: bool)
    ensures var f := InstallFlags(negotiate, clientEncrypted, serverEncrypted);
      (f & 0x04 != 0 <==> negotiate) &&
      (f & 0x08 != 0 <==> clientEncrypted) &&
      (f & 0x10 != 0 <==> serverEncrypted) &&
      f & !0x1C == 0
  {
  }

  // ---------------------------------------------------------------- magery

  /** `SkillName.Magery`. */
  const MAGERY: int := 25

  /** The MAGERY_LEVEL message: whole points and tenths of a skill value kept in tenths. */
  function MageryLevel(val: int): (r: (int, int))
  {
    (TruncDiv(val, 10), TruncMod(val, 10))
  }

  /** The split loses nothing: `10 * whole + tenths == val`, with the tenths in `-9..9` and of the value's sign. */
  lemma MagerySplit(val: int)
    ensures var (whole, tenths) := MageryLevel(val);
      10 * whole + tenths == val && -10 < tenths < 10 &&
      (val >= 0 ==> whole >= 0 && tenths >= 0) && (val < 0 ==> whole <= 0 && tenths <= 0)
  {
  }

  // ---------------------------------------------------------------- the player snapshot

  /** One entry of the player's skill table. */
  datatype Skill = Skill(lock: int, fixedBase: int, fixedValue: int)

  /** What the queries read of the player; `skills` is `None` while the table is null. */
  datatype Player = Player(
    x: int, y: int,
    str: int, intel: int, dex: int, weight: int, hitsMax: int, tithe: int,
    skills: Option<seq<Skill>>, poisoned: bool, serial: int)

  /** How a query ends: a reply code, or an exception thrown out of the message handler. */
  datatype Answer = Reply(code: int) | Fault

  /** GET_COORDS: the packed position, or 0 without a player. */
  function GetCoords(player: Option<Player>): (r: int)
    ensures player.None? ==> r == 0
    ensures player.Some? ==> PackedX(r) == player.value.x % 0x1_0000 && PackedY(r) == player.value.y % 0x1_0000
  {
    if player.None? then 0
    else
      PackRoundTrip(player.value.x, player.value.y);
      Pack(player.value.x, player.value.y)
  }

  /** GET_STAT: strength, intelligence, dexterity, weight, max hits and tithe for `w` in 0..5. */
  function GetStat(player: Option<Player>, w: int): (r: int)
    ensures player.None? || w < 0 || w > 5 ==> r == 0
    ensures player.Some? && 0 <= w <= 5 ==>
      r == [player.value.str, player.value.intel, player.value.dex,
            player.value.weight, player.value.hitsMax, player.value.tithe][w]
  {
    if player.None? || w < 0 || w > 5 then 0
    else
      var p := player.value;
      match w
      case 0 => p.str
      case 1 => p.intel
      case 2 => p.dex
      case 3 => p.weight
      case 4 => p.hitsMax
      case _ => p.tithe
  }

  /** The field GET_SKILL's `lParam` selects: 2 lock, 1 base, 0 value. */
  function SkillField(s: Skill, l: int): int
    requires 0 <= l <= 2
  {
    if l == 2 then s.lock else if l == 1 then s.fixedBase else s.fixedValue
  }

  /**
   * GET_SKILL as written: the guard rejects `w > Length` only, so `w == Length`
   * passes and indexing the table throws for fields 0..2. Field 3 is the atom of
   * the skill's name, which `skillAtom` stands for.
   */
  function GetSkill(player: Option<Player>, w: int, l: int, skillAtom: int -> int): (r: Answer)
    ensures r.Fault? <==>
      (player.Some? && player.value.skills.Some? && w == |player.value.skills.value| && 0 <= l <= 2)
  {
    if player.None? || l > 3 || w < 0 || player.value.skills.None? ||
       w > |player.value.skills.value| || l < 0 then Reply(0)
    else if l == 3 then Reply(skillAtom(w))
    else if w == |player.value.skills.value| then Fault
    else Reply(SkillField(player.value.skills.value[w], l))
  }

  /** GET_SKILL with the guard the indexing needs: `w >= Length` is rejected. */
  function GetSkillChecked(player: Option<Player>, w: int, l: int, skillAtom: int -> int): (r: Answer)
    ensures r.Reply?
  {
    if player.None? || l > 3 || w < 0 || player.value.skills.None? ||
       w >= |player.value.skills.value| || l < 0 then Reply(0)
    else if l == 3 then Reply(skillAtom(w))
    else Reply(SkillField(player.value.skills.value[w], l))
  }

  /** The as-written guard faults on the one index just past the table, and nowhere else. */
  lemma GetSkillFaultsPastTheEnd(p: Player, l: int, skillAtom: int -> int)
    requires p.skills.Some? && 0 <= l <= 2
    ensures GetSkill(Some(p), |p.skills.value|, l, skillAtom) == Fault
    ensures GetSkillChecked(Some(p), |p.skills.value|, l, skillAtom) == Reply(0)
  {
  }

  /** Away from that index the corrected query answers exactly as the original. */
  lemma GetSkillCheckedAgrees(player: Option<Player>, w: int, l: int, skillAtom: int -> int)
    requires GetSkill(player, w, l, skillAtom).Reply?
    requires player.Some? && player.value.skills.Some? ==> w != |player.value.skills.value|
    ensures GetSkillChecked(player, w, l, skillAtom) == GetSkill(player, w, l, skillAtom)
  {
  }

  /** The corrected query reads the table exactly for an existing skill and a field 0..2. */
  lemma GetSkillCheckedReads(player: Option<Player>, w: int, l: int, skillAtom: int -> int)
    ensures var r := GetSkillChecked(player, w, l, skillAtom);
      (player.Some? && player.value.skills.Some? && 0 <= w < |player.value.skills.value| && 0 <= l <= 2 ==>
        r == Reply(SkillField(player.value.skills.value[w], l))) &&
      ((player.None? || player.value.skills.None? || w < 0 || l < 0 || l > 3 ||
        w >= |player.value.skills.value|) ==> r == Reply(0))
  {
  }

  /** The packet SET_SKILL_LOCK hands to the relay: skill index and lock type. */
  datatype SkillLockRequest = SkillLockRequest(skill: int, lock: int)

  /** How SET_SKILL_LOCK ends: the reply, and the request sent to the server if any. */
  datatype LockAnswer = LockReply(code: int, sent: Option<SkillLockRequest>) | LockFault

  /**
   * SET_SKILL_LOCK as written: a null skill table throws, and the guard lets
   * `w == Length` through, so a lock request for a skill that does not exist
   * reaches the server.
   */
  function SetSkillLock(player: Option<Player>, w: int, l: int): (r: LockAnswer)
    ensures r.LockFault? <==> player.Some? && player.value.skills.None? && w >= 0
    ensures r.LockReply? && r.code == 1 <==> r.LockReply? && r.sent == Some(SkillLockRequest(w, l))
    ensures r.LockReply? && r.code == 1 <==>
      player.Some? && player.value.skills.Some? && 0 <= w <= |player.value.skills.value| && 0 <= l < 3
  {
    if player.None? || w < 0 then LockReply(0, None)
    else if player.value.skills.None? then LockFault
    else if w > |player.value.skills.value| || l < 0 || l >= 3 then LockReply(0, None)
    else LockReply(1, Some(SkillLockRequest(w, l)))
  }

  /** SET_SKILL_LOCK with the guard the table needs: a null table or `w >= Length` is rejected. */
  function SetSkillLockChecked(player: Option<Player>, w: int, l: int): (r: LockAnswer)
    ensures r.LockReply?
    ensures r.sent.Some? <==> r.code == 1
    ensures r.code == 1 <==>
      player.Some? && player.value.skills.Some? && 0 <= w < |player.value.skills.value| && 0 <= l < 3
    ensures r.sent.Some? ==> r.sent.value == SkillLockRequest(w, l)
  {
    if player.None? || w < 0 || player.value.skills.None? ||
       w >= |player.value.skills.value| || l < 0 || l >= 3 then LockReply(0, None)
    else LockReply(1, Some(SkillLockRequest(w, l)))
  }

  /** The as-written guard sends a lock for the skill one past the table. */
  lemma SetSkillLockPastTheEnd(p: Player, l: int)
    requires p.skills.Some? && 0 <= l < 3
    ensures SetSkillLock(Some(p), |p.skills.value|, l) == LockReply(1, Some(SkillLockRequest(|p.skills.value|, l)))
    ensures SetSkillLockChecked(Some(p), |p.skills.value|, l) == LockReply(0, None)
  {
  }

  /** What the rest of the window-message interface needs besides the player. */
  datatype Host = Host(
    macroPlaying: bool,            // whether a macro plays once PLAY_MACRO has been handled
    shardName: Option<string>,
    addAtom: string -> int,        // GlobalAddAtom
    skillAtom: int -> int,         // GlobalAddAtom of a skill's name
    uoWindow: int)                 // FindUOWindow

  /**
   * The messages whose handling throws out of `OnUOAMessage`: GET_SKILL for the
   * skill just past the table, and SET_SKILL_LOCK with a null table.
   */
  predicate QueryFaults(player: Option<Player>, msg: int, w: int, l: int) {
    (msg == GET_SKILL && player.Some? && player.value.skills.Some? &&
     w == |player.value.skills.value| && 0 <= l <= 2) ||
    (msg == SET_SKILL_LOCK && player.Some? && player.value.skills.None? && w >= 0)
  }

  /** The replies to the other messages, GET_SKILL and SET_SKILL_LOCK left aside. */
  function OtherReply(player: Option<Player>, host: Host, msg: int, w: int): int {
    if msg == COUNT_RESOURCES then 0
    else if msg == GET_COORDS then GetCoords(player)
    else if msg == GET_STAT then GetStat(player, w)
    else if msg == SET_MACRO then 0
    else if msg == PLAY_MACRO then (if host.macroPlaying then 1 else 0)
    else if msg == REQUEST_MULTIS then (if player.Some? then 1 else 0)
    else if msg == GET_UID || msg == GET_ACCT_ID then (if player.Some? then player.value.serial else 0)
    else if msg == GET_SHARDNAME then
      (if host.shardName.Some? && |host.shardName.value| > 0 then host.addAtom(host.shardName.value) else 0)
    else if msg == ADD_USER_2_PARTY then 1
    else if msg == GET_UO_HWND then host.uoWindow
    else if msg == GET_POISON then (if player.Some? && player.value.poisoned then 1 else 0)
    else 0
  }

  /**
   * The replies of `OnUOAMessage` that only read state: everything but
   * REGISTER, ADD_CMD and DISPLAY_TEXT, with GET_SKILL and SET_SKILL_LOCK as
   * written. The lock request, when there is one, is in `sent`.
   */
  function Query(player: Option<Player>, host: Host, msg: int, w: int, l: int): (r: LockAnswer)
    requires msg != REGISTER && msg != ADD_CMD && msg != DISPLAY_TEXT
    ensures r.LockFault? <==> QueryFaults(player, msg, w, l)
    ensures r.LockReply? && r.sent.Some? ==> msg == SET_SKILL_LOCK
    ensures msg < REGISTER || msg > GET_ACCT_ID ==> r == LockReply(0, None)
  {
    if msg == SET_SKILL_LOCK then SetSkillLock(player, w, l)
    else if msg == GET_SKILL then
      match GetSkill(player, w, l, host.skillAtom)
      case Fault => LockFault
      case Reply(code) => LockReply(code, None)
    else LockReply(OtherReply(player, host, msg, w), None)
  }

  /** The same dispatcher with the corrected GET_SKILL and SET_SKILL_LOCK guards. */
  function QueryChecked(player: Option<Player>, host: Host, msg: int, w: int, l: int): (r: LockAnswer)
    requires msg != REGISTER && msg != ADD_CMD && msg != DISPLAY_TEXT
    ensures r.LockReply?
    ensures r.sent.Some? ==> msg == SET_SKILL_LOCK
    ensures msg < REGISTER || msg > GET_ACCT_ID ==> r == LockReply(0, None)
  {
    if msg == SET_SKILL_LOCK then SetSkillLockChecked(player, w, l)
    else if msg == GET_SKILL then LockReply(GetSkillChecked(player, w, l, host.skillAtom).code, None)
    else LockReply(OtherReply(player, host, msg, w), None)
  }

  /**
   * The two dispatchers part only at the skill index just past the table (and,
   * for SET_SKILL_LOCK, at a null table): everywhere else the corrected one
   * answers as written.
   */
  lemma QueryCheckedAgrees(player: Option<Player>, host: Host, msg: int, w: int, l: int)
    requires msg != REGISTER && msg != ADD_CMD && msg != DISPLAY_TEXT
    requires player.Some? ==> player.value.skills.Some? && w != |player.value.skills.value|
    ensures QueryChecked(player, host, msg, w, l) == Query(player, host, msg, w, l)
  {
  }

  /** Without a player every player query answers 0 and nothing is sent. */
  lemma NoPlayerNoAnswer(host: Host, msg: int, w: int, l: int)
    requires msg in {GET_COORDS, GET_SKILL, GET_STAT, REQUEST_MULTIS, GET_UID, GET_POISON, SET_SKILL_LOCK, GET_ACCT_ID}
    ensures Query(None, host, msg, w, l) == LockReply(0, None)
  {
  }
}
