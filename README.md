# Razor client communication and mobile record, in Dafny

This project models two parts of the Razor assistant for the Ultima Online client.

The first part is `ClientCommunication`, the relay between the game client and the server. The relay and the native agent injected into the client share four packet regions (`Buffer` records) in one block of memory:

- `HandleComm` drains an inbound region frame by frame. For each frame it:
  - asks the native classifier for the frame's length;
  - consults the handler table and the session recorder;
  - writes the frame (raw or recompiled) to the outbound region unless it is blocked;
  - flushes or discards the packets that handlers queued meanwhile.
- `SendToServer` and `SendToClient` are gated by the ready flag and the playback flag. While a drain of their direction runs they are deferred to a queue.
- `ProcessPlaybackData` replays a recorded session into the client-bound region.

The same file also holds the window-message interface that third-party tools use (`OnUOAMessage`):
- a registry of observer windows, with broadcasts that prune windows whose post failed;
- command ids;
- the player queries and their guards;
- the coordinate and flag encodings;
- the title string written into the shared memory.

The second part is the packet-log editor's `Mobile` record:
- its status flag byte and notoriety colour;
- name normalisation and the change-guarded setters;
- the list of items it carries;
- its ordered field save and load.

Files and modules:

- `common.dfy` (`Common`): bytes, `Option`, and C# `int` arithmetic (the 32-bit cast, and `/` and `%` truncating toward zero).
- `shared_memory.dfy` (`SharedMemory`): the region layout, and the `Region` class with `CopyToBuffer`.
- `relay_spec.dfy` (`RelaySpec`, `RelayProperties`): the relay as a state machine over a `RelayState` value, and the properties of that machine.
- `playback_spec.dfy` (`PlaybackSpec`, `PlaybackProperties`): replay as a function over `RelayState`.
- `relay.dfy` (`Relay`): the class `ClientCommunication`, which changes the regions and queues in place. Every method is proved to move `View()` exactly as the function of the same name moves a `RelayState`.
- `uoa_queries.dfy` (`UOAQueries`): the message codes, coordinate packing, install flags, the magery split and the read-only queries.
- `registry.dfy` (`Registry`): the class `WndRegistry`, which holds `m_WndReg`, `m_NextCmdID` and the posts made.
- `title.dfy` (`TitleBar`): `SetTitleStr` on the title area.
- `mobile.dfy` (`Mobiles`): the class `Mobile`, and its field save and load.

Foreign collaborators are passed in as functions:
- the native frame-length classifier;
- the handler table, the handlers' verdicts and the recorder's verdicts;
- `PostMessage` delivery;
- the global atom table;
- `World.FindItem`.

## Model

A relay operation is called *steady* below when it leaves the inbound regions, the queue flags and the session mode alone, and the outbound regions keep their start and only grow (`RelaySpec.Steady`).

| member | source | states |
|---|---|---|
| Common.ToInt32 | Network/ClientComm.cs:189 | the `(int)` reinterpretation of a 32-bit pattern stays in `int` range and keeps the pattern modulo 2^32 |
| SharedMemory.RegionsDisjoint | Network/ClientComm.cs:836-840 | the four `Buffer` records sit at multiples of `8 + SHARED_BUFF_SIZE` from the base, never overlap, and end before the title string |
| SharedMemory.Region.constructor | Network/ClientComm.cs:454-462 | a region starts with no unread bytes at start 0 in a data area of 524288 bytes |
| SharedMemory.Region.ViewFits | Network/ClientComm.cs:454-462 | the unread bytes `Start..Start+Length` lie inside the data area and number `Length` |
| SharedMemory.Region.CopyToBuffer | Network/ClientComm.cs:1438-1445 | `data` lands at `Start + Length`, `Length` grows by exactly its size, `Start` is unchanged, and the unread bytes become the old ones followed by `data` (the room is required because the overflow test is commented out) |
| SharedMemory.Region.Advance | Network/ClientComm.cs:1480-1481 | `Start += len; Length -= len` drops exactly the first `len` unread bytes |
| SharedMemory.Region.Peek | Network/ClientComm.cs:1474-1476 | the bytes handed on are the first `n` unread ones |
| RelaySpec.ForceSendToClient | Network/ClientComm.cs:1402-1413 | a forced send is steady: the inbound regions, the queue flags and the session mode stay as they are, and the outbound regions keep their start and only grow |
| RelaySpec.ForceSendToServer | Network/ClientComm.cs:1415-1430 | a forced send toward the server is steady in the same sense |
| RelaySpec.SendToServer | Network/ClientComm.cs:1350-1366 | a send toward the server is steady |
| RelaySpec.SendToClient | Network/ClientComm.cs:1376-1392 | a send toward the client is steady |
| RelaySpec.SendAll | Network/ClientComm.cs:1350-1392 | the sends a handler requested, carried out in request order, are steady together |
| RelaySpec.DequeueOne | Network/ClientComm.cs:1586-1605 | one turn of the dequeue loop shortens the queue and is steady |
| RelaySpec.DequeueAllFlushesInOrder | Network/ClientComm.cs:1582-1607 | the dequeue loop appends the queued packets in FIFO order, each exactly once, and hands them to the recorder in that order when recording |
| RelaySpec.FlushQueue | Network/ClientComm.cs:1582-1611 | flushing after a frame (the dequeue loop while live, clearing the queue during playback) is steady |
| RelaySpec.Dispatch | Network/ClientComm.cs:1483-1580 | one frame through the viewer/filter lookup, the recorder, the handler and the write decision is steady |
| RelaySpec.Handle | Network/ClientComm.cs:1521-1580 | a client frame the recorder let through goes to the handler, whose sends run before the write; the whole is steady |
| RelaySpec.Deliver | Network/ClientComm.cs:1559-1580 | a server frame the handler did not block is still shown to the recorder, which may block it; the whole is steady |
| RelaySpec.Step | Network/ClientComm.cs:1472-1611 | one loop turn consumes exactly the classifier's length from the inbound region (`Start + Length` unchanged), leaves the other inbound region and the mode alone, and only grows the outbound regions |
| RelaySpec.Drain | Network/ClientComm.cs:1469-1614 | the drain loop leaves the mode alone and only grows the outbound regions |
| RelayProperties.SendGating | Network/ClientComm.cs:1350-1392 | a send while not ready or while playing back changes nothing, and neither does an empty client packet; otherwise the packet joins its queue and leaves its outbound region alone iff its direction's flag is raised, and is appended to the outbound region with the queue untouched iff it is not |
| RelayProperties.SendSignalOnlyWhenEmpty | Network/ClientComm.cs:1415-1436 | the client is signalled exactly when the server-bound region holds nothing unread, and null or empty packets change nothing |
| RelayProperties.SendWaits | Network/ClientComm.cs:1350-1392 | with the direction's flag raised a send toward it leaves its outbound region alone and joins its queue |
| RelayProperties.QueuedSendsWait | Network/ClientComm.cs:1350-1392 | while a drain of a direction runs (`OnRecv`/`OnSend` raise its flag), everything the handlers send toward that direction is queued in request order and nothing reaches its outbound region |
| RelayProperties.WriteDecision | Network/ClientComm.cs:1514-1580 | a frame adds to its outbound region exactly the recompiled packet (filter) or the raw frame (no filter), or nothing when blocked, and the handler's same-direction sends join the queue |
| RelayProperties.ServerBoundWrite | Network/ClientComm.cs:1518-1580 | the write decision for a client frame: recorder first, then handler |
| RelayProperties.ClientBoundWrite | Network/ClientComm.cs:1525-1580 | the write decision for a server frame: handler first, recorder after, nothing while playing back |
| RelayProperties.NoLeakDuringPlayback | Network/ClientComm.cs:1525-1611 | while playing back a server-to-client drain writes nothing to either outbound region and hands nothing to the recorder |
| RelayProperties.Frames | Network/ClientComm.cs:1472-1481 | the classifier cuts only non-empty frames |
| RelayProperties.StepEmits | Network/ClientComm.cs:1472-1611 | a live step with an empty queue appends its frame's forwarded bytes and then its handler's same-direction sends, and ends with the queue empty |
| RelayProperties.FramesCons | Network/ClientComm.cs:1472-1481 | the frame sequence of a region is its first frame followed by the frames of the rest |
| RelayProperties.EmittedCons | Network/ClientComm.cs:1565-1607 | the output for a frame followed by more frames is that frame's output followed by theirs |
| RelayProperties.DrainUnfolds | Network/ClientComm.cs:1471-1481 | a drain that finds a complete frame takes one step and drains on |
| RelayProperties.DrainStops | Network/ClientComm.cs:1471-1478 | a drain that finds no complete frame changes nothing |
| RelayProperties.DrainForwardsInOrder | Network/ClientComm.cs:1469-1614 | a live drain appends exactly the inbound frames in arrival order, blocked ones left out, each followed by its handler's deferred sends; nothing is duplicated or reordered |
| RelayProperties.PassForwardsInOrder | Network/ClientComm.cs:1616-1628 | `OnRecv`/`OnSend` leave their flag lowered, leave the other flag alone, and forward in order as above |
| PlaybackSpec.ReadFrame | Network/ClientComm.cs:1632-1642 | reading a frame fails on a recording under 3 bytes; a bad length rewinds the reader; a frame is non-empty and lies before the new position |
| PlaybackSpec.Rescaled | Network/ClientComm.cs:1646-1656 | scaling the animation packet touches byte 13 only |
| PlaybackSpec.Rewritten | Network/ClientComm.cs:1672-1675 | the container rewrite faults exactly when the frame is not 0x25 and has no second byte |
| PlaybackProperties.ExclusionRules | Network/ClientComm.cs:1657-1667 | replay drops opcodes 0x6C, 0xBA, 0xB2, 0xFF, 0xBF sub-command 0x06, and 0xBF sub-command 0x10 while the player's features are at most 3 |
| PlaybackProperties.SendHeld | Network/ClientComm.cs:1693-1700 | one send with both flags raised changes nothing but the queues |
| PlaybackProperties.SendsHeld | Network/ClientComm.cs:1693-1700 | the replay handler's sends only fill the queues |
| PlaybackProperties.HandlerSendsVanish | Network/ClientComm.cs:1693-1700 | after the handler window only the flags (lowered) and the queues (empty) differ |
| PlaybackProperties.PlaybackSkipsLeaveStateAlone | Network/ClientComm.cs:1630-1667 | every early return, faults included, leaves the relay state unchanged |
| PlaybackProperties.PlaybackWritesOnlyTheFrame | Network/ClientComm.cs:1677-1716 | a frame that passes every test is appended verbatim to the client-bound region exactly when `Start + Length + len < 524288` (otherwise the call waits); the handler's sends reach neither region nor the recorder |
| Relay.ClientCommunication.constructor | Network/ClientComm.cs:669-673 | a fresh relay has four empty regions at start 0, empty queues, both queue flags lowered, the session mode given, no recorder calls and no signals |
| Relay.ClientCommunication.Record | Network/ClientComm.cs:1357-1358 | the recorder call is logged and nothing else changes |
| Relay.ClientCommunication.ForceSendToClient | Network/ClientComm.cs:1402-1413 | moves the relay state exactly as `RelaySpec.ForceSendToClient` |
| Relay.ClientCommunication.InitSendFlush | Network/ClientComm.cs:1432-1436 | signals the client only when the server-bound region is empty |
| Relay.ClientCommunication.ForceSendToServer | Network/ClientComm.cs:1415-1430 | moves the relay state exactly as `RelaySpec.ForceSendToServer` |
| Relay.ClientCommunication.SendToServer | Network/ClientComm.cs:1350-1366 | moves the relay state exactly as `RelaySpec.SendToServer` |
| Relay.ClientCommunication.SendToClient | Network/ClientComm.cs:1376-1392 | moves the relay state exactly as `RelaySpec.SendToClient` |
| Relay.ClientCommunication.RunSends | Network/ClientComm.cs:1350-1392 | runs a handler's sends in order, as `RelaySpec.SendAll` |
| Relay.ClientCommunication.DispatchFrame | Network/ClientComm.cs:1483-1580 | moves the relay state exactly as `RelaySpec.Dispatch` |
| Relay.ClientCommunication.DispatchToServer | Network/ClientComm.cs:1518-1580 | the client-frame branch of `Dispatch` |
| Relay.ClientCommunication.Handle | Network/ClientComm.cs:1521-1580 | moves the relay state exactly as `RelaySpec.Handle` |
| Relay.ClientCommunication.DispatchToClient | Network/ClientComm.cs:1525-1580 | the server-frame branch of `Dispatch` |
| Relay.ClientCommunication.Deliver | Network/ClientComm.cs:1559-1580 | moves the relay state exactly as `RelaySpec.Deliver` |
| Relay.ClientCommunication.FlushQueue | Network/ClientComm.cs:1582-1611 | moves the relay state exactly as `RelaySpec.FlushQueue` (the dequeue loop) |
| Relay.ClientCommunication.Dequeue | Network/ClientComm.cs:1586-1605 | moves the relay state exactly as `RelaySpec.DequeueOne` |
| Relay.ClientCommunication.HandleComm | Network/ClientComm.cs:1469-1614 | the drain loop moves the relay state exactly as `RelaySpec.Drain` |
| Relay.ClientCommunication.ForwardFrame | Network/ClientComm.cs:1474-1611 | the loop body moves the relay state exactly as `RelaySpec.Step` and shrinks `Length` by the frame length |
| Relay.ClientCommunication.TakeFrame | Network/ClientComm.cs:1474-1481 | the frame is the first `len` unread bytes, which are consumed |
| Relay.ClientCommunication.DispatchAndFlush | Network/ClientComm.cs:1483-1611 | dispatch followed by the flush, as the spec composes them |
| Relay.ClientCommunication.Consume | Network/ClientComm.cs:1480-1481 | `Start += len; Length -= len`, as `RelaySpec.Consume` |
| Relay.ClientCommunication.OnRecv | Network/ClientComm.cs:1616-1621 | moves the relay state exactly as `RelaySpec.Pass` for the client-bound direction |
| Relay.ClientCommunication.OnSend | Network/ClientComm.cs:1623-1628 | moves the relay state exactly as `RelaySpec.Pass` for the server-bound direction |
| Relay.ClientCommunication.ProcessPlaybackData | Network/ClientComm.cs:1630-1716 | the new state, the outcome and the reader's position are those of `PlaybackSpec.Playback` |
| Relay.ClientCommunication.ReplayFrame | Network/ClientComm.cs:1677-1716 | a frame past the tests goes through the quiet handler window and is appended once it fits, as `PlaybackSpec.Replay` |
| Relay.ClientCommunication.RunQuietly | Network/ClientComm.cs:1693-1700 | after the handler window only the flags (lowered) and the queues (empty) differ |
| Relay.ClientCommunication.HoldSends | Network/ClientComm.cs:1693-1700 | with both flags raised the handler's sends leave everything but the queues alone |
| UOAQueries.MessageCodesSeparate | Network/ClientComm.cs:65-105 | REGISTER is 0x4C8 and GET_ACCT_ID 0x4D8; RES_COUNT_DONE is 0x52D and POWERHOUR 0x53A; incoming codes lie below outgoing codes, which lie below the first command id 0x591 (`m_NextCmdID`, line 150) |
| UOAQueries.Pack | Network/ClientComm.cs:189 | `(x & 0xFFFF) OR ((y & 0xFFFF) << 16)` is a C# `int`; the same packing is used at lines 174, 367, 382 and 749 |
| UOAQueries.PackRoundTrip | Network/ClientComm.cs:189 | the low and high words of the packed value give back the low 16 bits of x and y |
| UOAQueries.PackZero | Network/ClientComm.cs:382-385 | the packed position is 0 exactly when both coordinates are multiples of 0x10000 (the same test is at lines 367-370) |
| UOAQueries.InstallFlagsDecode | Network/ClientComm.cs:804-813 | negotiation owns bit 0x04, client encryption 0x08 and server encryption 0x10, and no other bit is set |
| UOAQueries.MagerySplit | Network/ClientComm.cs:355-360 | `val/10` and `val%10` on C# `int` lose nothing: `10*whole + tenths == val`, with the tenths in -9..9 and of the sign of `val` |
| UOAQueries.GetCoords | Network/ClientComm.cs:185-190 | 0 without a player; otherwise a word whose halves are the player's coordinates |
| UOAQueries.GetStat | Network/ClientComm.cs:216-231 | 0 without a player or for `w` outside 0..5; otherwise strength, intelligence, dexterity, weight, max hits or tithe |
| UOAQueries.GetSkill | Network/ClientComm.cs:191-215 | the as-written guard throws exactly when there is a player with a skill table, `w == Length`, and `l` is in 0..2 |
| UOAQueries.GetSkillChecked | Network/ClientComm.cs:191-215 | the corrected query always answers |
| UOAQueries.GetSkillFaultsPastTheEnd | Network/ClientComm.cs:193-211 | at `w == Length` the as-written query throws and the corrected one answers 0 |
| UOAQueries.GetSkillCheckedAgrees | Network/ClientComm.cs:193-214 | away from that index the corrected query answers as the original |
| UOAQueries.GetSkillCheckedReads | Network/ClientComm.cs:193-214 | the corrected query reads the lock, base or value of an existing skill for `l` 2, 1 or 0, and answers 0 without a player or a table, for a negative or missing skill, and for `l` outside 0..3 |
| UOAQueries.SetSkillLock | Network/ClientComm.cs:311-317 | as written: a null skill table throws for `w >= 0`; the reply is 1 exactly when a lock request `(w, l)` is handed to `SendToServer`, which happens iff `0 <= w <= Length` and `0 <= l < 3` |
| UOAQueries.SetSkillLockChecked | Network/ClientComm.cs:311-317 | corrected: never throws; hands `(w, l)` to `SendToServer` and answers 1 exactly for an existing skill and `l` in 0..2 |
| UOAQueries.SetSkillLockPastTheEnd | Network/ClientComm.cs:313-316 | as written, a lock for the skill one past the table is sent to the server; the corrected version refuses it |
| UOAQueries.Query | Network/ClientComm.cs:152-327 | the read-only messages as written: the handler throws exactly for GET_SKILL at `w == Skills.Length` with `l` in 0..2 and for SET_SKILL_LOCK with a null skill table (`QueryFaults`); only SET_SKILL_LOCK sends; codes outside the interface answer 0 |
| UOAQueries.QueryChecked | Network/ClientComm.cs:152-327 | the same dispatcher with the corrected GET_SKILL and SET_SKILL_LOCK guards never throws; only SET_SKILL_LOCK sends; codes outside the interface answer 0 |
| UOAQueries.QueryCheckedAgrees | Network/ClientComm.cs:191-317 | the corrected dispatcher answers as written whenever there is no player, or the skill table exists and `w` is not its length |
| UOAQueries.NoPlayerNoAnswer | Network/ClientComm.cs:185-322 | without a player every player query answers 0 and sends nothing |
| Registry.Handles | Network/ClientComm.cs:158-165 | the handles of the registry, index by index |
| Registry.IndexOf | Network/ClientComm.cs:158-165 | the search gives the first index holding the handle, or -1 when none does |
| Registry.RemoveAt | Network/ClientComm.cs:162 | `RemoveAt` shortens the registry by one |
| Registry.BackFill | Network/ClientComm.cs:169-176 | the back-fill posts only ADD_MULTI, only to the registering window, at most one per item |
| Registry.BackFillPosts | Network/ClientComm.cs:169-176 | the back-fill posts exactly one ADD_MULTI per item with id >= 0x4000, carrying its packed position and its id |
| Registry.Broadcast | Network/ClientComm.cs:416-424 | a broadcast posts the message to every window in registry order |
| Registry.ToStructureWindows | Network/ClientComm.cs:387-392 | structure notifications carry the message and parameters given, at most one per window (the same loop is at lines 372-377) |
| Registry.StructureRecipients | Network/ClientComm.cs:387-392 | a structure notification goes to exactly the windows registered with type 1 (lines 372-377 likewise) |
| Registry.Survivors | Network/ClientComm.cs:413-431 | pruning never grows the registry |
| Registry.Failures | Network/ClientComm.cs:416-424 | the removal list is no longer than the registry |
| Registry.RemoveFirst | Network/ClientComm.cs:429 | `ArrayList.Remove` removes one copy of a present entry and changes nothing otherwise |
| Registry.Without | Network/ClientComm.cs:426-430 | an entry remains exactly when it was present and not collected for removal |
| Registry.WndRegistry.constructor | Network/ClientComm.cs:717-722 | the registry starts empty, with the command counter at WM_USER+401 (line 150) |
| Registry.WndRegistry.Register | Network/ClientComm.cs:156-178 | replies 2 iff the window was registered; the registry becomes `Toggled` (removed, or appended with type 1 iff `lParam == 1`); the back-fill is posted to a new type-1 window; no handle is ever held twice |
| Registry.WndRegistry.Find | Network/ClientComm.cs:158-165 | the search loop finds `IndexOf` |
| Registry.WndRegistry.PostBackFill | Network/ClientComm.cs:169-176 | ADD_MULTI with the packed position is posted for every multi (item id >= 0x4000), in order |
| Registry.WndRegistry.OnUOAMessage | Network/ClientComm.cs:152-327 | REGISTER and ADD_CMD reply and change the registry, the command list and the posts as `Register` and `AddCmd` do, each leaving the other's state alone; DISPLAY_TEXT replies 1 iff there is a player and the atom resolves; every other message replies as `Query` and changes nothing; the handler throws exactly when `QueryFaults` holds |
| Registry.WndRegistry.PostToWndReg | Network/ClientComm.cs:413-431 | every window is posted to in order, and the registry becomes exactly the windows whose post was delivered |
| Registry.WndRegistry.PostAll | Network/ClientComm.cs:416-424 | the posting loop posts to all windows and collects exactly the failures |
| Registry.WndRegistry.RemoveAll | Network/ClientComm.cs:426-430 | the removal loop removes exactly the collected entries |
| Registry.WndRegistry.PostAddMulti | Network/ClientComm.cs:380-393 | nothing at packed position 0; otherwise ADD_MULTI to each type-1 window in order |
| Registry.WndRegistry.PostRemoveMulti | Network/ClientComm.cs:362-378 | nothing for a null item or at packed position 0; otherwise REM_MULTI to each type-1 window in order |
| Registry.WndRegistry.PostToStructureWindows | Network/ClientComm.cs:387-392 | posts to the type-1 windows only, in order (the same loop is at lines 372-377) |
| Registry.WndRegistry.PostSkillUpdate | Network/ClientComm.cs:355-360 | SKILL_LEVEL is broadcast, then for Magery also MAGERY_LEVEL with the truncated whole points and tenths |
| Registry.WndRegistry.AddCmd | Network/ClientComm.cs:271-287 | an unresolved atom replies 0 and changes nothing; `hwnd == 0` removes the command by name and replies 0; otherwise the command gets the current id, which is the reply, and the `uint` counter advances, so until it wraps the ids increase |
| Registry.IndexOfFirst | Network/ClientComm.cs:158-165 | a search that stops at `i` returns `i` |
| Registry.IndexOfNone | Network/ClientComm.cs:158-165 | a search that finds nothing returns -1 |
| Registry.RegisteredAt | Network/ClientComm.cs:158-165 | a handle is registered exactly when the search finds it |
| Registry.RemovesTheOne | Network/ClientComm.cs:160-163 | with unique handles, the entry that REGISTER removes is the one holding the handle |
| Registry.RemoveAtKeepsUnique | Network/ClientComm.cs:162 | removing one entry keeps the others, in order and without duplicates |
| Registry.ToggleKeepsUnique | Network/ClientComm.cs:156-178 | REGISTER never creates a duplicate handle |
| Registry.RegisterTwiceRestores | Network/ClientComm.cs:156-178 | registering a new window twice restores the registry |
| Registry.RegisterRemoves | Network/ClientComm.cs:156-165 | re-registering removes the window and keeps the others in order |
| Registry.BackFillSnoc | Network/ClientComm.cs:171-175 | the back-fill of one more item adds at most its post |
| Registry.BroadcastSnoc | Network/ClientComm.cs:416-418 | one more window adds one post at the end |
| Registry.FailuresSnoc | Network/ClientComm.cs:418-423 | one more window adds itself to the failures iff its post was not delivered |
| Registry.StructureSnoc | Network/ClientComm.cs:372-377 | one more window adds a post iff it has type 1 |
| Registry.HeadNotInTail | Network/ClientComm.cs:158-165 | in a registry without duplicates the first entry does not recur |
| Registry.WithoutNothing | Network/ClientComm.cs:426 | with no failures the registry is unchanged |
| Registry.RemoveFirstIsWithout | Network/ClientComm.cs:428-429 | each `Remove` of the removal loop removes one more collected entry |
| Registry.WithoutIgnores | Network/ClientComm.cs:429 | an entry that is not registered, at the end of the removal list, changes nothing |
| Registry.WithoutExtra | Network/ClientComm.cs:429 | an entry that is not registered, at the head of the removal list, changes nothing |
| Registry.WithoutKeepsNoDuplicates | Network/ClientComm.cs:426-430 | pruning keeps the registry free of duplicates |
| Registry.FailuresWithin | Network/ClientComm.cs:416-424 | every collected failure is a registered window |
| Registry.FailuresAreNotSurvivors | Network/ClientComm.cs:413-431 | removing the failures leaves exactly the survivors |
| Registry.SurvivorsAreTheDelivered | Network/ClientComm.cs:413-431 | a window survives exactly when it was registered and its post was delivered |
| Registry.SurvivorsKeepOrder | Network/ClientComm.cs:413-431 | survivors keep their relative order: pruning distributes over concatenation |
| TitleBar.AsciiByte | Network/ClientComm.cs:1056 | ASCII characters keep their code and every other character becomes `?` |
| TitleBar.AsciiBytes | Network/ClientComm.cs:1056 | one byte per character |
| TitleBar.CString | Network/ClientComm.cs:1067 | the title read back is the bytes before the first zero |
| TitleBar.TitleBytes | Network/ClientComm.cs:1056-1059 | the copied bytes are the ASCII form cut to 511 |
| TitleBar.Title.constructor | Network/ClientComm.cs:689 | the last string starts empty |
| TitleBar.Title.SetTitleStr | Network/ClientComm.cs:1050-1071 | the string last written is ignored; any other has its ASCII bytes (at most 511) copied to the title area, followed by a zero byte, with the rest of the area untouched and one notification posted |
| TitleBar.AsciiNonZero | Network/ClientComm.cs:1056 | only NUL encodes as a zero byte |
| TitleBar.WrittenPrefix | Network/ClientComm.cs:1062-1067 | the written area holds the title bytes and then a zero |
| TitleBar.TitleReadsBack | Network/ClientComm.cs:1050-1071 | a title without NUL reads back as its ASCII form cut to 511 |
| TitleBar.CStringStopsAt | Network/ClientComm.cs:1067 | the C string ends at the first zero byte |
| TitleBar.TitleCutAtNul | Network/ClientComm.cs:1056-1067 | a NUL in the title ends what is read back |
| TitleBar.AsciiPrefix | Network/ClientComm.cs:1056 | the ASCII form of a prefix is the prefix of the ASCII form |
| Mobiles.FlagBits | RPVEditor/Mobile.cs:293-313 | the flag byte only uses bits within 0xCE, and 0x80 is set exactly when the mobile is hidden |
| Mobiles.FlagsRoundTrip | RPVEditor/Mobile.cs:293-322 | `ProcessPacketFlags(GetPacketFlags())` gives back all five booleans |
| Mobiles.FlagsMask | RPVEditor/Mobile.cs:293-322 | `GetPacketFlags` after `ProcessPacketFlags(f)` is `f & 0xCE` |
| Mobiles.NotorietyColors | RPVEditor/Mobile.cs:184-203 | the colour is black exactly for notoriety 0 and for values past the 8-entry table; values 1..7 get their own entry |
| Mobiles.LeadingSpace | RPVEditor/Mobile.cs:117 | counts the leading white-space characters |
| Mobiles.TrailingSpace | RPVEditor/Mobile.cs:117 | counts the trailing white-space characters |
| Mobiles.Trim | RPVEditor/Mobile.cs:117 | trimming never lengthens the string |
| Mobiles.TrimProperties | RPVEditor/Mobile.cs:117-119 | the trimmed name is a slice of the input with only white space cut from either end, starts and ends with a non-space, and is empty iff the input is all white space |
| Mobiles.TrimIdempotent | RPVEditor/Mobile.cs:117 | trimming twice is trimming once |
| Mobiles.FirstOnLayerMeans | RPVEditor/Mobile.cs:263-272 | a found item is the first on the layer in list order; nothing is found iff every entry is an item on another layer |
| Mobiles.ResolveAll | RPVEditor/Mobile.cs:80-95 | after `AfterLoad` every entry is an item |
| Mobiles.ResolveReplace | RPVEditor/Mobile.cs:84-92 | replacing one entry by what it resolves to leaves the result unchanged |
| Mobiles.ResolveAllKeepsOrder | RPVEditor/Mobile.cs:80-95 | the resolved list keeps the original relative order |
| Mobiles.ResolveAllLength | RPVEditor/Mobile.cs:80-95 | the list shrinks by exactly the number of serials the world does not know |
| Mobiles.ResolveAllResolved | RPVEditor/Mobile.cs:84 | a list with no bare serials is left as it is |
| Mobiles.ResolvedPrefix | RPVEditor/Mobile.cs:256-257 | the items handed to `Item.Remove` are the entries before the first bare serial |
| Mobiles.Header | RPVEditor/Mobile.cs:48-57 | nine header fields |
| Mobiles.SerialFields | RPVEditor/Mobile.cs:58-59 | one `uint` field per serial, in order |
| Mobiles.ReadSerials | RPVEditor/Mobile.cs:74-77 | reading `count` serials succeeds iff that many `uint` fields follow, and yields them in order |
| Mobiles.SaveLoadRoundTrip | RPVEditor/Mobile.cs:44-78 | loading what was saved gives back every field and every serial, and leaves what follows for the next reader |
| Mobiles.ReloadKeepsRecord | RPVEditor/Mobile.cs:44-78 | a record whose flag byte came from `GetPacketFlags` (lines 293-313) reloads exactly, flags included |
| Mobiles.Serials | RPVEditor/Mobile.cs:59 | one serial per entry, in order |
| Mobiles.Mobile.constructor | RPVEditor/Mobile.cs:97-102 | a new mobile has no items, is visible, and is on the player's map (0 without a player); body, direction, hits and hitsMax are 0, it is not female, poisoned, blessed or in war mode, and it has no name, changes or removals |
| Mobiles.Mobile.Name | RPVEditor/Mobile.cs:106-112 | the getter never yields null: "" when unset |
| Mobiles.Mobile.SetName | RPVEditor/Mobile.cs:113-121 | null and all-white-space values leave the name unchanged; any other value is stored trimmed |
| Mobiles.Mobile.SetNotoriety | RPVEditor/Mobile.cs:166-177 | the notoriety becomes the value; the change hook is logged with old and new value only when they differ |
| Mobiles.Mobile.SetMap | RPVEditor/Mobile.cs:225-236 | the map becomes the value; the change hook is logged with old and new value only when they differ |
| Mobiles.Mobile.GetStatusCode | RPVEditor/Mobile.cs:205-211 | 1 exactly when poisoned, 0 otherwise |
| Mobiles.Mobile.ProcessPacketFlags | RPVEditor/Mobile.cs:315-322 | the five booleans become the decoded flag byte |
| Mobiles.Mobile.AddItem | RPVEditor/Mobile.cs:242-245 | the item is appended |
| Mobiles.Mobile.RemoveItem | RPVEditor/Mobile.cs:247-250 | the first entry holding the item is removed; without one nothing changes |
| Mobiles.Mobile.Remove | RPVEditor/Mobile.cs:252-261 | the list ends empty; the former items go to `Item.Remove` in order up to the first bare serial, whose cast fails; the world removal runs only if there was none |
| Mobiles.Mobile.GetItemOnLayer | RPVEditor/Mobile.cs:263-272 | the lookup loop yields `FirstOnLayer` |
| Mobiles.Mobile.Backpack | RPVEditor/Mobile.cs:274-280 | the backpack is the first item on layer 0x15 |
| Mobiles.Mobile.AfterLoad | RPVEditor/Mobile.cs:80-95 | the resolve-and-drop loop leaves exactly `ResolveAll` of the old list |
| Mobiles.Mobile.ResolveEntry | RPVEditor/Mobile.cs:84-93 | one turn resolves or drops one entry and keeps `ResolveAll` of the list |
| Mobiles.Mobile.Restore | RPVEditor/Mobile.cs:65-77 | the fields read become the record, with the flag byte masked to 0xCE |
| Mobiles.Mobile.SaveState | RPVEditor/Mobile.cs:44-61 | succeeds iff every entry is an item, and then writes `Encode` of the record; otherwise writes the header and the serials before the first bare serial |
| Mobiles.Mobile.Load | RPVEditor/Mobile.cs:63-78 | fails iff `Decode` does; otherwise the new mobile's record is the decoded one with the flag byte masked, its items are bare serials until `AfterLoad`, it has no changes or removals, and the reader stands after it |
| Mobiles.WriteSerials | RPVEditor/Mobile.cs:57-59 | the serial loop writes the serials before the first bare serial, and succeeds iff there is none |
| Mobiles.ReadItems | RPVEditor/Mobile.cs:74-77 | the load loop keeps `count` bare serials in stream order |
| Mobiles.PrefixExtends | RPVEditor/Mobile.cs:256-257 | before the first bare serial, each item extends the removed prefix |
| Mobiles.PrefixStops | RPVEditor/Mobile.cs:256-257 | the removed prefix stops at the first bare serial |
| Mobiles.SerialFieldsSnoc | RPVEditor/Mobile.cs:58-59 | one more serial adds one field at the end |

`Relay.StepIs` (it unfolds `RelaySpec.Step` for one input) and `RelayProperties.Associative` (sequence concatenation regrouped) are proof helpers and model nothing of their own.

## Left out

- The cross-process mutex (`CommMutex`) and everything concurrent are not modelled. The native agent consumes the outbound regions and produces the inbound ones between calls; the model treats each call as atomic.
- ProcessPlaybackData's release/sleep/reacquire wait is not modelled as a loop. When the frame does not fit, the call ends with the outcome `Waiting` and writes nothing; when it fits, the write happens.
- The native and Win32 functions are parameters, not behaviour. These are `GetPacketLength`, `IsDynLength`, `PostMessage`, the global atom table, `FindUOWindow` and `DoFeatures`.
- The handlers, the recorder and the RPV container rewrites are parameters that return verdicts or bytes.
- The 0x1C system-message rewrite in `HandleComm` during playback (Network/ClientComm.cs:1534-1556) is not modelled. It edits a frame that is blocked anyway, and it calls `DoFeatures`, which is not part of this model.
- PlaybackSpec.Playback: an empty packet from a container rewrite is an `IndexFault` that changes nothing. In the source, when the frame has neither a viewer nor a filter, that fault comes after both queue flags were raised (Network/ClientComm.cs:1693-1695), so the flags stay raised.
- The 0x6E animation scaling by a `double` is a parameter that yields the new delay byte. `EncodeColorStat` and the rest of `UpdateTitleBar` are not modelled.
- `Packet.Log` is not modelled, nor is `Packet.Compile`. A packet is its compiled bytes.
- The `SendToServer(PacketReader)` and `SendToClient(PacketReader)` overloads are not modelled; they only copy the reader into a packet.
- OnUOAMessage handles COUNT_RESOURCES, SET_MACRO and PLAY_MACRO by their reply values only. The recount, the macro click and the macro state are not modelled.
- OnUOAMessage handles DISPLAY_TEXT by its reply only. The overhead or system message and the atom deletion are not modelled.
- `Command.RemoveCommand` is modelled as a log of the names it was called with. The `WndCmd` constructor, which registers the command, is modelled as appending to `commands`.
- The delivery function passed to `PostToWndReg` is a function of the post. Two identical posts in one broadcast therefore get the same answer. The registry never holds a handle twice, so this only matters for duplicate entries, which cannot arise.
- A thrown exception out of `OnUOAMessage` is the answer `LockFault`. Where it goes after that (the window procedure of the host) is not modelled.
- The `Mobile` base class `UOEntity` is not modelled: its save and load part, its serial handling and `base.Remove()` are out of scope. `World.RemoveMobile` and the base removal are one flag, `removedFromWorld`.
- `World.FindItem` is a parameter of `AfterLoad`. `Item.Remove` is logged in `removedItems`.
- Items are values identified by serial and layer. `ArrayList.Remove` compares by reference in the source and by value in the model.
- `BinaryWriter`/`BinaryReader` byte encoding, including the length prefix of strings, is not modelled. Persistence is modelled at the level of typed fields. Reading a field of another kind than the one expected is treated as a malformed stream (`None`); the source would reinterpret the bytes.
- `FindItemByID` (RPVEditor/Mobile.cs:282-291) and the plain getters and setters of `Mobile` are not modelled.
- The `Direction` enum is kept as the byte it is saved as.

## Findings

`OnUOAMessage` and `Query` keep both guards as written, so the handler's faults are part of the model. `QueryChecked` is the dispatcher with both corrections, and `QueryCheckedAgrees` states where the two part.

| source | as written | input that shows it | evidently intended | confidence | as-written member | corrected member |
|---|---|---|---|---|---|---|
| Network/ClientComm.cs:193 | GET_SKILL rejects `wParam > Skills.Length`, so `wParam == Skills.Length` passes the guard and `Skills[wParam]` throws out of the message handler | a player with a skill table of length n, `wParam = n`, `lParam` in 0..2 | reject `wParam >= Skills.Length` and answer 0 | not executed | UOAQueries.GetSkillFaultsPastTheEnd | UOAQueries.GetSkillChecked |
| Network/ClientComm.cs:313 | SET_SKILL_LOCK rejects `wParam > Skills.Length`, so a lock request for the skill one past the table is sent to the server and the reply is 1; a null skill table throws | a player with a skill table of length n and `wParam = n`, `lParam = 0` | reject `wParam >= Skills.Length` (and a null table) and answer 0 | not executed | UOAQueries.SetSkillLockPastTheEnd | UOAQueries.SetSkillLockChecked |
