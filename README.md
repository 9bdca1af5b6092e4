# slp_validate in Dafny

A model of the core of `slp_validate`, a validator for Slippi `.slp` replay files (recordings of Super
Smash Bros. Melee matches). A replay is a UBJSON envelope:

- an 11-byte signature and the big-endian length of the raw event array;
- the raw array itself, which is a stream of one-byte event codes, each followed by a payload;
- a metadata block.

The stream opens with an EventPayloads event, a table giving each event code's payload size, and a
game start record. Per-frame records follow: frame start, one pre-frame per character, item records,
one post-frame per character, frame end. The stream closes with a game end event.

The validator decodes every record, logs every value it finds suspicious, and checks that the
events of each frame arrive in the expected order. It stops at the first condition the original
program treats as fatal. These are a returned error or a panic: an out-of-range index, an `unwrap` of
nothing, a read past a buffer, or an arithmetic overflow. Here each such condition is a `Failure` value.

The modules follow the source files:

| module | models | form |
|---|---|---|
| `Common` | event codes, failures, logs | values |
| `Bytes` | the `bytes::Bytes` read cursor, as class `Stream` (`data`, `pos`) | imperative |
| `Utils` | `Version`, `at_least`, `as_u32` (`utils.rs`) | pure |
| `Melee` | the external enumeration lookups, as a `Tables` parameter | values |
| `Players` | roster entries and tournament legality (`player.rs`) | pure |
| `Frames`, `PreFrames`, `PostFrames`, `ItemFrames` | the record decoders and their validators | imperative: each decoder reads a fresh `Stream` over its window |
| `GameStarts` | `GameStart::parse` and its version cascade (`game_start.rs`) | imperative over a `Stream`, specified by layout functions |
| `EventOrder` | the expected-order builder and the ordering checker (`parse.rs`) | a class `OrderTracker` tied to pure step functions |
| `Parse` | the size table, `expect_bytes`, the envelope, the metadata frame count and the read loop of `validate_game` (`parse.rs`) | imperative, specified by functions on the file's bytes |

Every decoder method is proved against a layout function or predicate. These fix where each field
sits in the window, which fields the version gates in, how many bytes are read, which failure stops
decoding, and exactly what is logged. The read loop of `validate_game` is proved against `Framing`,
the walk of event offsets the size table dictates. It is also proved against `Run`, the ordering
checker folded over the events the walk visits.

## Model

| member | source | states |
|---|---|---|
| Common.EventFromRepr | src/parse.rs:69-84 | a code decodes to the event whose discriminant it is; a code no event has decodes to nothing |
| Common.EventCodeRoundTrip | src/parse.rs:69-84 | encoding an event type and decoding it again gives it back, for every event type |
| Bytes.I32 | src/frame.rs:13 | a four-byte two's complement read always fits an i32 |
| Bytes.I8 | src/itemframe.rs:47 | a one-byte two's complement read lies in [-128, 128) and is negative exactly when the top bit is set |
| Utils.DefaultVersion | src/game_start.rs:314-323 | the default version 0.1.0 is at least 0.1.0 and below 0.2.0, the earliest gate any record uses |
| Utils.Version.AtLeast | src/utils.rs:85-92 | `at_least`: the version is not below the given triple; its meaning is stated by `AtLeastLexicographic` and `AtLeastTotalOrder` |
| Utils.Version.AsU32 | src/utils.rs:95-97 | `as_u32`: the big-endian word of major, minor, build and 0; its meaning is stated by `AsU32Value`, `AtLeastIffAsU32` and `AsU32Injective` |
| Utils.AsU32Value | src/utils.rs:94-97 | `as_u32` puts major, minor and build in the three high bytes, leaves the low byte 0, and fits a u32 |
| Utils.AtLeastIffAsU32 | src/utils.rs:83-97 | `at_least` holds exactly when the `as_u32` word is at least the other version's word |
| Utils.AsU32Injective | src/utils.rs:94-97 | distinct versions have distinct `as_u32` words |
| Utils.AtLeastTotalOrder | src/utils.rs:66-92 | `at_least` is reflexive, transitive, total and antisymmetric |
| Utils.AtLeastLexicographic | src/utils.rs:83-92 | `at_least(a, b, c)` is the lexicographic comparison of (major, minor, build) with (a, b, c) |
| Players.PlayerTypeFromRepr | src/player.rs:6-14 | defined exactly on codes 0-3, and each decoded type has the code it came from |
| Players.TeamShadeFromRepr | src/player.rs:16-23 | defined exactly on codes 0-2 |
| Players.TeamIdFromRepr | src/player.rs:25-32 | defined exactly on codes 0-2 |
| Players.ControllerFixFromRepr | src/game_start.rs:35-42 | defined exactly on codes 0-2 |
| Players.IsLegal | src/player.rs:56-75 | an empty port is legal, a CPU or demo port never is; a human is legal exactly when the character is playable, there are 4 stocks, no handicap, no damage at start or respawn, and no bitfield bit above bit 0 |
| Frames.NewFrameStart | src/frame.rs:11-22 | reads 8 bytes before 3.10.0 and 12 from then on, and fails with an underflow exactly when the window is shorter; the index is the signed first word; the counter is present exactly from 3.10.0 and is the third word |
| Frames.NewFrameEnd | src/frame.rs:30-42 | reads 4 bytes before 3.7.0 and 8 from then on, and fails exactly when the window is shorter; latest-finalized is present exactly from 3.7.0 and is the signed second word |
| PreFrames.ReadInputs | src/preframe.rs:130-138 | the 46 input bytes land in their fields in record order |
| PreFrames.ReadVec2 | src/preframe.rs:130 | two f32 words, read exactly when 8 bytes remain, at the cursor and 4 past it |
| PreFrames.ReadSticks | src/preframe.rs:130-133 | position, orientation, joystick and c-stick from 28 bytes at offsets 0, 8, 12 and 20, read exactly when they remain |
| PreFrames.ReadButtons | src/preframe.rs:134-138 | trigger, the u32 engine buttons, the u16 controller buttons, l and r from 18 bytes, read exactly when they remain; the engine buttons fit a u32 |
| PreFrames.ReadGated | src/preframe.rs:139-141 | raw stick x, percent and raw stick y are each present exactly when the version reaches 1.2.0, 1.4.0 or 3.15.0, at their offsets |
| PreFrames.StateAt | src/preframe.rs:118-129 | an unresolved Zelda state is the second code resolved as Sheik; any other state is the first code resolved against the character |
| PreFrames.ReadState | src/preframe.rs:118-129 | reads two bytes, or four for an unresolved Zelda state, and yields `StateAt` |
| PreFrames.ReadHead | src/preframe.rs:102-104 | frame index, port and follower byte; a follower exactly when the byte is 1 |
| PreFrames.ReadBody | src/preframe.rs:117-141 | seed, state, inputs and gated fields at their offsets, consuming the version's size |
| PreFrames.PreFrameWarnings | src/preframe.rs:30-68 | the integer checks of `validate`: at most two warnings, an unresolved state and reserved button bits; their meaning is `PreFrameWarningsMeaning` |
| PreFrames.PreFrameWarningsMeaning | src/preframe.rs:30-68 | an unresolved state is logged first with its raw code; the buttons warning appears exactly when a bit of 0x7F00E080 is set |
| PreFrames.NewPreFrame | src/preframe.rs:101-147 | a port of 4 or more stops decoding; otherwise decoding succeeds exactly when the window holds the version's size (plus 2 for a Sheik re-read), every field sits at its offset, and the logs are the follower mismatch (a follower for a non-Ice Climbers player) followed by the validator's warnings |
| PreFrames.PreFrameGatesAscend | src/preframe.rs:139-141 | the gates ascend, so the record's size is 58 plus exactly the gated fields the version has |
| PostFrames.ReadFixed | src/postframe.rs:44-56 | the 33 fixed bytes land in their fields in record order |
| PostFrames.ReadFlags | src/postframe.rs:58-64 | the flags word is the five bytes, least significant first |
| PostFrames.ReadGroundGroup | src/postframe.rs:58-69 | the 2.0.0 group's fields at their offsets; grounded exactly when its byte is 0 |
| PostFrames.ReadEarly | src/postframe.rs:57-69 | the state frame (0.2.0) and the 2.0.0 group are present exactly when the version has them |
| PostFrames.ReadVelocities | src/postframe.rs:71-81 | air, knockback and ground velocity, the ground velocity reusing the air velocity's y |
| PostFrames.ReadLate | src/postframe.rs:70-85 | hurtbox (3.1.0), velocities (3.5.0), hitlag (3.8.0), animation (3.11.0) and instance ids (3.16.0) are each present exactly when the version has them |
| PostFrames.ReadRecord | src/postframe.rs:43-86 | the fixed part and both gated parts at their offsets, consuming the version's size |
| PostFrames.PostFrameSizeSplits | src/postframe.rs:57-85 | the record size is 33 plus the early and the late gated sizes |
| PostFrames.CharacterWarnings | src/postframe.rs:96-132 | at most three warnings: Nana flag on another character, unknown state, unknown attack; their meaning is `CharacterWarningsMeaning` |
| PostFrames.GatedWarnings | src/postframe.rs:133-147 | at most three warnings on the gated fields: flag bits above 39, l-cancel above 2, hurtbox above 2; their meaning is `GatedWarningsMeaning` |
| PostFrames.CharacterWarningsMeaning | src/postframe.rs:96-132 | Nana flag on another character, unknown state and unknown attack are each logged exactly when they hold, and nothing else |
| PostFrames.GatedWarningsMeaning | src/postframe.rs:133-147 | flag bits above 39, l-cancel above 2 and hurtbox above 2 are each logged exactly when the field is present and out of range, with its own value |
| PostFrames.PostFrameCheck | src/postframe.rs:93-148 | an unknown character byte stops validation with that byte; otherwise the logs are the character warnings then the gated warnings |
| PostFrames.NewPostFrame | src/postframe.rs:41-91 | succeeds exactly when the window holds the version's size and the character byte names a character; a short window fails with an underflow; the record's fields sit at their offsets and its logs are the check's |
| PostFrames.FlagsLanes | src/postframe.rs:58-64 | each of the five bytes lands in its own 8-bit lane, and no bit at or above 40 is set |
| PostFrames.AssembleFlags | src/postframe.rs:58-64 | the five flag bytes, byte i shifted left by 8 × i; its lanes and range are `FlagsLanes` |
| PostFrames.NoInvalidFlags | src/postframe.rs:133-137 | a decoded record never logs the flag-bits warning |
| ItemFrames.ReadFixed | src/itemframe.rs:33-42 | the 37 fixed bytes land in their fields in record order |
| ItemFrames.ReadGated | src/itemframe.rs:43-48 | the four 3.2.0 fields come together; owner (3.6.0) and instance id (3.16.0) are each present exactly when the version has them |
| ItemFrames.ItemFrameWarnings | src/itemframe.rs:56-63 | an unknown item id is logged, and nothing else is |
| ItemFrames.NewItemFrame | src/itemframe.rs:32-54 | succeeds exactly when the window holds the version's size; every field sits at its offset; the logs are the validator's |
| GameStarts.MatchTypeFromRepr | src/game_start.rs:24-33 | defined exactly on 'u', 'r', 'd' and 0 |
| GameStarts.MatchTypeOf | src/game_start.rs:302-308 | the sixth byte of the match id decides the type; an id of five bytes or fewer is `Unknown` |
| GameStarts.FirstZero | src/game_start.rs:259 | the first zero byte, if there is one |
| GameStarts.ZeroTruncate | src/game_start.rs:257-260 | a text field cut to a prefix of itself, at its first zero or at the fallback length; the rest is `ZeroTruncateMeaning` |
| GameStarts.ZeroTruncateMeaning | src/game_start.rs:257-260 | a text field is cut exactly at its first zero byte, or at the fallback length when it has none, and keeps no zero |
| GameStarts.AsciiIsUtf8 | src/game_start.rs:297 | an ASCII match id never fails UTF-8 decoding |
| GameStarts.VersionAt | src/game_start.rs:114 | the version is the record's first three bytes |
| GameStarts.BlockPlayer | src/game_start.rs:136-183 | slot i's port is i; a type code past 3 falls back to `Empty`; the later sections are not yet applied |
| GameStarts.SlotWarnings | src/game_start.rs:138-154 | at most three warnings for a player block; their meaning is `SlotWarningsMeaning` |
| GameStarts.SlotWarningsMeaning | src/game_start.rs:138-154 | an invalid type is logged exactly when the code has no type; an invalid team shade or team id only for a human or CPU player |
| GameStarts.PlayersAtSlot | src/game_start.rs:129-274 | roster slot j is player block j with controller fixes exactly from 1.0.0, and names and codes exactly from 3.9.0 |
| GameStarts.StartAtCascade | src/game_start.rs:186-308 | each gated setting is present exactly from its gate, read from its offset, and the present ones form a prefix of the cascade; the match type derives from the match id |
| GameStarts.ReadPrefix | src/game_start.rs:114-120 | version, teams flag and stage code from the first 20 bytes |
| GameStarts.ReadHeader | src/game_start.rs:113-127 | reads 100 bytes; fewer than 20 underflow, an unknown stage then stops decoding with that stage, and a header short of 100 bytes underflows |
| GameStarts.ReadStartBody | src/game_start.rs:129-311 | after the 100-byte header, the roster and the section cascade read exactly when the sections are readable and yield the layout's start record; a window ending before the random seed underflows, and otherwise the failure is `SectionsFailure` |
| GameStarts.ReadCodes | src/game_start.rs:137-156 | the nine one-byte codes of a player block, in order |
| GameStarts.ReadNumbers | src/game_start.rs:157-162 | damages, ratios and scale at their offsets, then 11 skipped bytes |
| GameStarts.ReadPlayer | src/game_start.rs:136-184 | one block is `BlockPlayer` with its `SlotWarnings` |
| GameStarts.ReadUcf | src/game_start.rs:219-224 | the low byte of each u32 must be a controller fix; a failure is the first of a short dashback word, a bad dashback value, a short shield drop word and a bad shield drop value (`UcfSlotFailure`) |
| GameStarts.ReadSlot | src/game_start.rs:136-184 | one turn of the roster loop extends the roster and warnings by block i |
| GameStarts.ReadRoster | src/game_start.rs:129-184 | the four blocks in slot order with their warnings in order |
| GameStarts.ReadUcfSection | src/game_start.rs:218-225 | every slot gets its toggles; succeeds exactly when all four are valid, and otherwise fails as the first failing slot does (`UcfFailure`) |
| GameStarts.ReadNameSection | src/game_start.rs:256-274 | every slot gets its zero-truncated display name (cut at 30) and connect code |
| GameStarts.ReadMatchSection | src/game_start.rs:292-300 | match id (cut at 50), game number and tiebreak number; a window short of the id underflows, a non-UTF-8 id then stops decoding, and a short tail underflows |
| GameStarts.CascadeGates | src/game_start.rs:214-290 | each gate of the cascade implies the one before it |
| GameStarts.ReadEarlySections | src/game_start.rs:214-250 | the sections from 1.0.0 to 3.7.0, returning at the first gate the version does not reach; fails as the first failing controller fix slot does, or else with an underflow |
| GameStarts.ReadLateSections | src/game_start.rs:252-310 | the sections from 3.9.0 on, returning at the first gate the version does not reach; fails with a non-UTF-8 match id only once its 51 bytes are there, and otherwise underflows |
| GameStarts.ReadSections | src/game_start.rs:214-310 | the whole cascade succeeds exactly when the sections are readable, and yields the roster, settings and match fields of the layout; otherwise it fails with `SectionsFailure` |
| GameStarts.ParseGameStart | src/game_start.rs:113-311 | succeeds exactly when the window is readable (size for its version, known stage, valid fixes, UTF-8 id); then yields the layout's settings, version and roster, reads the version's size, and logs the block warnings; otherwise fails with `StartFailure`, the first failure in read order |
| GameStarts.StartFailure | src/game_start.rs:113-300 | the failure of an unreadable window in read order: fewer than 20 bytes underflow, then an unknown stage, then a window ending before the random seed underflows, then `SectionsFailure` |
| GameStarts.SectionsFailure | src/game_start.rs:214-300 | the first failing controller fix slot, else a non-UTF-8 match id once its bytes are there, else an underflow |
| GameStarts.UcfSlotFailure | src/game_start.rs:219-224 | a slot's toggles fail exactly when its 8 bytes are short or a value is not a controller fix, with the first of those in read order |
| GameStarts.UcfFailure | src/game_start.rs:218-225 | no slot from j on fails exactly when each has its 8 bytes and valid toggles; otherwise the first failing slot's failure |
| GameStarts.FirstBadFixWins | src/game_start.rs:218-220 | a full-size 1.0.0 record whose first dashback value is 3 fails with that controller fix |
| EventOrder.BlockShape | src/parse.rs:200-218 | a block holds only its event, one per active player plus one per active Ice Climbers |
| EventOrder.OrderShape | src/parse.rs:198-220 | the order is frame start, the pre-frame slots, the item slot, the post-frame slots and frame end; its length is 3 + 2 × width, and frame start appears only first |
| EventOrder.PushPlayer | src/parse.rs:201-206 | pushes one event for a human or CPU player, two for Ice Climbers, none otherwise |
| EventOrder.PushBlock | src/parse.rs:200-207 | appends the block of every player in port order |
| EventOrder.BuildOrder | src/parse.rs:198-220 | builds exactly the expected order |
| EventOrder.ExpectedOrder | src/parse.rs:198-220 | frame start, the pre-frame block, the item slot, the post-frame block and frame end; its shape is `OrderShape` |
| EventOrder.FrameStartStep | src/parse.rs:237-256 | a frame start: resynchronises when out of sync or off the frame start slot, then logs an irregular delta and a rollback; its properties are `CursorMoves`, `SyncSticky` and `FrameDeltas` |
| EventOrder.PreFrameStep | src/parse.rs:257-268 | a pre-frame: loses sync off a pre-frame slot and moves the cursor by one; see `CursorMoves` and `SyncSticky` |
| EventOrder.PostFrameStep | src/parse.rs:269-286 | a post-frame: loses sync off a post-frame or item slot, moves two from the item slot and one elsewhere; see `CursorMoves` and `SyncSticky` |
| EventOrder.FrameEndStep | src/parse.rs:287-294 | a frame end: loses sync off the frame end slot and returns the cursor to 0; see `CursorMoves` and `SyncSticky` |
| EventOrder.ItemStep | src/parse.rs:295-303 | an item: loses sync off the item slot and leaves the cursor; see `CursorMoves`, `SyncSticky` and `ItemRun` |
| EventOrder.Step | src/parse.rs:236-303 | the arm of the loop's `match` for the event seen |
| EventOrder.Run | src/parse.rs:225-314 | the checker folded over the events seen, stopping at the first failure; see `RunSnoc` and `CleanFramesSilent` |
| EventOrder.OrderTracker.constructor | src/parse.rs:189-222 | the checker starts at slot 0, in sync, with previous frame -123 |
| EventOrder.OrderTracker.Observe | src/parse.rs:236-303 | the new cursor, sync flag and previous frame, and the logs, are those of the step function for the event, and so is the failure |
| EventOrder.CursorMoves | src/parse.rs:237-303 | a frame start leaves the cursor at 1 and in sync, a frame end at 0; a pre-frame moves it 1, a post-frame 2 from the item slot and 1 elsewhere, an item not at all |
| EventOrder.SyncSticky | src/parse.rs:257-303 | out of sync, only a frame start resynchronises and nothing else logs; in sync, an event logs exactly when it loses sync, naming the expected slot |
| EventOrder.FrameDeltas | src/parse.rs:240-254 | an irregularity is logged exactly for a delta above 1 or below -10, and a rollback exactly for a backward step; the step fails only for a cursor past the order or a delta outside i32 |
| EventOrder.RollbackOnly | src/parse.rs:249-254 | a step back from frame 12 to 9 is a rollback and not an irregularity |
| EventOrder.RunSnoc | src/parse.rs:225-314 | the checker over one more event continues from where it stopped; the first failure is final |
| EventOrder.ItemRun | src/parse.rs:295-303 | any number of item records at the item slot log nothing and leave the cursor there |
| EventOrder.CleanFrameSilent | src/parse.rs:236-303 | with at least one active player, a well-formed frame logs nothing and returns to slot 0 in sync |
| EventOrder.CleanFramesSilent | src/parse.rs:186-303 | any number of well-formed frames with consecutive indices, from frame -123 at the start, log nothing |
| EventOrder.OrderIndexReachable | src/parse.rs:240-284 | a one-player stream can push the cursor past the order, which stops validation |
| Parse.TableReadable | src/parse.rs:103-111 | the table reads successfully exactly when all its entries fit and carry known codes |
| Parse.TableStops | src/parse.rs:105-109 | once an entry fails, reading more entries keeps that failure |
| Parse.LastEntryFor | src/parse.rs:105-109 | the last entry naming an event, with no later entry naming it |
| Parse.TableLastWins | src/parse.rs:103-111 | an event is in the table exactly when some entry names it, with the size of the last such entry |
| Parse.Table | src/parse.rs:103-110 | the map built from the first n entries; an entry at offset 2 + 3i, and a successful read fits all of them; its meaning is `TableReadable` and `TableLastWins` |
| Parse.EventSizes | src/parse.rs:86-112 | the table needs code 0x35 first (another known code, or an unknown one, fails with it), a nonzero length byte (0 underflows) and a length ≡ 1 mod 3; it consumes 1 + length bytes |
| Parse.ReadEntry | src/parse.rs:106-108 | one entry: a known code and a big-endian u16 size; an unknown code fails with that code |
| Parse.ReadEntries | src/parse.rs:103-111 | the reading loop yields exactly `Table` of its entries |
| Parse.ReadEventSizes | src/parse.rs:86-112 | reading the table from the stream agrees with `EventSizes` on the remaining bytes, in result, failure and bytes consumed |
| Parse.ExpectBytes | src/parse.rs:114-125 | consumes the expected bytes exactly when they are next; a mismatch consumes nothing; too few bytes underflow |
| Parse.RawLength | src/parse.rs:139 | the metadata block starts 15 bytes past the declared u32 length |
| Parse.FrameCount | src/parse.rs:157-163 | the frame count from the metadata's last frame; its meaning is `FrameCountMeaning` |
| Parse.FrameCountMeaning | src/parse.rs:154-163 | the frame count is lastFrame + 124 modulo 2^64 (exactly that for lastFrame ≥ -124, and 0 with no number); a non-i64 number or an i64 overflow fails |
| Parse.ReadMetadata | src/parse.rs:142-163 | succeeds exactly when the block fits, opens with `U\x08metadata{`, the document decodes and its frame count is defined; each failure is distinguished |
| Parse.ReadGameStartWindow | src/parse.rs:173-180 | succeeds exactly when the game start code sits at the position and a payload of the table's size follows inside the file; otherwise fails with an underflow, a wrong code, or a missing size for the game start; on success the stream skips the payload and returns it |
| Parse.ReadEnvelope | src/parse.rs:131-163 | succeeds exactly when the signature, the u32 length and the metadata block can all be read, and then yields the raw length and frame count; otherwise fails with the first of those checks that fails |
| Parse.ReadTables | src/parse.rs:171-182 | succeeds exactly when the size table, the game start event and its payload all read; the size table is `EventSizes` of the bytes after offset 15, the payload follows it, and the decoded game start is its layout; a failure is `TablesFailure`: the size table's, else the game start event's, else `StartFailure` of the payload |
| Parse.TablesByStart | src/parse.rs:173-182 | once the size table and the game start event are read, the tables read exactly when the game start payload does, and fail with `StartFailure` of the payload |
| Parse.ReadPreamble | src/parse.rs:127-182 | succeeds exactly when the envelope and the tables both read, and then yields `PreambleOf` the file; otherwise fails with `PreambleFailure`: the envelope's failure, else the tables'; a short file underflows and a wrong signature fails at once |
| Parse.EventOf | src/parse.rs:226-227 | a known code is its event; an unknown code reads as the default event |
| Parse.FramingShape | src/parse.rs:225-313 | the walk starts after the game start, each event follows the previous by one code byte plus its table size, and every event starts before the metadata block and inside the file (its payload may run into the metadata block); a game end can only be last, so the duplicate warning never fires |
| Parse.PayloadPastEnd | src/parse.rs:225 | the loop bound is tested only before each code, so an event starting before the metadata block is visited though its payload runs into it |
| Parse.UnknownCodeStops | src/parse.rs:226-234 | an unknown code is skipped only when the table sizes code 0; otherwise it stops validation |
| Parse.ZeroCodeWarned | src/parse.rs:69-84 | code 0 decodes to the default event itself, and with a table entry of size 0 it is logged as unknown and skipped |
| Parse.Framing | src/parse.rs:225-313 | the offsets the loop visits, each one code byte plus its table size after the last; its shape is `FramingShape` |
| Parse.DecodeRecord | src/parse.rs:236-303 | succeeds exactly when the event's decoder reads its window (size for the version, a port below 4, a known post-frame character), naming the failure otherwise; yields what the checker sees of the record and exactly the decoder's logs; events without a decoder log nothing |
| Parse.HandleEvent | src/parse.rs:236-303 | decodes the record and shows it to the order checker with exactly the outcome of Parse.RecordOutcome: it succeeds when that does, with its logs and checker state, and otherwise fails with its failure |
| Parse.RecordOutcome | src/parse.rs:236-303 | one record with the checker in a state: succeeds exactly when the record decodes and the checker accepts it, moving the checker as the step function says; a failure is the decoder's when the record does not decode, else the checker's |
| Parse.RecordOutcomeLogs | src/parse.rs:236-303 | a record that goes through logs its decoder's warnings, then for an ordered record the checker's |
| Parse.VisitAt | src/parse.rs:225-313 | one loop pass: goes on only to a later offset inside the file, and a code read as the default event (one no event has, or 0 itself) is always logged first |
| Parse.Walk | src/parse.rs:225-314 | the read loop from an offset: everything it logs and the failure that stops it |
| Parse.WalkEnds | src/parse.rs:225-314 | the loop stops with the failure its route ends with, whatever it logged |
| Parse.WalkSucceeds | src/parse.rs:225-314 | the loop runs to the end exactly when the framing succeeds, every record on it decodes and the checker accepts what it sees |
| Parse.WalkKeepsDone | src/parse.rs:225-314 | the loop only appends to what was logged |
| Parse.WalkLogsUnknown | src/parse.rs:227-233 | a loop that runs to the end logs the code of every event it visited that read as the default event, code 0 included |
| Parse.ReadEvent | src/parse.rs:225-313 | one loop pass is `VisitAt`: a code read as the default event, 0 included, is logged first; a code without a size, a payload past the file, a record that does not decode or an order the checker refuses stop it; a game end ends the loop; otherwise the stream moves past the payload and the logs are the record's and the checker's |
| Parse.ReadEventCases | src/parse.rs:225-313 | one loop pass case by case: a code without a size fails naming its event, a payload past the file underflows, a game end only advances, any other record gives `RecordOutcome` on the payload it peeked |
| Parse.ReadRecord | src/parse.rs:236-313 | a record that goes through advances past its payload with `RecordOutcome`'s logs and checker state; one that fails consumes nothing and names `RecordOutcome`'s failure |
| Parse.CheckEvents | src/parse.rs:186-314 | the loop's logs and failure are exactly `Walk` from the first event; it runs without failure exactly when the events are framed by the table, every record decodes and the checker accepts them; then it visited exactly the `Framing` walk and logged every code met that read as the default event |
| Parse.ValidateGame | src/parse.rs:127-317 | a short file or wrong signature fails at once; a file whose preamble does not read fails with the preamble's failure; otherwise the report is the game start's warnings followed by the read loop's logs, with its failure; a file passes exactly when its preamble reads and its events run to the end |

## Behaviours of the code worth knowing

The model follows `src/` in these behaviours, which a reader of the format might not expect:

- The expected order holds event kinds only. There is no per-port key and no tolerance for a missing
  Ice Climbers follower: a missing follower record shifts the cursor like any other event.
- Ordering is checked whatever the number of players; no two-player restriction exists in the code.
- The loop tests `pos < raw_length` only before reading each event code. An event that starts
  before the metadata block is decoded even when its payload runs into that block
  (`Parse.PayloadPastEnd`).
- An item record never moves the cursor. A post-frame at the item slot moves the cursor by two.
- An unknown event code reads as the default code 0, and both it and code 0 itself are logged as
  unknown (`Parse.ZeroCodeWarned`). Such an event is skipped only when the size table has an
  entry for code 0 (`Parse.UnknownCodeStops`). An unknown code inside the table itself stops
  validation.
- With one active player, a frame start followed by pre-frame, post-frame, pre-frame, post-frame
  pushes the cursor past the order, and indexing it panics (`EventOrder.OrderIndexReachable`).
- The integer arithmetic is that of a debug build. `payloads_size - 1` panics at 0, `last + 124`
  panics past the i64 range, and a frame delta panics past the i32 range. `usize` is 64 bits wide.

## Left out

- File and directory handling, the command line, and log formatting (positions and messages): I/O.
- The UBJSON decode of the metadata document. It stands as the parameter `meta` (its `lastFrame`
  entry, or `None` when the document does not decode). The `startAt` trace is left out too.
- `GameEnd::new`: its source is not part of this model. A game end event is sized by the table and
  skipped.
- Shift-JIS decoding of display names and connect codes, and the full-width `#` replacement: text
  encoding. The model keeps the zero-truncated bytes.
- `get_costume` and the `Mode`/`Timer` enums: external or unused lookups. The costume is kept as its byte.
- Every floating point range check of the validators (orientation, sticks, triggers, percent,
  shield): an `f32` is kept as its bit pattern.
- The external enumerations (characters, action states, attacks, items, stages) are an
  uninterpreted `Tables` parameter.
- EventOrder.OrderTracker.Observe: a frame start whose delta overflows i32 fails without the
  ordering-mismatch log the original writes just before panicking.
- Parse.HandleEvent: when the ordering step fails, the logs the record's own validator wrote for that
  event are not kept in the report; nor is the follower-mismatch error of a pre-frame that underflows.
- Parse.RecordOutcome: a record whose decoder stops carries no logs. A pre-frame window of at
  least 6 bytes, with a port below 4 and a follower byte of 1 for a player who is not Ice Climbers,
  that is too short for the rest of the record loses the follower-mismatch error the original writes
  before it underflows.
- PreFrames.NewPreFrame: on that failure it returns no logs, so the follower-mismatch error above is lost.
- Parse.DecodeRecord: fails without logs, so it loses that follower-mismatch error.
- Parse.ReadRecord: likewise loses that follower-mismatch error when the pre-frame underflows.
- Parse.ValidateGame: logs written before a failure in the preamble (the game start's player
  warnings) are not kept in the report, and the frame count is read but not reported. The report
  also lacks the follower-mismatch error of a pre-frame that underflows (see Parse.RecordOutcome).
- PreFrames.PreFrameWarnings: states only how many warnings there are. What each means is
  `PreFrames.PreFrameWarningsMeaning`.
- Release-build wrap-around in place of the debug panics listed above is not modelled: the model
  follows the debug build, in which they are panics.
