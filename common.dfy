/** Vocabulary shared by every part of the replay validator: bytes, event codes,
    fatal outcomes and the diagnostics that the validator logs and carries on from. */
module Common {

  /** One octet of the replay file. */
  type byte = b: int | 0 <= b < 256

  datatype Option<+T> = None | Some(value: T) {
    function GetOr(default: T): T {
      match this
      case Some(v) => v
      case None => default
    }
  }

  /** The one-byte event codes of the replay stream (`EventType`, a `repr(u8)` enum).
      `NoEvent` (code 0x00) is the enum's default and stands for every unknown code. */
  datatype EventType =
    | EventPayloads | GameStart | PreFrame | PostFrame | GameEnd
    | FrameStart | Item | FrameEnd | GeckoList | MessageSplitter | NoEvent

  /** The discriminant of each event type. */
  function Code(e: EventType): byte {
    match e
    case EventPayloads => 0x35
    case GameStart => 0x36
    case PreFrame => 0x37
    case PostFrame => 0x38
    case GameEnd => 0x39
    case FrameStart => 0x3A
    case Item => 0x3B
    case FrameEnd => 0x3C
    case GeckoList => 0x3D
    case MessageSplitter => 0x10
    case NoEvent => 0x00
  }

  /** `EventType::from_repr`: the event whose discriminant is `b`, if there is one. */
  function EventFromRepr(b: byte): (e: Option<EventType>)
    ensures e.Some? ==> Code(e.value) == b
    ensures e.None? ==> forall t: EventType :: Code(t) != b
  {
    if b == 0x35 then Some(EventPayloads)
    else if b == 0x36 then Some(GameStart)
    else if b == 0x37 then Some(PreFrame)
    else if b == 0x38 then Some(PostFrame)
    else if b == 0x39 then Some(GameEnd)
    else if b == 0x3A then Some(FrameStart)
    else if b == 0x3B then Some(Item)
    else if b == 0x3C then Some(FrameEnd)
    else if b == 0x3D then Some(GeckoList)
    else if b == 0x10 then Some(MessageSplitter)
    else if b == 0x00 then Some(NoEvent)
    else None
  }

  /** Decoding an event code and encoding it again gives the code back, for every event type. */
  lemma EventCodeRoundTrip(e: EventType)
    ensures EventFromRepr(Code(e)) == Some(e)
  {
  }

  /** Why the validation of one file stops. The original reports some of these as errors and
      reaches the others by panicking; here every one of them is an outcome. */
  datatype Failure =
    | Underflow                          // a read, slice or advance past the end of a buffer
    | UnexpectedBytes                    // `expect_bytes` saw something other than the expected prefix
    | UnknownEventCode(code: byte)       // `EventType::from_repr(..).unwrap()` on an unknown code
    | NotEventPayloads(found: EventType) // the size table does not start with the EventPayloads code
    | PayloadsLengthUnderflow            // `payloads_size - 1` on a u8 whose value is 0
    | PayloadsLengthInvalid              // `(payloads_size - 1) % 3 != 0`
    | MissingEventSize(event: EventType) // `event_sizes[&event]` for an event absent from the table
    | MetadataUnreadable                 // the metadata document could not be decoded
    | LastFrameNotI64                    // `as_i64().unwrap()` on a number outside i64
    | FrameCountOverflow                 // `last + 124` overflows i64
    | OrderIndexOutOfRange               // `event_order[order_idx]` past the end of the order
    | FrameDeltaOverflow                 // `frame_idx - old_frame` overflows i32
    | PortOutOfRange(port: byte)         // `players[port as usize]` with port >= 4
    | UnknownInternalCharacter(id: byte) // `Character::try_from_internal(..).unwrap()`
    | UnknownStage(stage: nat)            // `StageID::from_repr(..).unwrap()`
    | InvalidControllerFix(value: byte)  // `ControllerFix::from_repr(..).unwrap()`
    | InvalidUtf8                        // `String::from_utf8(..).unwrap()` on the match id

  /** The outcome of an operation that yields a value or stops the file's validation.
      Failure-compatible, so `:-` propagates the failure. */
  datatype Result<+T> = Ok(value: T) | Err(error: Failure) {
    predicate IsFailure() { Err? }
    function PropagateFailure<U>(): Result<U>
      requires Err?
    {
      Err(error)
    }
    function Extract(): T
      requires Ok?
    {
      value
    }
  }

  /** The outcome of an operation that only succeeds or stops. */
  datatype Outcome = Pass | Fail(error: Failure) {
    predicate IsFailure() { Fail? }
    function PropagateFailure<U>(): Result<U>
      requires Fail?
    {
      Err(error)
    }
  }

  /** A record decoded from its window: the record, how many bytes of the window its decoder read,
      and what its validator logged. */
  datatype Decoded<+T> = Decoded(record: T, used: nat, logs: seq<Log>)

  /** A diagnostic the validator logs before carrying on; the log's wording is not modelled. */
  datatype Log =
    | UnknownEvent(code: byte)                      // warn: unknown event code in the stream
    | OrderMismatch(expected: EventType, got: EventType) // error: unexpected event ordering
    | FrameIrregular(previous: int, current: int)   // error: unexpected frame ordering
    | Rollback(previous: int, current: int)         // debug: rollback to an earlier frame
    | DuplicateGameEnd                              // warn: a second game end event
    | FollowerMismatch(port: byte)                  // error: Nana frame for a non Ice Climbers player
    | UnknownState(raw: nat)                        // warn: action state not resolved
    | InvalidButtons(buttons: nat)                  // warn: reserved engine button bits set
    | NanaMismatch(character: byte)                 // warn: Nana post-frame for another character
    | InvalidAttack(id: byte)                       // warn: unknown last attack landed
    | InvalidFlags(flags: bv64)                     // warn: state flag bits above bit 39
    | InvalidLCancel(value: byte)                   // warn: l-cancel status above 2
    | InvalidHurtbox(value: byte)                   // warn: hurtbox state above 2
    | InvalidItem(item: nat)                        // warn: unknown item type
    | InvalidPlayerType(player: nat)                // warn: player type byte out of range
    | InvalidTeamShade(player: nat)                 // warn: team shade out of range
    | InvalidTeamId(player: nat)                    // warn: team id out of range

  /** The logs of those checks that fire, in the order the checks run: each check pairs its
      condition with the log it writes. */
  function Fired(checks: seq<(bool, Log)>): (logs: seq<Log>)
    ensures |logs| <= |checks|
    ensures checks != [] && checks[0].0 ==> logs != [] && logs[0] == checks[0].1
  {
    if checks == [] then []
    else (if checks[0].0 then [checks[0].1] else []) + Fired(checks[1..])
  }

  /** Running one check, then the rest. */
  lemma FiredCons(check: (bool, Log), rest: seq<(bool, Log)>)
    ensures Fired([check] + rest) == (if check.0 then [check.1] else []) + Fired(rest)
  {
    assert ([check] + rest)[1..] == rest;
  }

  /** Two runs of checks, one after the other, log what each logs, in that order. */
  lemma {:induction false} FiredAppend(first: seq<(bool, Log)>, second: seq<(bool, Log)>)
    ensures Fired(first + second) == Fired(first) + Fired(second)
    decreases |first|
  {
    if first == [] {
      assert first + second == second;
    } else {
      assert first + second == [first[0]] + (first[1..] + second);
      assert first == [first[0]] + first[1..];
      FiredCons(first[0], first[1..] + second);
      FiredCons(first[0], first[1..]);
      FiredAppend(first[1..], second);
    }
  }
}
