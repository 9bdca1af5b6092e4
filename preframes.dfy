/** The pre-physics-step record of one character on one frame: the controller inputs. */
module PreFrames {
  import opened Common
  import opened Bytes
  import opened Utils
  import opened Melee
  import opened Players

  /** The controller and engine inputs that sit between the action state and the gated fields: 46 bytes. */
  datatype Inputs = Inputs(
    position: Vec2, orientation: Float32, joystick: Vec2, cstick: Vec2, engineTrigger: Float32,
    engineButtons: nat, controllerButtons: nat, controllerL: Float32, controllerR: Float32)

  /** Where each input field sits when the inputs start at `at`. */
  ghost predicate InputsAt(w: seq<byte>, at: nat, i: Inputs)
    requires at + 46 <= |w|
  {
    && i.position == Vec2(F32At(w, at), F32At(w, at + 4))
    && i.orientation == F32At(w, at + 8)
    && i.joystick == Vec2(F32At(w, at + 12), F32At(w, at + 16))
    && i.cstick == Vec2(F32At(w, at + 20), F32At(w, at + 24))
    && i.engineTrigger == F32At(w, at + 28)
    && i.engineButtons == UIntAt(w, at + 32, 4)
    && i.controllerButtons == UIntAt(w, at + 36, 2)
    && i.controllerL == F32At(w, at + 38)
    && i.controllerR == F32At(w, at + 42)
  }

  /** Reads the 46 input bytes in record order: the 28 bytes of positions and sticks, then the 18 of
      trigger and buttons. */
  method ReadInputs(stream: Stream) returns (r: Result<Inputs>)
    requires stream.Valid()
    modifies stream
    ensures stream.Valid()
    ensures r.Ok? <==> old(stream.pos) + 46 <= |stream.data|
    ensures r.Err? ==> r.error == Underflow
    ensures r.Ok? ==>
      && stream.pos == old(stream.pos) + 46
      && InputsAt(stream.data, old(stream.pos), r.value)
      && r.value.engineButtons < 0x1_0000_0000
  {
    var sticks :- ReadSticks(stream);
    var buttons :- ReadButtons(stream);
    var (position, orientation, joystick, cstick) := sticks;
    var (engineTrigger, engineButtons, controllerButtons, controllerL, controllerR) := buttons;
    return Ok(Inputs(position, orientation, joystick, cstick, engineTrigger, engineButtons, controllerButtons,
      controllerL, controllerR));
  }

  /** Reads an x and a y coordinate. */
  method ReadVec2(stream: Stream) returns (r: Result<Vec2>)
    requires stream.Valid()
    modifies stream
    ensures stream.Valid()
    ensures r.Ok? <==> old(stream.pos) + 8 <= |stream.data|
    ensures r.Err? ==> r.error == Underflow
    ensures r.Ok? ==>
      stream.pos == old(stream.pos) + 8
      && r.value == Vec2(F32At(stream.data, old(stream.pos)), F32At(stream.data, old(stream.pos) + 4))
  {
    var x :- stream.GetF32();
    var y :- stream.GetF32();
    return Ok(Vec2(x, y));
  }

  /** Reads position, orientation, joystick and c-stick. */
  method ReadSticks(stream: Stream) returns (r: Result<(Vec2, Float32, Vec2, Vec2)>)
    requires stream.Valid()
    modifies stream
    ensures stream.Valid()
    ensures r.Ok? <==> old(stream.pos) + 28 <= |stream.data|
    ensures r.Err? ==> r.error == Underflow
    ensures r.Ok? ==>
      && stream.pos == old(stream.pos) + 28
      && r.value.0 == Vec2(F32At(stream.data, old(stream.pos)), F32At(stream.data, old(stream.pos) + 4))
      && r.value.1 == F32At(stream.data, old(stream.pos) + 8)
      && r.value.2 == Vec2(F32At(stream.data, old(stream.pos) + 12), F32At(stream.data, old(stream.pos) + 16))
      && r.value.3 == Vec2(F32At(stream.data, old(stream.pos) + 20), F32At(stream.data, old(stream.pos) + 24))
  {
    var position :- ReadVec2(stream);
    var orientation :- stream.GetF32();
    var joystick :- ReadVec2(stream);
    var cstick :- ReadVec2(stream);
    return Ok((position, orientation, joystick, cstick));
  }

  /** Reads the engine trigger, the engine and controller buttons and the two analog triggers. */
  method ReadButtons(stream: Stream) returns (r: Result<(Float32, nat, nat, Float32, Float32)>)
    requires stream.Valid()
    modifies stream
    ensures stream.Valid()
    ensures r.Ok? <==> old(stream.pos) + 18 <= |stream.data|
    ensures r.Err? ==> r.error == Underflow
    ensures r.Ok? ==>
      && stream.pos == old(stream.pos) + 18
      && r.value.0 == F32At(stream.data, old(stream.pos))
      && r.value.1 == UIntAt(stream.data, old(stream.pos) + 4, 4)
      && r.value.2 == UIntAt(stream.data, old(stream.pos) + 8, 2)
      && r.value.3 == F32At(stream.data, old(stream.pos) + 10)
      && r.value.4 == F32At(stream.data, old(stream.pos) + 14)
      && r.value.1 < 0x1_0000_0000
  {
    var engineTrigger :- stream.GetF32();
    var engineButtons :- stream.GetUInt(4);
    var controllerButtons :- stream.GetUInt(2);
    var controllerL :- stream.GetF32();
    var controllerR :- stream.GetF32();
    assert Pow256(4) == 0x1_0000_0000;
    return Ok((engineTrigger, engineButtons, controllerButtons, controllerL, controllerR));
  }

  /** The version-gated trailing fields. */
  datatype Gated = Gated(rawStickX: Option<int>, percent: Option<Float32>, rawStickY: Option<int>)

  /** Where each gated field sits when the gated part starts at `at`; a field is present exactly when
      the version has it. */
  ghost predicate GatedAt(w: seq<byte>, at: nat, version: Version, g: Gated)
    requires at + PreFrameSize(version) - 58 <= |w|
  {
    && (g.rawStickX.Some? <==> version.AtLeast(1, 2, 0))
    && (g.rawStickX.Some? ==> g.rawStickX.value == I8(w[at]))
    && (g.percent.Some? <==> version.AtLeast(1, 4, 0))
    && (g.percent.Some? ==> g.percent.value == F32At(w, at + 1))
    && (g.rawStickY.Some? <==> version.AtLeast(3, 15, 0))
    && (g.rawStickY.Some? ==> g.rawStickY.value == I8(w[at + 5]))
  }

  /** Reads raw stick x (from 1.2.0), percent (from 1.4.0) and raw stick y (from 3.15.0), each only when
      the version has it. */
  method ReadGated(stream: Stream, version: Version) returns (r: Result<Gated>)
    requires stream.Valid()
    modifies stream
    ensures stream.Valid()
    ensures r.Ok? <==> old(stream.pos) + PreFrameSize(version) - 58 <= |stream.data|
    ensures r.Err? ==> r.error == Underflow
    ensures r.Ok? ==>
      && stream.pos == old(stream.pos) + PreFrameSize(version) - 58
      && GatedAt(stream.data, old(stream.pos), version, r.value)
  {
    var rawStickX := None;
    if version.AtLeast(1, 2, 0) {
      var x :- stream.GetI8();
      rawStickX := Some(x);
    }
    var percent := None;
    if version.AtLeast(1, 4, 0) {
      var pct :- stream.GetF32();
      percent := Some(pct);
    }
    var rawStickY := None;
    if version.AtLeast(3, 15, 0) {
      var y :- stream.GetI8();
      rawStickY := Some(y);
    }
    return Ok(Gated(rawStickX, percent, rawStickY));
  }

  /** A decoded pre-frame record: the leading fields, the inputs and the version-gated fields. */
  datatype PreFrame = PreFrame(
    frameIndex: int,
    port: byte,
    nana: bool,
    randomSeed: nat,
    actionState: ActionState,
    inputs: Inputs,
    gated: Gated
  )

  /** Bytes read for a version when no second state code is read: 58 fixed, then raw stick x (1),
      percent (4) and raw stick y (1) as the version has them. */
  function PreFrameSize(version: Version): nat {
    if version.AtLeast(3, 15, 0) then 64
    else if version.AtLeast(1, 4, 0) then 63
    else if version.AtLeast(1, 2, 0) then 59
    else 58
  }

  /** The integer checks of `PreFrame::validate`: an unresolved action state, and reserved engine
      button bits. (The floating point range checks are not modelled.) */
  function PreFrameWarnings(p: PreFrame): (logs: seq<Log>)
    requires p.inputs.engineButtons < 0x1_0000_0000
    ensures |logs| <= 2
  {
    (if p.actionState.Unresolved? then [UnknownState(p.actionState.raw)] else [])
    + (if ReservedBitsSet(p.inputs.engineButtons) then [InvalidButtons(p.inputs.engineButtons)] else [])
  }

  /** Some engine button bit no controller input can set is set: bit 7, one of bits 13 to 15, or one
      of bits 24 to 30 (the mask 0x7F00_E080), each group read off the integer by division. */
  predicate ReservedBitsSet(buttons: nat)
    requires buttons < 0x1_0000_0000
  {
    (buttons / 0x80) % 2 == 1 || (buttons / 0x2000) % 8 != 0 || (buttons / 0x100_0000) % 0x80 != 0
  }

  /** An unresolved state is logged first, with its raw code; the buttons warning is logged exactly when
      a reserved bit is set. */
  lemma PreFrameWarningsMeaning(p: PreFrame)
    requires p.inputs.engineButtons < 0x1_0000_0000
    ensures var logs := PreFrameWarnings(p);
      && (p.actionState.Unresolved? <==> logs != [] && logs[0].UnknownState?)
      && (p.actionState.Unresolved? ==> logs[0] == UnknownState(p.actionState.raw))
      && (InvalidButtons(p.inputs.engineButtons) in logs <==> ReservedBitsSet(p.inputs.engineButtons))
  {
  }

  /** Bytes the action state takes at `at`: four when the first code does not resolve for a Zelda
      player (a second code follows, resolved as Sheik), otherwise two. */
  function StateWidth(w: seq<byte>, at: nat, character: Character, t: Tables): nat
    requires at + 2 <= |w|
  {
    if character == Zelda && StateFor(t, UIntAt(w, at, 2), character).Unresolved? then 4 else 2
  }

  /** The action state decoded at `at`. */
  function StateAt(w: seq<byte>, at: nat, character: Character, t: Tables): (s: ActionState)
    requires at + 2 <= |w|
    requires at + StateWidth(w, at, character, t) <= |w|
    ensures StateWidth(w, at, character, t) == 4 ==> s == StateFor(t, UIntAt(w, at + 2, 2), Sheik)
    ensures StateWidth(w, at, character, t) == 2 ==> s == StateFor(t, UIntAt(w, at, 2), character)
  {
    if StateWidth(w, at, character, t) == 4 then StateFor(t, UIntAt(w, at + 2, 2), Sheik)
    else StateFor(t, UIntAt(w, at, 2), character)
  }

  /** Reads the action state, re-reading a Sheik code when the first one does not resolve for Zelda. */
  method ReadState(stream: Stream, character: Character, t: Tables) returns (r: Result<ActionState>)
    requires stream.Valid()
    modifies stream
    ensures stream.Valid()
    ensures var w, at := stream.data, old(stream.pos);
      r.Ok? <==> at + 2 <= |w| && at + StateWidth(w, at, character, t) <= |w|
    ensures r.Err? ==> r.error == Underflow
    ensures r.Ok? ==>
      var w, at := stream.data, old(stream.pos);
      && stream.pos == at + StateWidth(w, at, character, t)
      && r.value == StateAt(w, at, character, t)
  {
    var stateCode :- stream.GetUInt(2);
    var actionState := StateFor(t, stateCode, character);
    if actionState.Unresolved? && character == Zelda {
      var sheikCode :- stream.GetUInt(2);
      actionState := StateFor(t, sheikCode, Sheik);
    }
    return Ok(actionState);
  }

  /** Where the random seed, action state, inputs and gated fields sit when the seed starts at `at`. */
  ghost predicate BodyAt(w: seq<byte>, at: nat, character: Character, version: Version, t: Tables,
                         body: (nat, ActionState, Inputs, Gated))
    requires at + 6 <= |w|
    requires at + 4 + StateWidth(w, at + 4, character, t) + PreFrameSize(version) - 12 <= |w|
  {
    var inputsAt := at + 4 + StateWidth(w, at + 4, character, t);
    && body.0 == UIntAt(w, at, 4)
    && body.1 == StateAt(w, at + 4, character, t)
    && InputsAt(w, inputsAt, body.2)
    && GatedAt(w, inputsAt + 46, version, body.3)
  }

  /** Reads everything after the port and follower bytes: random seed, action state, inputs and the
      gated fields. */
  method ReadBody(stream: Stream, character: Character, version: Version, t: Tables)
    returns (r: Result<(nat, ActionState, Inputs, Gated)>)
    requires stream.Valid()
    modifies stream
    ensures stream.Valid()
    ensures var w, at := stream.data, old(stream.pos);
      r.Ok? <==> at + 6 <= |w| && at + 4 + StateWidth(w, at + 4, character, t) + PreFrameSize(version) - 12 <= |w|
    ensures r.Err? ==> r.error == Underflow
    ensures r.Ok? ==>
      var w, at := stream.data, old(stream.pos);
      && stream.pos == at + 4 + StateWidth(w, at + 4, character, t) + PreFrameSize(version) - 12
      && BodyAt(w, at, character, version, t, r.value)
      && r.value.2.engineButtons < 0x1_0000_0000
  {
    var randomSeed :- stream.GetUInt(4);
    var actionState :- ReadState(stream, character, t);
    var inputs :- ReadInputs(stream);
    var gated :- ReadGated(stream, version);
    return Ok((randomSeed, actionState, inputs, gated));
  }

  /** Reads the frame index, the port and the follower byte. */
  method ReadHead(stream: Stream) returns (r: Result<(int, byte, bool)>)
    requires stream.Valid()
    modifies stream
    ensures stream.Valid()
    ensures r.Ok? <==> old(stream.pos) + 6 <= |stream.data|
    ensures r.Err? ==> r.error == Underflow
    ensures r.Ok? ==>
      var w, at := stream.data, old(stream.pos);
      && stream.pos == at + 6
      && r.value == (I32(w[at..at + 4]), w[at + 4], w[at + 5] == 1)
  {
    var frameIndex :- stream.GetI32();
    var port :- stream.GetU8();
    var followerByte :- stream.GetU8();
    return Ok((frameIndex, port, followerByte == 1));
  }

  /** Where the inputs start: two bytes later when a Sheik code was re-read. */
  function InputsStart(window: seq<byte>, players: seq<Player>, t: Tables): nat
    requires |window| >= 12 && window[4] < |players|
  {
    10 + StateWidth(window, 10, players[window[4]].character, t)
  }

  /** Where each field of a decoded pre-frame record sits in its window. */
  ghost predicate PreFrameAt(window: seq<byte>, version: Version, players: seq<Player>, t: Tables, p: PreFrame)
    requires |window| >= 12 && window[4] < |players|
    requires |window| >= InputsStart(window, players, t) + PreFrameSize(version) - 12
  {
    && p.frameIndex == I32(window[0..4])
    && p.port == window[4]
    && (p.nana <==> window[5] == 1)
    && BodyAt(window, 6, players[window[4]].character, version, t, (p.randomSeed, p.actionState, p.inputs, p.gated))
  }

  /** `PreFrame::new`. Reads, in order: frame index, port, follower byte (a follower only when it is
      exactly 1), random seed, action state (resolved against the port's character, re-read as Sheik for
      an unresolved Zelda state), position, orientation, joystick, c-stick, engine trigger, engine
      buttons, controller buttons, L and R, then the version-gated raw stick x, percent and raw stick y.
      A follower record for a player who is not Ice Climbers is logged as an error; then the record's
      own validation runs. A port past the four roster slots stops decoding. */
  method NewPreFrame(window: seq<byte>, version: Version, players: seq<Player>, t: Tables)
    returns (r: Result<Decoded<PreFrame>>)
    requires |players| == 4
    ensures |window| >= 6 && window[4] >= 4 ==> r == Err(PortOutOfRange(window[4]))
    ensures r.Err? ==> r.error == Underflow || (|window| >= 6 && r.error == PortOutOfRange(window[4]))
    ensures r.Err? && !(|window| >= 6 && window[4] >= 4) ==> r.error == Underflow
    ensures r.Ok? ==> |window| >= 12 && window[4] < 4
    ensures |window| >= 12 && window[4] < 4 ==>
      (r.Ok? <==> |window| >= InputsStart(window, players, t) + PreFrameSize(version) - 12)
    ensures r.Ok? ==>
      var p := r.value.record;
      && r.value.used == InputsStart(window, players, t) + PreFrameSize(version) - 12
      && PreFrameAt(window, version, players, t, p)
      && p.inputs.engineButtons < 0x1_0000_0000
      && r.value.logs == (if players[p.port].character != IceClimbers && p.nana then [FollowerMismatch(p.port)] else [])
                         + PreFrameWarnings(p)
      && r.value.logs == PreFrameLogsAt(window, players, t)
  {
    var stream := new Stream(window);
    var head :- ReadHead(stream);
    var (frameIndex, port, follower) := head;
    if port >= 4 {
      return Err(PortOutOfRange(port));
    }
    var character := players[port].character;
    var logs := if character != IceClimbers && follower then [FollowerMismatch(port)] else [];
    var body :- ReadBody(stream, character, version, t);
    var record := PreFrame.PreFrame(frameIndex, port, follower, body.0, body.1, body.2, body.3);
    PreFrameLogsFromWindow(window, version, players, t, record);
    return Ok(Decoded(record, stream.pos, logs + PreFrameWarnings(record)));
  }

  /** The checks decoding a readable window runs, read straight off its bytes: a follower byte of 1
      for a player who is not Ice Climbers, then an action state that does not resolve (with the raw
      code last read for it), then reserved engine button bits. */
  function PreFrameChecksAt(window: seq<byte>, players: seq<Player>, t: Tables): (checks: seq<(bool, Log)>)
    requires |window| >= 12 && window[4] < |players|
    requires |window| >= InputsStart(window, players, t) + 46
    ensures |checks| == 3
  {
    var character := players[window[4]].character;
    var state := StateAt(window, 10, character, t);
    var code := UIntAt(window, InputsStart(window, players, t) - 2, 2);
    var buttons := UIntAt(window, InputsStart(window, players, t) + 32, 4);
    [(character != IceClimbers && window[5] == 1, FollowerMismatch(window[4])),
     (state.Unresolved?, UnknownState(code)),
     (ReservedBitsSet(buttons), InvalidButtons(buttons))]
  }

  /** What decoding a readable window logs: the logs of the checks that fire. */
  function PreFrameLogsAt(window: seq<byte>, players: seq<Player>, t: Tables): seq<Log>
    requires |window| >= 12 && window[4] < |players|
    requires |window| >= InputsStart(window, players, t) + 46
  {
    Fired(PreFrameChecksAt(window, players, t))
  }

  /** The logs of a decoded record are those its window determines: the follower check and the
      record's own checks see exactly the bytes `PreFrameLogsAt` reads. */
  lemma PreFrameLogsFromWindow(window: seq<byte>, version: Version, players: seq<Player>, t: Tables, p: PreFrame)
    requires |window| >= 12 && window[4] < |players|
    requires |window| >= InputsStart(window, players, t) + PreFrameSize(version) - 12
    requires PreFrameAt(window, version, players, t, p)
    ensures p.inputs.engineButtons < 0x1_0000_0000
    ensures PreFrameLogsAt(window, players, t)
      == (if players[p.port].character != IceClimbers && p.nana then [FollowerMismatch(p.port)] else [])
         + PreFrameWarnings(p)
  {
    var checks := PreFrameChecksAt(window, players, t);
    var follower, unresolved, reserved := checks[0], checks[1], checks[2];
    FiredCons(reserved, []);
    FiredCons(unresolved, [reserved]);
    FiredCons(follower, [unresolved, reserved]);
    assert [follower, unresolved, reserved] == [follower] + [unresolved, reserved];
    assert [unresolved, reserved] == [unresolved] + [reserved];
    assert Fired([reserved]) == (if reserved.0 then [reserved.1] else []) by {
      assert [reserved] == [reserved] + [];
    }
  }

  /** The optional fields present always form a prefix of (raw stick x, percent, raw stick y),
      because their version thresholds ascend. */
  lemma PreFrameGatesAscend(version: Version)
    ensures version.AtLeast(3, 15, 0) ==> version.AtLeast(1, 4, 0)
    ensures version.AtLeast(1, 4, 0) ==> version.AtLeast(1, 2, 0)
    ensures PreFrameSize(version) == 58 + (if version.AtLeast(1, 2, 0) then 1 else 0)
      + (if version.AtLeast(1, 4, 0) then 4 else 0) + (if version.AtLeast(3, 15, 0) then 1 else 0)
  {
  }
}
