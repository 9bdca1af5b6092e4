/** The post-physics-step record of one character on one frame: the resulting game state. */
module PostFrames {
  import opened Common
  import opened Bytes
  import opened Utils
  import opened Melee

  /** The fields every version has: 33 bytes. */
  datatype Fixed = Fixed(
    frameIndex: int,
    port: byte,
    nana: bool,
    character: byte,
    actionState: nat,
    position: Vec2,
    orientation: Float32,
    percent: Float32,
    shieldHealth: Float32,
    lastAttackLanded: byte,
    comboCount: byte,
    lastHitBy: byte,
    stocks: byte
  )

  /** Where each fixed field sits in a record that starts at `at`. */
  ghost predicate FixedAt(w: seq<byte>, at: nat, f: Fixed)
    requires at + 33 <= |w|
  {
    && f.frameIndex == I32(w[at..at + 4])
    && f.port == w[at + 4]
    && (f.nana <==> w[at + 5] != 0)
    && f.character == w[at + 6]
    && f.actionState == UIntAt(w, at + 7, 2)
    && f.position == Vec2(F32At(w, at + 9), F32At(w, at + 13))
    && f.orientation == F32At(w, at + 17)
    && f.percent == F32At(w, at + 21)
    && f.shieldHealth == F32At(w, at + 25)
    && f.lastAttackLanded == w[at + 29]
    && f.comboCount == w[at + 30]
    && f.lastHitBy == w[at + 31]
    && f.stocks == w[at + 32]
  }

  /** Reads the 33 fixed bytes in record order. */
  method ReadFixed(stream: Stream) returns (r: Result<Fixed>)
    requires stream.Valid()
    modifies stream
    ensures stream.Valid()
    ensures r.Ok? <==> old(stream.pos) + 33 <= |stream.data|
    ensures r.Err? ==> r.error == Underflow
    ensures r.Ok? ==> stream.pos == old(stream.pos) + 33 && FixedAt(stream.data, old(stream.pos), r.value)
  {
    var frameIndex :- stream.GetI32();
    var port :- stream.GetU8();
    var nanaByte :- stream.GetU8();
    var character :- stream.GetU8();
    var actionState :- stream.GetUInt(2);
    var positionX :- stream.GetF32();
    var positionY :- stream.GetF32();
    var orientation :- stream.GetF32();
    var percent :- stream.GetF32();
    var shieldHealth :- stream.GetF32();
    var lastAttackLanded :- stream.GetU8();
    var comboCount :- stream.GetU8();
    var lastHitBy :- stream.GetU8();
    var stocks :- stream.GetU8();
    return Ok(Fixed(frameIndex, port, nanaByte != 0, character, actionState, Vec2(positionX, positionY),
      orientation, percent, shieldHealth, lastAttackLanded, comboCount, lastHitBy, stocks));
  }

  /** The gated fields up to version 2.0.0: state frame (0.2.0), then flags, miscellaneous action state,
      grounded, last ground, jumps remaining and l-cancel status (2.0.0). */
  datatype Early = Early(
    stateFrame: Option<Float32>,
    flags: Option<bv64>,
    miscAs: Option<Float32>,
    isGrounded: Option<bool>,
    lastGroundId: Option<nat>,
    jumpsRemaining: Option<byte>,
    lCancel: Option<byte>
  )

  function EarlySize(version: Version): nat {
    (if version.AtLeast(0, 2, 0) then 4 else 0) + (if version.AtLeast(2, 0, 0) then 14 else 0)
  }

  /** Where each early gated field sits when the gated part starts at `at`; a field is present exactly
      when the version has it. */
  ghost predicate EarlyAt(w: seq<byte>, at: nat, version: Version, e: Early)
    requires at + EarlySize(version) <= |w|
  {
    && (e.stateFrame.Some? <==> version.AtLeast(0, 2, 0))
    && (e.stateFrame.Some? ==> e.stateFrame.value == F32At(w, at))
    && (e.flags.Some? <==> version.AtLeast(2, 0, 0))
    && (e.miscAs.Some? <==> version.AtLeast(2, 0, 0))
    && (e.isGrounded.Some? <==> version.AtLeast(2, 0, 0))
    && (e.lastGroundId.Some? <==> version.AtLeast(2, 0, 0))
    && (e.jumpsRemaining.Some? <==> version.AtLeast(2, 0, 0))
    && (e.lCancel.Some? <==> version.AtLeast(2, 0, 0))
    && (version.AtLeast(2, 0, 0) ==>
         && e.flags.value == AssembleFlags(w[at + 4] as bv8, w[at + 5] as bv8, w[at + 6] as bv8,
                                           w[at + 7] as bv8, w[at + 8] as bv8)
         && e.miscAs.value == F32At(w, at + 9)
         && (e.isGrounded.value <==> w[at + 13] == 0)
         && e.lastGroundId.value == UIntAt(w, at + 14, 2)
         && e.jumpsRemaining.value == w[at + 16]
         && e.lCancel.value == w[at + 17])
  }

  /** Reads the five flag bytes, first byte least significant. */
  method ReadFlags(stream: Stream) returns (r: Result<bv64>)
    requires stream.Valid()
    modifies stream
    ensures stream.Valid()
    ensures r.Ok? <==> old(stream.pos) + 5 <= |stream.data|
    ensures r.Err? ==> r.error == Underflow
    ensures r.Ok? ==>
      var w, at := stream.data, old(stream.pos);
      && stream.pos == at + 5
      && r.value == AssembleFlags(w[at] as bv8, w[at + 1] as bv8, w[at + 2] as bv8, w[at + 3] as bv8,
                                  w[at + 4] as bv8)
  {
    var b0 :- stream.GetU8();
    var b1 :- stream.GetU8();
    var b2 :- stream.GetU8();
    var b3 :- stream.GetU8();
    var b4 :- stream.GetU8();
    return Ok(AssembleFlags(b0 as bv8, b1 as bv8, b2 as bv8, b3 as bv8, b4 as bv8));
  }

  method ReadEarly(stream: Stream, version: Version) returns (r: Result<Early>)
    requires stream.Valid()
    modifies stream
    ensures stream.Valid()
    ensures r.Ok? <==> old(stream.pos) + EarlySize(version) <= |stream.data|
    ensures r.Err? ==> r.error == Underflow
    ensures r.Ok? ==>
      stream.pos == old(stream.pos) + EarlySize(version)
      && EarlyAt(stream.data, old(stream.pos), version, r.value)
  {
    var stateFrame := None;
    if version.AtLeast(0, 2, 0) {
      var x :- stream.GetF32();
      stateFrame := Some(x);
    }
    if !version.AtLeast(2, 0, 0) {
      return Ok(Early(stateFrame, None, None, None, None, None, None));
    }
    var group :- ReadGroundGroup(stream);
    return Ok(group.(stateFrame := stateFrame));
  }

  /** The 14 bytes of the 2.0.0 group: flags, miscellaneous action state, grounded (a zero byte means
      grounded), last ground, jumps remaining and l-cancel status. The state frame is left absent. */
  method ReadGroundGroup(stream: Stream) returns (r: Result<Early>)
    requires stream.Valid()
    modifies stream
    ensures stream.Valid()
    ensures r.Ok? <==> old(stream.pos) + 14 <= |stream.data|
    ensures r.Err? ==> r.error == Underflow
    ensures r.Ok? ==>
      var w, at := stream.data, old(stream.pos);
      && stream.pos == at + 14
      && r.value.flags == Some(AssembleFlags(w[at] as bv8, w[at + 1] as bv8, w[at + 2] as bv8,
                                             w[at + 3] as bv8, w[at + 4] as bv8))
      && r.value.miscAs == Some(F32At(w, at + 5))
      && r.value.isGrounded == Some(w[at + 9] == 0)
      && r.value.lastGroundId == Some(UIntAt(w, at + 10, 2))
      && r.value.jumpsRemaining == Some(w[at + 12])
      && r.value.lCancel == Some(w[at + 13])
  {
    var flags :- ReadFlags(stream);
    var miscAs :- stream.GetF32();
    var groundByte :- stream.GetU8();
    var lastGroundId :- stream.GetUInt(2);
    var jumpsRemaining :- stream.GetU8();
    var lCancel :- stream.GetU8();
    return Ok(Early(None, Some(flags), Some(miscAs), Some(groundByte == 0), Some(lastGroundId),
      Some(jumpsRemaining), Some(lCancel)));
  }

  /** The gated fields from version 3.1.0 on. The ground velocity's y is not read: it repeats the air
      velocity's y. */
  datatype Late = Late(
    hurtboxState: Option<byte>,       // 3.1.0
    airVelocity: Option<Vec2>,        // 3.5.0
    knockback: Option<Vec2>,          // 3.5.0
    groundVelocity: Option<Vec2>,     // 3.5.0
    hitlagRemaining: Option<Float32>, // 3.8.0
    animationIndex: Option<nat>,      // 3.11.0
    instanceHitBy: Option<nat>,       // 3.16.0
    instanceId: Option<nat>           // 3.16.0
  )

  function LateSize(version: Version): nat {
    (if version.AtLeast(3, 1, 0) then 1 else 0) + (if version.AtLeast(3, 5, 0) then 20 else 0)
    + (if version.AtLeast(3, 8, 0) then 4 else 0) + (if version.AtLeast(3, 11, 0) then 4 else 0)
    + (if version.AtLeast(3, 16, 0) then 4 else 0)
  }

  /** Where each late gated field sits when the late part starts at `at`. */
  ghost predicate LateAt(w: seq<byte>, at: nat, version: Version, l: Late)
    requires at + LateSize(version) <= |w|
  {
    && (l.hurtboxState.Some? <==> version.AtLeast(3, 1, 0))
    && (l.airVelocity.Some? <==> version.AtLeast(3, 5, 0))
    && (l.knockback.Some? <==> version.AtLeast(3, 5, 0))
    && (l.groundVelocity.Some? <==> version.AtLeast(3, 5, 0))
    && (l.hitlagRemaining.Some? <==> version.AtLeast(3, 8, 0))
    && (l.animationIndex.Some? <==> version.AtLeast(3, 11, 0))
    && (l.instanceHitBy.Some? <==> version.AtLeast(3, 16, 0))
    && (l.instanceId.Some? <==> version.AtLeast(3, 16, 0))
    && (version.AtLeast(3, 1, 0) ==> l.hurtboxState.value == w[at])
    && (version.AtLeast(3, 5, 0) ==>
         && l.airVelocity.value == Vec2(F32At(w, at + 1), F32At(w, at + 5))
         && l.knockback.value == Vec2(F32At(w, at + 9), F32At(w, at + 13))
         && l.groundVelocity.value == Vec2(F32At(w, at + 17), F32At(w, at + 5)))
    && (version.AtLeast(3, 8, 0) ==> l.hitlagRemaining.value == F32At(w, at + 21))
    && (version.AtLeast(3, 11, 0) ==> l.animationIndex.value == UIntAt(w, at + 25, 4))
    && (version.AtLeast(3, 16, 0) ==>
         l.instanceHitBy.value == UIntAt(w, at + 29, 2) && l.instanceId.value == UIntAt(w, at + 31, 2))
  }

  /** The three velocities of 3.5.0, the ground velocity reusing the air velocity's y. */
  method ReadVelocities(stream: Stream) returns (r: Result<(Vec2, Vec2, Vec2)>)
    requires stream.Valid()
    modifies stream
    ensures stream.Valid()
    ensures r.Ok? <==> old(stream.pos) + 20 <= |stream.data|
    ensures r.Err? ==> r.error == Underflow
    ensures r.Ok? ==>
      var w, at := stream.data, old(stream.pos);
      && stream.pos == at + 20
      && r.value.0 == Vec2(F32At(w, at), F32At(w, at + 4))
      && r.value.1 == Vec2(F32At(w, at + 8), F32At(w, at + 12))
      && r.value.2 == Vec2(F32At(w, at + 16), F32At(w, at + 4))
  {
    var xSpeed :- stream.GetF32();
    var ySpeed :- stream.GetF32();
    var knockbackX :- stream.GetF32();
    var knockbackY :- stream.GetF32();
    var groundX :- stream.GetF32();
    return Ok((Vec2(xSpeed, ySpeed), Vec2(knockbackX, knockbackY), Vec2(groundX, ySpeed)));
  }

  method ReadLate(stream: Stream, version: Version) returns (r: Result<Late>)
    requires stream.Valid()
    modifies stream
    ensures stream.Valid()
    ensures r.Ok? <==> old(stream.pos) + LateSize(version) <= |stream.data|
    ensures r.Err? ==> r.error == Underflow
    ensures r.Ok? ==>
      stream.pos == old(stream.pos) + LateSize(version)
      && LateAt(stream.data, old(stream.pos), version, r.value)
  {
    if !version.AtLeast(3, 1, 0) {
      return Ok(Late(None, None, None, None, None, None, None, None));
    }
    var hurtbox :- stream.GetU8();
    if !version.AtLeast(3, 5, 0) {
      return Ok(Late(Some(hurtbox), None, None, None, None, None, None, None));
    }
    var velocities :- ReadVelocities(stream);
    var air, knockback, ground := Some(velocities.0), Some(velocities.1), Some(velocities.2);
    if !version.AtLeast(3, 8, 0) {
      return Ok(Late(Some(hurtbox), air, knockback, ground, None, None, None, None));
    }
    var hitlag :- stream.GetF32();
    if !version.AtLeast(3, 11, 0) {
      return Ok(Late(Some(hurtbox), air, knockback, ground, Some(hitlag), None, None, None));
    }
    var animation :- stream.GetUInt(4);
    if !version.AtLeast(3, 16, 0) {
      return Ok(Late(Some(hurtbox), air, knockback, ground, Some(hitlag), Some(animation), None, None));
    }
    var hitBy :- stream.GetUInt(2);
    var id :- stream.GetUInt(2);
    return Ok(Late(Some(hurtbox), air, knockback, ground, Some(hitlag), Some(animation), Some(hitBy), Some(id)));
  }

  /** A decoded post-frame record: the fixed part, the gated fields up to 2.0.0, and the later ones. */
  datatype PostFrame = PostFrame(fixed: Fixed, early: Early, late: Late)

  /** Bytes read for a version: 33 fixed, then each gated group the version has. */
  function PostFrameSize(version: Version): nat {
    if version.AtLeast(3, 16, 0) then 84
    else if version.AtLeast(3, 11, 0) then 80
    else if version.AtLeast(3, 8, 0) then 76
    else if version.AtLeast(3, 5, 0) then 72
    else if version.AtLeast(3, 1, 0) then 52
    else if version.AtLeast(2, 0, 0) then 51
    else if version.AtLeast(0, 2, 0) then 37
    else 33
  }

  /** The record size is the fixed part plus both gated parts: the version thresholds ascend, so the
      fields a version has always form a prefix of the gated list. */
  lemma PostFrameSizeSplits(version: Version)
    ensures PostFrameSize(version) == 33 + EarlySize(version) + LateSize(version)
    ensures version.AtLeast(3, 1, 0) ==> EarlySize(version) == 18
  {
  }

  /** The checks of `PostFrame::validate` on the fixed part, against the resolved character: a follower
      flag on a non-Nana character, an action state the table does not know, an unknown attack. */
  function CharacterWarnings(f: Fixed, character: Character, t: Tables): (logs: seq<Log>)
    ensures |logs| <= 3
  {
    (if f.nana && f.character != t.nanaInternalId then [NanaMismatch(f.character)] else [])
    + (if StateFor(t, f.actionState, character).Unresolved? then [UnknownState(f.actionState)] else [])
    + (if !t.attackKnown(f.lastAttackLanded) then [InvalidAttack(f.lastAttackLanded)] else [])
  }

  /** Each character warning is logged exactly when its condition holds, and nothing else is logged. */
  lemma CharacterWarningsMeaning(f: Fixed, character: Character, t: Tables)
    ensures var logs := CharacterWarnings(f, character, t);
      && (NanaMismatch(f.character) in logs <==> f.nana && f.character != t.nanaInternalId)
      && (UnknownState(f.actionState) in logs <==> StateFor(t, f.actionState, character).Unresolved?)
      && (InvalidAttack(f.lastAttackLanded) in logs <==> !t.attackKnown(f.lastAttackLanded))
      && forall l | l in logs :: l.NanaMismatch? || l.UnknownState? || l.InvalidAttack?
  {
  }

  /** Some flag bit at or above bit 40 is set. */
  predicate HighFlagBits(flags: bv64) {
    flags >> 40 != 0
  }

  /** The checks of `PostFrame::validate` on the gated fields: flag bits at or above bit 40, an l-cancel
      status above 2, a hurtbox state above 2. An absent field is never logged. */
  function GatedWarnings(e: Early, l: Late): (logs: seq<Log>)
    ensures |logs| <= 3
  {
    (if e.flags.Some? && HighFlagBits(e.flags.value) then [InvalidFlags(e.flags.value)] else [])
    + (if e.lCancel.Some? && e.lCancel.value > 2 then [InvalidLCancel(e.lCancel.value)] else [])
    + (if l.hurtboxState.Some? && l.hurtboxState.value > 2 then [InvalidHurtbox(l.hurtboxState.value)] else [])
  }

  /** Each gated warning is logged exactly when its field is present and out of range, and carries the
      field's own value. */
  lemma GatedWarningsMeaning(e: Early, l: Late)
    ensures var logs := GatedWarnings(e, l);
      && (e.flags.Some? ==> (InvalidFlags(e.flags.value) in logs <==> HighFlagBits(e.flags.value)))
      && (e.lCancel.Some? ==> (InvalidLCancel(e.lCancel.value) in logs <==> e.lCancel.value > 2))
      && (l.hurtboxState.Some? ==> (InvalidHurtbox(l.hurtboxState.value) in logs <==> l.hurtboxState.value > 2))
      && (forall x | x in logs :: x.InvalidFlags? ==> e.flags == Some(x.flags) && HighFlagBits(x.flags))
      && (forall x | x in logs :: x.InvalidLCancel? ==> e.lCancel == Some(x.value))
      && (forall x | x in logs :: x.InvalidHurtbox? ==> l.hurtboxState == Some(x.value))
      && (forall x | x in logs :: x.InvalidFlags? || x.InvalidLCancel? || x.InvalidHurtbox?)
  {
  }

  /** `PostFrame::validate`'s integer checks. The character byte must name a character (the original
      unwraps the lookup, so an unknown byte stops decoding); then the character checks and the gated
      field checks are logged in that order. (Float range checks are not modelled.) */
  function PostFrameCheck(p: PostFrame, t: Tables): (r: Result<seq<Log>>)
    ensures r.Err? <==> t.characterFromInternal(p.fixed.character).None?
    ensures r.Err? ==> r.error == UnknownInternalCharacter(p.fixed.character)
    ensures r.Ok? ==> r.value == CharacterWarnings(p.fixed, t.characterFromInternal(p.fixed.character).value, t)
                                 + GatedWarnings(p.early, p.late)
  {
    match t.characterFromInternal(p.fixed.character)
    case None => Err(UnknownInternalCharacter(p.fixed.character))
    case Some(character) => Ok(CharacterWarnings(p.fixed, character, t) + GatedWarnings(p.early, p.late))
  }

  /** `PostFrame::new`: reads the 33 fixed bytes and every gated field the version has, then validates.
      A short window stops decoding; so does a character byte that names no character. */
  method NewPostFrame(window: seq<byte>, version: Version, t: Tables) returns (r: Result<Decoded<PostFrame>>)
    ensures r.Ok? <==> |window| >= PostFrameSize(version) && t.characterFromInternal(window[6]).Some?
    ensures |window| < PostFrameSize(version) ==> r == Err(Underflow)
    ensures |window| >= PostFrameSize(version) && t.characterFromInternal(window[6]).None? ==>
      r == Err(UnknownInternalCharacter(window[6]))
    ensures r.Ok? ==>
      var p := r.value.record;
      && r.value.used == PostFrameSize(version)
      && FixedAt(window, 0, p.fixed)
      && EarlyAt(window, 33, version, p.early)
      && LateAt(window, 33 + EarlySize(version), version, p.late)
      && PostFrameCheck(p, t) == Ok(r.value.logs)
      && r.value.logs == PostFrameLogsAt(window, version, t)
  {
    var stream := new Stream(window);
    var record :- ReadRecord(stream, version);
    if t.characterFromInternal(record.fixed.character).Some? {
      PostFrameLogsFromWindow(window, version, t, record);
    }
    var logs :- PostFrameCheck(record, t);
    return Ok(Decoded(record, stream.pos, logs));
  }

  /** Reads the fixed part and then every gated field the version has. */
  method ReadRecord(stream: Stream, version: Version) returns (r: Result<PostFrame>)
    requires stream.Valid()
    modifies stream
    ensures stream.Valid()
    ensures r.Ok? <==> old(stream.pos) + PostFrameSize(version) <= |stream.data|
    ensures r.Err? ==> r.error == Underflow
    ensures r.Ok? ==>
      var w, at, p := stream.data, old(stream.pos), r.value;
      && stream.pos == at + PostFrameSize(version)
      && FixedAt(w, at, p.fixed)
      && EarlyAt(w, at + 33, version, p.early)
      && LateAt(w, at + 33 + EarlySize(version), version, p.late)
  {
    PostFrameSizeSplits(version);
    var fixed :- ReadFixed(stream);
    var early :- ReadEarly(stream, version);
    var late :- ReadLate(stream, version);
    return Ok(PostFrame.PostFrame(fixed, early, late));
  }

  /** The flag-bits warning cannot fire on a decoded record: five bytes never reach bit 40. */
  lemma {:induction false} NoInvalidFlags(window: seq<byte>, version: Version, t: Tables, p: PostFrame)
    requires |window| >= PostFrameSize(version)
    requires EarlyAt(window, 33, version, p.early)
    requires t.characterFromInternal(p.fixed.character).Some?
    ensures forall x | x in PostFrameCheck(p, t).value :: !x.InvalidFlags?
  {
    PostFrameSizeSplits(version);
    CharacterWarningsMeaning(p.fixed, t.characterFromInternal(p.fixed.character).value, t);
    GatedWarningsMeaning(p.early, p.late);
    if version.AtLeast(2, 0, 0) {
      FlagsLanes(window[37] as bv8, window[38] as bv8, window[39] as bv8, window[40] as bv8, window[41] as bv8);
    }
  }

  /** What validating a readable window logs, read straight off its bytes: the follower flag on a
      character byte that is not Nana's, an action state the character does not have, an unknown
      attack, then (from 2.0.0) an l-cancel status above 2 and (from 3.1.0) a hurtbox state above 2.
      The flag-bits check never fires and has no term here. */
  function PostFrameLogsAt(window: seq<byte>, version: Version, t: Tables): seq<Log>
    requires |window| >= PostFrameSize(version) && t.characterFromInternal(window[6]).Some?
  {
    Fired(PostFrameChecksAt(window, version, t))
  }

  /** The checks validating a readable window runs: the character checks, then the gated ones. */
  function PostFrameChecksAt(window: seq<byte>, version: Version, t: Tables): (checks: seq<(bool, Log)>)
    requires |window| >= PostFrameSize(version) && t.characterFromInternal(window[6]).Some?
    ensures |checks| <= 5
  {
    CharacterChecksAt(window, t) + GatedChecksAt(window, version)
  }

  /** The checks that need the character, as read off a window: a follower byte for a character
      other than Nana, an action state that does not resolve, an unknown last attack. */
  function CharacterChecksAt(window: seq<byte>, t: Tables): (checks: seq<(bool, Log)>)
    requires |window| >= 33 && t.characterFromInternal(window[6]).Some?
    ensures |checks| == 3
  {
    var character := t.characterFromInternal(window[6]).value;
    var state := UIntAt(window, 7, 2);
    [(window[5] != 0 && window[6] != t.nanaInternalId, NanaMismatch(window[6])),
     (StateFor(t, state, character).Unresolved?, UnknownState(state)),
     (!t.attackKnown(window[29]), InvalidAttack(window[29]))]
  }

  /** The version-gated checks, as read off a window: an l-cancel status and a hurtbox state above
      2, each only when the version has the field. */
  function GatedChecksAt(window: seq<byte>, version: Version): (checks: seq<(bool, Log)>)
    requires |window| >= PostFrameSize(version)
    ensures |checks| <= 2
  {
    (if version.AtLeast(2, 0, 0) then [(window[50] > 2, InvalidLCancel(window[50]))] else [])
    + (if version.AtLeast(3, 1, 0) then [(window[51] > 2, InvalidHurtbox(window[51]))] else [])
  }

  /** The character checks read off the window log what `CharacterWarnings` logs for the record
      decoded from it. */
  lemma {:induction false} CharacterChecksFired(window: seq<byte>, t: Tables, f: Fixed)
    requires |window| >= 33 && FixedAt(window, 0, f)
    requires t.characterFromInternal(f.character).Some?
    ensures Fired(CharacterChecksAt(window, t)) == CharacterWarnings(f, t.characterFromInternal(f.character).value, t)
  {
    var cs := CharacterChecksAt(window, t);
    assert cs == [cs[0]] + [cs[1], cs[2]];
    assert [cs[1], cs[2]] == [cs[1]] + [cs[2]];
    assert [cs[2]] == [cs[2]] + [];
    FiredCons(cs[0], [cs[1], cs[2]]);
    FiredCons(cs[1], [cs[2]]);
    FiredCons(cs[2], []);
  }

  /** The gated checks read off the window log what `GatedWarnings` logs for the fields decoded from
      it; the flags check, whose five bytes never reach bit 40, logs nothing. */
  lemma {:induction false} GatedChecksFired(window: seq<byte>, version: Version, e: Early, l: Late)
    requires |window| >= PostFrameSize(version)
    requires EarlyAt(window, 33, version, e)
    requires LateAt(window, 33 + EarlySize(version), version, l)
    ensures Fired(GatedChecksAt(window, version)) == GatedWarnings(e, l)
  {
    PostFrameSizeSplits(version);
    if version.AtLeast(2, 0, 0) {
      FlagsLanes(window[37] as bv8, window[38] as bv8, window[39] as bv8, window[40] as bv8, window[41] as bv8);
    }
    var gs := GatedChecksAt(window, version);
    if version.AtLeast(3, 1, 0) {
      assert gs == [gs[0]] + [gs[1]];
      assert [gs[1]] == [gs[1]] + [];
      FiredCons(gs[0], [gs[1]]);
      FiredCons(gs[1], []);
    } else if version.AtLeast(2, 0, 0) {
      assert gs == [gs[0]] + [];
      FiredCons(gs[0], []);
    }
  }

  /** The checks of a decoded record log exactly what its window determines. */
  lemma {:induction false} PostFrameLogsFromWindow(window: seq<byte>, version: Version, t: Tables, p: PostFrame)
    requires |window| >= PostFrameSize(version)
    requires FixedAt(window, 0, p.fixed)
    requires EarlyAt(window, 33, version, p.early)
    requires LateAt(window, 33 + EarlySize(version), version, p.late)
    requires t.characterFromInternal(p.fixed.character).Some?
    ensures PostFrameCheck(p, t) == Ok(PostFrameLogsAt(window, version, t))
  {
    PostFrameSizeSplits(version);
    FiredAppend(CharacterChecksAt(window, t), GatedChecksAt(window, version));
    CharacterChecksFired(window, t, p.fixed);
    GatedChecksFired(window, version, p.early, p.late);
  }

  /** The state flags as the original assembles them: byte `i` shifted left by `8 * i`, or-ed together
      into a 64-bit word. */
  function AssembleFlags(b0: bv8, b1: bv8, b2: bv8, b3: bv8, b4: bv8): bv64 {
    (b0 as bv64) | ((b1 as bv64) << 8) | ((b2 as bv64) << 16) | ((b3 as bv64) << 24) | ((b4 as bv64) << 32)
  }

  /** Each byte read lands in its own 8-bit lane, least significant first, and nothing lands at or above
      bit 40: the lanes give the five bytes back. */
  lemma FlagsLanes(b0: bv8, b1: bv8, b2: bv8, b3: bv8, b4: bv8)
    ensures var f := AssembleFlags(b0, b1, b2, b3, b4);
      && f & 0xFF == b0 as bv64
      && (f >> 8) & 0xFF == b1 as bv64
      && (f >> 16) & 0xFF == b2 as bv64
      && (f >> 24) & 0xFF == b3 as bv64
      && (f >> 32) & 0xFF == b4 as bv64
      && f >> 40 == 0
  {
  }
}
