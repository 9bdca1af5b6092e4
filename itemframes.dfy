/** The per-frame record of one live item or projectile. */
module ItemFrames {
  import opened Common
  import opened Bytes
  import opened Utils
  import opened Melee

  datatype ItemFrame = ItemFrame(
    frameIndex: int,
    itemId: nat,
    state: byte,
    orientation: Float32,
    velocity: Vec2,
    position: Vec2,
    damageTaken: nat,
    expirationTimer: Float32,
    spawnId: nat,
    missileType: Option<byte>,  // 3.2.0
    turnipType: Option<byte>,   // 3.2.0
    launched: Option<bool>,     // 3.2.0
    chargePower: Option<byte>,  // 3.2.0
    owner: Option<int>,         // 3.6.0
    instanceId: Option<nat>     // 3.16.0
  )

  /** The fields every version has: 37 bytes. */
  datatype Fixed = Fixed(
    frameIndex: int, itemId: nat, state: byte, orientation: Float32, velocity: Vec2, position: Vec2,
    damageTaken: nat, expirationTimer: Float32, spawnId: nat)

  /** Reads the 37 fixed bytes in record order. */
  method ReadFixed(stream: Stream) returns (r: Result<Fixed>)
    requires stream.Valid()
    modifies stream
    ensures stream.Valid()
    ensures r.Ok? <==> old(stream.pos) + 37 <= |stream.data|
    ensures r.Err? ==> r.error == Underflow
    ensures r.Ok? ==>
      var w, at, f := stream.data, old(stream.pos), r.value;
      && stream.pos == at + 37
      && f.frameIndex == I32(w[at..at + 4])
      && f.itemId == UIntAt(w, at + 4, 2)
      && f.state == w[at + 6]
      && f.orientation == F32At(w, at + 7)
      && f.velocity == Vec2(F32At(w, at + 11), F32At(w, at + 15))
      && f.position == Vec2(F32At(w, at + 19), F32At(w, at + 23))
      && f.damageTaken == UIntAt(w, at + 27, 2)
      && f.expirationTimer == F32At(w, at + 29)
      && f.spawnId == UIntAt(w, at + 33, 4)
  {
    var frameIndex :- stream.GetI32();
    var itemId :- stream.GetUInt(2);
    var state :- stream.GetU8();
    var orientation :- stream.GetF32();
    var velocityX :- stream.GetF32();
    var velocityY :- stream.GetF32();
    var positionX :- stream.GetF32();
    var positionY :- stream.GetF32();
    var damageTaken :- stream.GetUInt(2);
    var expirationTimer :- stream.GetF32();
    var spawnId :- stream.GetUInt(4);
    return Ok(Fixed(frameIndex, itemId, state, orientation, Vec2(velocityX, velocityY),
      Vec2(positionX, positionY), damageTaken, expirationTimer, spawnId));
  }

  /** The version-gated fields. */
  datatype Gated = Gated(
    missileType: Option<byte>, turnipType: Option<byte>, launched: Option<bool>, chargePower: Option<byte>,
    owner: Option<int>, instanceId: Option<nat>)

  /** Reads the four 3.2.0 fields together, then the owner (3.6.0) and the instance id (3.16.0), each
      only when the version has it. */
  method ReadGated(stream: Stream, version: Version) returns (r: Result<Gated>)
    requires stream.Valid()
    modifies stream
    ensures stream.Valid()
    ensures r.Ok? <==> old(stream.pos) + ItemFrameSize(version) - 37 <= |stream.data|
    ensures r.Err? ==> r.error == Underflow
    ensures r.Ok? ==>
      var w, at, g := stream.data, old(stream.pos), r.value;
      && stream.pos == at + ItemFrameSize(version) - 37
      && (g.missileType.Some? <==> version.AtLeast(3, 2, 0))
      && (g.turnipType.Some? <==> version.AtLeast(3, 2, 0))
      && (g.launched.Some? <==> version.AtLeast(3, 2, 0))
      && (g.chargePower.Some? <==> version.AtLeast(3, 2, 0))
      && (version.AtLeast(3, 2, 0) ==>
           && g.missileType.value == w[at]
           && g.turnipType.value == w[at + 1]
           && (g.launched.value <==> w[at + 2] != 0)
           && g.chargePower.value == w[at + 3])
      && (g.owner.Some? <==> version.AtLeast(3, 6, 0))
      && (g.owner.Some? ==> g.owner.value == I8(w[at + 4]))
      && (g.instanceId.Some? <==> version.AtLeast(3, 16, 0))
      && (g.instanceId.Some? ==> g.instanceId.value == UIntAt(w, at + 5, 2))
  {
    var missileType, turnipType, launched, chargePower := None, None, None, None;
    if version.AtLeast(3, 2, 0) {
      var missile :- stream.GetU8();
      var turnip :- stream.GetU8();
      var launchedByte :- stream.GetU8();
      var charge :- stream.GetU8();
      missileType, turnipType, launched, chargePower := Some(missile), Some(turnip), Some(launchedByte != 0), Some(charge);
    }
    var owner := None;
    if version.AtLeast(3, 6, 0) {
      var o :- stream.GetI8();
      owner := Some(o);
    }
    var instanceId := None;
    if version.AtLeast(3, 16, 0) {
      var id :- stream.GetUInt(2);
      instanceId := Some(id);
    }
    return Ok(Gated(missileType, turnipType, launched, chargePower, owner, instanceId));
  }

  /** Bytes read for a version: 37 fixed, 4 more from 3.2.0, the owner from 3.6.0, the instance id from
      3.16.0. */
  function ItemFrameSize(version: Version): nat {
    if version.AtLeast(3, 16, 0) then 44
    else if version.AtLeast(3, 6, 0) then 42
    else if version.AtLeast(3, 2, 0) then 41
    else 37
  }

  /** `ItemFrame::validate`: an item id the item table does not know is logged. */
  function ItemFrameWarnings(f: ItemFrame, t: Tables): (logs: seq<Log>)
    ensures logs != [] <==> !t.itemKnown(f.itemId)
    ensures forall l | l in logs :: l == InvalidItem(f.itemId)
  {
    if t.itemKnown(f.itemId) then [] else [InvalidItem(f.itemId)]
  }

  /** What validating a readable window logs, read straight off its bytes: an item type the table
      does not know. */
  function ItemFrameLogsAt(window: seq<byte>, t: Tables): seq<Log>
    requires |window| >= 6
  {
    Fired(ItemFrameChecksAt(window, t))
  }

  /** The one check validating a readable window runs: an item type the table does not know. */
  function ItemFrameChecksAt(window: seq<byte>, t: Tables): (checks: seq<(bool, Log)>)
    requires |window| >= 6
    ensures |checks| == 1 && checks[0].1 == InvalidItem(UIntAt(window, 4, 2))
  {
    var itemId := UIntAt(window, 4, 2);
    [(!t.itemKnown(itemId), InvalidItem(itemId))]
  }

  /** `ItemFrame::new`: reads the fixed part and the gated fields the version has, then validates.
      Nothing in an item record can stop decoding except a short window. */
  method NewItemFrame(window: seq<byte>, version: Version, t: Tables) returns (r: Result<Decoded<ItemFrame>>)
    ensures r.Ok? <==> |window| >= ItemFrameSize(version)
    ensures r.Err? ==> r.error == Underflow
    ensures r.Ok? ==>
      var f := r.value.record;
      && r.value.used == ItemFrameSize(version)
      && f.frameIndex == I32(window[0..4])
      && f.itemId == UIntAt(window, 4, 2)
      && f.state == window[6]
      && f.orientation == F32At(window, 7)
      && f.velocity == Vec2(F32At(window, 11), F32At(window, 15))
      && f.position == Vec2(F32At(window, 19), F32At(window, 23))
      && f.damageTaken == UIntAt(window, 27, 2)
      && f.expirationTimer == F32At(window, 29)
      && f.spawnId == UIntAt(window, 33, 4)
      // the four 3.2.0 fields come together
      && (f.missileType.Some? <==> version.AtLeast(3, 2, 0))
      && (f.turnipType.Some? <==> version.AtLeast(3, 2, 0))
      && (f.launched.Some? <==> version.AtLeast(3, 2, 0))
      && (f.chargePower.Some? <==> version.AtLeast(3, 2, 0))
      && (version.AtLeast(3, 2, 0) ==>
           && f.missileType.value == window[37]
           && f.turnipType.value == window[38]
           && (f.launched.value <==> window[39] != 0)
           && f.chargePower.value == window[40])
      && (f.owner.Some? <==> version.AtLeast(3, 6, 0))
      && (f.owner.Some? ==> f.owner.value == I8(window[41]))
      && (f.instanceId.Some? <==> version.AtLeast(3, 16, 0))
      && (f.instanceId.Some? ==> f.instanceId.value == UIntAt(window, 42, 2))
      && r.value.logs == ItemFrameWarnings(f, t)
      && r.value.logs == ItemFrameLogsAt(window, t)
  {
    var stream := new Stream(window);
    var fixed :- ReadFixed(stream);
    var gated :- ReadGated(stream, version);
    var record := ItemFrame.ItemFrame(fixed.frameIndex, fixed.itemId, fixed.state, fixed.orientation,
      fixed.velocity, fixed.position, fixed.damageTaken, fixed.expirationTimer, fixed.spawnId,
      gated.missileType, gated.turnipType, gated.launched, gated.chargePower, gated.owner, gated.instanceId);
    FiredCons((!t.itemKnown(record.itemId), InvalidItem(record.itemId)), []);
    assert [(!t.itemKnown(record.itemId), InvalidItem(record.itemId))]
      == [(!t.itemKnown(record.itemId), InvalidItem(record.itemId))] + [];
    return Ok(Decoded(record, stream.pos, ItemFrameWarnings(record, t)));
  }
}
