/** The per-frame start and end markers. */
module Frames {
  import opened Common
  import opened Bytes
  import opened Utils

  /** The frame index, and from 3.10.0 the match-wide frame counter. */
  datatype FrameStart = FrameStart(frameIdx: int, frameCounter: Option<nat>)

  /** The frame index, and from 3.7.0 the latest frame that can no longer be rolled back. */
  datatype FrameEnd = FrameEnd(frameIdx: int, latestFinalized: Option<int>)

  /** `FrameStart::new`: a signed frame index, a random seed that is read and dropped, then the
      frame counter when the version has it. Reads 8 bytes before 3.10.0 and 12 from then on. */
  method NewFrameStart(window: seq<byte>, version: Version) returns (r: Result<Decoded<FrameStart>>)
    ensures r.Ok? <==> |window| >= (if version.AtLeast(3, 10, 0) then 12 else 8)
    ensures r.Err? ==> r.error == Underflow
    ensures r.Ok? ==>
      var f := r.value.record;
      && r.value.used == (if version.AtLeast(3, 10, 0) then 12 else 8)
      && r.value.logs == []
      && f.frameIdx == I32(window[0..4])
      && (f.frameCounter.Some? <==> version.AtLeast(3, 10, 0))
      && (f.frameCounter.Some? ==> f.frameCounter.value == BE(window[8..12]))
  {
    var stream := new Stream(window);
    var frameIdx :- stream.GetI32();
    var seed :- stream.GetUInt(4);
    var frameCounter := None;
    if version.AtLeast(3, 10, 0) {
      var counter :- stream.GetUInt(4);
      frameCounter := Some(counter);
    }
    return Ok(Decoded(FrameStart.FrameStart(frameIdx, frameCounter), stream.pos, []));
  }

  /** `FrameEnd::new`: a signed frame index, then from 3.7.0 the signed latest finalized frame.
      Reads 4 bytes before 3.7.0 and 8 from then on. */
  method NewFrameEnd(window: seq<byte>, version: Version) returns (r: Result<Decoded<FrameEnd>>)
    ensures r.Ok? <==> |window| >= (if version.AtLeast(3, 7, 0) then 8 else 4)
    ensures r.Err? ==> r.error == Underflow
    ensures r.Ok? ==>
      var f := r.value.record;
      && r.value.used == (if version.AtLeast(3, 7, 0) then 8 else 4)
      && r.value.logs == []
      && f.frameIdx == I32(window[0..4])
      && (f.latestFinalized.Some? <==> version.AtLeast(3, 7, 0))
      && (f.latestFinalized.Some? ==> f.latestFinalized.value == I32(window[4..8]))
  {
    var stream := new Stream(window);
    var frameIdx :- stream.GetI32();
    var latestFinalized := None;
    if version.AtLeast(3, 7, 0) {
      var finalized :- stream.GetI32();
      latestFinalized := Some(finalized);
    }
    return Ok(Decoded(FrameEnd.FrameEnd(frameIdx, latestFinalized), stream.pos, []));
  }
}
