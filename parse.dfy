/** The replay file as a whole: its envelope, the table of event payload sizes, and the loop that
    walks the event stream, decodes each record and follows the expected event order. */
module Parse {
  import opened Common
  import opened Bytes
  import opened Utils
  import opened Melee
  import opened Players
  import Frames
  import PreFrames
  import PostFrames
  import ItemFrames
  import GameStarts
  import opened EventOrder

  // ---------------------------------------------------------------------------------------------
  // The event payload size table

  /** The event code of the `j`-th table entry: entries are three bytes each, from offset 2. */
  function EntryEvent(w: seq<byte>, j: nat): Option<EventType>
    requires 2 + 3 * j < |w|
  {
    EventFromRepr(w[2 + 3 * j])
  }

  /** The big-endian u16 payload size of the `j`-th table entry. */
  function EntrySize(w: seq<byte>, j: nat): nat
    requires 2 + 3 * j + 3 <= |w|
  {
    UIntAt(w, 2 + 3 * j + 1, 2)
  }

  /** The table once its first `n` entries are read, in order; a later entry for the same event
      replaces an earlier one. The first entry that is short or has an unknown code stops it. */
  function Table(w: seq<byte>, n: nat): (r: Result<map<EventType, nat>>)
    ensures r.Ok? && n > 0 ==> 2 + 3 * n <= |w|
    decreases n
  {
    if n == 0 then Ok(map[])
    else
      var table :- Table(w, n - 1);
      var at := 2 + 3 * (n - 1);
      if at >= |w| then Err(Underflow)
      else match EventFromRepr(w[at])
        case None => Err(UnknownEventCode(w[at]))
        case Some(e) => if at + 3 > |w| then Err(Underflow) else Ok(table[e := UIntAt(w, at + 1, 2)])
  }

  /** `get_event_sizes` on the bytes `w` that remain: the EventPayloads code, the payload length `L`,
      then `(L - 1) / 3` entries. Yields the table and the number of bytes read. */
  function EventSizes(w: seq<byte>): (r: Result<(map<EventType, nat>, nat)>)
    ensures r.Ok? ==>
      && 2 <= |w| && w[0] == Code(EventPayloads) && w[1] >= 1 && (w[1] - 1) % 3 == 0
      && r.value.1 == 1 + w[1] <= |w|
    ensures 1 <= |w| && w[0] != Code(EventPayloads) ==>
      r == Err(if EventFromRepr(w[0]).None? then UnknownEventCode(w[0]) else NotEventPayloads(EventFromRepr(w[0]).value))
    ensures 2 <= |w| && w[0] == Code(EventPayloads) && w[1] == 0 ==> r == Err(PayloadsLengthUnderflow)
    ensures 2 <= |w| && w[0] == Code(EventPayloads) && w[1] >= 1 && (w[1] - 1) % 3 != 0 ==>
      r == Err(PayloadsLengthInvalid)
  {
    if |w| == 0 then Err(Underflow)
    else match EventFromRepr(w[0])
      case None => Err(UnknownEventCode(w[0]))
      case Some(code) =>
        if code != EventPayloads then Err(NotEventPayloads(code))
        else if |w| < 2 then Err(Underflow)
        else if w[1] == 0 then Err(PayloadsLengthUnderflow)
        else if (w[1] - 1) % 3 != 0 then Err(PayloadsLengthInvalid)
        else
          var table :- Table(w, (w[1] - 1) / 3);
          Ok((table, 1 + w[1]))
  }

  /** Once an entry stops the table, reading more entries gives the same failure. */
  lemma {:induction false} TableStops(w: seq<byte>, i: nat, n: nat)
    requires i <= n && Table(w, i).Err?
    ensures Table(w, n) == Table(w, i)
    decreases n
  {
    if i < n {
      TableStops(w, i, n - 1);
    }
  }

  /** The table reads every entry: it succeeds exactly when all `n` entries fit and carry known
      codes. */
  lemma {:induction false} TableReadable(w: seq<byte>, n: nat)
    ensures Table(w, n).Ok? <==>
      (n == 0 || 2 + 3 * n <= |w|) && forall j | 0 <= j < n && 2 + 3 * j < |w| :: EntryEvent(w, j).Some?
    decreases n
  {
    if n > 0 {
      TableReadable(w, n - 1);
      if (n == 0 || 2 + 3 * n <= |w|) && forall j | 0 <= j < n && 2 + 3 * j < |w| :: EntryEvent(w, j).Some? {
        assert EntryEvent(w, n - 1).Some?;
        assert Table(w, n - 1).Ok?;
      }
    }
  }

  /** A table of `n > 0` entries is the table of the first `n - 1` with the last entry added. */
  lemma TableLast(w: seq<byte>, n: nat)
    requires n > 0 && Table(w, n).Ok?
    ensures Table(w, n - 1).Ok? && EntryEvent(w, n - 1).Some?
    ensures Table(w, n).value == Table(w, n - 1).value[EntryEvent(w, n - 1).value := EntrySize(w, n - 1)]
  {
  }

  /** The last of the first `n` entries that names `e`, if any. */
  function LastEntryFor(w: seq<byte>, n: nat, e: EventType): (last: Option<nat>)
    requires n == 0 || 2 + 3 * n <= |w|
    ensures last.Some? ==>
      && last.value < n && EntryEvent(w, last.value) == Some(e)
      && forall k | last.value < k < n :: EntryEvent(w, k) != Some(e)
    ensures last.None? ==> forall j | 0 <= j < n :: EntryEvent(w, j) != Some(e)
  {
    if n == 0 then None
    else if EntryEvent(w, n - 1) == Some(e) then Some(n - 1)
    else LastEntryFor(w, n - 1, e)
  }

  /** A later duplicate overwrites an earlier one: an event is in the table exactly when some entry
      names it, and its size is that of the last entry naming it. */
  lemma {:induction false} TableLastWins(w: seq<byte>, n: nat, e: EventType)
    requires Table(w, n).Ok?
    ensures var table, last := Table(w, n).value, LastEntryFor(w, n, e);
      && (e in table <==> last.Some?)
      && (last.Some? ==> table[e] == EntrySize(w, last.value))
    decreases n
  {
    if n > 0 {
      TableLast(w, n);
      TableLastWins(w, n - 1, e);
    }
  }

  /** One table entry at the stream's position: a known event code and a big-endian u16 size. */
  method ReadEntry(stream: Stream) returns (r: Result<(EventType, nat)>)
    requires stream.Valid()
    modifies stream
    ensures stream.Valid()
    ensures var p, d := old(stream.pos), stream.data;
      && (r.Ok? <==> p + 3 <= |d| && EventFromRepr(d[p]).Some?)
      && (r.Ok? ==> r.value == (EventFromRepr(d[p]).value, UIntAt(d, p + 1, 2)) && stream.pos == p + 3)
      && (r.Err? ==>
            r.error == if p < |d| && EventFromRepr(d[p]).None? then UnknownEventCode(d[p]) else Underflow)
  {
    var code :- stream.GetU8();
    var event := EventFromRepr(code);
    if event.None? {
      return Err(UnknownEventCode(code));
    }
    var size :- stream.GetUInt(2);
    return Ok((event.value, size));
  }

  /** Reading entry `i` of a table that has been read so far adds it. */
  lemma TableNext(w: seq<byte>, i: nat, table: map<EventType, nat>, e: EventType, size: nat)
    requires Table(w, i) == Ok(table) && 2 + 3 * i + 3 <= |w|
    requires EventFromRepr(w[2 + 3 * i]) == Some(e) && size == UIntAt(w, 2 + 3 * i + 1, 2)
    ensures Table(w, i + 1) == Ok(table[e := size])
  {
  }

  /** The entry read from the whole buffer is the entry of the remaining bytes. */
  lemma EntryInWindow(d: seq<byte>, start: nat, i: nat)
    requires start + 2 + 3 * i + 3 <= |d|
    ensures d[start..][2 + 3 * i] == d[start + 2 + 3 * i]
    ensures UIntAt(d[start..], 2 + 3 * i + 1, 2) == UIntAt(d, start + 2 + 3 * i + 1, 2)
  {
    assert d[start..][2 + 3 * i + 1..2 + 3 * i + 3] == d[start + 2 + 3 * i + 1..start + 2 + 3 * i + 3];
  }

  /** The table's own reading loop: the `(L - 1) / 3` entries, each a code and a u16. */
  method ReadEntries(stream: Stream, count: nat, ghost w: seq<byte>, ghost start: nat)
    returns (r: Result<map<EventType, nat>>)
    requires stream.Valid() && start <= |stream.data| && w == stream.data[start..]
    requires stream.pos == start + 2
    modifies stream
    ensures stream.Valid()
    ensures r == Table(w, count)
    ensures r.Ok? ==> stream.pos == start + 2 + 3 * count
  {
    var table := map[];
    for i := 0 to count
      invariant stream.Valid() && stream.pos == start + 2 + 3 * i
      invariant Table(w, i) == Ok(table)
    {
      var entry := ReadEntry(stream);
      if entry.Err? {
        TableStops(w, i + 1, count);
        return Err(entry.error);
      }
      EntryInWindow(stream.data, start, i);
      TableNext(w, i, table, entry.value.0, entry.value.1);
      table := table[entry.value.0 := entry.value.1];
    }
    return Ok(table);
  }

  /** `get_event_sizes`: reads the table from the stream and leaves the stream just past it. */
  method ReadEventSizes(stream: Stream) returns (r: Result<map<EventType, nat>>)
    requires stream.Valid()
    modifies stream
    ensures stream.Valid()
    ensures var spec := EventSizes(old(stream.data[stream.pos..]));
      && (r.Ok? <==> spec.Ok?)
      && (r.Ok? ==> r.value == spec.value.0 && stream.pos == old(stream.pos) + spec.value.1)
      && (r.Err? ==> r.error == spec.error)
  {
    ghost var start := stream.pos;
    ghost var w := stream.data[start..];
    var first :- stream.GetU8();
    var code := EventFromRepr(first);
    if code.None? {
      return Err(UnknownEventCode(first));
    }
    if code.value != EventPayloads {
      return Err(NotEventPayloads(code.value));
    }
    var length :- stream.GetU8();
    if length == 0 {
      return Err(PayloadsLengthUnderflow);
    }
    if (length - 1) % 3 != 0 {
      return Err(PayloadsLengthInvalid);
    }
    r := ReadEntries(stream, (length - 1) / 3, w, start);
  }

  // ---------------------------------------------------------------------------------------------
  // The envelope and the metadata block

  /** The file's signature: `{U\x03raw[$U#l`, the start of the UBJSON object holding the raw event
      array. */
  const SlippiHeader: seq<byte> := [0x7b, 0x55, 0x03, 0x72, 0x61, 0x77, 0x5b, 0x24, 0x55, 0x23, 0x6c]

  /** The key and type marker that open the metadata block: `U\x08metadata{`. */
  const MetadataHeader: seq<byte> := [0x55, 0x08, 0x6d, 0x65, 0x74, 0x61, 0x64, 0x61, 0x74, 0x61, 0x7b]

  /** `expect_bytes`: the stream must continue with `expected`; it is consumed exactly when it does.
      Fewer bytes than expected stop validation as an underflow (`get(..).unwrap()`). */
  method ExpectBytes(stream: Stream, expected: seq<byte>) returns (r: Outcome)
    requires stream.Valid()
    modifies stream
    ensures stream.Valid()
    ensures var p, d := old(stream.pos), stream.data;
      && (p + |expected| > |d| ==> r == Fail(Underflow) && stream.pos == p)
      && (p + |expected| <= |d| && d[p..p + |expected|] == expected ==> r == Pass && stream.pos == p + |expected|)
      && (p + |expected| <= |d| && d[p..p + |expected|] != expected ==>
            r == Fail(UnexpectedBytes) && stream.pos == p)
  {
    var actual := stream.Peek(|expected|);
    if actual.Err? {
      return Fail(Underflow);
    }
    if actual.value != expected {
      return Fail(UnexpectedBytes);
    }
    r := stream.Advance(|expected|);
  }

  /** Where the metadata block starts: the raw array's declared length (a big-endian u32 after the
      signature) plus the 15 bytes of signature and length. */
  function RawLength(file: seq<byte>): (n: nat)
    requires 15 <= |file|
    ensures 15 <= n < 0x1_0000_0000 + 15
  {
    UIntAt(file, 11, 4) + 15
  }

  /** What the metadata document holds under `lastFrame`: an integer, a number that is not one, or no
      number at all. Decoding the document itself is not modelled. */
  datatype LastFrame = IntegerNumber(n: int) | OtherNumber | NoNumber

  predicate InI64(x: int) {
    -0x8000_0000_0000_0000 <= x < 0x8000_0000_0000_0000
  }

  /** The expected number of frames, `(last + 124) as usize`: 0 when there is no number; a number that
      is not an i64 stops validation (`as_i64().unwrap()`), and so does an i64 overflow of the sum. The
      cast to a 64-bit `usize` wraps negative sums. */
  function FrameCount(last: LastFrame): Result<nat> {
    match last
    case NoNumber => Ok(0)
    case OtherNumber => Err(LastFrameNotI64)
    case IntegerNumber(n) =>
      if !InI64(n) then Err(LastFrameNotI64)
      else if !InI64(n + 124) then Err(FrameCountOverflow)
      else Ok((n + 124) % 0x1_0000_0000_0000_0000)
  }

  /** The frame count is the last frame index plus 124, modulo 2^64; for every index from -124 on it
      is exactly that sum, so a last frame of -123 counts one frame. Only a non-integer, an index
      outside i64 or an index within 124 of the i64 maximum stops validation. */
  lemma FrameCountMeaning(last: LastFrame)
    ensures FrameCount(last).Err? <==>
      last.OtherNumber? || (last.IntegerNumber? && !(InI64(last.n) && last.n + 124 < 0x8000_0000_0000_0000))
    ensures last.NoNumber? ==> FrameCount(last) == Ok(0)
    ensures last.IntegerNumber? && FrameCount(last).Ok? ==>
      && FrameCount(last).value < 0x1_0000_0000_0000_0000
      && (FrameCount(last).value - (last.n + 124)) % 0x1_0000_0000_0000_0000 == 0
      && (last.n >= -124 ==> FrameCount(last).value == last.n + 124)
    ensures FrameCount(IntegerNumber(-123)) == Ok(1)
  {
  }

  /** The metadata block can be read: it lies inside the file and opens with its key and type marker,
      its document decodes, and its `lastFrame` gives a frame count. */
  predicate MetadataReadable(file: seq<byte>, rawLength: nat, meta: Option<LastFrame>) {
    && rawLength + 11 <= |file| && file[rawLength..rawLength + 11] == MetadataHeader
    && meta.Some? && FrameCount(meta.value).Ok?
  }

  /** Why a metadata block cannot be read: the first of its checks that fails. */
  function MetadataFailure(file: seq<byte>, rawLength: nat, meta: Option<LastFrame>): Failure
    requires !MetadataReadable(file, rawLength, meta)
  {
    if rawLength + 11 > |file| then Underflow
    else if file[rawLength..rawLength + 11] != MetadataHeader then UnexpectedBytes
    else if meta.None? then MetadataUnreadable
    else FrameCount(meta.value).error
  }

  /** The metadata block: it must lie inside the file and open with its key and type marker; then its
      document must decode, and its `lastFrame` gives the frame count. The document stands as the
      parameter `meta`, `None` when it does not decode. */
  method ReadMetadata(file: seq<byte>, rawLength: nat, meta: Option<LastFrame>) returns (r: Result<nat>)
    ensures r.Ok? <==> MetadataReadable(file, rawLength, meta)
    ensures r.Ok? ==> r.value == FrameCount(meta.value).value
    ensures r.Err? ==> r.error == MetadataFailure(file, rawLength, meta)
    ensures rawLength + 11 > |file| ==> r == Err(Underflow)
    ensures rawLength + 11 <= |file| && file[rawLength..rawLength + 11] != MetadataHeader ==>
      r == Err(UnexpectedBytes)
    ensures rawLength + 11 <= |file| && file[rawLength..rawLength + 11] == MetadataHeader && meta.None? ==>
      r == Err(MetadataUnreadable)
  {
    if rawLength > |file| {
      return Err(Underflow);
    }
    var block := new Stream(file[rawLength..]);
    var marker := ExpectBytes(block, MetadataHeader);
    if marker.Fail? {
      return Err(marker.error);
    }
    assert file[rawLength..][..11] == file[rawLength..rawLength + 11];
    if meta.None? {
      return Err(MetadataUnreadable);
    }
    r := FrameCount(meta.value);
  }

  /** Everything before the event stream, once read. */
  datatype Preamble = Preamble(
    rawLength: nat,                  // where the metadata block starts and the event stream ends
    frameCount: nat,                 // expected frames, from the metadata
    sizes: map<EventType, nat>,      // the event payload size table
    startPayload: seq<byte>,         // the game start event's payload
    start: GameStarts.StartInfo,                // the decoded game start: settings, version, players
    startLogs: seq<Log>,             // what validating the game start logged
    eventsAt: nat)                   // the offset of the first event after the game start

  /** A game start event sits at `at`: its command byte, then a payload of the size the table gives it,
      inside the file. */
  predicate GameStartSized(file: seq<byte>, at: nat, sizes: map<EventType, nat>) {
    at < |file| && file[at] == Code(GameStart) && GameStart in sizes && at + 1 + sizes[GameStart] <= |file|
  }

  /** Why no game start event sits at `at`: the first of its checks that fails. */
  function GameStartWindowFailure(file: seq<byte>, at: nat, sizes: map<EventType, nat>): Failure
    requires !GameStartSized(file, at, sizes)
  {
    if at >= |file| then Underflow
    else if file[at] != Code(GameStart) then UnexpectedBytes
    else if GameStart !in sizes then MissingEventSize(GameStart)
    else Underflow
  }

  /** The game start event that follows the size table: its command byte, then a window of the size
      the table gives it, which the stream skips. */
  method ReadGameStartWindow(stream: Stream, sizes: map<EventType, nat>) returns (r: Result<seq<byte>>)
    requires stream.Valid()
    modifies stream
    ensures stream.Valid()
    ensures var p, d := old(stream.pos), stream.data;
      && (r.Ok? <==> GameStartSized(d, p, sizes))
      && (r.Err? ==> r.error == GameStartWindowFailure(d, p, sizes))
      && (r.Ok? ==> stream.pos == p + 1 + sizes[GameStart] && r.value == d[p + 1..stream.pos])
  {
    ghost var p := stream.pos;
    var command := ExpectBytes(stream, [Code(GameStart)]);
    if p < |stream.data| {
      assert stream.data[p..p + 1] == [stream.data[p]];
    }
    if command.Fail? {
      return Err(command.error);
    }
    if GameStart !in sizes {
      return Err(MissingEventSize(GameStart));
    }
    var window := stream.Peek(sizes[GameStart]);
    if window.Err? {
      return Err(window.error);
    }
    var skipped := stream.Advance(sizes[GameStart]);
    return Ok(window.value);
  }

  /** The signature, the raw array's length and the metadata block can all be read. */
  predicate EnvelopeReadable(file: seq<byte>, meta: Option<LastFrame>) {
    15 <= |file| && file[..11] == SlippiHeader && MetadataReadable(file, RawLength(file), meta)
  }

  /** Why the envelope cannot be read: the first of its checks that fails. */
  function EnvelopeFailure(file: seq<byte>, meta: Option<LastFrame>): Failure
    requires !EnvelopeReadable(file, meta)
  {
    if |file| < 11 then Underflow
    else if file[..11] != SlippiHeader then UnexpectedBytes
    else if |file| < 15 then Underflow
    else MetadataFailure(file, RawLength(file), meta)
  }

  /** The signature, the raw array's length and the metadata block: where the event stream ends and
      how many frames the metadata expects. Leaves the stream just past the length. */
  method ReadEnvelope(stream: Stream, meta: Option<LastFrame>) returns (r: Result<(nat, nat)>)
    requires stream.Valid() && stream.pos == 0
    modifies stream
    ensures stream.Valid()
    ensures var d := stream.data;
      && (r.Ok? <==> EnvelopeReadable(d, meta))
      && (r.Err? ==> r.error == EnvelopeFailure(d, meta))
      && (r.Ok? ==> stream.pos == 15 && r.value == (RawLength(d), FrameCount(meta.value).value))
  {
    var signature := ExpectBytes(stream, SlippiHeader);
    if signature.Fail? {
      return Err(signature.error);
    }
    var length := stream.GetUInt(4);
    if length.Err? {
      return Err(length.error);
    }
    var rawLength := length.value + 15;
    var frameCount := ReadMetadata(stream.data, rawLength, meta);
    if frameCount.Err? {
      return Err(frameCount.error);
    }
    return Ok((rawLength, frameCount.value));
  }

  /** The size table, the game start event after it, and the game start's payload can all be read. */
  predicate TablesReadable(file: seq<byte>, t: Tables) {
    && 15 <= |file| && EventSizes(file[15..]).Ok?
    && var (sizes, used) := EventSizes(file[15..]).value;
    && GameStartSized(file, 15 + used, sizes)
    && GameStarts.StartReadable(file[15 + used + 1..15 + used + 1 + sizes[GameStart]], t)
  }

  /** The failure reading the tables stops with: the size table's own, else the game start event's
      own, else the one the game start's decoder stops with. */
  function TablesFailure(file: seq<byte>, t: Tables): Failure
    requires 15 <= |file| && !TablesReadable(file, t)
  {
    match EventSizes(file[15..])
    case Err(e) => e
    case Ok((sizes, used)) =>
      if !GameStartSized(file, 15 + used, sizes) then GameStartWindowFailure(file, 15 + used, sizes)
      else GameStarts.StartFailure(file[15 + used + 1..15 + used + 1 + sizes[GameStart]], t)
  }

  /** A size table that cannot be read stops the tables with its own failure. */
  lemma TablesNoSizes(file: seq<byte>, t: Tables)
    requires 15 <= |file| && EventSizes(file[15..]).Err?
    ensures !TablesReadable(file, t) && TablesFailure(file, t) == EventSizes(file[15..]).error
  {
  }

  /** A game start event missing after the size table stops the tables with the window's failure. */
  lemma TablesNoWindow(file: seq<byte>, t: Tables)
    requires 15 <= |file| && EventSizes(file[15..]).Ok?
    requires !GameStartSized(file, 15 + EventSizes(file[15..]).value.1, EventSizes(file[15..]).value.0)
    ensures !TablesReadable(file, t)
    ensures TablesFailure(file, t) == GameStartWindowFailure(file, 15 + EventSizes(file[15..]).value.1,
                                                             EventSizes(file[15..]).value.0)
  {
  }

  /** Past the size table and the game start event, the tables read exactly when the game start's payload
      does, and fail as its decoder does. */
  lemma TablesByStart(file: seq<byte>, t: Tables, payload: seq<byte>)
    requires 15 <= |file| && EventSizes(file[15..]).Ok?
    requires var sizes, at := EventSizes(file[15..]).value.0, 15 + EventSizes(file[15..]).value.1;
      && GameStartSized(file, at, sizes) && payload == file[at + 1..at + 1 + sizes[GameStart]]
    ensures TablesReadable(file, t) <==> GameStarts.StartReadable(payload, t)
    ensures !TablesReadable(file, t) ==> TablesFailure(file, t) == GameStarts.StartFailure(payload, t)
  {
  }

  /** The size table and the game start event, from offset 15. */
  method ReadTables(stream: Stream, t: Tables)
    returns (r: Result<(map<EventType, nat>, seq<byte>, Decoded<GameStarts.StartInfo>)>)
    requires stream.Valid() && stream.pos == 15
    modifies stream
    ensures stream.Valid()
    ensures r.Ok? <==> TablesReadable(stream.data, t)
    ensures r.Err? ==> r.error == TablesFailure(stream.data, t)
    ensures var d := stream.data;
      r.Ok? ==>
        var (sizes, payload, start) := r.value;
        && sizes == EventSizes(d[15..]).value.0
        && var gameStartAt := 15 + EventSizes(d[15..]).value.1;
        && stream.pos == gameStartAt + 1 + sizes[GameStart]
        && payload == d[gameStartAt + 1..stream.pos]
        && var v := GameStarts.VersionAt(payload);
        && start == Decoded(GameStarts.StartInfo(GameStarts.StartAt(payload, v), v, GameStarts.PlayersAt(payload, v, t)),
                            GameStarts.GameStartSize(v), GameStarts.AllBlockWarnings(payload, 4))
  {
    ghost var d := stream.data;
    var sizes := ReadEventSizes(stream);
    if sizes.Err? {
      TablesNoSizes(d, t);
      return Err(sizes.error);
    }
    ghost var at := stream.pos;
    assert at == 15 + EventSizes(d[15..]).value.1 && sizes.value == EventSizes(d[15..]).value.0;
    var window := ReadGameStartWindow(stream, sizes.value);
    if window.Err? {
      TablesNoWindow(d, t);
      return Err(window.error);
    }
    TablesByStart(d, t, window.value);
    var start := GameStarts.ParseGameStart(window.value, t);
    if start.Err? {
      return Err(start.error);
    }
    return Ok((sizes.value, window.value, start.value));
  }

  /** Everything before the event stream can be read. */
  predicate PreambleReadable(file: seq<byte>, meta: Option<LastFrame>, t: Tables) {
    EnvelopeReadable(file, meta) && TablesReadable(file, t)
  }

  /** The failure reading the preamble stops with: the envelope's, when the envelope cannot be read;
      otherwise the tables'. */
  function PreambleFailure(file: seq<byte>, meta: Option<LastFrame>, t: Tables): Failure
    requires !PreambleReadable(file, meta, t)
  {
    if !EnvelopeReadable(file, meta) then EnvelopeFailure(file, meta) else TablesFailure(file, t)
  }

  /** The preamble a readable file has, read off its bytes. */
  function PreambleOf(file: seq<byte>, meta: Option<LastFrame>, t: Tables): (pre: Preamble)
    requires PreambleReadable(file, meta, t)
    ensures pre.eventsAt <= |file| && |pre.start.players| == 4
  {
    var sizes, used := EventSizes(file[15..]).value.0, EventSizes(file[15..]).value.1;
    var eventsAt := 15 + used + 1 + sizes[GameStart];
    var payload := file[15 + used + 1..eventsAt];
    var v := GameStarts.VersionAt(payload);
    Preamble(RawLength(file), FrameCount(meta.value).value, sizes, payload,
             GameStarts.StartInfo(GameStarts.StartAt(payload, v), v, GameStarts.PlayersAt(payload, v, t)),
             GameStarts.AllBlockWarnings(payload, 4), eventsAt)
  }

  /** The preamble of a readable file, assembled from what reading its tables yields. */
  lemma PreambleFromParts(file: seq<byte>, meta: Option<LastFrame>, t: Tables, sizes: map<EventType, nat>,
                          payload: seq<byte>, start: Decoded<GameStarts.StartInfo>, pos: nat)
    requires PreambleReadable(file, meta, t)
    requires sizes == EventSizes(file[15..]).value.0
    requires var gameStartAt := 15 + EventSizes(file[15..]).value.1;
      && pos == gameStartAt + 1 + sizes[GameStart]
      && payload == file[gameStartAt + 1..pos]
    requires var v := GameStarts.VersionAt(payload);
      && start.record == GameStarts.StartInfo(GameStarts.StartAt(payload, v), v, GameStarts.PlayersAt(payload, v, t))
      && start.logs == GameStarts.AllBlockWarnings(payload, 4)
    ensures PreambleOf(file, meta, t)
      == Preamble(RawLength(file), FrameCount(meta.value).value, sizes, payload, start.record, start.logs, pos)
  {
  }

  /** The envelope checks, the metadata, the size table and the game start, in the original's order. */
  method ReadPreamble(file: seq<byte>, meta: Option<LastFrame>, t: Tables) returns (r: Result<Preamble>)
    ensures r.Ok? <==> PreambleReadable(file, meta, t)
    ensures r.Ok? ==> r.value == PreambleOf(file, meta, t)
    ensures r.Err? ==> r.error == PreambleFailure(file, meta, t)
    ensures |file| < 11 ==> r == Err(Underflow)
    ensures 11 <= |file| && file[..11] != SlippiHeader ==> r == Err(UnexpectedBytes)
  {
    var stream := new Stream(file);
    var envelope := ReadEnvelope(stream, meta);
    if envelope.Err? {
      return Err(envelope.error);
    }
    var tables := ReadTables(stream, t);
    if tables.Err? {
      return Err(tables.error);
    }
    var (sizes, payload, start) := tables.value;
    PreambleFromParts(file, meta, t, sizes, payload, start, stream.pos);
    return Ok(Preamble(envelope.value.0, envelope.value.1, sizes, payload, start.record, start.logs, stream.pos));
  }

  // ---------------------------------------------------------------------------------------------
  // The event stream

  /** `EventType::from_repr(code).unwrap_or_default()`: an unknown code reads as `NoEvent`. */
  function EventOf(code: byte): (e: EventType)
    ensures EventFromRepr(code).Some? ==> Code(e) == code
    ensures EventFromRepr(code).None? ==> e == NoEvent
  {
    EventFromRepr(code).GetOr(NoEvent)
  }

  /** The offsets of the events the read loop visits, from offset `p` until the metadata block starts
      at `end`, the file ends or a game end event has been read. Each event is a code byte and a
      payload of the size the table gives the code, whatever its decoder reads; an event the table
      has no size for, or whose payload runs past the file, stops the walk. */
  function Framing(file: seq<byte>, sizes: map<EventType, nat>, p: nat, end: nat): (r: Result<seq<nat>>)
    decreases |file| - p
  {
    if p >= end || p >= |file| then Ok([])
    else
      var e := EventOf(file[p]);
      if e !in sizes then Err(MissingEventSize(e))
      else if p + 1 + sizes[e] > |file| then Err(Underflow)
      else if e == GameEnd then Ok([p])
      else
        var rest :- Framing(file, sizes, p + 1 + sizes[e], end);
        Ok([p] + rest)
  }

  /** The walk so far followed by the rest of it. */
  function Prepend(visited: seq<nat>, rest: Result<seq<nat>>): Result<seq<nat>> {
    match rest
    case Ok(ps) => Ok(visited + ps)
    case Err(f) => Err(f)
  }

  /** The loop tests the metadata bound only before reading a code, so an event that starts before
      `end` is visited even when its payload runs past it: a Gecko list at 0 with three payload bytes
      is visited with `end` at 1. */
  lemma PayloadPastEnd()
    ensures Framing([0x3D, 1, 2, 3], map[GeckoList := 3], 0, 1) == Ok([0])
  {
    var file: seq<byte>, sizes := [0x3D, 1, 2, 3], map[GeckoList := 3];
    assert EventOf(file[0]) == GeckoList;
    assert Framing(file, sizes, 4, 1) == Ok([]);
    assert [0] + [] == [0];
  }

  /** Nothing visited yet: the walk is what remains. */
  lemma PrependNothing(rest: Result<seq<nat>>)
    ensures Prepend([], rest) == rest
  {
    if rest.Ok? {
      assert [] + rest.value == rest.value;
    }
  }

  /** The walk starts at `p` and moves from each event to the next by exactly one code byte plus the
      table's size for that code; every event starts before `end` and inside the file (its payload may
      run past `end`, see `PayloadPastEnd`), and a game end can only be the last event, so the
      duplicate game end warning never fires. */
  lemma {:induction false} FramingShape(file: seq<byte>, sizes: map<EventType, nat>, p: nat, end: nat)
    requires Framing(file, sizes, p, end).Ok?
    ensures var ps := Framing(file, sizes, p, end).value;
      && (forall i | 0 <= i < |ps| :: p <= ps[i] < end && ps[i] < |file| && EventOf(file[ps[i]]) in sizes)
      && (|ps| > 0 ==> ps[0] == p)
      && (forall i | 0 <= i < |ps| - 1 :: ps[i + 1] == ps[i] + 1 + sizes[EventOf(file[ps[i]])])
      && (forall i | 0 <= i < |ps| - 1 :: EventOf(file[ps[i]]) != GameEnd)
    decreases |file| - p
  {
    if p < end && p < |file| && EventOf(file[p]) != GameEnd {
      var next := p + 1 + sizes[EventOf(file[p])];
      FramingShape(file, sizes, next, end);
      var ps, rest := Framing(file, sizes, p, end).value, Framing(file, sizes, next, end).value;
      assert ps == [p] + rest;
      if |rest| > 0 {
        assert rest[0] == next;
      }
      assert forall i | 1 <= i < |ps| :: ps[i] == rest[i - 1];
    }
  }

  /** An unknown event code is skipped only if the size table has an entry for `NoEvent` (code 0);
      otherwise it stops validation, whatever the code. */
  lemma UnknownCodeStops(file: seq<byte>, sizes: map<EventType, nat>, p: nat, end: nat)
    requires p < end && p < |file| && EventFromRepr(file[p]).None?
    ensures NoEvent !in sizes ==> Framing(file, sizes, p, end) == Err(MissingEventSize(NoEvent))
    ensures NoEvent in sizes && Framing(file, sizes, p, end).Ok? ==>
      Framing(file, sizes, p, end) == Prepend([p], Framing(file, sizes, p + 1 + sizes[NoEvent], end))
  {
  }

  /** What the order checker sees of an event with payload `window`: the frame start carries its frame
      index, the first four bytes of its payload. Other events are not ordered. */
  function SeenOf(event: EventType, window: seq<byte>): Option<Seen> {
    match event
    case FrameStart => Some(SawFrameStart(if |window| >= 4 then I32(window[..4]) else 0))
    case PreFrame => Some(SawPreFrame)
    case PostFrame => Some(SawPostFrame)
    case FrameEnd => Some(SawFrameEnd)
    case Item => Some(SawItem)
    case _ => None
  }

  /** The payload of the event at offset `q`, as the table sizes it. */
  function PayloadAt(file: seq<byte>, sizes: map<EventType, nat>, q: nat): seq<byte>
    requires q < |file|
  {
    var e := EventOf(file[q]);
    if e in sizes && q + 1 + sizes[e] <= |file| then file[q + 1..q + 1 + sizes[e]] else []
  }

  /** What the order checker sees of the event at offset `q`: one event, or nothing. */
  function SeenAt(file: seq<byte>, sizes: map<EventType, nat>, q: nat): seq<Seen> {
    var seen := if q < |file| then SeenOf(EventOf(file[q]), PayloadAt(file, sizes, q)) else None;
    if seen.Some? then [seen.value] else []
  }

  /** What the order checker sees along a walk. */
  function Observed(file: seq<byte>, sizes: map<EventType, nat>, walk: seq<nat>): seq<Seen>
    decreases |walk|
  {
    if walk == [] then []
    else Observed(file, sizes, walk[..|walk| - 1]) + SeenAt(file, sizes, walk[|walk| - 1])
  }

  /** The order checker's view of a walk starts with what it sees of the walk's first event. */
  lemma {:induction false} ObservedCons(file: seq<byte>, sizes: map<EventType, nat>, p: nat, rest: seq<nat>)
    ensures Observed(file, sizes, [p] + rest) == SeenAt(file, sizes, p) + Observed(file, sizes, rest)
    decreases |rest|
  {
    if rest == [] {
      assert ([p] + rest)[..0] == [];
    } else {
      var whole, init, q := [p] + rest, rest[..|rest| - 1], rest[|rest| - 1];
      assert whole[..|whole| - 1] == [p] + init && whole[|whole| - 1] == q;
      ObservedCons(file, sizes, p, init);
    }
  }

  /** Whether the decoder of `event` reads `window` without stopping: the window holds the version's
      record, a pre-frame's port is one of the four slots and a post-frame's character byte names a
      character. Events without a decoder here always pass. */
  predicate RecordReadable(event: EventType, window: seq<byte>, version: Version, players: seq<Player>, t: Tables)
    requires |players| == 4
  {
    match event
    case FrameStart => |window| >= (if version.AtLeast(3, 10, 0) then 12 else 8)
    case PreFrame =>
      && |window| >= 12 && window[4] < 4
      && |window| >= PreFrames.InputsStart(window, players, t) + PreFrames.PreFrameSize(version) - 12
    case PostFrame => |window| >= PostFrames.PostFrameSize(version) && t.characterFromInternal(window[6]).Some?
    case FrameEnd => |window| >= (if version.AtLeast(3, 7, 0) then 8 else 4)
    case Item => |window| >= ItemFrames.ItemFrameSize(version)
    case _ => true
  }

  /** Why the decoder of `event` stops on `window`: a pre-frame port past the four slots once the port
      byte can be read, a post-frame character byte that names no character once the whole record can
      be read, and otherwise a short window. */
  function RecordFailure(event: EventType, window: seq<byte>, version: Version, players: seq<Player>, t: Tables)
    : (f: Failure)
    requires |players| == 4 && !RecordReadable(event, window, version, players, t)
    ensures f == Underflow || f.PortOutOfRange? || f.UnknownInternalCharacter?
  {
    if event == PreFrame && |window| >= 6 && window[4] >= 4 then PortOutOfRange(window[4])
    else if event == PostFrame && |window| >= PostFrames.PostFrameSize(version) then UnknownInternalCharacter(window[6])
    else Underflow
  }

  /** What the decoder of `event` logs for a readable `window`. */
  function RecordLogs(event: EventType, window: seq<byte>, version: Version, players: seq<Player>, t: Tables)
    : seq<Log>
    requires |players| == 4 && RecordReadable(event, window, version, players, t)
  {
    Fired(RecordChecks(event, window, version, players, t))
  }

  /** The checks a readable record's validator runs on its window; frame start and frame end records,
      and events without a decoder here, run none. */
  function RecordChecks(event: EventType, window: seq<byte>, version: Version, players: seq<Player>, t: Tables)
    : seq<(bool, Log)>
    requires |players| == 4 && RecordReadable(event, window, version, players, t)
  {
    match event
    case PreFrame => PreFrames.PreFrameChecksAt(window, players, t)
    case PostFrame => PostFrames.PostFrameChecksAt(window, version, t)
    case Item => ItemFrames.ItemFrameChecksAt(window, t)
    case _ => []
  }

  /** One record of the read loop with the order checker in state `s`: the decoder runs first and may
      stop; then the checker sees the record and may stop; otherwise the record's logs come before the
      checker's, and the checker moves on. */
  function RecordOutcome(event: EventType, window: seq<byte>, version: Version, players: seq<Player>, t: Tables,
                         order: seq<EventType>, s: OrderState): (r: Result<(OrderState, seq<Log>)>)
    requires |players| == 4
    ensures var seen := SeenOf(event, window);
      && (r.Ok? <==> RecordReadable(event, window, version, players, t) && (seen.None? || Step(order, s, seen.value).Ok?))
      && (r.Ok? ==> r.value.0 == if seen.None? then s else Step(order, s, seen.value).value.0)
      && (r.Err? ==> r.error == if RecordReadable(event, window, version, players, t)
                               then Step(order, s, seen.value).error
                               else RecordFailure(event, window, version, players, t))
  {
    if !RecordReadable(event, window, version, players, t) then Err(RecordFailure(event, window, version, players, t))
    else match SeenOf(event, window)
      case None => Ok((s, RecordLogs(event, window, version, players, t)))
      case Some(seen) =>
        match Step(order, s, seen)
        case Err(f) => Err(f)
        case Ok((next, more)) => Ok((next, RecordLogs(event, window, version, players, t) + more))
  }

  /** What one record of the read loop logs when it goes through: the decoder's logs, then the
      checker's for an ordered record. */
  lemma RecordOutcomeLogs(event: EventType, window: seq<byte>, version: Version, players: seq<Player>, t: Tables,
                          order: seq<EventType>, s: OrderState)
    requires |players| == 4
    ensures var r, seen := RecordOutcome(event, window, version, players, t, order, s), SeenOf(event, window);
      r.Ok? ==> r.value.1 == RecordLogs(event, window, version, players, t)
                             + (if seen.None? then [] else Step(order, s, seen.value).value.1)
  {
  }

  /** Decodes one event's payload with its record's decoder, as the arms of the read loop's `match`
      do: what the order checker is to see of the record, and what validating it logged. Events without
      a decoder here are not ordered and log nothing. */
  method DecodeRecord(event: EventType, window: seq<byte>, version: Version, players: seq<Player>, t: Tables)
    returns (r: Result<(Option<Seen>, seq<Log>)>)
    requires |players| == 4
    ensures r.Ok? <==> RecordReadable(event, window, version, players, t)
    ensures r.Ok? ==> r.value == (SeenOf(event, window), RecordLogs(event, window, version, players, t))
    ensures r.Err? ==> r.error == RecordFailure(event, window, version, players, t)
    ensures SeenOf(event, window).None? ==> r == Ok((None, []))
  {
    match event
    case FrameStart =>
      var decoded :- Frames.NewFrameStart(window, version);
      return Ok((Some(SawFrameStart(decoded.record.frameIdx)), decoded.logs));
    case PreFrame =>
      var decoded :- PreFrames.NewPreFrame(window, version, players, t);
      return Ok((Some(SawPreFrame), decoded.logs));
    case PostFrame =>
      var decoded :- PostFrames.NewPostFrame(window, version, t);
      return Ok((Some(SawPostFrame), decoded.logs));
    case FrameEnd =>
      var decoded :- Frames.NewFrameEnd(window, version);
      return Ok((Some(SawFrameEnd), decoded.logs));
    case Item =>
      var decoded :- ItemFrames.NewItemFrame(window, version, t);
      return Ok((Some(SawItem), decoded.logs));
    case _ =>
      return Ok((None, []));
  }

  /** One event of the read loop: its record is decoded first, then shown to the order checker. */
  method HandleEvent(event: EventType, window: seq<byte>, version: Version, players: seq<Player>, t: Tables,
                     tracker: OrderTracker) returns (r: Result<seq<Log>>)
    requires |players| == 4
    modifies tracker
    ensures var outcome := RecordOutcome(event, window, version, players, t, tracker.order, old(tracker.State()));
      && (r.Ok? <==> outcome.Ok?)
      && (r.Ok? ==> r.value == outcome.value.1 && tracker.State() == outcome.value.0)
      && (r.Err? ==> r.error == outcome.error)
  {
    var decoded :- DecodeRecord(event, window, version, players, t);
    var (seen, logs) := decoded;
    if seen.None? {
      return Ok(logs);
    }
    var more :- tracker.Observe(seen.value);
    return Ok(logs + more);
  }

  /** Reading one more event extends the walk by its offset: the rest of the walk is what follows
      its payload, or nothing once it is a game end. */
  lemma FramingStep(file: seq<byte>, sizes: map<EventType, nat>, start: nat, end: nat, walk: seq<nat>, p: nat,
                    next: nat)
    requires p < end && p < |file| && EventOf(file[p]) in sizes && next == p + 1 + sizes[EventOf(file[p])] <= |file|
    requires Framing(file, sizes, start, end) == Prepend(walk, Framing(file, sizes, p, end))
    ensures EventOf(file[p]) == GameEnd ==> Framing(file, sizes, start, end) == Ok(walk + [p])
    ensures EventOf(file[p]) != GameEnd ==>
      Framing(file, sizes, start, end) == Prepend(walk + [p], Framing(file, sizes, next, end))
  {
    var rest := Framing(file, sizes, next, end);
    if EventOf(file[p]) == GameEnd {
      assert Framing(file, sizes, p, end) == Ok([p]);
    } else {
      assert Framing(file, sizes, p, end) == Prepend([p], rest);
      if rest.Ok? {
        assert walk + ([p] + rest.value) == (walk + [p]) + rest.value;
      }
    }
  }

  /** The order checker's view of a walk grows by what it sees of each event added. */
  lemma ObservedSnoc(file: seq<byte>, sizes: map<EventType, nat>, walk: seq<nat>, p: nat)
    requires p < |file|
    ensures var seen := SeenOf(EventOf(file[p]), PayloadAt(file, sizes, p));
      Observed(file, sizes, walk + [p]) == Observed(file, sizes, walk) + (if seen.Some? then [seen.value] else [])
  {
    assert (walk + [p])[..|walk|] == walk;
  }

  /** The order checker's state after a walk, once one more event has been stepped. */
  lemma ObservedStep(file: seq<byte>, sizes: map<EventType, nat>, order: seq<EventType>, walk: seq<nat>, p: nat,
                     before: OrderState, after: OrderState)
    requires p < |file|
    requires Run(order, Initial, Observed(file, sizes, walk)).Ok?
    requires Run(order, Initial, Observed(file, sizes, walk)).value.0 == before
    requires var seen := SeenOf(EventOf(file[p]), PayloadAt(file, sizes, p));
      && (seen.None? ==> after == before)
      && (seen.Some? ==> Step(order, before, seen.value).Ok? && after == Step(order, before, seen.value).value.0)
    ensures Run(order, Initial, Observed(file, sizes, walk + [p])).Ok?
    ensures Run(order, Initial, Observed(file, sizes, walk + [p])).value.0 == after
  {
    ObservedSnoc(file, sizes, walk, p);
    var seen := SeenOf(EventOf(file[p]), PayloadAt(file, sizes, p));
    if seen.Some? {
      RunSnoc(order, Initial, Observed(file, sizes, walk), seen.value);
    } else {
      assert Observed(file, sizes, walk + [p]) == Observed(file, sizes, walk);
    }
  }

  /** The warning the read loop gives for an event code read as `NoEvent`, whether no event has the code
      or the code is 0 itself: the code is logged with its byte. */
  function UnknownLog(code: byte): seq<Log> {
    if EventOf(code) == NoEvent then [UnknownEvent(code)] else []
  }

  /** What the read loop does with the event at offset `p`, the order checker in state `s`. */
  datatype Visit =
    | Stop(logs: seq<Log>, failure: Failure)         // validation stops here
    | Finish                                          // a game end: the loop ends
    | Next(logs: seq<Log>, next: nat, state: OrderState) // go on at `next`, the checker in `state`

  /** One event: a code read as `NoEvent` is logged first; an event the table has no size for, or whose
      payload runs past the file, stops validation; a game end ends the loop; any other event goes
      through its record's decoder and the order checker, and the loop goes on just past its payload. */
  function VisitAt(file: seq<byte>, sizes: map<EventType, nat>, version: Version, players: seq<Player>, t: Tables,
                   order: seq<EventType>, p: nat, s: OrderState): (v: Visit)
    requires |players| == 4 && p < |file|
    ensures v.Next? ==> p < v.next <= |file|
    ensures !v.Finish? && EventOf(file[p]) == NoEvent ==> v.logs != [] && v.logs[0] == UnknownEvent(file[p])
  {
    var e := EventOf(file[p]);
    if e !in sizes then Stop(UnknownLog(file[p]), MissingEventSize(e))
    else if p + 1 + sizes[e] > |file| then Stop(UnknownLog(file[p]), Underflow)
    else if e == GameEnd then Finish
    else
      match RecordOutcome(e, file[p + 1..p + 1 + sizes[e]], version, players, t, order, s)
      case Err(f) => Stop(UnknownLog(file[p]), f)
      case Ok((next, logs)) => Next(UnknownLog(file[p]) + logs, p + 1 + sizes[e], next)
  }

  /** The event code 0 names `NoEvent` itself, and it is warned about like a code no event has: with a
      table entry of size 0 for it, the loop logs it and goes on to the next byte. */
  lemma ZeroCodeWarned(version: Version, players: seq<Player>, t: Tables, order: seq<EventType>, s: OrderState)
    requires |players| == 4
    ensures EventFromRepr(0) == Some(NoEvent)
    ensures VisitAt([0], map[NoEvent := 0], version, players, t, order, 0, s) == Next([UnknownEvent(0)], 1, s)
  {
  }

  /** Where the read loop goes from one event, leaving aside what it logs. */
  datatype Route =
    | Halt(failure: Failure)             // validation stops here
    | Done                               // a game end: the loop ends
    | Go(next: nat, state: OrderState)   // go on at `next`, the checker in `state`

  /** Where the read loop goes from the event at `p`: an event the table has no size for, a payload
      that runs past the file, a record that does not decode and an order the checker refuses all
      stop it; a game end ends it; otherwise it goes on just past the payload. */
  function RouteAt(file: seq<byte>, sizes: map<EventType, nat>, version: Version, players: seq<Player>, t: Tables,
                   order: seq<EventType>, p: nat, s: OrderState): (r: Route)
    requires |players| == 4 && p < |file|
    ensures r.Go? ==> p < r.next <= |file|
  {
    var e := EventOf(file[p]);
    if e !in sizes then Halt(MissingEventSize(e))
    else if p + 1 + sizes[e] > |file| then Halt(Underflow)
    else if e == GameEnd then Done
    else
      var window := file[p + 1..p + 1 + sizes[e]];
      if !RecordReadable(e, window, version, players, t) then Halt(RecordFailure(e, window, version, players, t))
      else match SeenOf(e, window)
        case None => Go(p + 1 + sizes[e], s)
        case Some(seen) =>
          match Step(order, s, seen)
          case Err(f) => Halt(f)
          case Ok((next, _)) => Go(p + 1 + sizes[e], next)
  }

  /** What the read loop does with an event goes where its route says. */
  lemma VisitRoute(file: seq<byte>, sizes: map<EventType, nat>, version: Version, players: seq<Player>, t: Tables,
                   order: seq<EventType>, p: nat, s: OrderState)
    requires |players| == 4 && p < |file|
    ensures var v, r := VisitAt(file, sizes, version, players, t, order, p, s),
                        RouteAt(file, sizes, version, players, t, order, p, s);
      && (v.Stop? <==> r.Halt?) && (v.Stop? ==> v.failure == r.failure)
      && (v.Finish? <==> r.Done?)
      && (v.Next? <==> r.Go?) && (v.Next? ==> v.next == r.next && v.state == r.state)
  {
    var e := EventOf(file[p]);
    if e in sizes && p + 1 + sizes[e] <= |file| {
      assert PayloadAt(file, sizes, p) == file[p + 1..p + 1 + sizes[e]];
    }
  }

  /** The read loop from offset `p` to `end`, with the order checker in state `s` and `done` logged
      so far: everything logged by the end, and the failure that stops the loop, if any. */
  function Walk(file: seq<byte>, sizes: map<EventType, nat>, version: Version, players: seq<Player>, t: Tables,
                order: seq<EventType>, done: seq<Log>, p: nat, end: nat, s: OrderState): (seq<Log>, Option<Failure>)
    requires |players| == 4
    decreases |file| - p
  {
    if p >= end || p >= |file| then (done, None)
    else
      match VisitAt(file, sizes, version, players, t, order, p, s)
      case Stop(logs, f) => (done + logs, Some(f))
      case Finish => (done, None)
      case Next(logs, next, state) => Walk(file, sizes, version, players, t, order, done + logs, next, end, state)
  }

  /** The failure that stops the read loop from offset `p` to `end`, the checker in state `s`, if
      any: the walk's route, leaving aside its logs. */
  function Ends(file: seq<byte>, sizes: map<EventType, nat>, version: Version, players: seq<Player>, t: Tables,
                order: seq<EventType>, p: nat, end: nat, s: OrderState): Option<Failure>
    requires |players| == 4
    decreases |file| - p
  {
    if p >= end || p >= |file| then None
    else
      match RouteAt(file, sizes, version, players, t, order, p, s)
      case Halt(f) => Some(f)
      case Done => None
      case Go(next, state) => Ends(file, sizes, version, players, t, order, next, end, state)
  }

  /** The walk stops with the failure its route ends with, whatever it had logged before. */
  lemma {:induction false} WalkEnds(file: seq<byte>, sizes: map<EventType, nat>, version: Version,
                                    players: seq<Player>, t: Tables, order: seq<EventType>, done: seq<Log>,
                                    p: nat, end: nat, s: OrderState)
    requires |players| == 4
    ensures Walk(file, sizes, version, players, t, order, done, p, end, s).1
      == Ends(file, sizes, version, players, t, order, p, end, s)
    decreases |file| - p
  {
    if p < end && p < |file| {
      VisitRoute(file, sizes, version, players, t, order, p, s);
      var v := VisitAt(file, sizes, version, players, t, order, p, s);
      if v.Next? {
        WalkEnds(file, sizes, version, players, t, order, done + v.logs, v.next, end, v.state);
      }
    }
  }

  /** Every record the walk visits decodes. */
  predicate WalkReadable(file: seq<byte>, sizes: map<EventType, nat>, version: Version, players: seq<Player>,
                         t: Tables, walk: seq<nat>)
    requires |players| == 4
  {
    forall q | q in walk && q < |file| :: RecordReadable(EventOf(file[q]), PayloadAt(file, sizes, q), version, players, t)
  }

  /** The read loop runs to the end exactly when the framing of the events succeeds, every record on
      the way decodes, and the order checker accepts what it sees along the way. */
  lemma {:induction false} WalkSucceeds(file: seq<byte>, sizes: map<EventType, nat>, version: Version,
                                        players: seq<Player>, t: Tables, order: seq<EventType>,
                                        p: nat, end: nat, s: OrderState)
    requires |players| == 4
    ensures Ends(file, sizes, version, players, t, order, p, end, s).None? <==>
      && Framing(file, sizes, p, end).Ok?
      && WalkReadable(file, sizes, version, players, t, Framing(file, sizes, p, end).value)
      && Run(order, s, Observed(file, sizes, Framing(file, sizes, p, end).value)).Ok?
    decreases |file| - p
  {
    if p >= end || p >= |file| {
      return;
    }
    var e := EventOf(file[p]);
    if e !in sizes || p + 1 + sizes[e] > |file| || e == GameEnd {
      if e == GameEnd && e in sizes && p + 1 + sizes[e] <= |file| {
        RunObservedCons(file, sizes, order, s, p, []);
        WalkReadableCons(file, sizes, version, players, t, p, []);
        assert [p] + [] == [p];
      }
      return;
    }
    var r := RouteAt(file, sizes, version, players, t, order, p, s);
    if r.Go? {
      WalkSucceeds(file, sizes, version, players, t, order, r.next, end, r.state);
    }
    WalkSucceedsStep(file, sizes, version, players, t, order, p, end, s);
  }

  /** The step of `WalkSucceeds` past a record that is neither the last nor a game end: the walk from
      `p` succeeds when the record decodes, the checker takes it, and the walk from the next event
      succeeds. */
  lemma WalkSucceedsStep(file: seq<byte>, sizes: map<EventType, nat>, version: Version,
                         players: seq<Player>, t: Tables, order: seq<EventType>, p: nat, end: nat, s: OrderState)
    requires |players| == 4 && p < end && p < |file|
    requires EventOf(file[p]) in sizes && p + 1 + sizes[EventOf(file[p])] <= |file| && EventOf(file[p]) != GameEnd
    requires var r := RouteAt(file, sizes, version, players, t, order, p, s);
      r.Go? ==>
        (Ends(file, sizes, version, players, t, order, r.next, end, r.state).None? <==>
          && Framing(file, sizes, r.next, end).Ok?
          && WalkReadable(file, sizes, version, players, t, Framing(file, sizes, r.next, end).value)
          && Run(order, r.state, Observed(file, sizes, Framing(file, sizes, r.next, end).value)).Ok?)
    ensures Ends(file, sizes, version, players, t, order, p, end, s).None? <==>
      && Framing(file, sizes, p, end).Ok?
      && WalkReadable(file, sizes, version, players, t, Framing(file, sizes, p, end).value)
      && Run(order, s, Observed(file, sizes, Framing(file, sizes, p, end).value)).Ok?
  {
    RouteOn(file, sizes, version, players, t, order, p, s);
    if RouteAt(file, sizes, version, players, t, order, p, s).Halt? {
      WalkHaltStep(file, sizes, version, players, t, order, p, end, s);
    } else {
      WalkGoStep(file, sizes, version, players, t, order, p, end, s);
    }
  }

  /** A record that stops the read loop also breaks the walk's readability or the checker's run. */
  lemma WalkHaltStep(file: seq<byte>, sizes: map<EventType, nat>, version: Version,
                     players: seq<Player>, t: Tables, order: seq<EventType>, p: nat, end: nat, s: OrderState)
    requires |players| == 4 && p < end && p < |file|
    requires EventOf(file[p]) in sizes && p + 1 + sizes[EventOf(file[p])] <= |file| && EventOf(file[p]) != GameEnd
    requires RouteAt(file, sizes, version, players, t, order, p, s).Halt?
    ensures Ends(file, sizes, version, players, t, order, p, end, s).Some?
    ensures !(&& Framing(file, sizes, p, end).Ok?
              && WalkReadable(file, sizes, version, players, t, Framing(file, sizes, p, end).value)
              && Run(order, s, Observed(file, sizes, Framing(file, sizes, p, end).value)).Ok?)
  {
    RouteOn(file, sizes, version, players, t, order, p, s);
    FramingCons(file, sizes, p, end);
    var framed := Framing(file, sizes, p + 1 + sizes[EventOf(file[p])], end);
    if framed.Ok? {
      WalkReadableCons(file, sizes, version, players, t, p, framed.value);
      RunObservedCons(file, sizes, order, s, p, framed.value);
    }
  }

  /** Past a record the read loop goes on from, the walk from `p` succeeds exactly when the walk from
      the next event does, given that the step holds there. */
  lemma WalkGoStep(file: seq<byte>, sizes: map<EventType, nat>, version: Version,
                   players: seq<Player>, t: Tables, order: seq<EventType>, p: nat, end: nat, s: OrderState)
    requires |players| == 4 && p < end && p < |file|
    requires EventOf(file[p]) in sizes && p + 1 + sizes[EventOf(file[p])] <= |file| && EventOf(file[p]) != GameEnd
    requires var r := RouteAt(file, sizes, version, players, t, order, p, s);
      r.Go? &&
        (Ends(file, sizes, version, players, t, order, r.next, end, r.state).None? <==>
          && Framing(file, sizes, r.next, end).Ok?
          && WalkReadable(file, sizes, version, players, t, Framing(file, sizes, r.next, end).value)
          && Run(order, r.state, Observed(file, sizes, Framing(file, sizes, r.next, end).value)).Ok?)
    ensures Ends(file, sizes, version, players, t, order, p, end, s).None? <==>
      && Framing(file, sizes, p, end).Ok?
      && WalkReadable(file, sizes, version, players, t, Framing(file, sizes, p, end).value)
      && Run(order, s, Observed(file, sizes, Framing(file, sizes, p, end).value)).Ok?
  {
    RouteOn(file, sizes, version, players, t, order, p, s);
    var r := RouteAt(file, sizes, version, players, t, order, p, s);
    assert Ends(file, sizes, version, players, t, order, p, end, s)
      == Ends(file, sizes, version, players, t, order, r.next, end, r.state);
    FramingCons(file, sizes, p, end);
    var framed := Framing(file, sizes, r.next, end);
    if framed.Ok? {
      assert Framing(file, sizes, p, end) == Ok([p] + framed.value);
      PassesCons(file, sizes, version, players, t, order, p, s, framed.value);
    } else {
      assert Framing(file, sizes, p, end).Err?;
    }
  }

  /** Past a record the read loop goes on from, a walk that starts with it is readable and accepted by
      the checker exactly when the rest of the walk is, from the state the record leaves the checker in. */
  lemma PassesCons(file: seq<byte>, sizes: map<EventType, nat>, version: Version, players: seq<Player>, t: Tables,
                   order: seq<EventType>, p: nat, s: OrderState, rest: seq<nat>)
    requires |players| == 4 && p < |file| && EventOf(file[p]) in sizes && EventOf(file[p]) != GameEnd
    requires p + 1 + sizes[EventOf(file[p])] <= |file|
    requires RouteAt(file, sizes, version, players, t, order, p, s).Go?
    ensures var state := RouteAt(file, sizes, version, players, t, order, p, s).state;
      (WalkReadable(file, sizes, version, players, t, [p] + rest) && Run(order, s, Observed(file, sizes, [p] + rest)).Ok?)
      <==> (WalkReadable(file, sizes, version, players, t, rest) && Run(order, state, Observed(file, sizes, rest)).Ok?)
  {
    RouteOn(file, sizes, version, players, t, order, p, s);
    WalkReadableCons(file, sizes, version, players, t, p, rest);
    RunObservedCons(file, sizes, order, s, p, rest);
  }

  /** Where the read loop goes from a sized event that is not a game end: on, exactly when its record
      decodes and the checker accepts what it sees, to just past the payload with the checker moved. */
  lemma RouteOn(file: seq<byte>, sizes: map<EventType, nat>, version: Version, players: seq<Player>, t: Tables,
                order: seq<EventType>, p: nat, s: OrderState)
    requires |players| == 4 && p < |file| && EventOf(file[p]) in sizes && EventOf(file[p]) != GameEnd
    requires p + 1 + sizes[EventOf(file[p])] <= |file|
    ensures var e := EventOf(file[p]);
      var r, window := RouteAt(file, sizes, version, players, t, order, p, s), PayloadAt(file, sizes, p);
      var seen := SeenOf(e, window);
      && window == file[p + 1..p + 1 + sizes[e]]
      && !r.Done?
      && (r.Go? <==> RecordReadable(e, window, version, players, t) && (seen.None? || Step(order, s, seen.value).Ok?))
      && (r.Go? ==> r.next == p + 1 + sizes[e] && r.state == if seen.None? then s else Step(order, s, seen.value).value.0)
  {
  }

  /** An event that is neither the last nor a game end is followed by the walk from the next one. */
  lemma FramingCons(file: seq<byte>, sizes: map<EventType, nat>, p: nat, end: nat)
    requires p < end && p < |file| && EventOf(file[p]) in sizes && EventOf(file[p]) != GameEnd
    requires p + 1 + sizes[EventOf(file[p])] <= |file|
    ensures Framing(file, sizes, p, end) == Prepend([p], Framing(file, sizes, p + 1 + sizes[EventOf(file[p])], end))
  {
  }

  /** Every record of a walk that starts at `p` decodes exactly when the record at `p` does and every
      record of the rest does. */
  lemma WalkReadableCons(file: seq<byte>, sizes: map<EventType, nat>, version: Version, players: seq<Player>,
                         t: Tables, p: nat, rest: seq<nat>)
    requires |players| == 4 && p < |file|
    ensures WalkReadable(file, sizes, version, players, t, [p] + rest) <==>
      RecordReadable(EventOf(file[p]), PayloadAt(file, sizes, p), version, players, t)
      && WalkReadable(file, sizes, version, players, t, rest)
  {
    assert p in [p] + rest;
    assert forall q | q in rest :: q in [p] + rest;
  }

  /** The checker accepts what it sees of a walk that starts at `p` exactly when it accepts what it
      sees of the event at `p`, if anything, and then what it sees of the rest. */
  lemma RunObservedCons(file: seq<byte>, sizes: map<EventType, nat>, order: seq<EventType>, s: OrderState, p: nat,
                        rest: seq<nat>)
    requires p < |file|
    ensures var seen := SeenOf(EventOf(file[p]), PayloadAt(file, sizes, p));
      Run(order, s, Observed(file, sizes, [p] + rest)).Ok? <==>
        if seen.None? then Run(order, s, Observed(file, sizes, rest)).Ok?
        else Step(order, s, seen.value).Ok? && Run(order, Step(order, s, seen.value).value.0, Observed(file, sizes, rest)).Ok?
  {
    ObservedCons(file, sizes, p, rest);
    var seen := SeenOf(EventOf(file[p]), PayloadAt(file, sizes, p));
    var tail := Observed(file, sizes, rest);
    if seen.Some? {
      RunConsOk(order, s, seen.value, tail);
    } else {
      assert SeenAt(file, sizes, p) + tail == tail;
    }
  }

  /** The checker accepts a run that starts with `x` exactly when it accepts `x` and then the rest. */
  lemma RunConsOk(order: seq<EventType>, s: OrderState, x: Seen, rest: seq<Seen>)
    ensures Run(order, s, [x] + rest).Ok? <==>
      Step(order, s, x).Ok? && Run(order, Step(order, s, x).value.0, rest).Ok?
  {
    assert ([x] + rest)[0] == x && ([x] + rest)[1..] == rest;
  }

  /** The cases of `VisitAt`, one by one. */
  lemma VisitCases(file: seq<byte>, sizes: map<EventType, nat>, version: Version, players: seq<Player>, t: Tables,
                   order: seq<EventType>, p: nat, s: OrderState)
    requires |players| == 4 && p < |file|
    ensures var e, v := EventOf(file[p]), VisitAt(file, sizes, version, players, t, order, p, s);
      && (e !in sizes ==> v == Stop(UnknownLog(file[p]), MissingEventSize(e)))
      && (e in sizes && p + 1 + sizes[e] > |file| ==> v == Stop(UnknownLog(file[p]), Underflow))
      && (e in sizes && p + 1 + sizes[e] <= |file| && e == GameEnd ==> v == Finish)
      && (e in sizes && p + 1 + sizes[e] <= |file| && e != GameEnd ==>
            var outcome := RecordOutcome(e, file[p + 1..p + 1 + sizes[e]], version, players, t, order, s);
            && (outcome.Err? ==> v == Stop(UnknownLog(file[p]), outcome.error))
            && (outcome.Ok? ==> v == Next(UnknownLog(file[p]) + outcome.value.1, p + 1 + sizes[e], outcome.value.0)))
  {
  }

  /** One pass of the read loop's body: the event code (one read as `NoEvent` is logged), its payload size,
      the record's decoding and ordering, and the skip past the payload. `gameEnd` says whether a game
      end was read before. */
  method ReadEvent(stream: Stream, sizes: map<EventType, nat>, version: Version, players: seq<Player>, t: Tables,
                   tracker: OrderTracker, gameEnd: bool)
    returns (event: EventType, logs: seq<Log>, failure: Option<Failure>)
    requires stream.Valid() && stream.pos < |stream.data| && |players| == 4
    modifies stream, tracker
    ensures stream.Valid()
    ensures event == EventOf(stream.data[old(stream.pos)]) && old(stream.pos) <= stream.pos
    ensures var v := VisitAt(stream.data, sizes, version, players, t, tracker.order, old(stream.pos), old(tracker.State()));
      && (v.Stop? ==> logs == v.logs && failure == Some(v.failure))
      && (v.Finish? ==>
            && event == GameEnd && failure.None? && logs == (if gameEnd then [DuplicateGameEnd] else [])
            && old(stream.pos) < stream.pos)
      && (v.Next? ==> event != GameEnd && failure.None? && logs == v.logs && stream.pos == v.next
                      && tracker.State() == v.state)
  {
    ghost var p, before := stream.pos, tracker.State();
    var window;
    event, logs, failure, window := ReadEventCases(stream, sizes, version, players, t, tracker, gameEnd);
    VisitJoin(stream.data, sizes, version, players, t, tracker.order, p, before, gameEnd,
              event, window, logs, failure, stream.pos, tracker.State());
  }

  /** The cases of `ReadEventCases` are the visit of the event: a failure where the visit stops, the
      game end where it finishes, and the next position and checker state where it goes on. */
  lemma VisitJoin(file: seq<byte>, sizes: map<EventType, nat>, version: Version, players: seq<Player>, t: Tables,
                  order: seq<EventType>, p: nat, s: OrderState, gameEnd: bool,
                  event: EventType, window: seq<byte>, logs: seq<Log>, failure: Option<Failure>, pos: nat,
                  state: OrderState)
    requires |players| == 4 && p < |file| && event == EventOf(file[p])
    requires event !in sizes ==> logs == UnknownLog(file[p]) && failure == Some(MissingEventSize(event))
    requires event in sizes && p + 1 + sizes[event] > |file| ==> logs == UnknownLog(file[p]) && failure == Some(Underflow)
    requires event in sizes && p + 1 + sizes[event] <= |file| && event == GameEnd ==>
      failure.None? && logs == (if gameEnd then [DuplicateGameEnd] else []) && p < pos
    requires event in sizes && p + 1 + sizes[event] <= |file| && event != GameEnd ==>
      var outcome := RecordOutcome(event, window, version, players, t, order, s);
      && window == file[p + 1..p + 1 + sizes[event]]
      && (outcome.Err? ==> logs == UnknownLog(file[p]) && failure == Some(outcome.error))
      && (outcome.Ok? ==> failure.None? && logs == UnknownLog(file[p]) + outcome.value.1
                          && pos == p + 1 + sizes[event] && state == outcome.value.0)
    ensures var v := VisitAt(file, sizes, version, players, t, order, p, s);
      && (v.Stop? ==> logs == v.logs && failure == Some(v.failure))
      && (v.Finish? ==> event == GameEnd && failure.None? && logs == (if gameEnd then [DuplicateGameEnd] else []) && p < pos)
      && (v.Next? ==> event != GameEnd && failure.None? && logs == v.logs && pos == v.next && state == v.state)
  {
    if event in sizes && p + 1 + sizes[event] <= |file| && event != GameEnd {
      VisitJoinRecord(file, sizes, version, players, t, order, p, s, window, logs, failure, pos, state);
    } else {
      VisitCases(file, sizes, version, players, t, order, p, s);
    }
  }

  /** `VisitJoin` for an event whose record is decoded: the decoder's or the checker's failure where the
      visit stops, and the next position and checker state where it goes on. */
  lemma VisitJoinRecord(file: seq<byte>, sizes: map<EventType, nat>, version: Version, players: seq<Player>,
                        t: Tables, order: seq<EventType>, p: nat, s: OrderState, window: seq<byte>,
                        logs: seq<Log>, failure: Option<Failure>, pos: nat, state: OrderState)
    requires |players| == 4 && p < |file| && EventOf(file[p]) in sizes && EventOf(file[p]) != GameEnd
    requires p + 1 + sizes[EventOf(file[p])] <= |file| && window == file[p + 1..p + 1 + sizes[EventOf(file[p])]]
    requires var outcome := RecordOutcome(EventOf(file[p]), window, version, players, t, order, s);
      && (outcome.Err? ==> logs == UnknownLog(file[p]) && failure == Some(outcome.error))
      && (outcome.Ok? ==> failure.None? && logs == UnknownLog(file[p]) + outcome.value.1
                          && pos == p + 1 + sizes[EventOf(file[p])] && state == outcome.value.0)
    ensures var v := VisitAt(file, sizes, version, players, t, order, p, s);
      && !v.Finish?
      && (v.Stop? ==> logs == v.logs && failure == Some(v.failure))
      && (v.Next? ==> failure.None? && logs == v.logs && pos == v.next && state == v.state)
  {
  }

  /** `ReadEvent` case by case: a missing size, a payload past the end, a game end, and a record that
      the decoder and the checker take or refuse. Also gives the payload it read. */
  method ReadEventCases(stream: Stream, sizes: map<EventType, nat>, version: Version, players: seq<Player>,
                        t: Tables, tracker: OrderTracker, gameEnd: bool)
    returns (event: EventType, logs: seq<Log>, failure: Option<Failure>, window: seq<byte>)
    requires stream.Valid() && stream.pos < |stream.data| && |players| == 4
    modifies stream, tracker
    ensures stream.Valid()
    ensures var file, p := stream.data, old(stream.pos);
      && event == EventOf(file[p]) && p <= stream.pos
      && (event !in sizes ==> logs == UnknownLog(file[p]) && failure == Some(MissingEventSize(event)))
      && (event in sizes && p + 1 + sizes[event] > |file| ==> logs == UnknownLog(file[p]) && failure == Some(Underflow))
      && (event in sizes && p + 1 + sizes[event] <= |file| && event == GameEnd ==>
            failure.None? && logs == (if gameEnd then [DuplicateGameEnd] else []) && p < stream.pos)
      && (event in sizes && p + 1 + sizes[event] <= |file| && event != GameEnd ==>
            var outcome := RecordOutcome(event, window, version, players, t, tracker.order, old(tracker.State()));
            && window == file[p + 1..p + 1 + sizes[event]]
            && (outcome.Err? ==> logs == UnknownLog(file[p]) && failure == Some(outcome.error))
            && (outcome.Ok? ==> failure.None? && logs == UnknownLog(file[p]) + outcome.value.1
                                && stream.pos == p + 1 + sizes[event] && tracker.State() == outcome.value.0))
  {
    var code := stream.GetU8();
    event := EventOf(code.value);
    logs := UnknownLog(code.value);
    if event !in sizes {
      return event, logs, Some(MissingEventSize(event)), [];
    }
    var payload := stream.Peek(sizes[event]);
    if payload.Err? {
      return event, logs, Some(Underflow), [];
    }
    window := payload.value;
    if event == GameEnd {
      logs := if gameEnd then [DuplicateGameEnd] else [];
      var skipped := stream.Advance(sizes[event]);
      return event, logs, None, window;
    }
    var more;
    more, failure := ReadRecord(stream, event, window, version, players, t, tracker);
    logs := logs + more;
  }

  /** Decodes and orders the record whose payload `window` starts at the read position, then skips past
      it; on a failure the position is left where it was. */
  method ReadRecord(stream: Stream, event: EventType, window: seq<byte>, version: Version, players: seq<Player>,
                    t: Tables, tracker: OrderTracker)
    returns (logs: seq<Log>, failure: Option<Failure>)
    requires stream.Valid() && stream.pos + |window| <= |stream.data| && |players| == 4
    modifies stream, tracker
    ensures stream.Valid()
    ensures var outcome := RecordOutcome(event, window, version, players, t, tracker.order, old(tracker.State()));
      && (failure.None? <==> outcome.Ok?)
      && (outcome.Ok? ==> logs == outcome.value.1 && tracker.State() == outcome.value.0
                          && stream.pos == old(stream.pos) + |window|)
      && (outcome.Err? ==> logs == [] && failure == Some(outcome.error) && stream.pos == old(stream.pos))
  {
    var handled := HandleEvent(event, window, version, players, t, tracker);
    if handled.Err? {
      return [], Some(handled.error);
    }
    var skipped := stream.Advance(|window|);
    return handled.value, None;
  }

  /** The read loop runs from `eventsAt` to `end` without stopping: the events are framed by the table,
      every record on the way decodes, and the order checker, from its initial state, accepts them. */
  predicate EventsPass(file: seq<byte>, sizes: map<EventType, nat>, version: Version, players: seq<Player>,
                       t: Tables, eventsAt: nat, end: nat)
    requires |players| == 4
  {
    && Framing(file, sizes, eventsAt, end).Ok?
    && WalkReadable(file, sizes, version, players, t, Framing(file, sizes, eventsAt, end).value)
    && Run(ExpectedOrder(players), Initial, Observed(file, sizes, Framing(file, sizes, eventsAt, end).value)).Ok?
  }

  /** The read loop of `validate_game`, from the first event after the game start: while the position
      is before the metadata block, no game end has been read and bytes remain, it reads one event.
      Validation stops at the first failure. */
  method CheckEvents(file: seq<byte>, rawLength: nat, sizes: map<EventType, nat>, eventsAt: nat,
                     version: Version, players: seq<Player>, t: Tables)
    returns (logs: seq<Log>, failure: Option<Failure>, ghost walk: seq<nat>)
    requires eventsAt <= |file| && |players| == 4
    ensures (logs, failure) == Walk(file, sizes, version, players, t, ExpectedOrder(players), [], eventsAt, rawLength, Initial)
    ensures failure.None? ==> Framing(file, sizes, eventsAt, rawLength) == Ok(walk)
    ensures failure.None? ==> Run(ExpectedOrder(players), Initial, Observed(file, sizes, walk)).Ok?
    ensures failure.None? <==> EventsPass(file, sizes, version, players, t, eventsAt, rawLength)
    ensures failure.None? ==>
      forall q | q in walk && q < |file| && EventOf(file[q]) == NoEvent :: UnknownEvent(file[q]) in logs
  {
    var order := BuildOrder(players);
    var tracker := new OrderTracker(order);
    var stream := new Stream(file);
    stream.pos := eventsAt;
    var event := NoEvent;
    var gameEnd := false;
    logs, failure := [], None;
    ghost var whole := Walk(file, sizes, version, players, t, order, [], eventsAt, rawLength, Initial);
    while failure.None? && stream.pos < rawLength && event != GameEnd && stream.pos < |stream.data|
      invariant stream.Valid() && stream.data == file && eventsAt <= stream.pos
      invariant tracker.order == order
      invariant gameEnd <==> event == GameEnd
      invariant failure.Some? || event == GameEnd ==> whole == (logs, failure)
      invariant failure.None? && event != GameEnd ==>
        whole == Walk(file, sizes, version, players, t, order, logs, stream.pos, rawLength, tracker.State())
      decreases failure.None?, |file| - stream.pos
    {
      var more;
      event, more, failure := ReadEvent(stream, sizes, version, players, t, tracker, gameEnd);
      assert logs + [] == logs;
      logs := logs + more;
      if event == GameEnd {
        gameEnd := true;
      }
    }
    WalkEnds(file, sizes, version, players, t, order, [], eventsAt, rawLength, Initial);
    WalkSucceeds(file, sizes, version, players, t, order, eventsAt, rawLength, Initial);
    if failure.None? {
      walk := Framing(file, sizes, eventsAt, rawLength).value;
      forall q | q in walk && q < |file| && EventOf(file[q]) == NoEvent
        ensures UnknownEvent(file[q]) in logs
      {
        WalkLogsUnknown(file, sizes, version, players, t, order, [], eventsAt, rawLength, Initial, q);
      }
    } else {
      walk := [];
    }
  }

  /** What was logged before the walk stays logged: the walk only appends. */
  lemma {:induction false} WalkKeepsDone(file: seq<byte>, sizes: map<EventType, nat>, version: Version,
                                         players: seq<Player>, t: Tables, order: seq<EventType>, done: seq<Log>,
                                         p: nat, end: nat, s: OrderState)
    requires |players| == 4
    ensures forall x | x in done :: x in Walk(file, sizes, version, players, t, order, done, p, end, s).0
    decreases |file| - p
  {
    if p >= end || p >= |file| {
      return;
    }
    var v := VisitAt(file, sizes, version, players, t, order, p, s);
    if v.Next? {
      WalkKeepsDone(file, sizes, version, players, t, order, done + v.logs, v.next, end, v.state);
      assert forall x | x in done :: x in done + v.logs;
    } else if v.Stop? {
      assert forall x | x in done :: x in done + v.logs;
    }
  }

  /** Past an event whose route goes on, the walk is the walk from the next event, the event's logs
      added to what was logged. */
  lemma WalkGoesOn(file: seq<byte>, sizes: map<EventType, nat>, version: Version, players: seq<Player>,
                   t: Tables, order: seq<EventType>, done: seq<Log>, p: nat, end: nat, s: OrderState)
    returns (v: Visit)
    requires |players| == 4 && p < end && p < |file|
    requires RouteAt(file, sizes, version, players, t, order, p, s).Go?
    ensures v == VisitAt(file, sizes, version, players, t, order, p, s) && v.Next?
    ensures v.next == RouteAt(file, sizes, version, players, t, order, p, s).next
    ensures v.state == RouteAt(file, sizes, version, players, t, order, p, s).state
    ensures Walk(file, sizes, version, players, t, order, done, p, end, s)
      == Walk(file, sizes, version, players, t, order, done + v.logs, v.next, end, v.state)
    ensures Ends(file, sizes, version, players, t, order, p, end, s)
      == Ends(file, sizes, version, players, t, order, v.next, end, v.state)
  {
    VisitRoute(file, sizes, version, players, t, order, p, s);
    v := VisitAt(file, sizes, version, players, t, order, p, s);
  }

  /** Past an event that is not a game end, a walk that runs to the end goes on to the next event. */
  lemma WalkContinues(file: seq<byte>, sizes: map<EventType, nat>, version: Version, players: seq<Player>,
                      t: Tables, order: seq<EventType>, done: seq<Log>, p: nat, end: nat, s: OrderState)
    returns (v: Visit)
    requires |players| == 4 && p < end && p < |file| && EventOf(file[p]) != GameEnd
    requires Ends(file, sizes, version, players, t, order, p, end, s).None?
    ensures v == VisitAt(file, sizes, version, players, t, order, p, s) && v.Next?
    ensures EventOf(file[p]) in sizes && v.next == p + 1 + sizes[EventOf(file[p])]
    ensures Walk(file, sizes, version, players, t, order, done, p, end, s)
      == Walk(file, sizes, version, players, t, order, done + v.logs, v.next, end, v.state)
    ensures Ends(file, sizes, version, players, t, order, v.next, end, v.state).None?
  {
    assert RouteAt(file, sizes, version, players, t, order, p, s).Go?;
    v := WalkGoesOn(file, sizes, version, players, t, order, done, p, end, s);
  }

  /** An offset of a framed walk past its first event, which is not a game end, is an offset of the walk
      from the next event. */
  lemma FramingTail(file: seq<byte>, sizes: map<EventType, nat>, p: nat, end: nat, q: nat) returns (next: nat)
    requires p < end && p < |file| && EventOf(file[p]) != GameEnd
    requires Framing(file, sizes, p, end).Ok? && q in Framing(file, sizes, p, end).value
    ensures EventOf(file[p]) in sizes && next == p + 1 + sizes[EventOf(file[p])] <= |file|
    ensures Framing(file, sizes, next, end).Ok?
    ensures q != p ==> q in Framing(file, sizes, next, end).value
  {
    next := p + 1 + sizes[EventOf(file[p])];
    assert Framing(file, sizes, p, end).value == [p] + Framing(file, sizes, next, end).value;
  }

  /** A walk that runs to the end, from an event code read as `NoEvent`, logs that code. */
  lemma UnknownLoggedFirst(file: seq<byte>, sizes: map<EventType, nat>, version: Version,
                           players: seq<Player>, t: Tables, order: seq<EventType>, done: seq<Log>,
                           p: nat, end: nat, s: OrderState)
    requires |players| == 4 && p < end && p < |file| && EventOf(file[p]) == NoEvent
    requires Ends(file, sizes, version, players, t, order, p, end, s).None?
    ensures UnknownEvent(file[p]) in Walk(file, sizes, version, players, t, order, done, p, end, s).0
  {
    var v := WalkContinues(file, sizes, version, players, t, order, done, p, end, s);
    WalkKeepsDone(file, sizes, version, players, t, order, done + v.logs, v.next, end, v.state);
    assert UnknownEvent(file[p]) in done + v.logs;
  }

  /** A walk that runs to the end logs the code of every event on it that reads as `NoEvent`. */
  lemma {:induction false} WalkLogsUnknown(file: seq<byte>, sizes: map<EventType, nat>, version: Version,
                                           players: seq<Player>, t: Tables, order: seq<EventType>, done: seq<Log>,
                                           p: nat, end: nat, s: OrderState, q: nat)
    requires |players| == 4
    requires Ends(file, sizes, version, players, t, order, p, end, s).None?
    requires Framing(file, sizes, p, end).Ok? && q in Framing(file, sizes, p, end).value
    requires q < |file| && EventOf(file[q]) == NoEvent
    ensures UnknownEvent(file[q]) in Walk(file, sizes, version, players, t, order, done, p, end, s).0
    decreases |file| - p, 1
  {
    if p < end && p < |file| && EventOf(file[p]) != GameEnd {
      if q == p {
        UnknownLoggedFirst(file, sizes, version, players, t, order, done, p, end, s);
      } else {
        WalkLogsUnknownRest(file, sizes, version, players, t, order, done, p, end, s, q);
      }
    }
  }

  /** The step of `WalkLogsUnknown` for an event past the first: it is logged by the walk from the next
      event. */
  lemma {:induction false} WalkLogsUnknownRest(file: seq<byte>, sizes: map<EventType, nat>, version: Version,
                                               players: seq<Player>, t: Tables, order: seq<EventType>,
                                               done: seq<Log>, p: nat, end: nat, s: OrderState, q: nat)
    requires |players| == 4 && p < end && p < |file| && EventOf(file[p]) != GameEnd && q != p
    requires Ends(file, sizes, version, players, t, order, p, end, s).None?
    requires Framing(file, sizes, p, end).Ok? && q in Framing(file, sizes, p, end).value
    requires q < |file| && EventOf(file[q]) == NoEvent
    ensures UnknownEvent(file[q]) in Walk(file, sizes, version, players, t, order, done, p, end, s).0
    decreases |file| - p, 0
  {
    var next := FramingTail(file, sizes, p, end, q);
    var v := WalkContinues(file, sizes, version, players, t, order, done, p, end, s);
    assert v.next == next;
    WalkLogsUnknown(file, sizes, version, players, t, order, done + v.logs, next, end, v.state, q);
  }

  /** What validating one file reports: everything logged, and the failure that stopped it, if any. */
  datatype Report = Report(logs: seq<Log>, failure: Option<Failure>)

  /** `validate_game` on the bytes of one file, its metadata document standing as `meta`. A file whose
      preamble cannot be read fails with the preamble's failure and logs nothing; otherwise the report
      holds the game start's warnings followed by everything the read loop logs, and the loop's
      failure. A file passes exactly when its preamble reads and its events run to the end. */
  method ValidateGame(file: seq<byte>, meta: Option<LastFrame>, t: Tables) returns (report: Report, ghost walk: seq<nat>)
    ensures |file| < 11 ==> report == Report([], Some(Underflow))
    ensures 11 <= |file| && file[..11] != SlippiHeader ==> report == Report([], Some(UnexpectedBytes))
    ensures !PreambleReadable(file, meta, t) ==>
      report.logs == [] && report.failure.Some? && report.failure.value == PreambleFailure(file, meta, t)
    ensures PreambleReadable(file, meta, t) ==>
      var pre := PreambleOf(file, meta, t);
      var players := pre.start.players;
      var (logs, failure) := Walk(file, pre.sizes, pre.start.version, players, t, ExpectedOrder(players), [],
                                  pre.eventsAt, pre.rawLength, Initial);
      report == Report(pre.startLogs + logs, failure)
    ensures report.failure.None? <==>
      && PreambleReadable(file, meta, t)
      && var pre := PreambleOf(file, meta, t);
      && EventsPass(file, pre.sizes, pre.start.version, pre.start.players, t, pre.eventsAt, pre.rawLength)
    ensures report.failure.None? ==>
      && 15 <= |file| && file[..11] == SlippiHeader && EventSizes(file[15..]).Ok?
      && var sizes := EventSizes(file[15..]).value.0;
      && var gameStartAt := 15 + EventSizes(file[15..]).value.1;
      && GameStart in sizes && gameStartAt + 1 + sizes[GameStart] <= |file|
      && var eventsAt := gameStartAt + 1 + sizes[GameStart];
      && Framing(file, sizes, eventsAt, RawLength(file)) == Ok(walk)
      && GameStarts.StartReadable(file[gameStartAt + 1..eventsAt], t)
      && var window := file[gameStartAt + 1..eventsAt];
      && var players := GameStarts.PlayersAt(window, GameStarts.VersionAt(window), t);
      && Run(ExpectedOrder(players), Initial, Observed(file, sizes, walk)).Ok?
  {
    var pre := ReadPreamble(file, meta, t);
    if pre.Err? {
      return Report([], Some(pre.error)), [];
    }
    var p := pre.value;
    var logs, failure;
    logs, failure, walk := CheckEvents(file, p.rawLength, p.sizes, p.eventsAt, p.start.version, p.start.players, t);
    ghost var gameStartAt := 15 + EventSizes(file[15..]).value.1;
    assert p.startPayload == file[gameStartAt + 1..p.eventsAt];
    assert p.start.players == GameStarts.PlayersAt(p.startPayload, GameStarts.VersionAt(p.startPayload), t);
    assert failure.None? ==> Run(ExpectedOrder(p.start.players), Initial, Observed(file, p.sizes, walk)).Ok?;
    return Report(p.startLogs + logs, failure), walk;
  }
}
