/** The order in which one frame's events are expected, and the checker that follows the event stream
    along that order. The order holds event kinds only: it says nothing about ports or followers. */
module EventOrder {
  import opened Common
  import opened Bytes
  import opened Melee
  import opened Players

  // ---------------------------------------------------------------------------------------------
  // The expected order

  /** The events one player contributes to a block: one for a human or CPU player, two for Ice
      Climbers (the leader and the follower), none for an empty or demo port. */
  function PlayerEvents(p: Player, e: EventType): seq<EventType> {
    if !IsActive(p.kind) then []
    else if p.character == IceClimbers then [e, e]
    else [e]
  }

  /** One block of the order as far as the first `n` players: their events, in port order. */
  function Block(players: seq<Player>, n: nat, e: EventType): seq<EventType>
    requires n <= |players|
  {
    if n == 0 then [] else Block(players, n - 1, e) + PlayerEvents(players[n - 1], e)
  }

  /** How many of the first `n` players are human or CPU players. */
  function Active(players: seq<Player>, n: nat): nat
    requires n <= |players|
  {
    if n == 0 then 0 else Active(players, n - 1) + (if IsActive(players[n - 1].kind) then 1 else 0)
  }

  /** How many of those play Ice Climbers. */
  function ActiveIceClimbers(players: seq<Player>, n: nat): nat
    requires n <= |players|
  {
    if n == 0 then 0
    else
      ActiveIceClimbers(players, n - 1)
      + (if IsActive(players[n - 1].kind) && players[n - 1].character == IceClimbers then 1 else 0)
  }

  /** The number of slots in each block: one per active player, one more per Ice Climbers. */
  function Width(players: seq<Player>): nat {
    Active(players, |players|) + ActiveIceClimbers(players, |players|)
  }

  /** The expected order of one frame: frame start, the pre-frame block, the item slot, the
      post-frame block, frame end. */
  function ExpectedOrder(players: seq<Player>): seq<EventType> {
    [FrameStart] + Block(players, |players|, PreFrame) + [Item] + Block(players, |players|, PostFrame) + [FrameEnd]
  }

  /** A block holds only its own event, one per active player plus one more per Ice Climbers. */
  lemma {:induction false} BlockShape(players: seq<Player>, n: nat, e: EventType)
    requires n <= |players|
    ensures |Block(players, n, e)| == Active(players, n) + ActiveIceClimbers(players, n)
    ensures forall i | 0 <= i < |Block(players, n, e)| :: Block(players, n, e)[i] == e
  {
    if n > 0 {
      BlockShape(players, n - 1, e);
    }
  }

  /** Every slot from `lo` up to `hi` holds `e`. */
  ghost predicate Slots(order: seq<EventType>, lo: nat, hi: nat, e: EventType) {
    forall i | lo <= i < hi && i < |order| :: order[i] == e
  }

  /** The shape of the expected order: its length is 3 + 2 * (active + active Ice Climbers); frame
      start opens it and appears nowhere else; the pre-frame slots, the item slot, the post-frame
      slots and frame end follow in that order. */
  lemma {:induction false} OrderShape(players: seq<Player>)
    ensures var o, n := ExpectedOrder(players), Width(players);
      && |o| == 3 + 2 * n
      && o[0] == FrameStart
      && Slots(o, 1, n + 1, PreFrame)
      && o[n + 1] == Item
      && Slots(o, n + 2, 2 * n + 2, PostFrame)
      && o[2 * n + 2] == FrameEnd
      && (forall i | 0 < i < |o| :: o[i] != FrameStart)
  {
    BlockShape(players, |players|, PreFrame);
    BlockShape(players, |players|, PostFrame);
    var o, n := ExpectedOrder(players), Width(players);
    var pre, post := Block(players, |players|, PreFrame), Block(players, |players|, PostFrame);
    assert o == [FrameStart] + pre + [Item] + post + [FrameEnd];
    forall i | 1 <= i <= n
      ensures o[i] == PreFrame
    {
      assert o[i] == pre[i - 1];
    }
    forall i | n + 2 <= i < 2 * n + 2
      ensures o[i] == PostFrame
    {
      assert o[i] == post[i - n - 2];
    }
  }

  /** Appends one block, player by player, as the original pushes onto its vector. */
  method PushBlock(order: seq<EventType>, players: seq<Player>, e: EventType) returns (order': seq<EventType>)
    ensures order' == order + Block(players, |players|, e)
  {
    order' := order;
    for i := 0 to |players|
      invariant order' == order + Block(players, i, e)
    {
      order' := PushPlayer(order', players[i], e);
    }
  }

  /** Pushes one player's events: one for a human or CPU player, a second for Ice Climbers. */
  method PushPlayer(order: seq<EventType>, p: Player, e: EventType) returns (order': seq<EventType>)
    ensures order' == order + PlayerEvents(p, e)
  {
    order' := order;
    if IsActive(p.kind) {
      order' := order' + [e];
      if p.character == IceClimbers {
        order' := order' + [e];
      }
    }
  }

  /** Builds the expected order: frame start, the pre-frame block, the item slot, the post-frame block,
      frame end. */
  method BuildOrder(players: seq<Player>) returns (order: seq<EventType>)
    ensures order == ExpectedOrder(players)
  {
    order := PushBlock([FrameStart], players, PreFrame);
    order := order + [Item];
    order := PushBlock(order, players, PostFrame);
    order := order + [FrameEnd];
  }

  // ---------------------------------------------------------------------------------------------
  // The ordering checker

  /** What the checker carries from one event to the next: the position in the expected order, whether
      it is waiting for the next frame start to resynchronise, and the previous frame index. */
  datatype OrderState = OrderState(cursor: nat, needSync: bool, prevFrame: int)

  /** Before the first event: at the start of the order, in sync, and with a previous frame index of
      -123, the index of the first frame of every replay. */
  const Initial: OrderState := OrderState(0, false, -123)

  /** The events the checker looks at; a frame start carries its decoded frame index. Every other
      event kind leaves the checker alone. */
  datatype Seen = SawFrameStart(frameIdx: int) | SawPreFrame | SawPostFrame | SawFrameEnd | SawItem

  /** The kind of event each observation stands for. */
  function KindOf(e: Seen): EventType {
    match e
    case SawFrameStart(_) => FrameStart
    case SawPreFrame => PreFrame
    case SawPostFrame => PostFrame
    case SawFrameEnd => FrameEnd
    case SawItem => Item
  }

  /** A frame start. The expected slot is read whatever the sync flag says (to name it in the error
      message), so a cursor past the end stops validation. Out of sync or at a slot other than frame
      start, the mismatch is logged and the cursor restarts; then the frame delta is checked (an i32
      subtraction, which stops validation when it overflows) and the cursor moves on by one. */
  function FrameStartStep(order: seq<EventType>, s: OrderState, f: int): Result<(OrderState, seq<Log>)> {
    if s.cursor >= |order| then Err(OrderIndexOutOfRange)
    else if !InI32(f - s.prevFrame) then Err(FrameDeltaOverflow)
    else
      var resync := s.needSync || order[s.cursor] != FrameStart;
      var delta := f - s.prevFrame;
      Ok((OrderState((if resync then 0 else s.cursor) + 1, false, f),
          (if resync then [OrderMismatch(order[s.cursor], FrameStart)] else [])
          + (if delta > 1 || delta < -10 then [FrameIrregular(s.prevFrame, f)] else [])
          + (if f < s.prevFrame then [Rollback(s.prevFrame, f)] else [])))
  }

  /** A pre-frame: checked only when in sync; a mismatch sets the sync flag. The cursor always moves
      on by one. */
  function PreFrameStep(order: seq<EventType>, s: OrderState): Result<(OrderState, seq<Log>)> {
    if s.needSync then Ok((s.(cursor := s.cursor + 1), []))
    else if s.cursor >= |order| then Err(OrderIndexOutOfRange)
    else if order[s.cursor] != PreFrame then
      Ok((OrderState(s.cursor + 1, true, s.prevFrame), [OrderMismatch(order[s.cursor], PreFrame)]))
    else Ok((s.(cursor := s.cursor + 1), []))
  }

  /** A post-frame: the item slot also accepts it (item records may be absent). The slot is read even
      out of sync, to decide the move: two past the item slot, one otherwise. */
  function PostFrameStep(order: seq<EventType>, s: OrderState): Result<(OrderState, seq<Log>)> {
    if s.cursor >= |order| then Err(OrderIndexOutOfRange)
    else
      var slot := order[s.cursor];
      var mismatch := !s.needSync && slot != PostFrame && slot != Item;
      Ok((OrderState(s.cursor + (if slot == Item then 2 else 1), s.needSync || mismatch, s.prevFrame),
          if mismatch then [OrderMismatch(slot, PostFrame)] else []))
  }

  /** A frame end: checked only when in sync; the cursor always goes back to the start. */
  function FrameEndStep(order: seq<EventType>, s: OrderState): Result<(OrderState, seq<Log>)> {
    if s.needSync then Ok((s.(cursor := 0), []))
    else if s.cursor >= |order| then Err(OrderIndexOutOfRange)
    else if order[s.cursor] != FrameEnd then
      Ok((OrderState(0, true, s.prevFrame), [OrderMismatch(order[s.cursor], FrameEnd)]))
    else Ok((s.(cursor := 0), []))
  }

  /** An item: checked only when in sync; the cursor never moves, since a frame may carry any number
      of item records. */
  function ItemStep(order: seq<EventType>, s: OrderState): Result<(OrderState, seq<Log>)> {
    if s.needSync then Ok((s, []))
    else if s.cursor >= |order| then Err(OrderIndexOutOfRange)
    else if order[s.cursor] != Item then
      Ok((s.(needSync := true), [OrderMismatch(order[s.cursor], Item)]))
    else Ok((s, []))
  }

  /** One event's effect on the checker: the new state and what it logs, or why validation stops. */
  function Step(order: seq<EventType>, s: OrderState, e: Seen): Result<(OrderState, seq<Log>)> {
    match e
    case SawFrameStart(f) => FrameStartStep(order, s, f)
    case SawPreFrame => PreFrameStep(order, s)
    case SawPostFrame => PostFrameStep(order, s)
    case SawFrameEnd => FrameEndStep(order, s)
    case SawItem => ItemStep(order, s)
  }

  /** The checker over a run of events: the final state and every log in order, or the first reason
      to stop. */
  function Run(order: seq<EventType>, s: OrderState, es: seq<Seen>): Result<(OrderState, seq<Log>)>
    decreases |es|
  {
    if es == [] then Ok((s, []))
    else
      match Step(order, s, es[0])
      case Err(f) => Err(f)
      case Ok((next, logs)) =>
        match Run(order, next, es[1..])
        case Err(f) => Err(f)
        case Ok((last, more)) => Ok((last, logs + more))
  }

  /** The checker's mutable state, as the original keeps it in local variables of its read loop. */
  class OrderTracker {
    const order: seq<EventType>
    var cursor: nat
    var needSync: bool
    var prevFrame: int

    function State(): OrderState
      reads this
    {
      OrderState(cursor, needSync, prevFrame)
    }

    constructor (order: seq<EventType>)
      ensures this.order == order && State() == Initial
    {
      this.order := order;
      cursor := 0;
      needSync := false;
      prevFrame := -123;
    }

    /** Feeds one event to the checker. */
    method Observe(e: Seen) returns (r: Result<seq<Log>>)
      modifies this
      ensures var step := Step(order, old(State()), e);
        && (r.Ok? <==> step.Ok?)
        && (r.Ok? ==> State() == step.value.0 && r.value == step.value.1)
        && (r.Err? ==> r.error == step.error)
    {
      match e
      case SawFrameStart(frameIdx) =>
        if cursor >= |order| {
          return Err(OrderIndexOutOfRange);
        }
        var logs := [];
        var oldFrame := prevFrame;
        if needSync || order[cursor] != FrameStart {
          logs := [OrderMismatch(order[cursor], FrameStart)];
          cursor := 0;
          needSync := false;
        }
        var delta := frameIdx - oldFrame;
        if !InI32(delta) {
          return Err(FrameDeltaOverflow);
        }
        if delta > 1 || delta < -10 {
          logs := logs + [FrameIrregular(oldFrame, frameIdx)];
        }
        if frameIdx < oldFrame {
          logs := logs + [Rollback(oldFrame, frameIdx)];
        }
        prevFrame := frameIdx;
        cursor := cursor + 1;
        return Ok(logs);
      case SawPreFrame =>
        var logs := [];
        if !needSync {
          if cursor >= |order| {
            return Err(OrderIndexOutOfRange);
          }
          if order[cursor] != PreFrame {
            needSync := true;
            logs := [OrderMismatch(order[cursor], PreFrame)];
          }
        }
        cursor := cursor + 1;
        return Ok(logs);
      case SawPostFrame =>
        if cursor >= |order| {
          return Err(OrderIndexOutOfRange);
        }
        var logs := [];
        if !needSync && order[cursor] != PostFrame && order[cursor] != Item {
          needSync := true;
          logs := [OrderMismatch(order[cursor], PostFrame)];
        }
        if order[cursor] == Item {
          cursor := cursor + 2;
        } else {
          cursor := cursor + 1;
        }
        return Ok(logs);
      case SawFrameEnd =>
        var logs := [];
        if !needSync {
          if cursor >= |order| {
            return Err(OrderIndexOutOfRange);
          }
          if order[cursor] != FrameEnd {
            needSync := true;
            logs := [OrderMismatch(order[cursor], FrameEnd)];
          }
        }
        cursor := 0;
        return Ok(logs);
      case SawItem =>
        var logs := [];
        if !needSync {
          if cursor >= |order| {
            return Err(OrderIndexOutOfRange);
          }
          if order[cursor] != Item {
            needSync := true;
            logs := [OrderMismatch(order[cursor], Item)];
          }
        }
        return Ok(logs);
    }
  }

  // ---------------------------------------------------------------------------------------------
  // What the checker guarantees

  /** How each event moves the cursor along an expected order: a frame start always leaves it at 1 and
      in sync (frame start sits only at slot 0), a frame end at 0, a pre-frame one further, a post-frame
      two further at the item slot and one further elsewhere, an item not at all. Only a frame start
      changes the previous frame index. */
  lemma {:induction false} CursorMoves(players: seq<Player>, s: OrderState, e: Seen)
    requires Step(ExpectedOrder(players), s, e).Ok?
    ensures var order, next := ExpectedOrder(players), Step(ExpectedOrder(players), s, e).value.0;
      && (e.SawFrameStart? ==> next == OrderState(1, false, e.frameIdx))
      && (e.SawFrameEnd? ==> next.cursor == 0)
      && (e.SawPreFrame? ==> next.cursor == s.cursor + 1)
      && (e.SawPostFrame? ==>
            s.cursor < |order| && next.cursor == s.cursor + (if order[s.cursor] == Item then 2 else 1))
      && (e.SawItem? ==> next.cursor == s.cursor)
      && (!e.SawFrameStart? ==> next.prevFrame == s.prevFrame)
  {
    if e.SawFrameStart? {
      var order := ExpectedOrder(players);
      OrderShape(players);
      if !s.needSync && order[s.cursor] == FrameStart {
        assert s.cursor == 0;
      }
    }
  }

  /** Once out of sync, nothing but a frame start brings the checker back, and until then nothing more
      is logged. In sync, an event other than a frame start logs exactly when it puts the checker out of
      sync, and it logs one mismatch naming the slot expected. */
  lemma SyncSticky(order: seq<EventType>, s: OrderState, e: Seen)
    requires !e.SawFrameStart? && Step(order, s, e).Ok?
    ensures var (next, logs) := Step(order, s, e).value;
      && (s.needSync ==> next.needSync && logs == [])
      && (!s.needSync ==> (logs != [] <==> next.needSync))
      && (!s.needSync && next.needSync ==>
            s.cursor < |order| && logs == [OrderMismatch(order[s.cursor], KindOf(e))])
  {
  }

  /** A frame start logs a frame irregularity exactly when the index moved forward by more than one or
      back by more than ten, and a rollback exactly when it moved back; it stops validation only for a
      cursor past the order or a delta outside i32. */
  lemma FrameDeltas(order: seq<EventType>, s: OrderState, f: int)
    ensures var r := FrameStartStep(order, s, f);
      && (r.Err? <==> s.cursor >= |order| || !InI32(f - s.prevFrame))
      && (r.Ok? ==>
            && (FrameIrregular(s.prevFrame, f) in r.value.1 <==> f - s.prevFrame > 1 || f - s.prevFrame < -10)
            && (Rollback(s.prevFrame, f) in r.value.1 <==> f < s.prevFrame))
  {
  }

  /** Going from frame 12 back to frame 9 in sync is a rollback and nothing else: a step back of three
      is within the ten frames tolerated. */
  lemma RollbackOnly(order: seq<EventType>, c: nat)
    requires c < |order| && order[c] == FrameStart
    ensures FrameStartStep(order, OrderState(c, false, 12), 9) == Ok((OrderState(c + 1, false, 9), [Rollback(12, 9)]))
  {
    assert InI32(9 - 12);
    assert [] + [] + [Rollback(12, 9)] == [Rollback(12, 9)];
  }

  /** `k` copies of one event. */
  function Repeat(e: Seen, k: nat): (es: seq<Seen>)
    ensures |es| == k
  {
    if k == 0 then [] else [e] + Repeat(e, k - 1)
  }

  /** A silent first step followed by a silent run is a silent run. */
  lemma RunCons(order: seq<EventType>, s: OrderState, next: OrderState, last: OrderState, es: seq<Seen>)
    requires es != []
    requires Step(order, s, es[0]) == Ok((next, []))
    requires Run(order, next, es[1..]) == Ok((last, []))
    ensures Run(order, s, es) == Ok((last, []))
  {
  }

  /** Two runs that log nothing make one run that logs nothing. */
  lemma {:induction false} RunSilentAppend(order: seq<EventType>, s: OrderState, mid: OrderState,
                                           last: OrderState, a: seq<Seen>, b: seq<Seen>)
    requires Run(order, s, a) == Ok((mid, []))
    requires Run(order, mid, b) == Ok((last, []))
    ensures Run(order, s, a + b) == Ok((last, []))
    decreases |a|
  {
    if a == [] {
      assert a + b == b;
    } else {
      var (next, logs) := Step(order, s, a[0]).value;
      assert logs == [] && Run(order, next, a[1..]) == Ok((mid, []));
      assert (a + b)[1..] == a[1..] + b;
      RunSilentAppend(order, next, mid, last, a[1..], b);
    }
  }

  /** A run followed by one more event: the event is stepped from where the run ended, a failure
      there is the run's failure, and its logs follow the run's. */
  lemma {:induction false} RunSnoc(order: seq<EventType>, s: OrderState, a: seq<Seen>, e: Seen)
    requires Run(order, s, a).Ok?
    ensures var (mid, logs) := Run(order, s, a).value;
      var step, run := Step(order, mid, e), Run(order, s, a + [e]);
      && (run.Ok? <==> step.Ok?)
      && (step.Ok? ==> run.value == (step.value.0, logs + step.value.1))
      && (step.Err? ==> run.error == step.error)
    decreases |a|
  {
    if a == [] {
      assert a + [e] == [e];
      assert [e][1..] == [];
      var step := Step(order, s, e);
      if step.Ok? {
        var noLogs: seq<Log> := [];
        assert step.value.1 + noLogs == noLogs + step.value.1;
      }
    } else {
      var (next, first) := Step(order, s, a[0]).value;
      assert (a + [e])[0] == a[0];
      assert (a + [e])[1..] == a[1..] + [e];
      RunSnoc(order, next, a[1..], e);
      var (mid, rest) := Run(order, next, a[1..]).value;
      var step := Step(order, mid, e);
      if step.Ok? {
        assert first + (rest + step.value.1) == (first + rest) + step.value.1;
      }
    }
  }

  /** In sync, a run of `k` events over `k` slots of their own kind logs nothing and moves the cursor
      past them (pre-frames and post-frames). */
  lemma {:induction false} MatchingRun(order: seq<EventType>, c: nat, k: nat, prev: int, e: Seen)
    requires e == SawPreFrame || e == SawPostFrame
    requires c + k <= |order|
    requires Slots(order, c, c + k, KindOf(e))
    ensures Run(order, OrderState(c, false, prev), Repeat(e, k)) == Ok((OrderState(c + k, false, prev), []))
    decreases k
  {
    if k > 0 {
      assert Step(order, OrderState(c, false, prev), e) == Ok((OrderState(c + 1, false, prev), []));
      MatchingRun(order, c + 1, k - 1, prev, e);
      RunCons(order, OrderState(c, false, prev), OrderState(c + 1, false, prev), OrderState(c + k, false, prev),
              Repeat(e, k));
    }
  }

  /** In sync at the item slot, any number of item records log nothing and leave the cursor there. */
  lemma {:induction false} ItemRun(order: seq<EventType>, c: nat, k: nat, prev: int)
    requires c < |order| && order[c] == Item
    ensures Run(order, OrderState(c, false, prev), Repeat(SawItem, k)) == Ok((OrderState(c, false, prev), []))
    decreases k
  {
    if k > 0 {
      ItemRun(order, c, k - 1, prev);
      RunCons(order, OrderState(c, false, prev), OrderState(c, false, prev), OrderState(c, false, prev),
              Repeat(SawItem, k));
    }
  }

  /** The events of one well-formed frame: frame start, one pre-frame per slot of the block, any number
      of item records, one post-frame per slot, frame end. */
  function FrameEvents(players: seq<Player>, items: nat, frameIdx: int): seq<Seen> {
    var n := Width(players);
    [SawFrameStart(frameIdx)] + Repeat(SawPreFrame, n) + Repeat(SawItem, items) + Repeat(SawPostFrame, n)
    + [SawFrameEnd]
  }

  /** A frame start at the start of the order, in sync, with the index advanced by at most one, logs
      nothing. */
  lemma FrameStartSilent(order: seq<EventType>, s: OrderState, f: int)
    requires |order| > 0 && order[0] == FrameStart
    requires s.cursor == 0 && !s.needSync
    requires s.prevFrame <= f <= s.prevFrame + 1
    ensures Run(order, s, [SawFrameStart(f)]) == Ok((OrderState(1, false, f), []))
  {
    assert InI32(f - s.prevFrame);
    var noLogs: seq<Log> := [];
    assert noLogs + noLogs + noLogs == [];
    assert Step(order, s, SawFrameStart(f)) == Ok((OrderState(1, false, f), []));
    RunCons(order, s, OrderState(1, false, f), OrderState(1, false, f), [SawFrameStart(f)]);
  }

  /** In sync at the item slot followed by `n` post-frame slots, `n` post-frames log nothing: the first
      jumps past the item slot and the first post-frame slot, the rest walk the remaining slots. */
  lemma {:induction false} PostBlockRun(order: seq<EventType>, c: nat, n: nat, prev: int)
    requires n >= 1 && c + 1 + n <= |order|
    requires order[c] == Item
    requires Slots(order, c + 1, c + 1 + n, PostFrame)
    ensures Run(order, OrderState(c, false, prev), Repeat(SawPostFrame, n)) == Ok((OrderState(c + 1 + n, false, prev), []))
  {
    assert Step(order, OrderState(c, false, prev), SawPostFrame) == Ok((OrderState(c + 2, false, prev), []));
    MatchingRun(order, c + 2, n - 1, prev, SawPostFrame);
    RunCons(order, OrderState(c, false, prev), OrderState(c + 2, false, prev), OrderState(c + 1 + n, false, prev),
            Repeat(SawPostFrame, n));
  }

  /** In sync at the frame end slot, a frame end logs nothing and goes back to the start. */
  lemma FrameEndSilent(order: seq<EventType>, c: nat, prev: int)
    requires c < |order| && order[c] == FrameEnd
    ensures Run(order, OrderState(c, false, prev), [SawFrameEnd]) == Ok((OrderState(0, false, prev), []))
  {
    assert Step(order, OrderState(c, false, prev), SawFrameEnd) == Ok((OrderState(0, false, prev), []));
    RunCons(order, OrderState(c, false, prev), OrderState(0, false, prev), OrderState(0, false, prev), [SawFrameEnd]);
  }

  /** A well-formed frame logs nothing and leaves the checker at the start of the order, in sync, with
      the frame's index as the previous one — provided some player is active (with none, the first
      post-frame of the order is missing and frame end meets the item slot) and the index advanced by
      at most one. */
  lemma {:induction false} CleanFrameSilent(players: seq<Player>, s: OrderState, items: nat, f: int)
    requires Active(players, |players|) >= 1
    requires s.cursor == 0 && !s.needSync
    requires s.prevFrame <= f <= s.prevFrame + 1
    ensures Run(ExpectedOrder(players), s, FrameEvents(players, items, f)) == Ok((OrderState(0, false, f), []))
  {
    var order, n := ExpectedOrder(players), Width(players);
    OrderShape(players);
    var start, pres, its := [SawFrameStart(f)], Repeat(SawPreFrame, n), Repeat(SawItem, items);
    var posts, end := Repeat(SawPostFrame, n), [SawFrameEnd];
    FrameOpens(order, n, s, items, f);
    FrameCloses(order, n, f);
    RunSilentAppend(order, s, OrderState(n + 1, false, f), OrderState(0, false, f), start + pres + its, posts + end);
    assert start + pres + its + posts + end == (start + pres + its) + (posts + end);
  }

  /** The first half of a well-formed frame: the frame start, the pre-frames and the item records take
      the checker to the item slot without a log. */
  lemma {:induction false} FrameOpens(order: seq<EventType>, n: nat, s: OrderState, items: nat, f: int)
    requires |order| == 3 + 2 * n && order[0] == FrameStart && Slots(order, 1, n + 1, PreFrame) && order[n + 1] == Item
    requires s.cursor == 0 && !s.needSync
    requires s.prevFrame <= f <= s.prevFrame + 1
    ensures Run(order, s, [SawFrameStart(f)] + Repeat(SawPreFrame, n) + Repeat(SawItem, items))
            == Ok((OrderState(n + 1, false, f), []))
  {
    var start, pres, its := [SawFrameStart(f)], Repeat(SawPreFrame, n), Repeat(SawItem, items);
    FrameStartSilent(order, s, f);
    assert Slots(order, 1, 1 + n, KindOf(SawPreFrame));
    MatchingRun(order, 1, n, f, SawPreFrame);
    RunSilentAppend(order, s, OrderState(1, false, f), OrderState(n + 1, false, f), start, pres);
    ItemRun(order, n + 1, items, f);
    RunSilentAppend(order, s, OrderState(n + 1, false, f), OrderState(n + 1, false, f), start + pres, its);
  }

  /** The second half: from the item slot, the post-frames and the frame end take the checker back to
      the start without a log. */
  lemma {:induction false} FrameCloses(order: seq<EventType>, n: nat, f: int)
    requires n >= 1 && |order| == 3 + 2 * n && order[n + 1] == Item
    requires Slots(order, n + 2, 2 * n + 2, PostFrame) && order[2 * n + 2] == FrameEnd
    ensures Run(order, OrderState(n + 1, false, f), Repeat(SawPostFrame, n) + [SawFrameEnd])
            == Ok((OrderState(0, false, f), []))
  {
    assert Slots(order, n + 1 + 1, n + 1 + 1 + n, PostFrame);
    PostBlockRun(order, n + 1, n, f);
    FrameEndSilent(order, 2 * n + 2, f);
    RunSilentAppend(order, OrderState(n + 1, false, f), OrderState(2 * n + 2, false, f), OrderState(0, false, f),
                    Repeat(SawPostFrame, n), [SawFrameEnd]);
  }

  /** Well-formed frames with consecutive indices from `from`, frame `i` carrying `items[i]` item
      records. */
  function ConsecutiveFrames(players: seq<Player>, from: int, items: seq<nat>): seq<Seen>
    decreases |items|
  {
    if items == [] then [] else FrameEvents(players, items[0], from) + ConsecutiveFrames(players, from + 1, items[1..])
  }

  /** Any number of well-formed frames with consecutive indices log nothing, and leave the checker at
      the start of the order, in sync, with the last frame's index as the previous one. From the
      initial state the first frame is -123, the index every replay starts at. */
  lemma {:induction false} CleanFramesSilent(players: seq<Player>, s: OrderState, from: int, items: seq<nat>)
    requires Active(players, |players|) >= 1
    requires s.cursor == 0 && !s.needSync
    requires s.prevFrame <= from <= s.prevFrame + 1
    ensures Run(ExpectedOrder(players), s, ConsecutiveFrames(players, from, items))
            == Ok((OrderState(0, false, if items == [] then s.prevFrame else from + |items| - 1), []))
    decreases |items|
  {
    if items != [] {
      var order, rest := ExpectedOrder(players), items[1..];
      var first, later := FrameEvents(players, items[0], from), ConsecutiveFrames(players, from + 1, rest);
      assert ConsecutiveFrames(players, from, items) == first + later;
      CleanFrameSilent(players, s, items[0], from);
      var mid := OrderState(0, false, from);
      CleanFramesSilent(players, mid, from + 1, rest);
      var last := OrderState(0, false, from + |items| - 1);
      assert Run(order, mid, later) == Ok((last, []));
      RunSilentAppend(order, s, mid, last, first, later);
    }
  }

  /** A run stops with the first error it meets. */
  lemma RunStops(order: seq<EventType>, s: OrderState, next: OrderState, logs: seq<Log>, es: seq<Seen>)
    requires es != []
    requires Step(order, s, es[0]) == Ok((next, logs))
    requires Run(order, next, es[1..]).Err?
    ensures Run(order, s, es) == Run(order, next, es[1..])
  {
  }

  /** With one active player who is not Ice Climbers, the order has five slots. */
  lemma SingleOrder(p: Player)
    requires IsActive(p.kind) && p.character != IceClimbers
    ensures ExpectedOrder([p]) == [FrameStart, PreFrame, Item, PostFrame, FrameEnd]
  {
    assert Block([p], 1, PreFrame) == [PreFrame];
    assert Block([p], 1, PostFrame) == [PostFrame];
  }

  /** The cursor can run off the end of the order, which stops validation: with one active player, a
      frame whose frame end is missing, followed by the next frame's pre-frame and post-frame without
      a frame start, puts the cursor past the last slot, and the post-frame reads that slot. */
  lemma OrderIndexReachable(p: Player)
    requires IsActive(p.kind) && p.character != IceClimbers
    ensures var order := ExpectedOrder([p]);
      && order == [FrameStart, PreFrame, Item, PostFrame, FrameEnd]
      && Run(order, Initial, [SawFrameStart(-123), SawPreFrame, SawPostFrame, SawPreFrame, SawPostFrame])
         == Err(OrderIndexOutOfRange)
  {
    SingleOrder(p);
    var order := [FrameStart, PreFrame, Item, PostFrame, FrameEnd];
    var e1 := [SawPostFrame];
    assert Run(order, OrderState(5, true, -123), e1) == Err(OrderIndexOutOfRange);
    var e2 := [SawPreFrame] + e1;
    RunStops(order, OrderState(4, false, -123), OrderState(5, true, -123), [OrderMismatch(FrameEnd, PreFrame)], e2);
    var e3 := [SawPostFrame] + e2;
    RunStops(order, OrderState(2, false, -123), OrderState(4, false, -123), [], e3);
    var e4 := [SawPreFrame] + e3;
    RunStops(order, OrderState(1, false, -123), OrderState(2, false, -123), [], e4);
    var e5 := [SawFrameStart(-123)] + e4;
    var noLogs: seq<Log> := [];
    assert InI32(-123 - -123) && noLogs + noLogs + noLogs == [];
    RunStops(order, Initial, OrderState(1, false, -123), [], e5);
    assert e5 == [SawFrameStart(-123), SawPreFrame, SawPostFrame, SawPreFrame, SawPostFrame];
  }
}
