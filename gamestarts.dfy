/** The game-start record: match settings, the replay's version, and the four roster slots. */
module GameStarts {
  import opened Common
  import opened Bytes
  import opened Utils
  import opened Melee
  import opened Players

  /** How the match was set up online, from byte 5 of the match id. */
  datatype MatchType = Unranked | Ranked | Direct | Unknown

  /** `MatchType::from_repr`: the ASCII letters 'u', 'r', 'd', and 0. */
  function MatchTypeFromRepr(b: byte): (m: Option<MatchType>)
    ensures m.Some? <==> b in {117, 114, 100, 0}
  {
    if b == 117 then Some(Unranked)
    else if b == 114 then Some(Ranked)
    else if b == 100 then Some(Direct)
    else if b == 0 then Some(Unknown)
    else None
  }

  /** The match type the match id spells: its sixth byte decides, and an id of five bytes or fewer, or
      an unrecognised sixth byte, gives `Unknown`. */
  function MatchTypeOf(id: seq<byte>): (m: MatchType)
    ensures m == Unranked <==> |id| > 5 && id[5] == 'u' as byte
    ensures m == Ranked <==> |id| > 5 && id[5] == 'r' as byte
    ensures m == Direct <==> |id| > 5 && id[5] == 'd' as byte
    ensures |id| <= 5 ==> m == Unknown
  {
    if |id| > 5 then MatchTypeFromRepr(id[5]).GetOr(Unknown) else Unknown
  }

  datatype GameStart = GameStart(
    randomSeed: nat,
    teams: bool,
    stage: nat,
    timerSeconds: nat,
    damageRatio: Float32,
    pal: Option<bool>,           // 1.5.0
    frozenStadium: Option<bool>, // 2.0.0
    netplay: Option<bool>,       // 3.7.0
    matchId: seq<byte>,          // 3.14.0, empty before
    matchType: MatchType,        // 3.14.0, Unknown before
    gameNumber: Option<nat>,     // 3.14.0
    tiebreakNumber: Option<nat>  // 3.14.0
  )

  /** What `GameStart::parse` hands back: the record, the replay's version, and the four players. */
  datatype StartInfo = StartInfo(start: GameStart, version: Version, players: seq<Player>)

  // ---------------------------------------------------------------------------------------------
  // Text fields

  /** The index of the first zero byte, if any. */
  function FirstZero(s: seq<byte>): (i: Option<nat>)
    ensures i.Some? ==> i.value < |s| && s[i.value] == 0 && forall j | 0 <= j < i.value :: s[j] != 0
    ensures i.None? ==> 0 !in s
  {
    if s == [] then None
    else if s[0] == 0 then Some(0)
    else
      match FirstZero(s[1..])
      case None => None
      case Some(k) => Some(k + 1)
  }

  /** A fixed-size text field cut at its first zero byte, or at `fallback` bytes when it has none. */
  function ZeroTruncate(s: seq<byte>, fallback: nat): (r: seq<byte>)
    requires fallback <= |s|
    ensures |r| <= |s| && r == s[..|r|]
  {
    s[..FirstZero(s).GetOr(fallback)]
  }

  /** The cut keeps no zero byte and stops exactly at the first zero, or at `fallback` when there is none. */
  lemma ZeroTruncateMeaning(s: seq<byte>, fallback: nat)
    requires fallback <= |s|
    ensures 0 !in ZeroTruncate(s, fallback)
    ensures 0 in s ==> |ZeroTruncate(s, fallback)| < |s| && s[|ZeroTruncate(s, fallback)|] == 0
    ensures 0 !in s ==> |ZeroTruncate(s, fallback)| == fallback
  {
  }

  /** Whether a byte is a UTF-8 continuation byte. */
  predicate Continuation(b: byte) {
    0x80 <= b <= 0xBF
  }

  /** Well-formed UTF-8, as `String::from_utf8` accepts it: the byte sequences of table 3-7 of the
      Unicode Standard (no overlong forms, no surrogates, nothing above U+10FFFF). */
  predicate ValidUtf8(s: seq<byte>)
    decreases |s|
  {
    if s == [] then true
    else if s[0] < 0x80 then ValidUtf8(s[1..])
    else if 0xC2 <= s[0] <= 0xDF then
      |s| >= 2 && Continuation(s[1]) && ValidUtf8(s[2..])
    else if 0xE0 <= s[0] <= 0xEF then
      && |s| >= 3
      && (if s[0] == 0xE0 then 0xA0 <= s[1] <= 0xBF
          else if s[0] == 0xED then 0x80 <= s[1] <= 0x9F
          else Continuation(s[1]))
      && Continuation(s[2])
      && ValidUtf8(s[3..])
    else if 0xF0 <= s[0] <= 0xF4 then
      && |s| >= 4
      && (if s[0] == 0xF0 then 0x90 <= s[1] <= 0xBF
          else if s[0] == 0xF4 then 0x80 <= s[1] <= 0x8F
          else Continuation(s[1]))
      && Continuation(s[2]) && Continuation(s[3])
      && ValidUtf8(s[4..])
    else false
  }

  /** Plain ASCII is always valid UTF-8, so an ASCII match id never stops decoding. */
  lemma {:induction false} AsciiIsUtf8(s: seq<byte>)
    requires forall i | 0 <= i < |s| :: s[i] < 0x80
    ensures ValidUtf8(s)
    decreases |s|
  {
    if s != [] {
      AsciiIsUtf8(s[1..]);
    }
  }

  // ---------------------------------------------------------------------------------------------
  // The layout

  /** The version stored in the record's first three bytes. */
  function VersionAt(w: seq<byte>): (v: Version)
    requires |w| >= 3
    ensures v.major == w[0] && v.minor == w[1] && v.build == w[2]
  {
    Version(w[0], w[1], w[2])
  }

  /** Bytes read for a version: 320 up to the random seed, then each block of the cascade the version
      reaches: controller fixes (1.0.0), in-game tags (1.3.0), PAL (1.5.0), frozen stadium (2.0.0),
      minor scene and major scene (3.7.0), display names and connect codes (3.9.0), user ids (3.11.0),
      language (3.12.0), match id, game number and tiebreak number (3.14.0). */
  function GameStartSize(v: Version): nat {
    if !v.AtLeast(1, 0, 0) then 320
    else if !v.AtLeast(1, 3, 0) then 352
    else if !v.AtLeast(1, 5, 0) then 416
    else if !v.AtLeast(2, 0, 0) then 417
    else if !v.AtLeast(3, 7, 0) then 418
    else if !v.AtLeast(3, 9, 0) then 420
    else if !v.AtLeast(3, 11, 0) then 584
    else if !v.AtLeast(3, 12, 0) then 700
    else if !v.AtLeast(3, 14, 0) then 701
    else 760
  }

  /** Player slot `i` as its 36-byte block at `at` describes it, before the later sections fill in
      controller fixes, names and codes. Unknown codes fall back to the defaults: the default character,
      `Empty`, `Normal`, `Red`. */
  function BlockPlayer(w: seq<byte>, at: nat, i: nat, t: Tables): (p: Player)
    requires at + 36 <= |w|
    ensures p.port == i
    ensures w[at + 1] < 4 ==> PlayerTypeRepr(p.kind) == w[at + 1]
    ensures w[at + 1] >= 4 ==> p.kind == Empty
    ensures p.ucf.None? && p.displayName.None? && p.connectCode.None?
  {
    Player(
      i,
      PlayerTypeFromRepr(w[at + 1]).GetOr(Empty),
      t.characterFromCss(w[at]).GetOr(t.defaultCharacter),
      w[at + 2],
      w[at + 3],
      TeamShadeFromRepr(w[at + 4]).GetOr(Normal),
      w[at + 5],
      TeamIdFromRepr(w[at + 6]).GetOr(Red),
      w[at + 7],
      w[at + 8],
      UIntAt(w, at + 9, 2),
      UIntAt(w, at + 11, 2),
      F32At(w, at + 13),
      F32At(w, at + 17),
      F32At(w, at + 21),
      None, None, None)
  }

  /** The warnings for player slot `i` with these type, team shade and team id codes, in the order
      they are logged: a type code past the four player types, then, for a human (0) or CPU (1) player
      only, a team shade or team id code past the three of each. */
  function SlotWarnings(typeCode: byte, shadeCode: byte, teamCode: byte, i: nat): (logs: seq<Log>)
    ensures |logs| <= 3
  {
    (if typeCode >= 4 then [InvalidPlayerType(i)] else [])
    + (if typeCode <= 1 && shadeCode >= 3 then [InvalidTeamShade(i)] else [])
    + (if typeCode <= 1 && teamCode >= 3 then [InvalidTeamId(i)] else [])
  }

  /** Each warning is logged exactly when the original's check fails: the type code has no player type;
      the decoded type (an unknown code falls back to `Empty`) is human or CPU and the team shade, or the
      team id, has no value. */
  lemma SlotWarningsMeaning(typeCode: byte, shadeCode: byte, teamCode: byte, i: nat)
    ensures InvalidPlayerType(i) in SlotWarnings(typeCode, shadeCode, teamCode, i)
      <==> PlayerTypeFromRepr(typeCode).None?
    ensures InvalidTeamShade(i) in SlotWarnings(typeCode, shadeCode, teamCode, i)
      <==> IsActive(PlayerTypeFromRepr(typeCode).GetOr(Empty)) && TeamShadeFromRepr(shadeCode).None?
    ensures InvalidTeamId(i) in SlotWarnings(typeCode, shadeCode, teamCode, i)
      <==> IsActive(PlayerTypeFromRepr(typeCode).GetOr(Empty)) && TeamIdFromRepr(teamCode).None?
  {
  }

  /** The warnings for the player block `i` at `at`. */
  function BlockWarnings(w: seq<byte>, at: nat, i: nat): seq<Log>
    requires at + 36 <= |w|
  {
    SlotWarnings(w[at + 1], w[at + 4], w[at + 6], i)
  }

  /** The warnings of the first `k` player blocks, in slot order. */
  function AllBlockWarnings(w: seq<byte>, k: nat): seq<Log>
    requires 100 + 36 * k <= |w|
  {
    if k == 0 then [] else AllBlockWarnings(w, k - 1) + BlockWarnings(w, 100 + 36 * (k - 1), k - 1)
  }

  /** The controller fix toggles stored at `at`: the low byte of each of two big-endian `u32`s. */
  function UcfFrom(w: seq<byte>, at: nat): Option<UcfToggles>
    requires at + 8 <= |w|
  {
    var dashback := ControllerFixFromRepr(w[at + 3]);
    var shieldDrop := ControllerFixFromRepr(w[at + 7]);
    if dashback.Some? && shieldDrop.Some? then Some(UcfToggles(dashback.value, shieldDrop.value)) else None
  }

  /** The controller fix toggles of slot `j`. */
  function UcfAt(w: seq<byte>, j: nat): Option<UcfToggles>
    requires 328 + 8 * j <= |w|
  {
    UcfFrom(w, 320 + 8 * j)
  }

  /** The zero-truncated match id of a 3.14.0 record (51 bytes, cut at 50 when no zero). */
  function MatchIdAt(w: seq<byte>): seq<byte>
    requires 752 <= |w|
  {
    ZeroTruncate(w[701..752], 50)
  }

  /** The display name of slot `j`: 31 bytes, cut at the first zero or at 30. */
  function NameAt(w: seq<byte>, j: nat): seq<byte>
    requires 451 + 31 * j <= |w|
  {
    ZeroTruncate(w[420 + 31 * j..451 + 31 * j], 30)
  }

  /** The connect code of slot `j`: 10 bytes, cut at the first zero. */
  function CodeAt(w: seq<byte>, j: nat): seq<byte>
    requires 554 + 10 * j <= |w|
  {
    ZeroTruncate(w[544 + 10 * j..554 + 10 * j], 10)
  }

  /** The four slots as their player blocks describe them. */
  function BarePlayers(w: seq<byte>, t: Tables): (ps: seq<Player>)
    requires 244 <= |w|
    ensures |ps| == 4
  {
    seq(4, j requires 0 <= j < 4 => BlockPlayer(w, 100 + 36 * j, j, t))
  }

  /** The slots once the controller fix section has set each slot's toggles. */
  function WithUcf(w: seq<byte>, ps: seq<Player>): (qs: seq<Player>)
    requires 352 <= |w| && |ps| == 4
    ensures |qs| == 4
  {
    seq(4, j requires 0 <= j < 4 => ps[j].(ucf := UcfAt(w, j)))
  }

  /** One slot once the name sections have set its display name and connect code. */
  function Named(w: seq<byte>, p: Player, j: nat): Player
    requires j < 4 && 584 <= |w|
  {
    p.(displayName := Some(NameAt(w, j)), connectCode := Some(CodeAt(w, j)))
  }

  /** The slots once the name sections have set each slot's display name and connect code. */
  function WithNames(w: seq<byte>, ps: seq<Player>): (qs: seq<Player>)
    requires 584 <= |w| && |ps| == 4
    ensures |qs| == 4
  {
    seq(4, j requires 0 <= j < 4 => Named(w, ps[j], j))
  }

  /** The roster of a record of version `v`: the player blocks, then the controller fix section
      (1.0.0) and the name sections (3.9.0) when the version has them. */
  function PlayersAt(w: seq<byte>, v: Version, t: Tables): (ps: seq<Player>)
    requires GameStartSize(v) <= |w|
    ensures |ps| == 4
  {
    Sectioned(w, v, BarePlayers(w, t))
  }

  /** Slots `ps` once the controller fix section (1.0.0) and the name sections (3.9.0) have been
      applied, as far as the version reaches. */
  function Sectioned(w: seq<byte>, v: Version, ps: seq<Player>): (qs: seq<Player>)
    requires GameStartSize(v) <= |w| && |ps| == 4
    ensures |qs| == 4
  {
    var toggled := if v.AtLeast(1, 0, 0) then WithUcf(w, ps) else ps;
    if v.AtLeast(3, 9, 0) then WithNames(w, toggled) else toggled
  }

  /** Slot `j` of the roster is player block `j` (port `j`) with exactly the sections the version has. */
  lemma PlayersAtSlot(w: seq<byte>, v: Version, t: Tables, j: nat)
    requires GameStartSize(v) <= |w| && j < 4
    ensures PlayersAt(w, v, t)[j]
      == BlockPlayer(w, 100 + 36 * j, j, t).(
           ucf := if v.AtLeast(1, 0, 0) then UcfAt(w, j) else None,
           displayName := if v.AtLeast(3, 9, 0) then Some(NameAt(w, j)) else None,
           connectCode := if v.AtLeast(3, 9, 0) then Some(CodeAt(w, j)) else None)
    ensures PlayersAt(w, v, t)[j].port == j
    ensures PlayersAt(w, v, t)[j].ucf.Some? ==> v.AtLeast(1, 0, 0)
    ensures PlayersAt(w, v, t)[j].displayName.Some? <==> v.AtLeast(3, 9, 0)
    ensures PlayersAt(w, v, t)[j].connectCode.Some? <==> v.AtLeast(3, 9, 0)
  {
    CascadeGates(v);
    var bare := BarePlayers(w, t);
    assert bare[j] == BlockPlayer(w, 100 + 36 * j, j, t);
    var toggled := if v.AtLeast(1, 0, 0) then WithUcf(w, bare) else bare;
    assert toggled[j] == bare[j].(ucf := if v.AtLeast(1, 0, 0) then UcfAt(w, j) else None);
    if v.AtLeast(3, 9, 0) {
      assert PlayersAt(w, v, t)[j] == Named(w, toggled[j], j);
    } else {
      assert PlayersAt(w, v, t)[j] == toggled[j];
    }
  }

  /** Where the sections up to netplay end: the record's end when the version stops before display
      names, else the start of the name section. */
  function EarlyEnd(v: Version): nat {
    if v.AtLeast(3, 9, 0) then 420 else GameStartSize(v)
  }

  /** PAL (1.5.0), frozen stadium (2.0.0) and netplay (3.7.0, the scene byte is 8), each present only
      when the version reaches its gate. */
  function Settings(w: seq<byte>, v: Version): (Option<bool>, Option<bool>, Option<bool>)
    requires EarlyEnd(v) <= |w|
  {
    (if v.AtLeast(1, 5, 0) then Some(w[416] != 0) else None,
     if v.AtLeast(2, 0, 0) then Some(w[417] != 0) else None,
     if v.AtLeast(3, 7, 0) then Some(w[419] == 8) else None)
  }

  /** The match id, game number and tiebreak number of a 3.14.0 record. */
  function MatchFields(w: seq<byte>, v: Version): Option<(seq<byte>, nat, nat)>
    requires GameStartSize(v) <= |w|
  {
    if v.AtLeast(3, 14, 0) then Some((MatchIdAt(w), UIntAt(w, 752, 4), UIntAt(w, 756, 4))) else None
  }

  /** The match settings a record of version `v` carries: the header fields and random seed, then the
      gated fields the version reaches; the match type is derived from the match id. */
  function StartAt(w: seq<byte>, v: Version): (g: GameStart)
    requires GameStartSize(v) <= |w|
  {
    var (pal, frozen, netplay) := Settings(w, v);
    var matchFields := MatchFields(w, v);
    var matchId := if matchFields.Some? then matchFields.value.0 else [];
    GameStart.GameStart(
      UIntAt(w, 316, 4), w[12] != 0, UIntAt(w, 18, 2), UIntAt(w, 20, 4), F32At(w, 52),
      pal, frozen, netplay,
      matchId,
      if matchFields.Some? then MatchTypeOf(matchId) else Unknown,
      if matchFields.Some? then Some(matchFields.value.1) else None,
      if matchFields.Some? then Some(matchFields.value.2) else None)
  }

  /** Every field past the version's last gate keeps its default, so the optional fields present form a
      prefix of the cascade; each present field is read from its own offset. */
  lemma StartAtCascade(w: seq<byte>, v: Version)
    requires GameStartSize(v) <= |w|
    ensures StartAt(w, v).teams <==> w[12] != 0
    ensures StartAt(w, v).pal.Some? <==> v.AtLeast(1, 5, 0)
    ensures StartAt(w, v).pal.Some? ==> |w| >= 417 && (StartAt(w, v).pal.value <==> w[416] != 0)
    ensures StartAt(w, v).frozenStadium.Some? ==> StartAt(w, v).pal.Some?
    ensures StartAt(w, v).netplay.Some? ==> StartAt(w, v).frozenStadium.Some?
    ensures StartAt(w, v).netplay.Some? <==> v.AtLeast(3, 7, 0)
    ensures StartAt(w, v).netplay.Some? ==> |w| >= 420 && (StartAt(w, v).netplay.value <==> w[419] == 8)
    ensures StartAt(w, v).gameNumber.Some? ==> StartAt(w, v).netplay.Some?
    ensures StartAt(w, v).gameNumber.Some? <==> StartAt(w, v).tiebreakNumber.Some?
    ensures StartAt(w, v).gameNumber.None? ==> StartAt(w, v).matchId == [] && StartAt(w, v).matchType == Unknown
    ensures StartAt(w, v).matchType == MatchTypeOf(StartAt(w, v).matchId)
  {
  }

  /** Everything `GameStart::parse` needs to finish instead of panicking: enough bytes for the version's
      cascade, a known stage, valid controller fix values, and a match id that is UTF-8. */
  predicate StartReadable(w: seq<byte>, t: Tables) {
    && |w| >= 3
    && SectionsReadable(w, VersionAt(w))
    && t.stageKnown(UIntAt(w, 18, 2))
  }

  /** The failure `GameStart::parse` stops with on a window it cannot read, the first in its read order:
      a header shorter than the stage code underflows, an unknown stage stops with its code, a window
      that ends before the random seed underflows, and then the version cascade fails as
      `SectionsFailure` says. */
  function StartFailure(w: seq<byte>, t: Tables): (f: Failure)
    requires !StartReadable(w, t)
    ensures f == Underflow || f.UnknownStage? || f.InvalidControllerFix? || f == InvalidUtf8
  {
    if |w| < 20 then Underflow
    else if !t.stageKnown(UIntAt(w, 18, 2)) then UnknownStage(UIntAt(w, 18, 2))
    else if |w| < 320 then Underflow
    else SectionsFailure(w, VersionAt(w))
  }

  /** Why the cascade stops on a window that holds everything up to the random seed (so the version is
      at least 1.0.0): the first controller fix slot that fails, then a window too short for the match
      id, which underflows, then a match id that is not UTF-8, and otherwise a short tail. */
  function SectionsFailure(w: seq<byte>, v: Version): (f: Failure)
    requires 320 <= |w| && !SectionsReadable(w, v)
    ensures f == Underflow || f.InvalidControllerFix? || f == InvalidUtf8
  {
    match UcfFailure(w, 0)
    case Some(f) => f
    case None => if v.AtLeast(3, 14, 0) && 752 <= |w| && !ValidUtf8(MatchIdAt(w)) then InvalidUtf8 else Underflow
  }

  /** How reading the controller fix toggles at `at` fails, if it does: the dashback word, then its
      value, then the shield drop word, then its value. */
  function UcfSlotFailure(w: seq<byte>, at: nat): (f: Option<Failure>)
    ensures f.None? <==> at + 8 <= |w| && UcfFrom(w, at).Some?
    ensures f.Some? ==> f.value == Underflow || f.value.InvalidControllerFix?
  {
    if |w| < at + 4 then Some(Underflow)
    else if ControllerFixFromRepr(w[at + 3]).None? then Some(InvalidControllerFix(w[at + 3]))
    else if |w| < at + 8 then Some(Underflow)
    else if ControllerFixFromRepr(w[at + 7]).None? then Some(InvalidControllerFix(w[at + 7]))
    else None
  }

  /** The failure of the first controller fix slot from `j` on that fails, in slot order. */
  function UcfFailure(w: seq<byte>, j: nat): (f: Option<Failure>)
    requires j <= 4
    ensures f.None? <==> forall k | j <= k < 4 :: 328 + 8 * k <= |w| && UcfAt(w, k).Some?
    decreases 4 - j
  {
    if j == 4 then None
    else match UcfSlotFailure(w, 320 + 8 * j)
      case Some(f) => Some(f)
      case None => UcfFailure(w, j + 1)
  }

  /** A full-size 1.0.0 record whose first dashback value is 3 stops on that value, not on a short
      window. */
  lemma FirstBadFixWins(w: seq<byte>, t: Tables)
    requires |w| >= 352 && w[0] == 1 && w[1] == 0 && w[2] == 0 && t.stageKnown(UIntAt(w, 18, 2)) && w[323] == 3
    ensures !StartReadable(w, t) && StartFailure(w, t) == InvalidControllerFix(3)
  {
    assert UcfAt(w, 0).None?;
  }

  /** The version's cascade fits the window, every controller fix value (1.0.0) is valid and the match
      id (3.14.0) is UTF-8. */
  predicate SectionsReadable(w: seq<byte>, v: Version) {
    && GameStartSize(v) <= |w|
    && (v.AtLeast(1, 0, 0) ==> forall j | 0 <= j < 4 :: UcfAt(w, j).Some?)
    && (v.AtLeast(3, 14, 0) ==> ValidUtf8(MatchIdAt(w)))
  }

  // ---------------------------------------------------------------------------------------------
  // The decoder

  /** The fields read before the player blocks. */
  datatype Header = Header(version: Version, teams: bool, stage: nat, timerSeconds: nat, damageRatio: Float32)

  /** Reads the first 100 bytes: version, teams flag, stage (which must be known), timer and damage
      ratio, skipping what the validator ignores. */
  method ReadHeader(stream: Stream, t: Tables) returns (r: Result<Header>)
    requires stream.Valid() && stream.pos == 0
    modifies stream
    ensures stream.Valid()
    ensures r.Ok? <==> 100 <= |stream.data| && t.stageKnown(UIntAt(stream.data, 18, 2))
    ensures |stream.data| < 20 ==> r == Err(Underflow)
    ensures 20 <= |stream.data| && !t.stageKnown(UIntAt(stream.data, 18, 2)) ==>
      r == Err(UnknownStage(UIntAt(stream.data, 18, 2)))
    ensures r.Err? ==> r.error == if 20 <= |stream.data| && !t.stageKnown(UIntAt(stream.data, 18, 2))
                                  then UnknownStage(UIntAt(stream.data, 18, 2)) else Underflow
    ensures r.Ok? ==>
      var w, h := stream.data, r.value;
      && stream.pos == 100
      && h.version == VersionAt(w)
      && (h.teams <==> w[12] != 0)
      && h.stage == UIntAt(w, 18, 2)
      && h.timerSeconds == UIntAt(w, 20, 4)
      && h.damageRatio == F32At(w, 52)
  {
    var prefix :- ReadPrefix(stream);
    var (version, teams, stage) := prefix;
    if !t.stageKnown(stage) {
      return Err(UnknownStage(stage));
    }
    var timerSeconds :- stream.GetUInt(4);
    :- stream.Advance(28);
    var damageRatio :- stream.GetF32();
    :- stream.Advance(44);
    return Ok(Header(version, teams, stage, timerSeconds, damageRatio));
  }

  /** Reads the first 20 bytes: the version, the teams flag and the stage. */
  method ReadPrefix(stream: Stream) returns (r: Result<(Version, bool, nat)>)
    requires stream.Valid() && stream.pos == 0
    modifies stream
    ensures stream.Valid()
    ensures r.Ok? <==> 20 <= |stream.data|
    ensures r.Err? ==> r.error == Underflow
    ensures r.Ok? ==>
      var w := stream.data;
      && stream.pos == 20
      && r.value == (VersionAt(w), w[12] != 0, UIntAt(w, 18, 2))
  {
    var major :- stream.GetU8();
    var minor :- stream.GetU8();
    var build :- stream.GetU8();
    :- stream.Advance(9);
    var teamsByte :- stream.GetU8();
    :- stream.Advance(5);
    var stage :- stream.GetUInt(2);
    return Ok((Version(major, minor, build), teamsByte != 0, stage));
  }

  /** The nine one-byte codes that open a player block: character (CSS id), player type, stocks,
      costume, team shade, handicap, team id, bitfield, CPU level. */
  method ReadCodes(stream: Stream) returns (r: Result<seq<byte>>)
    requires stream.Valid()
    modifies stream
    ensures stream.Valid()
    ensures r.Ok? <==> old(stream.pos) + 9 <= |stream.data|
    ensures r.Err? ==> r.error == Underflow
    ensures r.Ok? ==> stream.pos == old(stream.pos) + 9 && r.value == stream.data[old(stream.pos)..stream.pos]
  {
    var codes: seq<byte> := [];
    for k := 0 to 9
      invariant stream.Valid() && stream.pos == old(stream.pos) + k
      invariant codes == stream.data[old(stream.pos)..stream.pos]
    {
      var b :- stream.GetU8();
      codes := codes + [b];
    }
    return Ok(codes);
  }

  /** The rest of a player block: starting damage, respawn damage, offense and defense ratios and
      model scale, then 11 skipped bytes. */
  method ReadNumbers(stream: Stream) returns (r: Result<(nat, nat, Float32, Float32, Float32)>)
    requires stream.Valid()
    modifies stream
    ensures stream.Valid()
    ensures r.Ok? <==> old(stream.pos) + 27 <= |stream.data|
    ensures r.Err? ==> r.error == Underflow
    ensures r.Ok? ==>
      var w, at := stream.data, old(stream.pos);
      && stream.pos == at + 27
      && r.value == (UIntAt(w, at, 2), UIntAt(w, at + 2, 2), F32At(w, at + 4), F32At(w, at + 8), F32At(w, at + 12))
  {
    var damageStart :- stream.GetUInt(2);
    var damageSpawn :- stream.GetUInt(2);
    var offenseRatio :- stream.GetF32();
    var defenseRatio :- stream.GetF32();
    var modelScale :- stream.GetF32();
    :- stream.Advance(11);
    return Ok((damageStart, damageSpawn, offenseRatio, defenseRatio, modelScale));
  }

  /** Reads one 36-byte player block as slot `i` and the warnings it raises. */
  method ReadPlayer(stream: Stream, i: nat, t: Tables) returns (r: Result<(Player, seq<Log>)>)
    requires stream.Valid()
    modifies stream
    ensures stream.Valid()
    ensures r.Ok? <==> old(stream.pos) + 36 <= |stream.data|
    ensures r.Err? ==> r.error == Underflow
    ensures r.Ok? ==>
      && stream.pos == old(stream.pos) + 36
      && r.value.0 == BlockPlayer(stream.data, old(stream.pos), i, t)
      && r.value.1 == BlockWarnings(stream.data, old(stream.pos), i)
  {
    var c :- ReadCodes(stream);
    var n :- ReadNumbers(stream);
    var player := Player(i, PlayerTypeFromRepr(c[1]).GetOr(Empty), t.characterFromCss(c[0]).GetOr(t.defaultCharacter),
      c[2], c[3], TeamShadeFromRepr(c[4]).GetOr(Normal), c[5], TeamIdFromRepr(c[6]).GetOr(Red), c[7], c[8],
      n.0, n.1, n.2, n.3, n.4, None, None, None);
    return Ok((player, SlotWarnings(c[1], c[4], c[6], i)));
  }

  /** Reads one slot's controller fix toggles; a value that is not a controller fix stops decoding. */
  method ReadUcf(stream: Stream) returns (r: Result<UcfToggles>)
    requires stream.Valid()
    modifies stream
    ensures stream.Valid()
    ensures r.Ok? <==> old(stream.pos) + 8 <= |stream.data| && UcfFrom(stream.data, old(stream.pos)).Some?
    ensures r.Err? ==> Some(r.error) == UcfSlotFailure(stream.data, old(stream.pos))
    ensures r.Ok? ==> stream.pos == old(stream.pos) + 8 && Some(r.value) == UcfFrom(stream.data, old(stream.pos))
  {
    ghost var at := stream.pos;
    var dashbackWord :- stream.GetUInt(4);
    BELowByte(stream.data[at..at + 4]);
    var dashback := ControllerFixFromRepr(dashbackWord % 256);
    if dashback.None? {
      return Err(InvalidControllerFix(dashbackWord % 256));
    }
    var shieldDropWord :- stream.GetUInt(4);
    BELowByte(stream.data[at + 4..at + 8]);
    var shieldDrop := ControllerFixFromRepr(shieldDropWord % 256);
    if shieldDrop.None? {
      return Err(InvalidControllerFix(shieldDropWord % 256));
    }
    return Ok(UcfToggles(dashback.value, shieldDrop.value));
  }

  /** One turn of the player block loop: reads block `i` and appends its player and its warnings to
      those of the blocks before it. */
  method ReadSlot(stream: Stream, t: Tables, i: nat, players: seq<Player>, logs: seq<Log>)
    returns (players': seq<Player>, logs': seq<Log>)
    requires stream.Valid() && i < 4 && stream.pos == 100 + 36 * i && 244 <= |stream.data|
    requires players == BarePlayers(stream.data, t)[..i] && logs == AllBlockWarnings(stream.data, i)
    modifies stream
    ensures stream.Valid() && stream.pos == 136 + 36 * i
    ensures players' == BarePlayers(stream.data, t)[..i + 1] && logs' == AllBlockWarnings(stream.data, i + 1)
  {
    var entry := ReadPlayer(stream, i, t);
    var (player, warnings) := entry.value;
    assert BarePlayers(stream.data, t)[..i + 1] == players + [player];
    return players + [player], logs + warnings;
  }

  /** Reads the four player blocks, in slot order, with the warnings each raises. The roster is a
      fixed array of four players held by value, so it is a sequence here. */
  method ReadRoster(stream: Stream, t: Tables) returns (r: Result<(seq<Player>, seq<Log>)>)
    requires stream.Valid() && stream.pos == 100
    modifies stream
    ensures stream.Valid()
    ensures r.Ok? <==> 244 <= |stream.data|
    ensures r.Err? ==> r.error == Underflow
    ensures r.Ok? ==>
      && stream.pos == 244
      && r.value == (BarePlayers(stream.data, t), AllBlockWarnings(stream.data, 4))
  {
    var players: seq<Player> := [];
    var logs := [];
    // A read past the end stops decoding in whichever block it happens, so one check up front decides it.
    if stream.Remaining() < 144 {
      return Err(Underflow);
    }
    for i := 0 to 4
      invariant stream.Valid() && stream.pos == 100 + 36 * i
      invariant players == BarePlayers(stream.data, t)[..i] && logs == AllBlockWarnings(stream.data, i)
    {
      players, logs := ReadSlot(stream, t, i, players, logs);
    }
    assert players == BarePlayers(stream.data, t);
    return Ok((players, logs));
  }

  /** Sets every slot's controller fix toggles, read in slot order (version 1.0.0 on). */
  method ReadUcfSection(stream: Stream, roster: seq<Player>) returns (r: Result<seq<Player>>)
    requires stream.Valid() && stream.pos == 320 && |roster| == 4
    modifies stream
    ensures stream.Valid()
    ensures r.Ok? <==> 352 <= |stream.data| && forall j | 0 <= j < 4 :: UcfAt(stream.data, j).Some?
    ensures r.Err? ==> Some(r.error) == UcfFailure(stream.data, 0)
    ensures r.Ok? ==> stream.pos == 352 && r.value == WithUcf(stream.data, roster)
  {
    ghost var w := stream.data;
    var players := roster;
    for i := 0 to 4
      invariant stream.Valid() && stream.pos == 320 + 8 * i
      invariant forall j | 0 <= j < i :: UcfAt(w, j).Some?
      invariant UcfFailure(w, 0) == UcfFailure(w, i)
      invariant |players| == 4
      invariant forall j | 0 <= j < 4 :: players[j] == if j < i then roster[j].(ucf := UcfAt(w, j)) else roster[j]
    {
      var toggles := ReadUcf(stream);
      if toggles.Err? {
        assert !(352 <= |w| && UcfAt(w, i).Some?);
        return Err(toggles.error);
      }
      players := players[i := players[i].(ucf := Some(toggles.value))];
    }
    return Ok(players);
  }

  /** Sets every slot's display name (31 bytes each, cut at 30) and then every slot's connect code
      (10 bytes each), both zero-truncated (version 3.9.0 on). */
  method ReadNameSection(stream: Stream, roster: seq<Player>) returns (r: Result<seq<Player>>)
    requires stream.Valid() && stream.pos == 420 && |roster| == 4
    modifies stream
    ensures stream.Valid()
    ensures r.Ok? <==> 584 <= |stream.data|
    ensures r.Err? ==> r.error == Underflow
    ensures r.Ok? ==> stream.pos == 584 && r.value == WithNames(stream.data, roster)
  {
    ghost var w := stream.data;
    var players := roster;
    for i := 0 to 4
      invariant stream.Valid() && stream.pos == 420 + 31 * i
      invariant |players| == 4
      invariant forall j | 0 <= j < 4 :: players[j] == if j < i then roster[j].(displayName := Some(NameAt(w, j))) else roster[j]
    {
      var nameBytes :- stream.Take(31);
      players := players[i := players[i].(displayName := Some(ZeroTruncate(nameBytes, 30)))];
    }
    ghost var named := players;
    for i := 0 to 4
      invariant stream.Valid() && stream.pos == 544 + 10 * i
      invariant |players| == 4
      invariant forall j | 0 <= j < 4 :: players[j] == if j < i then named[j].(connectCode := Some(CodeAt(w, j))) else named[j]
    {
      var codeBytes :- stream.Take(10);
      players := players[i := players[i].(connectCode := Some(ZeroTruncate(codeBytes, 10)))];
    }
    return Ok(players);
  }

  /** The match id (51 bytes, cut at 50, which must be UTF-8), game number and tiebreak number
      (version 3.14.0 on). */
  method ReadMatchSection(stream: Stream) returns (r: Result<(seq<byte>, nat, nat)>)
    requires stream.Valid() && stream.pos == 701
    modifies stream
    ensures stream.Valid()
    ensures r.Ok? <==> 760 <= |stream.data| && ValidUtf8(MatchIdAt(stream.data))
    ensures r.Err? ==> r.error == if 752 <= |stream.data| && !ValidUtf8(MatchIdAt(stream.data)) then InvalidUtf8 else Underflow
    ensures r.Ok? ==>
      stream.pos == 760
      && r.value == (MatchIdAt(stream.data), UIntAt(stream.data, 752, 4), UIntAt(stream.data, 756, 4))
  {
    var idBytes :- stream.Take(51);
    var matchId := ZeroTruncate(idBytes, 50);
    if !ValidUtf8(matchId) {
      return Err(InvalidUtf8);
    }
    var gameNumber :- stream.GetUInt(4);
    var tiebreakNumber :- stream.GetUInt(4);
    return Ok((matchId, gameNumber, tiebreakNumber));
  }

  /** The cascade's gates ascend: each one implies the one before it. */
  lemma CascadeGates(v: Version)
    ensures v.AtLeast(3, 14, 0) ==> v.AtLeast(3, 12, 0)
    ensures v.AtLeast(3, 12, 0) ==> v.AtLeast(3, 11, 0)
    ensures v.AtLeast(3, 11, 0) ==> v.AtLeast(3, 9, 0)
    ensures v.AtLeast(3, 9, 0) ==> v.AtLeast(3, 7, 0)
    ensures v.AtLeast(3, 7, 0) ==> v.AtLeast(2, 0, 0)
    ensures v.AtLeast(2, 0, 0) ==> v.AtLeast(1, 5, 0)
    ensures v.AtLeast(1, 5, 0) ==> v.AtLeast(1, 3, 0)
    ensures v.AtLeast(1, 3, 0) ==> v.AtLeast(1, 0, 0)
  {
  }

  /** The sections gated from 1.0.0 to 3.7.0, returning at the first gate the version does not reach:
      controller fixes (1.0.0), in-game tags (1.3.0, skipped), PAL (1.5.0), frozen stadium (2.0.0) and
      netplay (3.7.0, after the skipped minor scene byte). */
  method ReadEarlySections(stream: Stream, roster: seq<Player>, version: Version)
    returns (r: Result<(seq<Player>, (Option<bool>, Option<bool>, Option<bool>))>)
    requires stream.Valid() && stream.pos == 320 && |roster| == 4 && version.AtLeast(1, 0, 0)
    modifies stream
    ensures stream.Valid()
    ensures r.Ok? <==> EarlyEnd(version) <= |stream.data| && forall j | 0 <= j < 4 :: UcfAt(stream.data, j).Some?
    ensures r.Err? ==> r.error == match UcfFailure(stream.data, 0) case Some(f) => f case None => Underflow
    ensures r.Ok? ==>
      && stream.pos == EarlyEnd(version)
      && r.value.0 == WithUcf(stream.data, roster)
      && r.value.1 == Settings(stream.data, version)
  {
    CascadeGates(version);
    var players :- ReadUcfSection(stream, roster);
    if !version.AtLeast(1, 3, 0) {
      return Ok((players, (None, None, None)));
    }
    :- stream.Advance(64);
    if !version.AtLeast(1, 5, 0) {
      return Ok((players, (None, None, None)));
    }
    var palByte :- stream.GetU8();
    if !version.AtLeast(2, 0, 0) {
      return Ok((players, (Some(palByte != 0), None, None)));
    }
    var frozenByte :- stream.GetU8();
    if !version.AtLeast(3, 7, 0) {
      return Ok((players, (Some(palByte != 0), Some(frozenByte != 0), None)));
    }
    :- stream.Advance(1);
    var sceneByte :- stream.GetU8();
    return Ok((players, (Some(palByte != 0), Some(frozenByte != 0), Some(sceneByte == 8))));
  }

  /** The sections gated from 3.9.0 on, returning at the first gate the version does not reach: display
      names and connect codes (3.9.0), user ids (3.11.0, skipped), language (3.12.0, skipped), match id,
      game and tiebreak numbers (3.14.0). */
  method ReadLateSections(stream: Stream, roster: seq<Player>, version: Version)
    returns (r: Result<(seq<Player>, Option<(seq<byte>, nat, nat)>)>)
    requires stream.Valid() && stream.pos == 420 && |roster| == 4 && version.AtLeast(3, 9, 0)
    modifies stream
    ensures stream.Valid()
    ensures r.Ok? <==>
      GameStartSize(version) <= |stream.data| && (version.AtLeast(3, 14, 0) ==> ValidUtf8(MatchIdAt(stream.data)))
    ensures r.Err? ==>
      r.error == if version.AtLeast(3, 14, 0) && 752 <= |stream.data| && !ValidUtf8(MatchIdAt(stream.data)) then InvalidUtf8 else Underflow
    ensures r.Ok? ==>
      var w, v := stream.data, version;
      && stream.pos == GameStartSize(v)
      && r.value.0 == WithNames(w, roster)
      && r.value.1 == MatchFields(w, v)
  {
    CascadeGates(version);
    var players :- ReadNameSection(stream, roster);
    if !version.AtLeast(3, 11, 0) {
      return Ok((players, None));
    }
    :- stream.Advance(29 * 4);
    if !version.AtLeast(3, 12, 0) {
      return Ok((players, None));
    }
    :- stream.Advance(1);
    if !version.AtLeast(3, 14, 0) {
      return Ok((players, None));
    }
    var matchFields :- ReadMatchSection(stream);
    return Ok((players, Some(matchFields)));
  }

  /** The version cascade after the random seed, returning at the first gate the version does not
      reach: nothing before 1.0.0, the sections up to netplay before 3.9.0, and all of them from then on.
      Gives the roster with its sections applied, the settings and the match fields. */
  method ReadSections(stream: Stream, roster: seq<Player>, version: Version)
    returns (r: Result<(seq<Player>, (Option<bool>, Option<bool>, Option<bool>), Option<(seq<byte>, nat, nat)>)>)
    requires stream.Valid() && stream.pos == 320 && |roster| == 4
    modifies stream
    ensures stream.Valid()
    ensures r.Ok? <==> SectionsReadable(stream.data, version)
    ensures r.Err? ==> r.error == SectionsFailure(stream.data, version)
    ensures r.Ok? ==>
      && stream.pos == GameStartSize(version)
      && r.value == (Sectioned(stream.data, version, roster), Settings(stream.data, version), MatchFields(stream.data, version))
  {
    CascadeGates(version);
    if !version.AtLeast(1, 0, 0) {
      return Ok((roster, (None, None, None), None));
    }
    var early :- ReadEarlySections(stream, roster, version);
    if !version.AtLeast(3, 9, 0) {
      return Ok((early.0, early.1, None));
    }
    var late :- ReadLateSections(stream, early.0, version);
    return Ok((late.0, early.1, late.1));
  }

  /** `GameStart::parse`. Reads the header, the four 36-byte player blocks and the random seed, then
      walks the version cascade. A short window, an unknown stage, an invalid controller fix or a match
      id that is not UTF-8 stops decoding. */
  method ParseGameStart(window: seq<byte>, t: Tables) returns (r: Result<Decoded<StartInfo>>)
    ensures r.Ok? <==> StartReadable(window, t)
    ensures r.Ok? ==>
      var v := VersionAt(window);
      r.value == Decoded(StartInfo(StartAt(window, v), v, PlayersAt(window, v, t)), GameStartSize(v),
                         AllBlockWarnings(window, 4))
    ensures r.Err? ==> r.error == StartFailure(window, t)
  {
    var stream := new Stream(window);
    var header :- ReadHeader(stream, t);
    var info :- ReadStartBody(stream, t, header);
    return Ok(info);
  }

  /** Everything after the header: the player blocks, the random seed and the version cascade. */
  method ReadStartBody(stream: Stream, t: Tables, header: Header) returns (r: Result<Decoded<StartInfo>>)
    requires stream.Valid() && stream.pos == 100 && |stream.data| >= 100
    requires header.version == VersionAt(stream.data) && header.stage == UIntAt(stream.data, 18, 2)
    requires (header.teams <==> stream.data[12] != 0) && header.timerSeconds == UIntAt(stream.data, 20, 4)
    requires header.damageRatio == F32At(stream.data, 52)
    modifies stream
    ensures r.Ok? <==> SectionsReadable(stream.data, header.version)
    ensures r.Ok? ==>
      var w, v := stream.data, header.version;
      r.value == Decoded(StartInfo(StartAt(w, v), v, PlayersAt(w, v, t)), GameStartSize(v), AllBlockWarnings(w, 4))
    ensures r.Err? ==> r.error == if |stream.data| < 320 then Underflow else SectionsFailure(stream.data, header.version)
  {
    var version := header.version;
    var roster :- ReadRoster(stream, t);
    :- stream.Advance(72);
    var randomSeed :- stream.GetUInt(4);
    var sections :- ReadSections(stream, roster.0, version);
    var (players, (pal, frozen, netplay), matchFields) := sections;
    var start := GameStart.GameStart(randomSeed, header.teams, header.stage, header.timerSeconds,
      header.damageRatio, pal, frozen, netplay, [], Unknown, None, None);
    if matchFields.Some? {
      var (matchId, gameNumber, tiebreakNumber) := matchFields.value;
      start := start.(matchId := matchId, matchType := MatchTypeOf(matchId),
        gameNumber := Some(gameNumber), tiebreakNumber := Some(tiebreakNumber));
    }
    return Ok(Decoded(StartInfo(start, version, players), stream.pos, roster.1));
  }
}
