/** Roster entries as the game-start record describes them, and tournament legality. */
module Players {
  import opened Common
  import opened Bytes
  import opened Melee

  /** Who controls a port. `Empty` is the enum's default. */
  datatype PlayerType = Human | Cpu | Demo | Empty

  /** The `repr(u8)` discriminant of each player type. */
  function PlayerTypeRepr(t: PlayerType): byte {
    match t
    case Human => 0
    case Cpu => 1
    case Demo => 2
    case Empty => 3
  }

  /** `PlayerType::from_repr`: defined exactly on the four discriminants. */
  function PlayerTypeFromRepr(b: byte): (t: Option<PlayerType>)
    ensures t.Some? <==> b < 4
    ensures t.Some? ==> PlayerTypeRepr(t.value) == b
  {
    if b == 0 then Some(Human)
    else if b == 1 then Some(Cpu)
    else if b == 2 then Some(Demo)
    else if b == 3 then Some(Empty)
    else None
  }

  /** Only human and CPU ports produce frame records. */
  predicate IsActive(t: PlayerType) {
    t == Human || t == Cpu
  }

  datatype TeamShade = Normal | Light | Dark

  /** `TeamShade::from_repr` */
  function TeamShadeFromRepr(b: byte): (s: Option<TeamShade>)
    ensures s.Some? <==> b < 3
  {
    if b == 0 then Some(Normal) else if b == 1 then Some(Light) else if b == 2 then Some(Dark) else None
  }

  datatype TeamId = Red | Blue | Green

  /** `TeamID::from_repr` */
  function TeamIdFromRepr(b: byte): (i: Option<TeamId>)
    ensures i.Some? <==> b < 3
  {
    if b == 0 then Some(Red) else if b == 1 then Some(Blue) else if b == 2 then Some(Green) else None
  }

  /** Controller fix setting of one toggle (declared beside the game-start record in the original). */
  datatype ControllerFix = Off | Ucf | Dween

  /** `ControllerFix::from_repr` */
  function ControllerFixFromRepr(b: byte): (f: Option<ControllerFix>)
    ensures f.Some? <==> b < 3
  {
    if b == 0 then Some(Off) else if b == 1 then Some(Ucf) else if b == 2 then Some(Dween) else None
  }

  datatype UcfToggles = UcfToggles(dashback: ControllerFix, shieldDrop: ControllerFix)

  /** One roster slot. The costume is kept as its raw byte (its lookup is external); display name and
      connect code are the zero-truncated bytes before text decoding. */
  datatype Player = Player(
    port: nat,
    kind: PlayerType,
    character: Character,
    startingStocks: byte,
    costume: byte,
    teamShade: TeamShade,
    handicap: byte,
    teamId: TeamId,
    bitfield: byte,
    cpuLevel: byte,
    damageStart: nat,
    damageSpawn: nat,
    offenseRatio: Float32,
    defenseRatio: Float32,
    modelScale: Float32,
    ucf: Option<UcfToggles>,
    connectCode: Option<seq<byte>>,
    displayName: Option<seq<byte>>
  )

  /** The characters no tournament allows. */
  predicate Unplayable(c: Character) {
    c == MasterHand || c == GigaBowser || c == WireframeFemale || c == WireframeMale
  }

  /** `Tournament::is_legal` for a player: an empty port is legal; otherwise only a human playing a
      regular character with 4 stocks, no handicap, no starting or respawn damage, and no bitfield
      bit other than bit 0 set. */
  function IsLegal(p: Player): (legal: bool)
    ensures p.kind == Empty ==> legal
    ensures p.kind == Cpu || p.kind == Demo ==> !legal
    ensures p.kind == Human && Unplayable(p.character) ==> !legal
    ensures p.kind == Human ==>
      (legal <==> !Unplayable(p.character) && p.startingStocks == 4 && p.handicap == 0
                  && p.bitfield <= 1 && p.damageStart == 0 && p.damageSpawn == 0)
  {
    if p.kind == Empty then true
    else
      p.kind == Human
      && !(p.character == MasterHand || p.character == GigaBowser
           || p.character == WireframeFemale || p.character == WireframeMale)
      && p.startingStocks == 4
      && p.handicap == 0
      && (p.bitfield as bv8) >> 1 == 0
      && p.damageSpawn == 0
      && p.damageStart == 0
  }
}
