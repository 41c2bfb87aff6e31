/**
 * Waypoints of a star system: their type, with the wire names the server
 * uses for it, and the traits that tell markets and shipyards apart.
 */
module Systems {
  import opened Wrappers
  import opened SystemSymbols

  /** The kinds of waypoint, in declaration order. */
  datatype WaypointType =
    | Planet
    | GasGiant
    | Moon
    | OrbitalStation
    | JumpGate
    | AsteroidField
    | Nebula
    | DebrisField
    | GravityWell
  {
    /**
     * The name on the wire: the variant's name in SCREAMING_SNAKE_CASE, so
     * only capital letters and underscores, starting with a letter.
     */
    function Name(): (r: string)
      ensures |r| > 0 && 'A' <= r[0] <= 'Z'
      ensures forall k :: 0 <= k < |r| ==> 'A' <= r[k] <= 'Z' || r[k] == '_'
    {
      match this
      case Planet => "PLANET"
      case GasGiant => "GAS_GIANT"
      case Moon => "MOON"
      case OrbitalStation => "ORBITAL_STATION"
      case JumpGate => "JUMP_GATE"
      case AsteroidField => "ASTEROID_FIELD"
      case Nebula => "NEBULA"
      case DebrisField => "DEBRIS_FIELD"
      case GravityWell => "GRAVITY_WELL"
    }
  }

  /** Reads a waypoint type from its wire name; any other text is rejected. */
  function ParseWaypointType(s: string): (r: Option<WaypointType>)
    ensures r.Some? ==> r.value.Name() == s
    ensures r.None? ==> forall t: WaypointType :: t.Name() != s
  {
    if s == "PLANET" then Some(Planet)
    else if s == "GAS_GIANT" then Some(GasGiant)
    else if s == "MOON" then Some(Moon)
    else if s == "ORBITAL_STATION" then Some(OrbitalStation)
    else if s == "JUMP_GATE" then Some(JumpGate)
    else if s == "ASTEROID_FIELD" then Some(AsteroidField)
    else if s == "NEBULA" then Some(Nebula)
    else if s == "DEBRIS_FIELD" then Some(DebrisField)
    else if s == "GRAVITY_WELL" then Some(GravityWell)
    else None
  }

  /** Decoding inverts encoding. */
  lemma ParseName(t: WaypointType)
    ensures ParseWaypointType(t.Name()) == Some(t)
  {
  }

  /** Encoding is injective: no two types share a wire name. */
  lemma NameInjective(t: WaypointType, u: WaypointType)
    requires t.Name() == u.Name()
    ensures t == u
  {
    ParseName(t);
    ParseName(u);
  }

  // ---------------------------------------------------------------------------
  // Waypoints and their traits.

  datatype WaypointTrait = WaypointTrait(symbol: string, name: string, description: string)

  /** The part of a waypoint that a system listing carries. */
  datatype WaypointReference = WaypointReference(symbol: WaypointSymbol, waypointType: WaypointType, x: int, y: int)

  datatype Waypoint = Waypoint(reference: WaypointReference, systemSymbol: SystemSymbol, traits: seq<WaypointTrait>) {
    /** `is_market`: the waypoint has a trait with symbol MARKETPLACE. */
    predicate IsMarket()
      ensures IsMarket() <==> "MARKETPLACE" in TraitSymbols(traits)
    {
      Find(traits, "MARKETPLACE").Some?
    }

    /** `is_shipyard`: the waypoint has a trait with symbol SHIPYARD. */
    predicate IsShipyard()
      ensures IsShipyard() <==> "SHIPYARD" in TraitSymbols(traits)
    {
      Find(traits, "SHIPYARD").Some?
    }

    /** `is_jump_gate`: the waypoint's type is JumpGate; traits play no part. */
    predicate IsJumpGate()
      ensures IsJumpGate() <==> reference.waypointType.Name() == "JUMP_GATE"
    {
      ParseName(reference.waypointType);
      reference.waypointType == JumpGate
    }
  }

  /** The symbols among a list of traits. */
  function TraitSymbols(traits: seq<WaypointTrait>): set<string> {
    set t | t in traits :: t.symbol
  }

  /** `traits.iter().find(|t| t.symbol == symbol)`: the first trait with that symbol. */
  function Find(traits: seq<WaypointTrait>, symbol: string): (r: Option<WaypointTrait>)
    ensures r.Some? <==> symbol in TraitSymbols(traits)
    ensures r.Some? ==> r.value in traits && r.value.symbol == symbol
    ensures r.Some? ==> exists k :: 0 <= k < |traits| && traits[k] == r.value && forall j :: 0 <= j < k ==> traits[j].symbol != symbol
  {
    if traits == [] then None
    else if traits[0].symbol == symbol then Some(traits[0])
    else
      var r := Find(traits[1..], symbol);
      assert TraitSymbols(traits) == {traits[0].symbol} + TraitSymbols(traits[1..]) by {
        assert traits == [traits[0]] + traits[1..];
      }
      if r.Some? then
        var k :| 0 <= k < |traits[1..]| && traits[1..][k] == r.value && forall j :: 0 <= j < k ==> traits[1..][j].symbol != symbol;
        assert traits[k + 1] == r.value;
        assert forall j :: 0 <= j < k + 1 ==> traits[j].symbol != symbol by {
          forall j | 0 <= j < k + 1 ensures traits[j].symbol != symbol {
            if j > 0 { assert traits[j] == traits[1..][j - 1]; }
          }
        }
        r
      else
        r
  }

  /**
   * Whether a waypoint is a market or a shipyard depends only on which trait
   * symbols it has: not on their order, repetitions, names or descriptions.
   */
  lemma ClassificationBySymbols(w: Waypoint, v: Waypoint)
    requires TraitSymbols(w.traits) == TraitSymbols(v.traits)
    ensures w.IsMarket() == v.IsMarket()
    ensures w.IsShipyard() == v.IsShipyard()
  {
  }

  /** Changing a waypoint's traits never changes whether it is a jump gate. */
  lemma JumpGateIgnoresTraits(w: Waypoint, traits: seq<WaypointTrait>)
    ensures w.(traits := traits).IsJumpGate() == w.IsJumpGate()
  {
  }
}
