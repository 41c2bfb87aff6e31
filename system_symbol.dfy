/**
 * Hyphen-separated coordinate symbols: a sector ("X1"), a system inside it
 * ("X1-DF55") and a waypoint inside that ("X1-DF55-20250Z"). Each symbol is
 * parsed by splitting its text on '-' and accepting exactly one, two or
 * three segments.
 */
module SystemSymbols {
  import opened Wrappers

  /** The separator between the coordinates of a symbol. */
  const Hyphen: char := '-'

  datatype SystemError = InvalidCoordinates {
    function Message(): string {
      "coordinates are improperly formatted"
    }
  }

  predicate HyphenFree(s: string) {
    Hyphen !in s
  }

  /** The number of hyphens in s. */
  function Hyphens(s: string): nat {
    if s == [] then 0 else (if s[0] == Hyphen then 1 else 0) + Hyphens(s[1..])
  }

  lemma {:induction false} HyphensAppend(a: string, b: string)
    ensures Hyphens(a + b) == Hyphens(a) + Hyphens(b)
  {
    if a == [] {
      assert a + b == b;
    } else {
      assert (a + b)[1..] == a[1..] + b;
      HyphensAppend(a[1..], b);
    }
  }

  lemma {:induction false} HyphenFreeHasNone(s: string)
    ensures HyphenFree(s) <==> Hyphens(s) == 0
  {
    if s != [] {
      HyphenFreeHasNone(s[1..]);
      assert s == [s[0]] + s[1..];
    }
  }

  /** The position of the first hyphen of s. */
  function FirstHyphen(s: string): (i: nat)
    requires !HyphenFree(s)
    ensures i < |s| && s[i] == Hyphen && HyphenFree(s[..i])
  {
    if s[0] == Hyphen then 0
    else
      assert s == [s[0]] + s[1..];
      var j := FirstHyphen(s[1..]);
      assert s[..j + 1] == [s[0]] + s[1..][..j];
      j + 1
  }

  /**
   * Glues segments back together with a hyphen between neighbours; the
   * `format!("{}-{}", ..)` of the constructors is Join of two or three
   * segments.
   */
  function Join(parts: seq<string>): string {
    if parts == [] then ""
    else if |parts| == 1 then parts[0]
    else parts[0] + [Hyphen] + Join(parts[1..])
  }

  /**
   * The segments of s between its hyphens, empty segments included, the way
   * `s.split("-").collect()` gives them: "" splits into [""] and "X1-" into
   * ["X1", ""].
   */
  function Split(s: string): (parts: seq<string>)
    ensures |parts| == Hyphens(s) + 1
    ensures forall k :: 0 <= k < |parts| ==> HyphenFree(parts[k])
    ensures Join(parts) == s
    decreases |s|
  {
    if HyphenFree(s) then
      HyphenFreeHasNone(s);
      [s]
    else
      var i := FirstHyphen(s);
      var rest := Split(s[i + 1..]);
      assert s == s[..i] + [Hyphen] + s[i + 1..];
      HyphensAppend(s[..i] + [Hyphen], s[i + 1..]);
      HyphensAppend(s[..i], [Hyphen]);
      HyphenFreeHasNone(s[..i]);
      assert ([s[..i]] + rest)[1..] == rest;
      [s[..i]] + rest
  }

  /** Splitting undoes joining any non-empty list of hyphen-free segments. */
  lemma {:induction false} SplitJoin(parts: seq<string>)
    requires |parts| >= 1
    requires forall k :: 0 <= k < |parts| ==> HyphenFree(parts[k])
    ensures Split(Join(parts)) == parts
  {
    if |parts| > 1 {
      var head, tail := parts[0], Join(parts[1..]);
      var s := head + [Hyphen] + tail;
      assert Join(parts) == s;
      FirstHyphenAfter(head, tail);
      assert s[..|head|] == head;
      assert s[|head| + 1..] == tail;
      assert Split(s) == [head] + Split(tail);
      SplitJoin(parts[1..]);
      assert parts == [head] + parts[1..];
    }
  }

  /** In head + "-" + tail with a hyphen-free head, the first hyphen is the one after head. */
  lemma FirstHyphenAfter(head: string, tail: string)
    requires HyphenFree(head)
    ensures !HyphenFree(head + [Hyphen] + tail)
    ensures FirstHyphen(head + [Hyphen] + tail) == |head|
  {
    var s := head + [Hyphen] + tail;
    assert s[|head|] == Hyphen;
  }

  /** whole is prefix, a hyphen and one more hyphen-free segment. */
  predicate Extends(prefix: string, whole: string) {
    && |prefix| < |whole|
    && whole[..|prefix|] == prefix
    && whole[|prefix|] == Hyphen
    && HyphenFree(whole[|prefix| + 1..])
  }

  lemma ExtendsJoin(prefix: string, segment: string)
    requires HyphenFree(segment)
    ensures Extends(prefix, prefix + [Hyphen] + segment)
  {
    var whole := prefix + [Hyphen] + segment;
    assert whole[|prefix| + 1..] == segment;
  }

  /** The segment that Extends(prefix, whole) adds after prefix and its hyphen. */
  lemma ExtendsParts(prefix: string, whole: string)
    requires Extends(prefix, whole)
    ensures whole == prefix + [Hyphen] + whole[|prefix| + 1..]
  {
  }

  /** Extending a text by one segment adds exactly one hyphen. */
  lemma HyphensExtends(prefix: string, whole: string)
    requires Extends(prefix, whole)
    ensures Hyphens(whole) == Hyphens(prefix) + 1
  {
    var segment := whole[|prefix| + 1..];
    ExtendsParts(prefix, whole);
    HyphensAppend(prefix + [Hyphen], segment);
    HyphensAppend(prefix, [Hyphen]);
    HyphenFreeHasNone(segment);
  }

  datatype SectorSymbol = SectorSymbol(sector: string) {
    /** Every value that NewSector builds; the field is private in the client. */
    predicate Valid() {
      HyphenFree(sector)
    }

    /**
     * The string form used by `Into<String>` and serialisation: for a valid
     * symbol it has no hyphen, so NewSector accepts it.
     */
    function Into(): (r: string)
      ensures Valid() ==> Hyphens(r) == 0
    {
      HyphenFreeHasNone(sector);
      sector
    }

    /** `Display` and `Debug` both write the sector text. */
    function Display(): (r: string)
      ensures r == Into()
    {
      sector
    }
  }

  datatype SystemSymbol = SystemSymbol(sector: string, system: string) {
    predicate Valid() {
      HyphenFree(sector) && Extends(sector, system)
    }

    /** The string form: for a valid symbol it has one hyphen, so NewSystem accepts it. */
    function Into(): (r: string)
      ensures Valid() ==> Hyphens(r) == 1
    {
      if Valid() then
        HyphenFreeHasNone(sector);
        HyphensExtends(sector, system);
        system
      else
        system
    }

    function Display(): (r: string)
      ensures r == Into()
    {
      system
    }

    /** `sector_symbol()`: re-parses the stored sector; the unwrap never fails. */
    function ToSectorSymbol(): (r: SectorSymbol)
      requires Valid()
      ensures r.Valid() && r.sector == sector
    {
      var parsed := NewSector(sector);
      parsed.value
    }
  }

  datatype WaypointSymbol = WaypointSymbol(sector: string, system: string, waypoint: string) {
    predicate Valid() {
      HyphenFree(sector) && Extends(sector, system) && Extends(system, waypoint)
    }

    /**
     * The string form: for a valid symbol it has two hyphens, so NewWaypoint
     * accepts it, and it starts with the system text, itself starting with
     * the sector text.
     */
    function Into(): (r: string)
      ensures Valid() ==> Hyphens(r) == 2 && system <= r && sector <= r
    {
      if Valid() then
        HyphenFreeHasNone(sector);
        HyphensExtends(sector, system);
        HyphensExtends(system, waypoint);
        waypoint
      else
        waypoint
    }

    function Display(): (r: string)
      ensures r == Into()
    {
      waypoint
    }

    /** `sector_symbol()`: re-parses the stored sector; the unwrap never fails. */
    function ToSectorSymbol(): (r: SectorSymbol)
      requires Valid()
      ensures r.Valid() && r.sector == sector
    {
      var parsed := NewSector(sector);
      parsed.value
    }

    /** `system_symbol()`: re-parses the stored system; the unwrap never fails. */
    function ToSystemSymbol(): (r: SystemSymbol)
      requires Valid()
      ensures r.Valid() && r.sector == sector && r.system == system
    {
      var parsed := NewSystem(system);
      parsed.value
    }
  }

  /** `SectorSymbol::new`: accepts exactly one segment. */
  function NewSector(s: string): (r: Result<SectorSymbol, SystemError>)
    ensures r.Ok? <==> Hyphens(s) == 0
    ensures r.Ok? ==> r.value.Valid() && r.value.sector == s
  {
    var parts := Split(s);
    if |parts| == 1 then
      assert s == parts[0];
      Ok(SectorSymbol(parts[0]))
    else
      Err(InvalidCoordinates)
  }

  /** `SystemSymbol::new`: accepts exactly two segments; the sector is the text before the hyphen. */
  function NewSystem(s: string): (r: Result<SystemSymbol, SystemError>)
    ensures r.Ok? <==> Hyphens(s) == 1
    ensures r.Ok? ==> r.value.Valid() && r.value.system == s
    ensures r.Ok? ==> !HyphenFree(s) && r.value.sector == s[..FirstHyphen(s)]
  {
    var parts := Split(s);
    if |parts| == 2 then
      var sector, system := parts[0], parts[0] + [Hyphen] + parts[1];
      assert parts == [parts[0], parts[1]];
      assert Join(parts[1..]) == parts[1];
      FirstHyphenAfter(sector, parts[1]);
      ExtendsJoin(sector, parts[1]);
      Ok(SystemSymbol(sector, system))
    else
      Err(InvalidCoordinates)
  }

  /** `WaypointSymbol::new`: accepts exactly three segments. */
  function NewWaypoint(s: string): (r: Result<WaypointSymbol, SystemError>)
    ensures r.Ok? <==> Hyphens(s) == 2
    ensures r.Ok? ==> r.value.Valid() && r.value.waypoint == s
    ensures r.Ok? ==> !HyphenFree(s) && r.value.sector == s[..FirstHyphen(s)]
  {
    var parts := Split(s);
    if |parts| == 3 then
      var sector := parts[0];
      var system := parts[0] + [Hyphen] + parts[1];
      var waypoint := system + [Hyphen] + parts[2];
      assert parts == [parts[0], parts[1], parts[2]];
      JoinThree(parts[0], parts[1], parts[2]);
      assert waypoint == s;
      assert s == sector + [Hyphen] + (parts[1] + [Hyphen] + parts[2]);
      FirstHyphenAfter(sector, parts[1] + [Hyphen] + parts[2]);
      ExtendsJoin(sector, parts[1]);
      ExtendsJoin(system, parts[2]);
      Ok(WaypointSymbol(sector, system, waypoint))
    else
      Err(InvalidCoordinates)
  }

  /** Deserialising the serialised form gives the symbol back (`try_from(into(x)) == x`). */
  lemma SectorRoundTrip(x: SectorSymbol)
    requires x.Valid()
    ensures NewSector(x.Into()) == Ok(x)
  {
    HyphenFreeHasNone(x.sector);
  }

  lemma SystemRoundTrip(x: SystemSymbol)
    requires x.Valid()
    ensures NewSystem(x.Into()) == Ok(x)
  {
    var segment := x.system[|x.sector| + 1..];
    ExtendsParts(x.sector, x.system);
    assert Join([x.sector, segment]) == x.system;
    SplitJoin([x.sector, segment]);
  }

  lemma WaypointRoundTrip(x: WaypointSymbol)
    requires x.Valid()
    ensures NewWaypoint(x.Into()) == Ok(x)
  {
    var second := x.system[|x.sector| + 1..];
    var third := x.waypoint[|x.system| + 1..];
    ExtendsParts(x.sector, x.system);
    ExtendsParts(x.system, x.waypoint);
    JoinThree(x.sector, second, third);
    SplitJoin([x.sector, second, third]);
  }

  lemma JoinThree(a: string, b: string, c: string)
    ensures Join([a, b, c]) == a + [Hyphen] + b + [Hyphen] + c
  {
    assert [a, b, c][1..] == [b, c];
    assert [b, c][1..] == [c];
    assert Join([b, c]) == b + [Hyphen] + c;
    assert Join([a, b, c]) == a + [Hyphen] + (b + [Hyphen] + c);
  }

  /** A valid waypoint is determined by its text: sector and system are forced. */
  lemma WaypointDeterminedByText(x: WaypointSymbol, y: WaypointSymbol)
    requires x.Valid() && y.Valid() && x.waypoint == y.waypoint
    ensures x == y
  {
    WaypointRoundTrip(x);
    WaypointRoundTrip(y);
  }

  /**
   * The symbols derived from a waypoint agree with each other: its system's
   * system text is its own, its sector symbol is its system's sector symbol,
   * and sector, system and waypoint text are prefixes of each other.
   */
  lemma WaypointDerivationsAgree(w: WaypointSymbol)
    requires w.Valid()
    ensures w.ToSystemSymbol().system == w.system
    ensures w.ToSectorSymbol() == w.ToSystemSymbol().ToSectorSymbol()
    ensures w.sector <= w.system <= w.waypoint
  {
  }

  /** Only the hyphen count is checked: empty segments are accepted. */
  lemma EmptySegmentsAccepted()
    ensures NewSector("") == Ok(SectorSymbol(""))
    ensures NewSystem("X1-") == Ok(SystemSymbol("X1", "X1-"))
    ensures NewWaypoint("--") == Ok(WaypointSymbol("", "-", "--"))
  {
    SplitJoin([""]);
    assert Join(["X1", ""]) == "X1-";
    SplitJoin(["X1", ""]);
    assert Join(["", "", ""]) == "--";
    SplitJoin(["", "", ""]);
  }

  /** The client's own example: "X1-DF55-20250Z" parses into its three prefixes. */
  lemma ExampleWaypoint()
    ensures NewWaypoint("X1-DF55-20250Z") == Ok(WaypointSymbol("X1", "X1-DF55", "X1-DF55-20250Z"))
    ensures NewWaypoint("X1-DF55-20250Z").value.ToSystemSymbol().system == "X1-DF55"
    ensures NewWaypoint("X1-DF55-20250Z").value.ToSectorSymbol().sector == "X1"
  {
    var w := WaypointSymbol("X1", "X1-DF55", "X1-DF55-20250Z");
    ExampleWaypointValid();
    WaypointRoundTrip(w);
  }

  lemma ExampleWaypointValid()
    ensures WaypointSymbol("X1", "X1-DF55", "X1-DF55-20250Z").Valid()
  {
    ExtendsJoin("X1", "DF55");
    ExtendsJoin("X1-DF55", "20250Z");
  }
}
