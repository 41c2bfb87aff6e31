# SpaceTraders client core in Dafny

A model of the decision logic of a Rust client for the SpaceTraders game API,
with proofs about it. It covers three parts of that client.

- **Coordinate symbols** (`system_symbol.dfy`, module `SystemSymbols`).
  Sector, system and waypoint symbols are parsed by splitting their text on
  `-`. A sector has one segment, a system two and a waypoint three. The model
  proves which strings each constructor accepts and that turning a valid
  symbol back into text and parsing it again gives the same symbol. It also
  proves that the `unwrap` in `sector_symbol()` and `system_symbol()` never
  panics, and that the symbols derived from a waypoint agree with one another.
  Rust's `str::split` is modelled by `Split`, which keeps empty segments as
  Rust does. `Split` is proved to be the inverse of `Join`.
- **Requests and pagination** (`api.dfy`, module `Api`).
  The model covers the bearer header, `paginate_path` (a page size capped at
  20, with decimal formatting), the data projection of `get_one`, and the
  accumulation loop of `get_limit`. In `get_limit` the HTTP call becomes the
  parameter `get`, a function from request path to decoded response, and the
  method also returns the page numbers it asked for. Its contract pins down
  which pages are requested, which error is returned, and which items come
  back. It also proves that stopping early changes nothing: when every page
  below the bound can be fetched, the result is the first `limit` items of
  the first page followed by pages 2 .. `total / limit`.
- **Waypoint classification** (`system.dfy`, module `Systems`).
  The wire names of `WaypointType`, and `is_market`, `is_shipyard` and
  `is_jump_gate`.

`wrappers.dfy` holds `Option`, `Result`, `Min` and `Max`.

Symbol values in the client can only be built by `new`, because their fields
are private and deserialisation goes through `try_from`, which calls `new`.
Each symbol datatype therefore has a `Valid()` predicate: the invariant every
value built by `new` satisfies. Members that rely on that invariant require it.

The page bound in `get_limit` is computed as `meta.total / meta.limit + 1` and
used as an exclusive bound. `Api.PageCountCoversIffDivisible` proves that the
requested pages cover all `total` items only when `total` is a multiple of the
page size. Otherwise the last, partial page is never requested: with 25 items
at 20 per page only page 1 is fetched (`Api.PageCountExample`). The model
keeps the formula as written.

Follow-up pages always start at 2, whatever first page was passed in. The
model keeps that too.

## Model

| member | source | states |
|---|---|---|
| `SystemSymbols.Split` | api/src/types/system_symbol.rs:55 | splitting on `-` gives one more segment than there are hyphens; every segment is hyphen-free; joining the segments with `-` gives back the input |
| `SystemSymbols.SplitJoin` | api/src/types/system_symbol.rs:55 | splitting undoes joining any non-empty list of hyphen-free segments |
| `SystemSymbols.NewSector` | api/src/types/system_symbol.rs:54-61 | succeeds iff the text has no hyphen; the sector is then the text itself and valid; otherwise `InvalidCoordinates` |
| `SystemSymbols.NewSystem` | api/src/types/system_symbol.rs:104-113 | succeeds iff the text has exactly one hyphen; the system is then the whole text, the sector is the text before the hyphen, and the symbol is valid; otherwise `InvalidCoordinates` |
| `SystemSymbols.NewWaypoint` | api/src/types/system_symbol.rs:163-172 | succeeds iff the text has exactly two hyphens; the waypoint is then the whole text, the sector is the text before the first hyphen, and sector, system and waypoint are its 1-, 2- and 3-segment prefixes (`Valid`); otherwise `InvalidCoordinates` |
| `SystemSymbols.SectorRoundTrip` | api/src/types/system_symbol.rs:27-39 | parsing the string form of a valid sector symbol gives the same symbol back |
| `SystemSymbols.SystemRoundTrip` | api/src/types/system_symbol.rs:77-89 | parsing the string form of a valid system symbol gives the same symbol back |
| `SystemSymbols.WaypointRoundTrip` | api/src/types/system_symbol.rs:136-148 | parsing the string form of a valid waypoint symbol gives the same symbol back |
| `SystemSymbols.WaypointDeterminedByText` | api/src/types/system_symbol.rs:163-172 | two valid waypoint symbols with the same text are equal: the sector and system are forced by the text |
| `SystemSymbols.SectorSymbol.Into` | api/src/types/system_symbol.rs:35-39 | the text of a valid sector symbol has no hyphen, so `new` accepts it |
| `SystemSymbols.SystemSymbol.Into` | api/src/types/system_symbol.rs:85-89 | the text of a valid system symbol has exactly one hyphen, so `new` accepts it |
| `SystemSymbols.WaypointSymbol.Into` | api/src/types/system_symbol.rs:144-148 | the text of a valid waypoint symbol has exactly two hyphens and starts with its system text, which starts with its sector text |
| `SystemSymbols.SectorSymbol.Display` | api/src/types/system_symbol.rs:41-51 | `Display` and `Debug` write the same text as `Into<String>` |
| `SystemSymbols.SystemSymbol.Display` | api/src/types/system_symbol.rs:91-101 | `Display` and `Debug` write the same text as `Into<String>` |
| `SystemSymbols.WaypointSymbol.Display` | api/src/types/system_symbol.rs:150-160 | `Display` and `Debug` write the same text as `Into<String>` |
| `SystemSymbols.SystemSymbol.ToSectorSymbol` | api/src/types/system_symbol.rs:119-121 | on a valid system symbol the re-parse of its sector succeeds (the `unwrap` cannot panic) and yields a valid sector with the same text |
| `SystemSymbols.WaypointSymbol.ToSectorSymbol` | api/src/types/system_symbol.rs:179-181 | on a valid waypoint symbol the re-parse of its sector succeeds and yields a valid sector with the same text |
| `SystemSymbols.WaypointSymbol.ToSystemSymbol` | api/src/types/system_symbol.rs:187-189 | on a valid waypoint symbol the re-parse of its system succeeds and yields a valid system symbol with the same sector and system |
| `SystemSymbols.WaypointDerivationsAgree` | api/src/types/system_symbol.rs:179-189 | the derived system symbol has the waypoint's system; the sector symbol of the waypoint equals that of its system symbol; sector, system and waypoint text are prefixes of one another |
| `SystemSymbols.EmptySegmentsAccepted` | api/src/types/system_symbol.rs:55-57 | only the hyphen count is checked: `""`, `"X1-"` and `"--"` are accepted as sector, system and waypoint |
| `SystemSymbols.ExampleWaypoint` | api/src/types/system_symbol.rs:219-237 | `"X1-DF55-20250Z"` parses to sector `"X1"` and system `"X1-DF55"`, and the derived symbols carry the same text |
| `Api.SpaceTradersApi.Authorization` | api/src/api/mod.rs:25-27 | the header is `"Bearer "` followed by the token, which is recoverable as its suffix |
| `Api.AuthorizationInjective` | api/src/api/mod.rs:25-27 | different tokens give different headers |
| `Api.Decimal` | api/src/api/mod.rs:135 | the numeral is a non-empty string of digits, `"0"` for zero and without a leading zero otherwise |
| `Api.DecimalCanonical` | api/src/api/mod.rs:135 | every numeral without leading zeros that reads as `n` is `Decimal(n)`, so `Decimal` is the text `format!` writes |
| `Api.DecimalRoundTrip` | api/src/api/mod.rs:135 | the decimal numeral that `format!` writes for a number reads back as that number |
| `Api.ClampLimit` | api/src/api/mod.rs:130-133 | the page size requested is at most 20; a size of at most 20 is kept, a larger one becomes 20 |
| `Api.PaginatePathReadBack` | api/src/api/mod.rs:129-136 | the request path is the listing path, `?page=`, a canonical numeral that reads as the page, `&limit=` and a canonical numeral that reads as `min(limit, 20)` |
| `Api.PaginatePathInjective` | api/src/api/mod.rs:135 | the request path determines the page and the capped size: distinct pages of one listing have distinct paths |
| `Api.PaginatePathLimitBounded` | api/src/api/mod.rs:129-135 | the size in an emitted path is never above 20 |
| `Api.GetOne` | api/src/api/mod.rs:38-40 | succeeds iff the call succeeds; it then returns the response's `data`; otherwise it passes the call's error through |
| `Api.StartPage` | api/src/api/mod.rs:43-46 | the first page requested is the given page, or 1 |
| `Api.ItemLimit` | api/src/api/mod.rs:48-51 | the item bound is the given limit, or `usize::MAX` |
| `Api.PageCount` | api/src/api/mod.rs:60 | with a non-zero page size, the bound `b` satisfies `(b - 1) * limit <= total < b * limit` |
| `Api.Truncate` | api/src/api/mod.rs:70 | the result is a prefix of the input of length `min(len, n)` |
| `Api.GetLimit` | api/src/api/mod.rs:42-72 | the first request is for the start page, and later ones are for pages 2, 3, ... in order. If the first call fails, its error is returned. Without `meta`, only the first page is fetched and its first `limit` items are returned. With `meta`, follow-up pages stay below the page bound, and each one is requested only while all earlier pages succeeded and fewer than `limit` items were gathered. The loop stops as soon as that no longer holds. The result is the first error among the pages fetched, or the first `limit` items of everything fetched. When every page below the bound succeeds, it is the first `limit` items of the first page followed by pages 2 .. `total / limit` (not necessarily the whole listing: the partial last page and, for a start page other than 1, the pages before it are not included). It never has more than `limit` items. The page numbers requested are a ghost output of the model only |
| `Api.FetchFollowUps` | api/src/api/mod.rs:59-68 | asks for pages 2, 3, ... in order; each is asked for only while all earlier follow-ups succeeded and fewer than `limit` items were gathered, and the loop stops at the page bound or once that fails; the result is the first page's items followed by the follow-ups' items, or the first follow-up error |
| `Api.EarlyStopInvisible` | api/src/api/mod.rs:61-70 | when every page can be fetched, stopping at a page where the guard fails gives the same answer as fetching every page below the bound and truncating |
| `Api.FollowUpsErrPersists` | api/src/api/mod.rs:62-64 | once a follow-up page fails, every longer run of pages fails too (the `?` stops the loop) |
| `Api.FollowUpsSplit` | api/src/api/mod.rs:66 | when a run of pages succeeds, its items are those of any earlier part followed by those of the rest |
| `Api.PageCountCoversIffDivisible` | api/src/api/mod.rs:59-61 | pages below the bound cover all `total` items iff `total` is a multiple of the page size |
| `Api.PageCountExample` | api/src/api/mod.rs:60 | with 25 items at 20 per page the bound is 2, so only page 1 is requested |
| `Systems.WaypointType.Name` | api/src/types/system.rs:195-207 | every wire name is non-empty, starts with a capital letter and holds only capital letters and underscores, as SCREAMING_SNAKE_CASE does |
| `Systems.ParseWaypointType` | api/src/types/system.rs:195-207 | a name that parses is the wire name of the type it parses to; a name that is no type's wire name is rejected |
| `Systems.ParseName` | api/src/types/system.rs:195-207 | decoding the wire name of any type gives that type back |
| `Systems.NameInjective` | api/src/types/system.rs:195-207 | no two waypoint types share a wire name |
| `Systems.Find` | api/src/types/system.rs:43 | finds a trait iff one has the symbol; the trait found has that symbol and is the first one that does |
| `Systems.Waypoint.IsMarket` | api/src/types/system.rs:42-44 | true iff some trait has symbol `MARKETPLACE` |
| `Systems.Waypoint.IsShipyard` | api/src/types/system.rs:46-48 | true iff some trait has symbol `SHIPYARD` |
| `Systems.Waypoint.IsJumpGate` | api/src/types/system.rs:50-52 | true iff the waypoint's type is the one named `JUMP_GATE` |
| `Systems.ClassificationBySymbols` | api/src/types/system.rs:42-48 | waypoints with the same set of trait symbols agree on being a market and on being a shipyard, whatever the order, duplicates, names or descriptions of their traits |
| `Systems.JumpGateIgnoresTraits` | api/src/types/system.rs:50-52 | replacing a waypoint's traits does not change whether it is a jump gate |

## Left out

- `ActionRateLimiter::invoke` (api/src/rate_limiter.rs) awaits `f(&self.component)` and returns what `f` returns. It keeps no quota, refill or queue state, so there is nothing to model beyond that.
- HTTP and JSON are not modelled: `get`, `post`, `handle_response` and `register` are network calls plus serde decoding. `get_limit` sees them only through the abstract `get` parameter. The base URL and the `Authorization` header attached by `get` are not modelled either.
- `get_all` is `get_limit` with both options `None`. `Api.GetLimit` with `None, None` covers it, so it has no member of its own.
- `Api.GetLimit`: a zero `meta.limit` panics in the source (division by zero), and so does a page bound that overflows `u32` (`total / limit + 1` when `limit == 1` and `total == u32::MAX`, in a debug build). The requires clause excludes both, so the model says nothing about those panics or about release-build wrap-around.
- `Api.GetLimit`: the fetch `get` is a fixed function of the request path, and the contract re-evaluates it instead of recording the responses received. A page asked for twice (page 2 with a start page of 2) therefore gets the same answer both times. Transient failures such as exceeded rate limits, and data changing between requests, are not modelled.
- `Api.GetLimit` is sequential. The `await` points run one after another and are not modelled as concurrency.
- The rename rule behind the wire names (serde's SCREAMING_SNAKE_CASE) is not derived. The names are written out as a table, and the model proves that the table is injective and that parsing inverts it.
- The other enums of api/src/types/system.rs (`SystemType`, `TradeType`, `SupplyType`, `ShipType`) and the plain record types are left out. They are data declarations with no logic.
- `Waypoint` carries the reference (symbol, type, coordinates), the system symbol and the traits. The classification reads only the reference's waypoint type and the traits; the other fields are carried but not read. Orbitals, faction, chart and the chrono timestamps are not modelled.
- `SystemError`'s `Display` text is kept as `SystemError.Message`. No property is stated about it.
- api/src/manager.rs and the examples are not part of this model. They orchestrate remote calls and read environment variables.
- api/src/api/system.rs calls `get_limit` with two arguments, but the function takes three. The model follows the three-argument definition.
