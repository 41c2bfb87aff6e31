/**
 * The request side of the SpaceTraders client: the bearer header, the
 * paginated request path, the projection of a successful response onto its
 * data, and the accumulation of a listing over several pages. The HTTP call
 * itself is the parameter `get`, from a request path to the decoded response.
 */
module Api {
  import opened Wrappers

  type uint32 = x: int | 0 <= x < 0x1_0000_0000

  type usize = x: int | 0 <= x < 0x1_0000_0000_0000_0000

  const U32Max: nat := 0xFFFF_FFFF
  const UsizeMax: usize := 0xFFFF_FFFF_FFFF_FFFF

  /** The largest page size the server accepts. */
  const MaxPageLimit: uint32 := 20

  /** The paging block of a listing response. */
  datatype ApiMeta = ApiMeta(total: uint32, page: uint32, limit: uint32)

  /** A decoded successful response: its payload and, for listings, its paging block. */
  datatype ApiSuccess<T> = ApiSuccess(data: T, meta: Option<ApiMeta>)

  /** The client holds the token it authenticates with. */
  datatype SpaceTradersApi = SpaceTradersApi(token: string) {
    /** The value of the Authorization header. */
    function Authorization(): (r: string)
      ensures |r| == 7 + |token|
      ensures r[..7] == "Bearer " && r[7..] == token
    {
      "Bearer " + token
    }
  }

  /** Different tokens give different headers. */
  lemma AuthorizationInjective(a: SpaceTradersApi, b: SpaceTradersApi)
    requires a.Authorization() == b.Authorization()
    ensures a == b
  {
    assert a.token == a.Authorization()[7..];
  }

  // ---------------------------------------------------------------------------
  // Decimal formatting, as `format!("{}", n)` writes an unsigned integer.

  predicate IsDigit(c: char) {
    '0' <= c <= '9'
  }

  predicate AllDigits(s: string) {
    forall k :: 0 <= k < |s| ==> IsDigit(s[k])
  }

  function Digit(d: nat): (c: char)
    requires d < 10
    ensures IsDigit(c)
  {
    ('0' as int + d) as char
  }

  function DigitValue(c: char): nat
    requires IsDigit(c)
  {
    c as int - '0' as int
  }

  /** The decimal numeral of n, without leading zeros. */
  function Decimal(n: nat): (s: string)
    ensures |s| >= 1 && AllDigits(s)
    ensures n == 0 ==> s == "0"
    ensures n > 0 ==> s[0] != '0'
    decreases n
  {
    if n < 10 then [Digit(n)] else Decimal(n / 10) + [Digit(n % 10)]
  }

  /** Reads a decimal numeral back. */
  function ParseDecimal(s: string): nat
    requires AllDigits(s)
  {
    if s == [] then 0 else ParseDecimal(s[..|s| - 1]) * 10 + DigitValue(s[|s| - 1])
  }

  lemma {:induction false} DecimalRoundTrip(n: nat)
    ensures ParseDecimal(Decimal(n)) == n
    decreases n
  {
    if n >= 10 {
      var s := Decimal(n);
      assert s[..|s| - 1] == Decimal(n / 10);
      DecimalRoundTrip(n / 10);
    }
  }

  /** A numeral in the form `format!` writes: a single zero, or no leading zero. */
  predicate Canonical(s: string) {
    |s| >= 1 && AllDigits(s) && (s[0] == '0' ==> |s| == 1)
  }

  /** A numeral with a non-zero leading digit reads as a positive number. */
  lemma {:induction false} LeadingDigitPositive(s: string)
    requires |s| >= 1 && AllDigits(s) && s[0] != '0'
    ensures ParseDecimal(s) >= 1
    decreases |s|
  {
    if |s| > 1 {
      LeadingDigitPositive(s[..|s| - 1]);
    }
  }

  lemma DigitOfValue(c: char)
    requires IsDigit(c)
    ensures Digit(DigitValue(c)) == c
  {
  }

  /** The last digit and the rest of m * 10 + d. */
  lemma QuotientRemainder(m: nat, d: nat)
    requires d < 10
    ensures (m * 10 + d) / 10 == m && (m * 10 + d) % 10 == d
  {
  }

  /**
   * Decimal(n) is the only canonical numeral that reads as n, so it is the
   * text `format!` writes for n.
   */
  lemma {:induction false} DecimalCanonical(n: nat, s: string)
    requires Canonical(s) && ParseDecimal(s) == n
    ensures s == Decimal(n)
    decreases |s|
  {
    var init, last := s[..|s| - 1], s[|s| - 1];
    DigitOfValue(last);
    if |s| == 1 {
      assert init == [];
    } else {
      assert init[0] == s[0];
      LeadingDigitPositive(init);
      var m, d := ParseDecimal(init), DigitValue(last);
      assert n == m * 10 + d;
      QuotientRemainder(m, d);
      assert n >= 10;
      assert Decimal(n) == Decimal(m) + [Digit(d)];
      DecimalCanonical(m, init);
      assert s == init + [last];
    }
  }

  lemma DecimalInjective(m: nat, n: nat)
    requires Decimal(m) == Decimal(n)
    ensures m == n
  {
    DecimalRoundTrip(m);
    DecimalRoundTrip(n);
  }

  /** A numeral followed by a non-digit can be read off unambiguously. */
  lemma NumeralPrefixUnique(a: string, x: string, b: string, y: string)
    requires AllDigits(a) && AllDigits(b)
    requires |x| > 0 && !IsDigit(x[0]) && |y| > 0 && !IsDigit(y[0])
    requires a + x == b + y
    ensures a == b && x == y
  {
    assert a == (a + x)[..|a|];
    assert b == (b + y)[..|b|];
    assert x == (a + x)[|a|..];
    assert y == (b + y)[|b|..];
  }

  // ---------------------------------------------------------------------------
  // paginate_path

  /** The page size actually requested: the wanted size, capped at MaxPageLimit. */
  function ClampLimit(limit: uint32): (r: uint32)
    ensures r <= MaxPageLimit
    ensures limit <= MaxPageLimit ==> r == limit
    ensures limit > MaxPageLimit ==> r == MaxPageLimit
  {
    if limit > MaxPageLimit then MaxPageLimit else limit
  }

  /** `paginate_path`: the listing path with its page and (capped) page-size query. */
  function PaginatePath(path: string, page: uint32, limit: uint32): string {
    path + "?page=" + Decimal(page) + "&limit=" + Decimal(ClampLimit(limit))
  }

  /**
   * The path reads back: after the listing path come `?page=`, a numeral for
   * the page, `&limit=` and a numeral for the capped size, both numerals in
   * the form `format!` writes.
   */
  lemma PaginatePathReadBack(path: string, page: uint32, limit: uint32)
    ensures exists d: string, e: string ::
      && Canonical(d) && ParseDecimal(d) == page
      && Canonical(e) && ParseDecimal(e) == Min(limit, MaxPageLimit as nat)
      && PaginatePath(path, page, limit) == path + "?page=" + d + "&limit=" + e
  {
    var d, e := Decimal(page), Decimal(ClampLimit(limit));
    DecimalRoundTrip(page);
    DecimalRoundTrip(ClampLimit(limit));
    assert Canonical(d) && Canonical(e);
    assert ParseDecimal(e) == Min(limit, MaxPageLimit as nat);
  }

  /**
   * The request path determines the page and the capped page size it asks
   * for: two pages of one listing are never requested under the same path.
   */
  lemma PaginatePathInjective(path: string, p1: uint32, l1: uint32, p2: uint32, l2: uint32)
    requires PaginatePath(path, p1, l1) == PaginatePath(path, p2, l2)
    ensures p1 == p2 && ClampLimit(l1) == ClampLimit(l2)
  {
    var head := path + "?page=";
    var d1, d2 := Decimal(p1), Decimal(p2);
    var e1, e2 := Decimal(ClampLimit(l1)), Decimal(ClampLimit(l2));
    var t1, t2 := "&limit=" + e1, "&limit=" + e2;
    QueryShape(path, d1, e1);
    QueryShape(path, d2, e2);
    SamePrefix(head, d1 + t1, d2 + t2);
    NumeralPrefixUnique(d1, t1, d2, t2);
    DecimalInjective(p1, p2);
    SamePrefix("&limit=", e1, e2);
    DecimalInjective(ClampLimit(l1), ClampLimit(l2));
  }

  lemma QueryShape(path: string, d: string, e: string)
    ensures path + "?page=" + d + "&limit=" + e == (path + "?page=") + (d + ("&limit=" + e))
  {
  }

  lemma SamePrefix(head: string, u: string, v: string)
    requires head + u == head + v
    ensures u == v
  {
    assert u == (head + u)[|head|..];
    assert v == (head + v)[|head|..];
  }

  /** The emitted page size never exceeds MaxPageLimit. */
  lemma PaginatePathLimitBounded(path: string, page: uint32, limit: uint32)
    ensures exists l: uint32 :: l <= MaxPageLimit && PaginatePath(path, page, limit) == path + "?page=" + Decimal(page) + "&limit=" + Decimal(l)
  {
    var l := ClampLimit(limit);
    assert PaginatePath(path, page, limit) == path + "?page=" + Decimal(page) + "&limit=" + Decimal(l);
  }

  // ---------------------------------------------------------------------------
  // get_one and get_limit

  /** `get_one`: the data of a successful response; an error passes through. */
  function GetOne<R, E>(get: string -> Result<ApiSuccess<R>, E>, path: string): (r: Result<R, E>)
    ensures r.Ok? <==> get(path).Ok?
    ensures r.Ok? ==> r.value == get(path).value.data
    ensures r.Err? ==> r.error == get(path).error
  {
    match get(path)
    case Ok(success) => Ok(success.data)
    case Err(e) => Err(e)
  }

  /** The path of one page of a listing, always asked at the largest page size. */
  function PagePath(path: string, page: uint32): string {
    PaginatePath(path, page, MaxPageLimit)
  }

  /** The first page requested: the given one, or 1. */
  function StartPage(page: Option<uint32>): (r: uint32)
    ensures page.Some? ==> r == page.value
    ensures page.None? ==> r == 1
  {
    match page
    case Some(p) => p
    case None => 1
  }

  /** The most items returned: the given bound, or `usize::MAX`. */
  function ItemLimit(limit: Option<usize>): (r: usize)
    ensures limit.Some? ==> r == limit.value
    ensures limit.None? ==> r == UsizeMax
  {
    match limit
    case Some(l) => l
    case None => UsizeMax
  }

  /**
   * The meta block is one get_limit can compute its page bound from without a
   * panic: a non-zero page size (the division) and a bound that fits in u32.
   */
  predicate MetaUsable(meta: ApiMeta) {
    meta.limit > 0 && meta.total / meta.limit < U32Max
  }

  /** The first response is one get_limit can proceed from. */
  predicate FirstResponseUsable<T, E>(response: Result<ApiSuccess<seq<T>>, E>) {
    response.Ok? && response.value.meta.Some? ==> MetaUsable(response.value.meta.value)
  }

  /** The exclusive upper bound on follow-up page numbers, as the client computes it. */
  function PageCount(meta: ApiMeta): (r: uint32)
    requires MetaUsable(meta)
    ensures (r - 1) * meta.limit <= meta.total < r * meta.limit
  {
    meta.total / meta.limit + 1
  }

  /** `Vec::truncate`: the first n items, or all of them when there are fewer. */
  function Truncate<T>(xs: seq<T>, n: nat): (r: seq<T>)
    ensures |r| == Min(|xs|, n)
    ensures r <= xs
  {
    if |xs| <= n then xs else xs[..n]
  }

  /**
   * The items of pages lo .. hi - 1 of a listing, concatenated in page
   * order; the error of the first page that fails, if one does.
   */
  function FollowUps<T, E>(get: string -> Result<ApiSuccess<seq<T>>, E>, path: string, lo: uint32, hi: uint32): Result<seq<T>, E>
    decreases hi
  {
    if hi <= lo then Ok([])
    else
      match FollowUps(get, path, lo, hi - 1)
      case Err(e) => Err(e)
      case Ok(xs) =>
        match GetOne(get, PagePath(path, hi - 1))
        case Err(e) => Err(e)
        case Ok(ys) => Ok(xs + ys)
  }

  /**
   * The condition under which get_limit goes on to request page p: pages
   * 2 .. p - 1 all succeeded and, with the first page's items, still give
   * fewer than limit items.
   */
  predicate Continues<T, E>(get: string -> Result<ApiSuccess<seq<T>>, E>, path: string, first: seq<T>, limit: nat, p: uint32) {
    var more := FollowUps(get, path, 2, p);
    more.Ok? && |first + more.value| < limit
  }

  /** The outcome once pages 2 .. stop - 1 have been requested after a first page. */
  function Combined<T, E>(first: seq<T>, more: Result<seq<T>, E>, limit: nat): (r: Result<seq<T>, E>)
    ensures r.Ok? <==> more.Ok?
    ensures r.Ok? ==> r.value == Truncate(first + more.value, limit)
  {
    match more
    case Err(e) => Err(e)
    case Ok(xs) => Ok(Truncate(first + xs, limit))
  }

  /** A successful run of pages splits at any page into two successful runs. */
  lemma {:induction false} FollowUpsSplit<T, E>(get: string -> Result<ApiSuccess<seq<T>>, E>, path: string, lo: uint32, mid: uint32, hi: uint32)
    requires lo <= mid <= hi
    requires FollowUps(get, path, lo, hi).Ok?
    ensures FollowUps(get, path, lo, mid).Ok? && FollowUps(get, path, mid, hi).Ok?
    ensures FollowUps(get, path, lo, hi).value == FollowUps(get, path, lo, mid).value + FollowUps(get, path, mid, hi).value
    decreases hi
  {
    if mid < hi {
      FollowUpsSplit(get, path, lo, mid, hi - 1);
      var a := FollowUps(get, path, lo, mid).value;
      var b := FollowUps(get, path, mid, hi - 1).value;
      var c := GetOne(get, PagePath(path, hi - 1)).value;
      assert FollowUps(get, path, lo, hi).value == (a + b) + c;
      assert FollowUps(get, path, mid, hi).value == b + c;
      assert (a + b) + c == a + (b + c);
    }
  }

  /** Once a page fails, every longer run of pages fails too. */
  lemma {:induction false} FollowUpsErrPersists<T, E>(get: string -> Result<ApiSuccess<seq<T>>, E>, path: string, lo: uint32, mid: uint32, hi: uint32)
    requires mid <= hi
    requires FollowUps(get, path, lo, mid).Err?
    ensures FollowUps(get, path, lo, hi).Err?
    decreases hi
  {
    if mid < hi {
      FollowUpsErrPersists(get, path, lo, mid, hi - 1);
    }
  }

  /**
   * Stopping early does not change the answer: when every page of the
   * listing can be fetched, the result of stopping at any page where the
   * guard fails (or at the page bound) is the first limit items of the whole
   * listing.
   */
  lemma {:induction false} EarlyStopInvisible<T, E>(get: string -> Result<ApiSuccess<seq<T>>, E>, path: string, first: seq<T>, limit: nat, stop: uint32, pages: uint32)
    requires 2 <= stop <= Max(2, pages)
    requires stop < pages ==> !Continues(get, path, first, limit, stop)
    requires FollowUps(get, path, 2, pages).Ok?
    ensures Combined(first, FollowUps(get, path, 2, stop), limit) == Ok(Truncate(first + FollowUps(get, path, 2, pages).value, limit))
  {
    if stop < pages {
      FollowUpsSplit(get, path, 2, stop, pages);
      var acc := first + FollowUps(get, path, 2, stop).value;
      var rest := FollowUps(get, path, stop, pages).value;
      assert first + FollowUps(get, path, 2, pages).value == acc + rest;
      assert |acc| >= limit;
      assert Truncate(acc + rest, limit) == (acc + rest)[..limit] == acc[..limit] == Truncate(acc, limit);
    } else {
      assert stop == pages || pages < 2;
    }
  }

  /** The page numbers get_limit requested after the first: 2, 3, 4, ... */
  predicate FollowUpPages(requested: seq<uint32>) {
    forall k :: 1 <= k < |requested| ==> requested[k] == k + 1
  }

  /**
   * Pages 2 .. stop - 1 are exactly the follow-up pages get_limit requests:
   * the guard held before each of them, and it fails at stop unless stop
   * has reached the page bound.
   */
  predicate StopsAt<T, E>(get: string -> Result<ApiSuccess<seq<T>>, E>, path: string, first: seq<T>, limit: nat, pages: uint32, stop: int) {
    && 2 <= stop <= Max(2, pages)
    && (forall p: uint32 :: 2 <= p < stop ==> Continues(get, path, first, limit, p))
    && (stop < pages ==> !Continues(get, path, first, limit, stop))
  }

  /** The response to the first request of get_limit. */
  function FirstResponse<T, E>(get: string -> Result<ApiSuccess<seq<T>>, E>, path: string, page: Option<uint32>): Result<ApiSuccess<seq<T>>, E> {
    get(PagePath(path, StartPage(page)))
  }

  /**
   * The follow-up loop of `get_limit`: pages 2, 3, ... below pages, each
   * while fewer than limit items have been gathered, stopping at the first
   * error. Returns the first page's items followed by those gathered, or
   * that error; `asked` is the sequence of page numbers asked for.
   */
  method FetchFollowUps<T, E>(get: string -> Result<ApiSuccess<seq<T>>, E>, path: string, first: seq<T>, limit: nat, pages: uint32)
    returns (result: Result<seq<T>, E>, ghost asked: seq<uint32>)
    ensures forall k :: 0 <= k < |asked| ==> asked[k] == k + 2
    ensures StopsAt(get, path, first, limit, pages, |asked| + 2)
    ensures FollowUps(get, path, 2, |asked| + 2).Ok? ==>
      result == Ok(first + FollowUps(get, path, 2, |asked| + 2).value)
    ensures FollowUps(get, path, 2, |asked| + 2).Err? ==>
      result == Err(FollowUps(get, path, 2, |asked| + 2).error)
  {
    var results := first;
    var p: uint32 := 2;
    asked := [];
    while p < pages && |results| < limit
      invariant 2 <= p <= Max(2, pages)
      invariant |asked| == p - 2 && forall k :: 0 <= k < |asked| ==> asked[k] == k + 2
      invariant FollowUps(get, path, 2, p).Ok? && results == first + FollowUps(get, path, 2, p).value
      invariant forall q: uint32 :: 2 <= q < p ==> Continues(get, path, first, limit, q)
      decreases pages - p
    {
      asked := asked + [p];
      var next := GetOne(get, PagePath(path, p));
      if next.Err? {
        assert FollowUps(get, path, 2, p + 1) == Err(next.error);
        assert StopsAt(get, path, first, limit, pages, p + 1);
        result := Err(next.error);
        return;
      }
      results := results + next.value;
      p := p + 1;
    }
    assert StopsAt(get, path, first, limit, pages, p);
    result := Ok(results);
  }

  /**
   * `get_limit`: fetches the first page, then (when the response carries a
   * meta block) follow-up pages 2, 3, ... below PageCount while fewer than
   * limit items have been gathered, and keeps the first limit items.
   * `requested` is the sequence of page numbers asked for, in order.
   */
  method GetLimit<T, E>(get: string -> Result<ApiSuccess<seq<T>>, E>, path: string, page: Option<uint32>, limit: Option<usize>)
    returns (result: Result<seq<T>, E>, ghost requested: seq<uint32>)
    requires FirstResponseUsable(FirstResponse(get, path, page))
    ensures |requested| >= 1 && requested[0] == StartPage(page) && FollowUpPages(requested)
    ensures result.Ok? ==> |result.value| <= ItemLimit(limit)
    ensures FirstResponse(get, path, page).Err? ==>
      |requested| == 1 && result == Err(FirstResponse(get, path, page).error)
    ensures FirstResponse(get, path, page).Ok? && FirstResponse(get, path, page).value.meta.None? ==>
      |requested| == 1 && result == Ok(Truncate(FirstResponse(get, path, page).value.data, ItemLimit(limit)))
    ensures FirstResponse(get, path, page).Ok? && FirstResponse(get, path, page).value.meta.Some? ==>
      var first := FirstResponse(get, path, page).value;
      var pages := PageCount(first.meta.value);
      && StopsAt(get, path, first.data, ItemLimit(limit), pages, |requested| + 1)
      && result == Combined(first.data, FollowUps(get, path, 2, |requested| + 1), ItemLimit(limit))
      && (FollowUps(get, path, 2, pages).Ok? ==>
            result == Ok(Truncate(first.data + FollowUps(get, path, 2, pages).value, ItemLimit(limit))))
  {
    var start := StartPage(page);
    var lim := ItemLimit(limit);
    requested := [start];
    var response := get(PagePath(path, start));
    if response.Err? {
      result := Err(response.error);
      return;
    }
    var first := response.value;
    var results := first.data;
    if first.meta.Some? {
      var meta := first.meta.value;
      var pages: uint32 := meta.total / meta.limit + 1;
      var gathered;
      ghost var asked;
      gathered, asked := FetchFollowUps(get, path, first.data, lim, pages);
      requested := requested + asked;
      assert |requested| + 1 == |asked| + 2;
      if FollowUps(get, path, 2, pages).Ok? {
        EarlyStopInvisible(get, path, first.data, lim, |asked| + 2, pages);
      }
      if gathered.Err? {
        result := Err(gathered.error);
        return;
      }
      results := gathered.value;
    }
    result := Ok(Truncate(results, lim));
  }

  /**
   * The page bound as written covers the whole listing only when the total
   * is a multiple of the page size: otherwise the partial last page,
   * number total / limit + 1, is never requested.
   */
  lemma PageCountCoversIffDivisible(meta: ApiMeta)
    requires MetaUsable(meta)
    ensures (PageCount(meta) - 1) * meta.limit >= meta.total <==> meta.total % meta.limit == 0
  {
    var q, r := meta.total / meta.limit, meta.total % meta.limit;
    assert meta.total == q * meta.limit + r;
    assert (PageCount(meta) - 1) * meta.limit == q * meta.limit;
  }

  /** For 25 items at 20 per page, only page 1 is requested. */
  lemma PageCountExample()
    ensures MetaUsable(ApiMeta(25, 1, 20)) && PageCount(ApiMeta(25, 1, 20)) == 2
  {
  }
}
