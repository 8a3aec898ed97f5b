/** The search endpoint `GET /api/search` (`src/app/api/search/route.ts`): a
    per-IP fixed-window rate limiter kept in memory, query-parameter
    validation, tag-list parsing and the pagination fields of the answer. */
module SearchRoute {
  import opened Common
  import opened Text
  import SearchLib

  // ================================================================ rate limiting

  const WindowMs: int := 60 * 1000
  const MaxRequests: int := 30

  /** One client's window: requests counted so far and when the window ends. */
  datatype Window = Window(count: int, resetTime: int)

  /** What `checkRateLimit` returns. */
  datatype RateDecision = RateDecision(allowed: bool, remaining: int, resetTime: int)

  /** Every stored window has counted between one and `MaxRequests` requests. */
  predicate ValidRecords(records: map<Str, Window>) {
    forall ip :: ip in records ==> 1 <= records[ip].count <= MaxRequests
  }

  /** True when a call at `now` finds no open window for `ip`. */
  predicate StartsWindow(records: map<Str, Window>, ip: Str, now: int) {
    ip !in records || now > records[ip].resetTime
  }

  /** `checkRateLimit(ip)` as a function of the map before the call: the
      decision and the map after it. */
  function RateCheck(records: map<Str, Window>, ip: Str, now: int): (r: (RateDecision, map<Str, Window>))
    // the window's end time is reported either way
    ensures ip in r.1 && r.0.resetTime == r.1[ip].resetTime
    // a window starts afresh with one request counted
    ensures StartsWindow(records, ip, now) ==>
      r.0 == RateDecision(true, MaxRequests - 1, now + WindowMs)
      && r.1[ip] == Window(1, now + WindowMs)
    // a full window refuses and counts nothing
    ensures !StartsWindow(records, ip, now) && records[ip].count >= MaxRequests ==>
      !r.0.allowed && r.0.remaining == 0 && r.1 == records
    // otherwise exactly one more request is counted
    ensures !StartsWindow(records, ip, now) && records[ip].count < MaxRequests ==>
      r.0.allowed && r.1[ip] == records[ip].(count := records[ip].count + 1)
      && r.0.remaining == MaxRequests - r.1[ip].count
    // nobody else's entry changes
    ensures r.1.Keys == records.Keys + {ip}
    ensures forall k :: k in records && k != ip ==> r.1[k] == records[k]
  {
    if StartsWindow(records, ip, now) then
      var resetTime := now + WindowMs;
      (RateDecision(true, MaxRequests - 1, resetTime), records[ip := Window(1, resetTime)])
    else
      var record := records[ip];
      if record.count >= MaxRequests then
        (RateDecision(false, 0, record.resetTime), records)
      else
        (RateDecision(true, MaxRequests - (record.count + 1), record.resetTime),
         records[ip := record.(count := record.count + 1)])
  }

  /** The invariant is kept, and `remaining` never goes below zero. */
  lemma RateCheckKeepsValid(records: map<Str, Window>, ip: Str, now: int)
    requires ValidRecords(records)
    ensures ValidRecords(RateCheck(records, ip, now).1)
    ensures 0 <= RateCheck(records, ip, now).0.remaining < MaxRequests
  {
  }

  /** The strict comparison: a request at exactly `resetTime` still belongs to
      the old window. */
  lemma ResetTimeIsInclusive(records: map<Str, Window>, ip: Str)
    requires ip in records && records[ip].count >= MaxRequests
    ensures !RateCheck(records, ip, records[ip].resetTime).0.allowed
    ensures RateCheck(records, ip, records[ip].resetTime + 1).0.allowed
  {
  }

  /** Requests from one client at the given times, in order; the number of them
      that were allowed. */
  function AllowedCount(records: map<Str, Window>, ip: Str, times: seq<int>): nat
    decreases |times|
  {
    if times == [] then 0
    else
      var (d, next) := RateCheck(records, ip, times[0]);
      (if d.allowed then 1 else 0) + AllowedCount(next, ip, times[1..])
  }

  /** Inside an open window that has counted `c` requests, exactly
      `min(k, 30 - c)` of the next `k` requests are allowed. */
  lemma {:induction false} OpenWindowAllows(records: map<Str, Window>, ip: Str, times: seq<int>)
    requires ip in records && 1 <= records[ip].count <= MaxRequests
    requires forall i :: 0 <= i < |times| ==> times[i] <= records[ip].resetTime
    ensures AllowedCount(records, ip, times) ==
            if |times| <= MaxRequests - records[ip].count then |times| else MaxRequests - records[ip].count
  {
    if times != [] {
      var (d, next) := RateCheck(records, ip, times[0]);
      assert next[ip].resetTime == records[ip].resetTime;
      OpenWindowAllows(next, ip, times[1..]);
    }
  }

  /** At most 30 requests are allowed per client in one window: the call that
      opens a window and every later call up to its end time. */
  lemma WindowAllowsAtMostMax(records: map<Str, Window>, ip: Str, start: int, times: seq<int>)
    requires StartsWindow(records, ip, start)
    requires forall i :: 0 <= i < |times| ==> times[i] <= start + WindowMs
    ensures AllowedCount(records, ip, [start] + times) ==
            if |times| + 1 <= MaxRequests then |times| + 1 else MaxRequests
  {
    var (d, next) := RateCheck(records, ip, start);
    assert ([start] + times)[1..] == times;
    OpenWindowAllows(next, ip, times);
  }

  /** `rateLimitMap` and `checkRateLimit`: the map is updated in place. */
  class RateLimiter {
    var records: map<Str, Window>

    ghost predicate Valid()
      reads this
    {
      ValidRecords(records)
    }

    constructor()
      ensures records == map[] && Valid()
    {
      records := map[];
    }

    method CheckRateLimit(ip: Str, now: int) returns (d: RateDecision)
      requires Valid()
      modifies this
      ensures (d, records) == RateCheck(old(records), ip, now)
      ensures Valid() && 0 <= d.remaining < MaxRequests
    {
      RateCheckKeepsValid(records, ip, now);
      if ip !in records || now > records[ip].resetTime {
        var resetTime := now + WindowMs;
        records := records[ip := Window(1, resetTime)];
        return RateDecision(true, MaxRequests - 1, resetTime);
      }
      var record := records[ip];
      if record.count >= MaxRequests {
        return RateDecision(false, 0, record.resetTime);
      }
      record := record.(count := record.count + 1);
      records := records[ip := record];
      d := RateDecision(true, MaxRequests - record.count, record.resetTime);
    }
  }

  // ================================================================ request parsing

  /** `x-forwarded-for`'s first entry, else `x-real-ip`, else `'unknown'`
      (empty strings count as missing). */
  function ClientIp(forwardedFor: Option<Str>, realIp: Option<Str>): (r: Str)
    ensures r != []
    // a header that does not start with a comma gives its text before the first comma
    ensures forwardedFor.Some? && forwardedFor.value != [] && forwardedFor.value[0] != ',' ==>
      ',' !in r && StartsWith(forwardedFor.value, r) &&
      (|r| == |forwardedFor.value| || forwardedFor.value[|r|] == ',')
    // otherwise the first entry is empty and the fallbacks decide
    ensures forwardedFor.None? || forwardedFor.value == [] || forwardedFor.value[0] == ',' ==>
      r == (if realIp.Some? && realIp.value != [] then realIp.value else "unknown")
  {
    var first := if forwardedFor.Some? then (FirstPiece(forwardedFor.value, ','); Split(forwardedFor.value, ',')[0]) else [];
    if first != [] then first
    else if realIp.Some? && realIp.value != [] then realIp.value
    else "unknown"
  }

  /** The first piece of a split is the text before the first separator, and
      it is empty exactly when the text is empty or starts with one. */
  lemma {:induction false} FirstPiece(s: Str, sep: char)
    ensures var p := Split(s, sep)[0];
      sep !in p && StartsWith(s, p) && (|p| == |s| || s[|p|] == sep) &&
      (p == [] <==> s == [] || s[0] == sep)
    decreases |s|
  {
    if s != [] {
      FirstPiece(s[1..], sep);
    }
  }

  /** `Number(x)` as `z.coerce.number()` applies it to a query-string value,
      `null` when the parameter is absent. */
  datatype Coerced = NaN | Num(n: int)

  function CoerceNumber(raw: Option<Str>): Coerced
  {
    match raw
    case None => Num(0)
    case Some(s) =>
      var t := Trim(s);
      if t == [] then Num(0)
      else if t[0] == '-' then (if IsDigits(t[1..]) then Num(-(DigitsValue(t[1..]) as int)) else NaN)
      else if t[0] == '+' then (if IsDigits(t[1..]) then Num(DigitsValue(t[1..])) else NaN)
      else if IsDigits(t) then Num(DigitsValue(t))
      else NaN
  }

  predicate IsDigits(s: Str) {
    s != [] && forall i :: 0 <= i < |s| ==> '0' <= s[i] <= '9'
  }

  function DigitsValue(s: Str): nat
    requires forall i :: 0 <= i < |s| ==> '0' <= s[i] <= '9'
  {
    if s == [] then 0 else 10 * DigitsValue(s[..|s| - 1]) + (s[|s| - 1] as int - '0' as int)
  }

  lemma {:induction false} DigitsValueOfNat(n: nat)
    ensures DigitsValue(NatToString(n)) == n
  {
    var s := NatToString(n);
    if n >= 10 {
      DigitsValueOfNat(n / 10);
      assert s[..|s| - 1] == NatToString(n / 10);
    }
  }

  /** Parsing inverts `n.toString()`, which is how the search hook sends
      `limit` and `offset`. */
  lemma CoerceNatToString(n: nat)
    ensures CoerceNumber(Some(NatToString(n))) == Num(n)
  {
    var s := NatToString(n);
    assert !IsSpace(s[0]) && !IsSpace(s[|s| - 1]);
    assert TrimStart(s) == s;
    assert TrimEnd(s) == s;
    DigitsValueOfNat(n);
  }

  /** The raw query string: `searchParams.get` of each parameter. */
  datatype RawQuery = RawQuery(q: Option<Str>, limit: Option<Str>, offset: Option<Str>,
                               category: Option<Str>, tags: Option<Str>)

  /** The parameters once `searchSchema` accepted them. */
  datatype Params = Params(q: Str, limit: int, offset: int, category: Option<Str>, tags: Option<Str>)

  predicate QueryOk(q: Option<Str>) {
    q.Some? && 1 <= |q.value| <= 100
  }

  predicate LimitOk(c: Coerced) {
    c.Num? && 1 <= c.n <= 50
  }

  predicate OffsetOk(c: Coerced) {
    c.Num? && c.n >= 0
  }

  /** `searchSchema.safeParse(rawParams)` as written. `searchParams.get` gives
      `null`, not `undefined`, for a missing parameter, so `.default(…)` never
      applies: `Number(null)` is 0. */
  function ValidateAsWritten(raw: RawQuery): (r: Option<Params>)
    ensures r.Some? <==> QueryOk(raw.q) && LimitOk(CoerceNumber(raw.limit)) && OffsetOk(CoerceNumber(raw.offset))
    ensures r.Some? ==> ParamsOk(r.value) && r.value.q == raw.q.value && r.value.category == raw.category && r.value.tags == raw.tags
  {
    var limit := CoerceNumber(raw.limit);
    var offset := CoerceNumber(raw.offset);
    if QueryOk(raw.q) && LimitOk(limit) && OffsetOk(offset) then
      Some(Params(raw.q.value, limit.n, offset.n, raw.category, raw.tags))
    else None
  }

  /** A request without `limit` is refused by the schema as written. */
  lemma MissingLimitRejected(raw: RawQuery)
    requires raw.limit.None?
    ensures ValidateAsWritten(raw) == None
  {
  }

  /** The concrete request `GET /api/search?q=react`. */
  lemma MissingLimitExample()
    ensures ValidateAsWritten(RawQuery(Some("react"), None, None, None, None)) == None
    ensures Validate(RawQuery(Some("react"), None, None, None, None)) == Some(Params("react", 10, 0, None, None))
  {
  }

  /** A missing number takes its default; a present one is coerced. */
  function WithDefault(raw: Option<Str>, d: int): Coerced
  {
    if raw.None? then Num(d) else CoerceNumber(raw)
  }

  /** The validation the schema's `.default(10)` and `.default(0)` intend:
      1 <= |q| <= 100, 1 <= limit <= 50 (10 when absent), offset >= 0 (0 when
      absent). */
  function Validate(raw: RawQuery): (r: Option<Params>)
    ensures r.Some? <==> QueryOk(raw.q) && LimitOk(WithDefault(raw.limit, 10)) && OffsetOk(WithDefault(raw.offset, 0))
    ensures r.Some? ==>
      1 <= |r.value.q| <= 100 && 1 <= r.value.limit <= 50 && r.value.offset >= 0
      && (raw.limit.None? ==> r.value.limit == 10) && (raw.offset.None? ==> r.value.offset == 0)
    ensures r.Some? ==> r.value.q == raw.q.value && r.value.category == raw.category && r.value.tags == raw.tags
  {
    var limit := WithDefault(raw.limit, 10);
    var offset := WithDefault(raw.offset, 0);
    if QueryOk(raw.q) && LimitOk(limit) && OffsetOk(offset) then
      Some(Params(raw.q.value, limit.n, offset.n, raw.category, raw.tags))
    else None
  }

  /** Where both parameters are present the two validations agree. */
  lemma ValidateAgrees(raw: RawQuery)
    requires raw.limit.Some? && raw.offset.Some?
    ensures Validate(raw) == ValidateAsWritten(raw)
  {
  }

  /** `tags ? tags.split(',').map(t => t.trim()).filter(t => t.length > 0) : undefined` */
  function ParseTags(tags: Option<Str>): (r: Option<seq<Str>>)
    ensures r.Some? <==> tags.Some? && tags.value != []
    ensures r.Some? ==> forall t :: t in r.value ==> t != [] && !IsSpace(t[0]) && !IsSpace(t[|t| - 1])
  {
    if tags.Some? && tags.value != [] then Some(SplitTrimmed(tags.value, ',')) else None
  }

  /** A parsed tag never contains a comma. */
  lemma ParsedTagsHaveNoComma(tags: Str, t: Str)
    requires tags != [] && t in ParseTags(Some(tags)).value
    ensures ',' !in t
  {
    forall i | 0 <= i < |t| ensures t[i] != ',' {
      SplitTrimmedNoSep(tags, ',', t, i);
    }
  }

  /** Conversely, every comma piece that is not blank once trimmed is a
      parsed tag, in the order the pieces come in. */
  lemma ParseTagsKeepsPiece(tags: Str, i: int)
    requires tags != [] && 0 <= i < |Split(tags, ',')| && Trim(Split(tags, ',')[i]) != []
    ensures var t := TrimAll(Split(tags, ','));
            ParseTags(Some(tags)) == Some(NonEmpty(t[..i]) + [Trim(Split(tags, ',')[i])] + NonEmpty(t[i + 1..]))
  {
    SplitTrimmedKeepsPiece(tags, ',', i);
  }

  /** A tag with no comma and no surrounding whitespace. */
  predicate IsCleanTag(t: Str) {
    t != [] && ',' !in t && !IsSpace(t[0]) && !IsSpace(t[|t| - 1])
  }

  /** Parsing inverts the client's `tags.join(',')`. */
  lemma ParseTagsJoin(ts: seq<Str>)
    requires ts != []
    requires forall t :: t in ts ==> IsCleanTag(t)
    ensures ParseTags(Some(Join(ts, ","))) == Some(ts)
  {
    var s := Join(ts, ",");
    assert forall t :: t in ts ==> ',' !in t;
    SplitJoin(ts, ',');
    assert Split(s, ',') == ts;
    assert ts[0] in ts;
    JoinFirst(ts, ",");
    TrimAllClean(ts);
    assert forall t :: t in ts ==> t != [];
    NonEmptyAll(ts);
    assert SplitTrimmed(s, ',') == ts;
  }

  lemma {:induction false} JoinFirst(parts: seq<Str>, sep: Str)
    requires parts != [] && parts[0] != []
    ensures Join(parts, sep) != []
  {
    if |parts| > 1 {
      assert |Join(parts, sep)| >= |parts[0]|;
    }
  }

  lemma {:induction false} TrimAllClean(ts: seq<Str>)
    requires forall t :: t in ts ==> IsCleanTag(t)
    ensures TrimAll(ts) == ts
  {
    if ts != [] {
      TrimAllClean(ts[1..]);
      var t := ts[0];
      assert IsCleanTag(t);
      assert TrimStart(t) == t;
      assert TrimEnd(t) == t;
      assert [t] + ts[1..] == ts;
    }
  }

  lemma {:induction false} NonEmptyAll(ts: seq<Str>)
    requires forall t :: t in ts ==> t != []
    ensures NonEmpty(ts) == ts
  {
    if ts != [] {
      assert ts[0] in ts;
      assert forall t :: t in ts[1..] ==> t in ts;
      NonEmptyAll(ts[1..]);
      assert [ts[0]] + ts[1..] == ts;
    }
  }

  // ================================================================ the answer

  /** `Math.ceil(a / b)` for a positive divisor. */
  function CeilDiv(a: int, b: int): (r: int)
    requires b > 0
    ensures (r - 1) * b < a <= r * b
  {
    -((-a) / b)
  }

  datatype Pagination = Pagination(total: nat, limit: int, offset: int, hasMore: bool,
                                   totalPages: int, currentPage: int)

  /** The `pagination` object of a successful answer. */
  function MakePagination(total: nat, limit: int, offset: int, hasMore: bool): (p: Pagination)
    requires limit >= 1 && offset >= 0
    ensures p.total == total && p.limit == limit && p.offset == offset && p.hasMore == hasMore
    // the requested offset lies on the reported page
    ensures (p.currentPage - 1) * limit <= offset < p.currentPage * limit
    ensures p.currentPage >= 1
    // the page count covers the total and no page is empty
    ensures (p.totalPages - 1) * limit < total <= p.totalPages * limit || (total == 0 && p.totalPages == 0)
  {
    Pagination(total, limit, offset, hasMore, CeilDiv(total, limit), offset / limit + 1)
  }

  /** When the search reports more results, the reported page is not the
      last one. */
  lemma HasMoreMeansLaterPage(total: nat, limit: int, offset: int)
    requires limit >= 1 && offset >= 0
    requires offset + limit < total
    ensures MakePagination(total, limit, offset, true).currentPage < MakePagination(total, limit, offset, true).totalPages
  {
    var p := MakePagination(total, limit, offset, true);
    assert p.currentPage * limit <= offset + limit;
    assert p.currentPage * limit < p.totalPages * limit;
    MulCancel(p.currentPage, p.totalPages, limit);
  }

  lemma MulCancel(a: int, b: int, k: int)
    requires a * k < b * k && k > 0
    ensures a < b
  {
  }

  /** The answer the endpoint gives. */
  datatype Response<P> =
    | TooManyRequests(remaining: int, resetSeconds: int)
    | BadRequest
    | Found(posts: seq<P>, pagination: Pagination, searchTerm: Str, category: Option<Str>,
            tags: Option<seq<Str>>, remaining: int, resetSeconds: int)
    | ServiceUnavailable
    | InternalError

  const SearchFailureMarker: Str := "검색 중 오류가 발생했습니다"

  /** The `catch` block: the search library's failure becomes 503, anything
      else 500. */
  function ErrorResponse<P>(message: Str): (r: Response<P>)
    ensures r == ServiceUnavailable <==> Contains(message, SearchFailureMarker)
    ensures r == InternalError <==> !Contains(message, SearchFailureMarker)
  {
    if Contains(message, SearchFailureMarker) then ServiceUnavailable else InternalError
  }

  /** The search library's failure message is recognised. */
  lemma SearchFailureIsUnavailable<P>()
    ensures ErrorResponse<P>(SearchLib.SearchFailed) == ServiceUnavailable
  {
    assert SearchLib.SearchFailed == SearchFailureMarker + ".";
    assert StartsWith(SearchLib.SearchFailed, SearchFailureMarker);
  }

  /** What `GET` answers once the rate-limit decision is taken and the
      parameters have been through a schema (`parsed`), given the database's
      answer to the search it runs. */
  function Answer<P>(d: RateDecision, parsed: Option<Params>, db: SearchLib.DbAnswer<P>): (r: Response<P>)
    requires d.resetTime >= 0
    requires parsed.Some? ==> ParamsOk(parsed.value)
    ensures !d.allowed ==> r == TooManyRequests(d.remaining, CeilDiv(d.resetTime, 1000))
    ensures d.allowed && parsed.None? ==> r == BadRequest
    // an accepted search answers with what the search library found, or its error
    ensures d.allowed && parsed.Some? ==>
      var p := parsed.value;
      match SearchLib.SearchPosts(p.q, Some(p.limit), Some(p.offset), db)
      case Err(message) => r == ErrorResponse(message)
      case Ok(page) =>
        r.Found? && r.posts == page.posts
        && r.pagination == MakePagination(page.total, p.limit, p.offset, page.hasMore)
        && r.searchTerm == p.q && r.category == p.category && r.tags == ParseTags(p.tags)
        && r.remaining == d.remaining && r.resetSeconds == CeilDiv(d.resetTime, 1000)
    ensures r.Found? ==>
      d.allowed && parsed.Some?
      && 1 <= r.pagination.limit <= 50 && r.pagination.offset >= 0
      && r.pagination.currentPage >= 1
      && (r.pagination.hasMore <==> r.pagination.offset + r.pagination.limit < r.pagination.total)
  {
    if !d.allowed then TooManyRequests(d.remaining, CeilDiv(d.resetTime, 1000))
    else
      match parsed
      case None => BadRequest
      case Some(p) =>
        var tags := ParseTags(p.tags);
        match SearchLib.SearchPosts(p.q, Some(p.limit), Some(p.offset), db)
        case Err(message) => ErrorResponse(message)
        case Ok(page) =>
          Found(page.posts, MakePagination(page.total, p.limit, p.offset, page.hasMore),
                p.q, p.category, tags, d.remaining, CeilDiv(d.resetTime, 1000))
  }

  /** Parameters within the schema's bounds. */
  predicate ParamsOk(p: Params) {
    1 <= |p.q| <= 100 && 1 <= p.limit <= 50 && p.offset >= 0
  }

  /** The answer with the intended defaults. */
  function Respond<P>(d: RateDecision, raw: RawQuery, db: SearchLib.DbAnswer<P>): (r: Response<P>)
    requires d.resetTime >= 0
    ensures d.allowed ==> (r == BadRequest <==> Validate(raw).None?)
    ensures d.allowed && raw.limit.None? && raw.offset.None? && QueryOk(raw.q) ==> r != BadRequest
  {
    Answer(d, Validate(raw), db)
  }

  /** The answer as the handler gives it, through the schema as written. */
  function RespondAsWritten<P>(d: RateDecision, raw: RawQuery, db: SearchLib.DbAnswer<P>): (r: Response<P>)
    requires d.resetTime >= 0
    ensures d.allowed ==> (r == BadRequest <==> ValidateAsWritten(raw).None?)
    ensures d.allowed && raw.limit.None? ==> r == BadRequest
  {
    Answer(d, ValidateAsWritten(raw), db)
  }

  /** A database failure during an accepted search gives 503. */
  lemma DbFailureIsUnavailable<P>(d: RateDecision, raw: RawQuery)
    requires d.allowed && d.resetTime >= 0 && Validate(raw).Some?
    requires !IsBlank(raw.q.value) && SearchLib.NormalizeSearchQuery(raw.q.value) != []
    ensures Respond<P>(d, raw, SearchLib.DbFailure) == ServiceUnavailable
  {
    var p := Validate(raw).value;
    var answer := SearchLib.SearchPosts<P>(p.q, Some(p.limit), Some(p.offset), SearchLib.DbFailure);
    assert answer == Err(SearchLib.SearchFailed);
    SearchFailureIsUnavailable<P>();
    assert Respond<P>(d, raw, SearchLib.DbFailure) == ErrorResponse<P>(SearchLib.SearchFailed);
  }

  /** `GET`: take the client's rate-limit slot, then answer with the
      intended defaults. */
  method Get<P>(limiter: RateLimiter, forwardedFor: Option<Str>, realIp: Option<Str>, raw: RawQuery,
                now: nat, db: SearchLib.DbAnswer<P>) returns (r: Response<P>)
    requires limiter.Valid()
    modifies limiter
    ensures limiter.Valid()
    ensures limiter.records == RateCheck(old(limiter.records), ClientIp(forwardedFor, realIp), now).1
    ensures r == Respond(RateCheck(old(limiter.records), ClientIp(forwardedFor, realIp), now).0, raw, db)
  {
    var ip := ClientIp(forwardedFor, realIp);
    var d := limiter.CheckRateLimit(ip, now);
    r := Respond(d, raw, db);
  }

  /** `GET` as written: the same, through the schema as written, so an
      allowed request without `limit` gets 400. */
  method GetAsWritten<P>(limiter: RateLimiter, forwardedFor: Option<Str>, realIp: Option<Str>, raw: RawQuery,
                         now: nat, db: SearchLib.DbAnswer<P>) returns (r: Response<P>)
    requires limiter.Valid()
    modifies limiter
    ensures limiter.Valid()
    ensures limiter.records == RateCheck(old(limiter.records), ClientIp(forwardedFor, realIp), now).1
    ensures r == RespondAsWritten(RateCheck(old(limiter.records), ClientIp(forwardedFor, realIp), now).0, raw, db)
  {
    var ip := ClientIp(forwardedFor, realIp);
    var d := limiter.CheckRateLimit(ip, now);
    r := RespondAsWritten(d, raw, db);
  }
}
