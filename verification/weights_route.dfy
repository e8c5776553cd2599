/**
 * The `/api/weights` route: the month range a GET builds from its query,
 * the newest-first listing, and the validation, memo normalisation and
 * upsert of a POST.
 */
module WeightsRoute {
  import opened Optional
  import opened Text
  import opened Dates
  import opened Records

  // ---------------------------------------------------------------------------
  // GET: the month range and the listing.
  // ---------------------------------------------------------------------------

  /** The `YYYY-MM-DD` text of any year, month and day, each zero-padded to its width. */
  function DateText(year: nat, month: nat, day: nat): (s: string)
    ensures |s| == 10 && s[4] == '-' && s[7] == '-'
  {
    Digits(year, 4) + "-" + Digits(month, 2) + "-" + Digits(day, 2)
  }

  /** Year, month, day compared in that order. */
  predicate TripleLe(y1: nat, m1: nat, d1: nat, y2: nat, m2: nat, d2: nat)
  {
    y1 < y2 || (y1 == y2 && (m1 < m2 || (m1 == m2 && d1 <= d2)))
  }

  /** Date texts sort as the triples they spell, whether or not the day exists. */
  lemma DateTextOrder(y1: nat, m1: nat, d1: nat, y2: nat, m2: nat, d2: nat)
    requires y1 < 10000 && y2 < 10000 && m1 < 100 && m2 < 100 && d1 < 100 && d2 < 100
    ensures LexLe(DateText(y1, m1, d1), DateText(y2, m2, d2)) <==> TripleLe(y1, m1, d1, y2, m2, d2)
  {
    var ya, yb := Digits(y1, 4), Digits(y2, 4);
    var ma, mb := Digits(m1, 2), Digits(m2, 2);
    var da, db := Digits(d1, 2), Digits(d2, 2);
    assert DateText(y1, m1, d1) == ya + ("-" + (ma + ("-" + da)));
    assert DateText(y2, m2, d2) == yb + ("-" + (mb + ("-" + db)));
    assert Pow10(2) == 100 && Pow10(4) == 10000;
    DigitsOrder(y1, y2, 4);
    DigitsInjective(y1, y2, 4);
    DigitsOrder(m1, m2, 2);
    DigitsInjective(m1, m2, 2);
    DigitsOrder(d1, d2, 2);
    LexLeConcat(ya, "-" + (ma + ("-" + da)), yb, "-" + (mb + ("-" + db)));
    LexLeConcat("-", ma + ("-" + da), "-", mb + ("-" + db));
    LexLeConcat(ma, "-" + da, mb, "-" + db);
    LexLeConcat("-", da, "-", db);
  }

  /** The inclusive text bounds `gte("date", start).lte("date", end)`. */
  datatype Range = Range(start: string, end: string)

  /** A query parameter is truthy when it is present and not the empty string. */
  predicate Truthy(p: Option<string>)
  {
    p.Some? && p.value != ""
  }

  /**
   * The range a GET filters on: only when both `year` and `month` are
   * truthy, from day 01 to day 31 of the month, the month left-padded to
   * two digits.
   */
  function MonthRange(year: Option<string>, month: Option<string>): (r: Option<Range>)
    ensures r.Some? <==> Truthy(year) && Truthy(month)
    ensures r.Some? ==> |r.value.start| == |r.value.end| >= 2 && r.value.start[..|r.value.start| - 2] == r.value.end[..|r.value.end| - 2]
    ensures r.Some? ==> r.value.start[|r.value.start| - 2..] == "01" && r.value.end[|r.value.end| - 2..] == "31"
  {
    if Truthy(year) && Truthy(month) then
      var prefix := year.value + "-" + PadStart(month.value, 2) + "-";
      Some(Range(prefix + "01", prefix + "31"))
    else None
  }

  /** Whether a record's date text lies inside a range, compared as strings. */
  predicate InRange(r: WeightRecord, range: Range)
  {
    LexLe(range.start, IsoDate(r.date)) && LexLe(IsoDate(r.date), range.end)
  }

  /** The year and month the client asks for, as `${year}` and `${month}`, give the range of that month's texts. */
  lemma MonthRangeText(y: nat, m: nat)
    requires 1000 <= y <= 9999 && 1 <= m <= 12
    ensures MonthRange(Some(Decimal(y)), Some(Decimal(m))) == Some(Range(DateText(y, m, 1), DateText(y, m, 31)))
  {
    assert Pow10(3) == 1000 && Pow10(4) == 10000;
    DecimalIsDigits(y, 4);
    PadDecimalTwo(m);
    DayDigits();
    var prefix := Decimal(y) + "-" + PadStart(Decimal(m), 2) + "-";
    assert prefix == Digits(y, 4) + "-" + Digits(m, 2) + "-";
    assert prefix + "01" == DateText(y, m, 1);
    assert prefix + "31" == DateText(y, m, 31);
  }

  lemma DayDigits()
    ensures Digits(1, 2) == "01" && Digits(31, 2) == "31"
  {
    assert Digits(0, 1) == "0" && Digits(3, 1) == "3";
  }

  /**
   * For a four-digit year, a date lies inside the month's range exactly when
   * it falls in that year and month: day 31 bounds every month, even those
   * with fewer days.
   */
  lemma MonthRangeIsMonth(y: nat, m: nat, r: WeightRecord)
    requires 1000 <= y <= 9999 && 1 <= m <= 12
    ensures InRange(r, MonthRange(Some(Decimal(y)), Some(Decimal(m))).value) <==> r.date.year == y && r.date.month == m
  {
    MonthRangeText(y, m);
    var d := r.date;
    assert IsoDate(d) == DateText(d.year, d.month, d.day);
    DateTextOrder(y, m, 1, d.year, d.month, d.day);
    DateTextOrder(d.year, d.month, d.day, y, m, 31);
  }

  /** The records inside the range, in store order. */
  function KeepInRange(s: seq<WeightRecord>, range: Range): (r: seq<WeightRecord>)
    ensures forall i :: 0 <= i < |r| ==> InRange(r[i], range)
    ensures forall x :: multiset(r)[x] == if InRange(x, range) then multiset(s)[x] else 0
  {
    if |s| == 0 then []
    else
      var init, x := s[..|s| - 1], s[|s| - 1];
      assert s == init + [x];
      KeepInRange(init, range) + (if InRange(x, range) then [x] else [])
  }

  /** What the store returns for a query: an error message, or rows. */
  datatype StoreReply<T> = StoreError(message: string) | StoreRows(rows: T)

  /**
   * A route response: a status code with either an error message or a
   * payload; or `Uncaught`, when the handler itself throws and the framework
   * answers with its own status 500 page.
   */
  datatype Response<T> = ErrorResponse(status: nat, error: string) | Payload(status: nat, body: T) | Uncaught

  /** The rows a GET lists: those in the range when there is one, newest date first. */
  function Listing(rows: seq<WeightRecord>, range: Option<Range>): (r: seq<WeightRecord>)
    ensures SortedByDate(r, true)
    ensures range.None? ==> multiset(r) == multiset(rows)
    ensures range.Some? ==> forall x :: multiset(r)[x] == if InRange(x, range.value) then multiset(rows)[x] else 0
    ensures range.Some? ==> forall i :: 0 <= i < |r| ==> InRange(r[i], range.value)
  {
    match range
    case None => SortByDate(rows, true)
    case Some(rg) =>
      var sorted := SortByDate(KeepInRange(rows, rg), true);
      assert forall i :: 0 <= i < |sorted| ==> InRange(sorted[i], rg) by {
        forall i | 0 <= i < |sorted| ensures InRange(sorted[i], rg) {
          assert multiset(sorted)[sorted[i]] > 0;
        }
      }
      sorted
  }

  /**
   * `GET`: the table's rows (in the month range when one is asked for),
   * newest date first; a store error becomes a 500 with its message.
   */
  function Get(table: StoreReply<seq<WeightRecord>>, year: Option<string>, month: Option<string>): (resp: Response<seq<WeightRecord>>)
    ensures table.StoreError? <==> resp.ErrorResponse?
    ensures resp.ErrorResponse? ==> resp.status == 500 && resp.error == table.message
    ensures resp.Payload? ==> resp.status == 200 && resp.body == Listing(table.rows, MonthRange(year, month))
  {
    match table
    case StoreError(message) => ErrorResponse(500, message)
    case StoreRows(rows) => Payload(200, Listing(rows, MonthRange(year, month)))
  }

  /** A month's listing holds exactly that month's records of the table, newest first. */
  lemma GetMonth(rows: seq<WeightRecord>, y: nat, m: nat)
    requires 1000 <= y <= 9999 && 1 <= m <= 12
    ensures var resp := Get(StoreRows(rows), Some(Decimal(y)), Some(Decimal(m)));
      && resp.Payload?
      && SortedByDate(resp.body, true)
      && forall x :: multiset(resp.body)[x] == if x.date.year == y && x.date.month == m then multiset(rows)[x] else 0
  {
    var range := MonthRange(Some(Decimal(y)), Some(Decimal(m))).value;
    forall x: WeightRecord
      ensures InRange(x, range) <==> x.date.year == y && x.date.month == m
    {
      MonthRangeIsMonth(y, m, x);
    }
  }

  // ---------------------------------------------------------------------------
  // POST: validation, memo normalisation, upsert on the date.
  // ---------------------------------------------------------------------------

  /** The `weight` of a JSON body: missing (`undefined`), `null`, or a number. */
  datatype BodyWeight = WeightMissing | WeightNull | WeightNumber(v: real)

  /** The fields a POST body may carry; a missing or `null` date or memo is `None`. */
  datatype PostBody = PostBody(date: Option<string>, weight: BodyWeight, memo: Option<string>)

  /** One row of the table, keyed by its date text. */
  datatype Row = Row(weight: Option<real>, memo: Option<string>, createdAt: string, updatedAt: string)

  /** The table as the upsert sees it: at most one row per date. */
  type Table = map<string, Row>

  /** `memo || null`: a missing, null or empty memo is stored as null. */
  function StoredMemo(memo: Option<string>): (m: Option<string>)
    ensures m.Some? <==> memo.Some? && memo.value != ""
    ensures m.Some? ==> m == memo
  {
    if memo.Some? && memo.value != "" then memo else None
  }

  /** The request is refused with 400 when the date is falsy or the weight is `undefined`. */
  predicate BadRequest(body: PostBody)
  {
    !Truthy(body.date) || body.weight.WeightMissing?
  }

  /** `upsert({ date, weight, memo, updated_at }, { onConflict: "date" })`: an existing row keeps its creation time. */
  function Upsert(table: Table, date: string, weight: Option<real>, memo: Option<string>, now: string): (t: Table)
    ensures t.Keys == table.Keys + {date}
    ensures date in t && t[date].weight == weight && t[date].memo == memo && t[date].updatedAt == now
    ensures date in table ==> t[date].createdAt == table[date].createdAt
    ensures forall k :: k in table && k != date ==> k in t && t[k] == table[k]
  {
    var created := if date in table then table[date].createdAt else now;
    table[date := Row(weight, memo, created, now)]
  }

  /** The POST's outcome and the table afterwards. */
  datatype PostResult = PostResult(response: Response<Row>, table: Table)

  /**
   * `POST`: 400 for a bad body before the store is touched; otherwise the
   * upsert, answered with 201 and the stored row, or 500 with the store's
   * message when it fails (`storeError`), the table then unchanged.
   */
  function Post(table: Table, body: PostBody, now: string, storeError: Option<string>): (p: PostResult)
    ensures BadRequest(body) ==> p.response == ErrorResponse(400, "date와 weight는 필수입니다") && p.table == table
    ensures !BadRequest(body) && storeError.Some? ==> p.response == ErrorResponse(500, storeError.value) && p.table == table
    ensures p.response.Payload? <==> !BadRequest(body) && storeError.None?
    ensures p.response.Payload? ==>
      && p.response.status == 201
      && body.date.value in p.table
      && p.response.body == p.table[body.date.value]
      && p.response.body.weight == (if body.weight.WeightNumber? then Some(body.weight.v) else None)
      && p.response.body.memo == StoredMemo(body.memo)
    ensures p.response.Payload? ==>
      && p.table.Keys == table.Keys + {body.date.value}
      && (forall k :: k in table && k != body.date.value ==> p.table[k] == table[k])
      && (body.date.value in table ==> p.table[body.date.value].createdAt == table[body.date.value].createdAt)
      && (body.date.value !in table ==> p.table[body.date.value].createdAt == now)
      && p.table[body.date.value].updatedAt == now
  {
    if BadRequest(body) then PostResult(ErrorResponse(400, "date와 weight는 필수입니다"), table)
    else if storeError.Some? then PostResult(ErrorResponse(500, storeError.value), table)
    else
      var weight := if body.weight.WeightNumber? then Some(body.weight.v) else None;
      var t := Upsert(table, body.date.value, weight, StoredMemo(body.memo), now);
      PostResult(Payload(201, t[body.date.value]), t)
  }

  /**
   * What `await request.json()` and the destructuring of its result make of
   * the request body: text that is not JSON, or the JSON `null`, throws; any
   * other value yields its three fields.
   */
  datatype PostRequest = Unparseable | Parsed(body: PostBody)

  /**
   * The whole `POST` handler: a body that cannot be read throws before any
   * check, outside every `try`, so the request ends in the framework's 500
   * and the table is untouched; a readable body goes through `Post`.
   */
  function HandlePost(table: Table, request: PostRequest, now: string, storeError: Option<string>): (p: PostResult)
    ensures request.Unparseable? ==> p.response.Uncaught? && p.table == table
    ensures request.Parsed? ==> p == Post(table, request.body, now, storeError)
    ensures p.response.Payload? <==> request.Parsed? && !BadRequest(request.body) && storeError.None?
    ensures p.table != table ==> request.Parsed? && !BadRequest(request.body) && storeError.None?
  {
    match request
    case Unparseable => PostResult(Uncaught, table)
    case Parsed(body) => Post(table, body, now, storeError)
  }

  /** A weight of zero is a valid weight: only a missing one is refused. */
  lemma ZeroWeightAccepted(table: Table, date: string, memo: Option<string>, now: string)
    requires date != ""
    ensures Post(table, PostBody(Some(date), WeightNumber(0.0), memo), now, None).response.Payload?
  {
  }

  /** Posting a date that already has a row replaces it: the table keeps its size. */
  lemma PostExistingDateKeepsSize(table: Table, body: PostBody, now: string)
    requires !BadRequest(body) && body.date.value in table
    ensures |Post(table, body, now, None).table| == |table|
  {
    assert Post(table, body, now, None).table.Keys == table.Keys;
  }

  /** Posting a new date adds exactly one row. */
  lemma PostNewDateAddsOne(table: Table, body: PostBody, now: string)
    requires !BadRequest(body) && body.date.value !in table
    ensures |Post(table, body, now, None).table| == |table| + 1
  {
    assert Post(table, body, now, None).table.Keys == table.Keys + {body.date.value};
  }

  /** Posting the same body twice at one time leaves the table as one post did. */
  lemma PostIdempotent(table: Table, body: PostBody, now: string)
    ensures var once := Post(table, body, now, None).table;
      Post(once, body, now, None).table == once
  {
  }
}
