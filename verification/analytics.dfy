/**
  The dashboard aggregations (app/actions/analytics-actions.ts). Every action is gated by
  the database-checked admin session; once the rows are fetched, each is a pure fold:
  monthly counts over a twelve-month window, counts by category, status and location, the
  ten busiest locations, and whole-day resolution times grouped into ranges with their mean.
  Calendar arithmetic of JavaScript `Date` is an input: `monthOf` gives the local month of a
  millisecond timestamp.
 */
module Analytics {
  import opened Wrappers
  import opened Text
  import opened Queries
  import opened Sessions
  import opened Store
  import opened Tally
  import opened AdminActions
  import ReportActions

  // ---------------------------------------------------------------- months

  type MonthNumber = m: int | 1 <= m <= 12 witness 1

  /** A calendar month; `month` is 1-based as in the `YYYY-MM` record keys. */
  datatype Month = Month(year: int, month: MonthNumber)

  /** Months counted from January of year 0, so that consecutive months differ by one. */
  function MonthIndex(m: Month): int {
    m.year * 12 + m.month - 1
  }

  /** The month with a given index (Euclidean division keeps `month` in 1..12 for any year). */
  function MonthAt(k: int): (m: Month)
    ensures MonthIndex(m) == k
  {
    Month(k / 12, k % 12 + 1)
  }

  lemma MonthIndexInjective(a: Month, b: Month)
    requires MonthIndex(a) == MonthIndex(b)
    ensures a == b
  {
    assert MonthIndex(a) / 12 == a.year && MonthIndex(b) / 12 == b.year;
  }

  const MonthNames: seq<string> := [
    "January", "February", "March", "April", "May", "June",
    "July", "August", "September", "October", "November", "December"
  ]

  /** `getMonthName(month)`: the English name of a 1-based month. */
  function MonthName(month: MonthNumber): (r: string)
    ensures r in MonthNames
    ensures r == MonthNames[month - 1]
  {
    MonthNames[month - 1]
  }

  /** Different months have different names. */
  lemma MonthNameInjective(a: MonthNumber, b: MonthNumber)
    requires MonthName(a) == MonthName(b)
    ensures a == b
  {
  }

  /** `${year}-${String(month).padStart(2, "0")}`: the record key of a month. */
  function MonthKey(m: Month): (k: string)
    ensures 0 <= m.year ==> |k| == |DecimalString(m.year)| + 3
    ensures |k| >= 4 && k[|k| - 3] == '-'
  {
    var y := IntString(m.year);
    var mm := PadStart(DecimalString(m.month), 2, '0');
    var k := y + "-" + mm;
    assert |mm| == 2 && k[|y|] == '-';
    k
  }

  /** Reads back the year and month of a key `YYYY-MM`. */
  function ParseMonthKey(k: string): (r: Option<(nat, nat)>)
    ensures r.Some? <==> |k| == 7 && AllDigits(k[..4]) && k[4] == '-' && AllDigits(k[5..])
  {
    if |k| == 7 && AllDigits(k[..4]) && k[4] == '-' && AllDigits(k[5..]) then
      Some((ParseDecimal(k[..4]), ParseDecimal(k[5..])))
    else None
  }

  /** `String(month).padStart(2, "0")` reads back as the month. */
  lemma TwoDigitMonth(month: MonthNumber)
    ensures |PadStart(DecimalString(month), 2, '0')| == 2
    ensures AllDigits(PadStart(DecimalString(month), 2, '0'))
    ensures ParseDecimal(PadStart(DecimalString(month), 2, '0')) == month
  {
    var s := PadStart(DecimalString(month), 2, '0');
    DecimalRoundTrip(month);
    if month < 10 {
      assert s == ['0'] + DecimalString(month);
      assert s[..1] == ['0'];
    } else {
      assert DecimalString(month) == DecimalString(month / 10) + [DigitChar(month % 10)];
    }
  }

  /**
    For four-digit years the record key is `YYYY-MM` and parses back to the month, so
    keying the record by key string or by month counts alike.
   */
  lemma MonthKeyRoundTrip(m: Month)
    requires 1000 <= m.year <= 9999
    ensures ParseMonthKey(MonthKey(m)) == Some((m.year as nat, m.month as nat))
  {
    var y := DecimalString(m.year);
    var mm := PadStart(DecimalString(m.month), 2, '0');
    FourDigitLength(m.year);
    DecimalRoundTrip(m.year);
    TwoDigitMonth(m.month);
    var k := MonthKey(m);
    assert k == y + "-" + mm;
    assert k[..4] == y;
    assert k[5..] == mm;
  }

  /**
    The twelve months ending with the current one, oldest first: the keys
    `getIncidentTrends` seeds with zero.
   */
  function TrendWindow(now: Month): (w: seq<Month>)
    ensures |w| == 12
    ensures forall i :: 0 <= i < 12 ==> MonthIndex(w[i]) == MonthIndex(now) - 11 + i
    ensures w[11] == now
  {
    var w := seq(12, i requires 0 <= i < 12 => MonthAt(MonthIndex(now) - 11 + i));
    assert forall i :: 0 <= i < 12 ==> w[i] == MonthAt(MonthIndex(now) - 11 + i);
    assert MonthIndex(w[11]) == MonthIndex(now);
    MonthIndexInjective(w[11], now);
    w
  }

  /** The window's months are distinct and strictly chronological. */
  lemma TrendWindowChronological(now: Month)
    ensures forall i, j :: 0 <= i < j < 12 ==> MonthIndex(TrendWindow(now)[i]) < MonthIndex(TrendWindow(now)[j])
    ensures forall i, j :: 0 <= i < j < 12 ==> TrendWindow(now)[i] != TrendWindow(now)[j]
  {
  }

  function ZeroEntries<K>(ks: seq<K>): (t: seq<Entry<K>>)
    ensures Keys(t) == ks
    ensures forall i :: 0 <= i < |t| ==> t[i].count == 0
  {
    seq(|ks|, i requires 0 <= i < |ks| => Entry(ks[i], 0))
  }

  lemma {:induction false} ZeroEntriesCount<K>(t: seq<Entry<K>>, k: K)
    requires forall i :: 0 <= i < |t| ==> t[i].count == 0
    ensures CountOf(t, k) == 0
  {
    if |t| > 0 {
      ZeroEntriesCount(t[1..], k);
    }
  }

  /** One point of the trend chart: `${getMonthName(month)} ${year}` and its count. */
  datatype TrendPoint = TrendPoint(month: string, count: nat)

  function MonthLabel(m: Month): string {
    MonthName(m.month) + " " + IntString(m.year)
  }

  /** The months of the fetched rows counted into the zero-seeded window. */
  function MonthlyCounts(now: Month, months: seq<Month>): seq<Entry<Month>> {
    TallyFrom(ZeroEntries(TrendWindow(now)), months)
  }

  function TrendPoints(t: seq<Entry<Month>>): (r: seq<TrendPoint>)
    ensures |r| == |t|
    ensures forall i :: 0 <= i < |t| ==> r[i] == TrendPoint(MonthLabel(t[i].key), t[i].count)
  {
    seq(|t|, i requires 0 <= i < |t| => TrendPoint(MonthLabel(t[i].key), t[i].count))
  }

  /**
    When every fetched row falls in the window, the chart has exactly twelve points in
    chronological order, each labelled with its month and counting that month's rows.
   */
  lemma TrendsShape(now: Month, months: seq<Month>)
    requires forall i :: 0 <= i < |months| ==> months[i] in TrendWindow(now)
    ensures var r := TrendPoints(MonthlyCounts(now, months));
            && |r| == 12
            && forall i :: 0 <= i < 12 ==>
                 r[i].month == MonthLabel(TrendWindow(now)[i]) && r[i].count == Occurrences(months, TrendWindow(now)[i])
  {
    var w := TrendWindow(now);
    var zero := ZeroEntries(w);
    var t := MonthlyCounts(now, months);
    TallyFromKeysFixed(zero, months);
    TrendWindowChronological(now);
    assert DistinctKeys(zero) by {
      forall i, j | 0 <= i < j < |zero| ensures zero[i].key != zero[j].key {
        assert zero[i].key == Keys(zero)[i] && zero[j].key == Keys(zero)[j];
      }
    }
    TallyFromTotal(zero, months);
    forall i | 0 <= i < 12 ensures t[i].key == w[i] && t[i].count == Occurrences(months, w[i]) {
      assert t[i].key == Keys(t)[i];
      EntryCount(t, i);
      TallyFromCounts(zero, months, w[i]);
      ZeroEntriesCount(zero, w[i]);
    }
  }

  /** A row whose local month lies outside the window adds a thirteenth point. */
  lemma StrayMonthAddsPoint(now: Month, m: Month)
    requires m !in TrendWindow(now)
    ensures |TrendPoints(MonthlyCounts(now, [m]))| == 13
  {
    var zero := ZeroEntries(TrendWindow(now));
    assert MonthlyCounts(now, [m]) == Bump(TallyFrom(zero, []), m);
  }

  function NegatedSubmissionDate(c: Complaint): int {
    -c.submission_date
  }

  /** `.gte("submission_date", start).lte("submission_date", end)`. */
  function InWindow(startTs: int, endTs: int): Complaint -> bool {
    (c: Complaint) => startTs <= c.submission_date <= endTs
  }

  /** The rows whose local month is `m`. */
  function InMonth(monthOf: int -> Month, m: Month): Complaint -> bool {
    (c: Complaint) => monthOf(c.submission_date) == m
  }

  /** The rows submitted within the window whose local month is `m`. */
  function InWindowAndMonth(startTs: int, endTs: int, monthOf: int -> Month, m: Month): Complaint -> bool {
    (c: Complaint) => startTs <= c.submission_date <= endTs && monthOf(c.submission_date) == m
  }

  /** `new Date(item.submission_date)` taken to its local month, row by row. */
  function MonthsOf(rows: seq<Complaint>, monthOf: int -> Month): (ms: seq<Month>)
    ensures |ms| == |rows|
    ensures forall i :: 0 <= i < |rows| ==> ms[i] == monthOf(rows[i].submission_date)
  {
    seq(|rows|, i requires 0 <= i < |rows| => monthOf(rows[i].submission_date))
  }

  /** A month occurs in the mapped rows as often as rows of that month are present. */
  lemma {:induction false} MonthsOfOccurrences(rows: seq<Complaint>, monthOf: int -> Month, m: Month)
    ensures Occurrences(MonthsOf(rows, monthOf), m) == |Filter(rows, InMonth(monthOf, m))|
  {
    if |rows| > 0 {
      var n := |rows| - 1;
      var pre, q := rows[..n], InMonth(monthOf, m);
      var ms := MonthsOf(rows, monthOf);
      assert ms[..n] == MonthsOf(pre, monthOf);
      MonthsOfOccurrences(pre, monthOf, m);
      assert rows == pre + [rows[n]];
      FilterSnocCount(pre, rows[n], q);
      assert q(rows[n]) == (ms[n] == m);
    }
  }

  /** The rows `getIncidentTrends` fetches, oldest first. */
  function WindowRows(cs: seq<Complaint>, startTs: int, endTs: int): seq<Complaint> {
    SortDesc(Filter(cs, InWindow(startTs, endTs)), NegatedSubmissionDate)
  }

  /** Each month is counted once per row of the window that falls in it, whatever the order. */
  lemma WindowMonthCount(cs: seq<Complaint>, startTs: int, endTs: int, monthOf: int -> Month, m: Month)
    ensures Occurrences(MonthsOf(WindowRows(cs, startTs, endTs), monthOf), m)
            == |Filter(cs, InWindowAndMonth(startTs, endTs, monthOf, m))|
  {
    var inRange := Filter(cs, InWindow(startTs, endTs));
    var rows := WindowRows(cs, startTs, endTs);
    MonthsOfOccurrences(rows, monthOf, m);
    FilterPermutationCount(rows, inRange, InMonth(monthOf, m));
    FilterFilter(cs, InWindow(startTs, endTs), InMonth(monthOf, m), InWindowAndMonth(startTs, endTs, monthOf, m));
  }

  /**
    The rows `getIncidentTrends` fetches: submitted within `[startTs, endTs]`, oldest
    first, each mapped to its local month.
   */
  function FetchedMonths(cs: seq<Complaint>, startTs: int, endTs: int, monthOf: int -> Month): (ms: seq<Month>)
    ensures forall i :: 0 <= i < |ms| ==>
              exists c :: c in cs && startTs <= c.submission_date <= endTs && ms[i] == monthOf(c.submission_date)
    ensures forall m :: Occurrences(ms, m) == |Filter(cs, InWindowAndMonth(startTs, endTs, monthOf, m))|
  {
    var inRange := Filter(cs, InWindow(startTs, endTs));
    var rows := WindowRows(cs, startTs, endTs);
    SortDescSameRows(inRange, NegatedSubmissionDate);
    assert forall m :: Occurrences(MonthsOf(rows, monthOf), m)
                       == |Filter(cs, InWindowAndMonth(startTs, endTs, monthOf, m))| by {
      forall m ensures Occurrences(MonthsOf(rows, monthOf), m)
                       == |Filter(cs, InWindowAndMonth(startTs, endTs, monthOf, m))| {
        WindowMonthCount(cs, startTs, endTs, monthOf, m);
      }
    }
    MonthsOf(rows, monthOf)
  }

  /** `getIncidentTrends()`; `now` is the current month and `fetchFails` a query error. */
  function GetIncidentTrends(db: Db, jar: Jar, now: Month, startTs: int, endTs: int, monthOf: int -> Month,
                             fetchFails: bool): (r: Result<seq<TrendPoint>, Error>)
    ensures CheckAdminAuthDb(db, jar).Unauthenticated? ==> r == Err(Msg(ReportActions.NotAuthenticated))
    ensures r.Ok? <==> CheckAdminAuthDb(db, jar).Authenticated? && !fetchFails
    ensures r.Ok? ==> r.value == TrendPoints(MonthlyCounts(now, FetchedMonths(db.complaints, startTs, endTs, monthOf)))
  {
    if CheckAdminAuthDb(db, jar).Unauthenticated? then Err(Msg(ReportActions.NotAuthenticated))
    else if fetchFails then Err(DbError(Unavailable))
    else Ok(TrendPoints(MonthlyCounts(now, FetchedMonths(db.complaints, startTs, endTs, monthOf))))
  }

  /**
    When the local months of the rows in the window all fall among the twelve seeded
    months, the chart has one point per month, in order, counting exactly that month's rows.
   */
  lemma IncidentTrendsCounts(db: Db, jar: Jar, now: Month, startTs: int, endTs: int, monthOf: int -> Month,
                             fetchFails: bool)
    requires forall c :: c in db.complaints && startTs <= c.submission_date <= endTs ==>
               monthOf(c.submission_date) in TrendWindow(now)
    ensures var r := GetIncidentTrends(db, jar, now, startTs, endTs, monthOf, fetchFails);
            r.Ok? ==>
              && |r.value| == 12
              && forall i :: 0 <= i < 12 ==>
                   && r.value[i].month == MonthLabel(TrendWindow(now)[i])
                   && r.value[i].count == |Filter(db.complaints, InWindowAndMonth(startTs, endTs, monthOf, TrendWindow(now)[i]))|
  {
    var ms := FetchedMonths(db.complaints, startTs, endTs, monthOf);
    TrendsShape(now, ms);
  }

  // ------------------------------------------------------- category, status, location

  predicate HasCategory(c: Complaint) {
    c.category.Some?
  }

  /** `item.category || "Uncategorized"`. */
  function CategoryKey(c: Complaint): string
    requires HasCategory(c)
  {
    if c.category.value == "" then "Uncategorized" else c.category.value
  }

  function CategoryKeys(rows: seq<Complaint>): (ks: seq<string>)
    requires forall i :: 0 <= i < |rows| ==> HasCategory(rows[i])
    ensures |ks| == |rows|
    ensures forall i :: 0 <= i < |rows| ==> ks[i] == CategoryKey(rows[i])
    ensures "" !in ks
  {
    seq(|rows|, i requires 0 <= i < |rows| => CategoryKey(rows[i]))
  }

  /**
    The category counts: one entry per distinct category, and rows with a `null` category
    are not fetched, so the counts add up to the number of categorised rows.
   */
  function CategoryBreakdown(cs: seq<Complaint>): (r: seq<Entry<string>>)
    ensures DistinctKeys(r)
    ensures Total(r) == |Filter(cs, HasCategory)|
  {
    var ks := CategoryKeys(Filter(cs, HasCategory));
    TallySpec(ks);
    CountBy(ks)
  }

  /**
    Each category entry counts its rows exactly, and an empty category is reported as
    "Uncategorized", never as the empty string.
   */
  lemma CategoryCountsExact(cs: seq<Complaint>)
    ensures var r := CategoryBreakdown(cs);
            && (forall i :: 0 <= i < |r| ==> r[i].key != "")
            && (forall i :: 0 <= i < |r| ==> r[i].count == Occurrences(CategoryKeys(Filter(cs, HasCategory)), r[i].key))
  {
    var ks := CategoryKeys(Filter(cs, HasCategory));
    TallySpec(ks);
  }

  /** Every row with a category has its category reported. */
  lemma CategoriesCovered(cs: seq<Complaint>, i: nat)
    requires i < |cs| && HasCategory(cs[i])
    ensures CategoryKey(cs[i]) in Keys(CategoryBreakdown(cs))
  {
    var rows := Filter(cs, HasCategory);
    var ks := CategoryKeys(rows);
    var j :| 0 <= j < |rows| && rows[j] == cs[i];
    assert ks[j] == CategoryKey(cs[i]);
    TallySpec(ks);
  }

  /** `item.status || "Unknown"`. */
  function StatusKey(c: Complaint): string {
    if c.status == "" then "Unknown" else c.status
  }

  function StatusKeys(cs: seq<Complaint>): (ks: seq<string>)
    ensures |ks| == |cs|
    ensures forall i :: 0 <= i < |cs| ==> ks[i] == StatusKey(cs[i])
  {
    seq(|cs|, i requires 0 <= i < |cs| => StatusKey(cs[i]))
  }

  /** The status counts: one entry per status, "Unknown" for an empty one, summing to the row count. */
  function StatusDistribution(cs: seq<Complaint>): (r: seq<Entry<string>>)
    ensures DistinctKeys(r)
    ensures Total(r) == |cs|
    ensures forall i :: 0 <= i < |r| ==> r[i].key != ""
    ensures forall i :: 0 <= i < |r| ==> r[i].count == Occurrences(StatusKeys(cs), r[i].key)
    ensures forall i :: 0 <= i < |cs| ==> StatusKey(cs[i]) in Keys(r)
  {
    TallySpec(StatusKeys(cs));
    CountBy(StatusKeys(cs))
  }

  /** `item.incident_location || "Unknown"`. */
  function LocationKey(c: Complaint): string {
    if c.incident_location == "" then "Unknown" else c.incident_location
  }

  function LocationKeys(cs: seq<Complaint>): (ks: seq<string>)
    ensures |ks| == |cs|
    ensures forall i :: 0 <= i < |cs| ==> ks[i] == LocationKey(cs[i])
  {
    seq(|cs|, i requires 0 <= i < |cs| => LocationKey(cs[i]))
  }

  function EntryCountKey(e: Entry<string>): int {
    e.count
  }

  const TopLocations: nat := 10

  /** `.sort((a, b) => b.count - a.count).slice(0, 10)` over the location counts. */
  function LocationAnalysis(cs: seq<Complaint>): (r: seq<Entry<string>>)
    ensures |r| <= TopLocations
    ensures |r| == if |CountBy(LocationKeys(cs))| < TopLocations then |CountBy(LocationKeys(cs))| else TopLocations
    ensures DistinctKeys(r)
    ensures forall i, j :: 0 <= i < j < |r| ==> r[i].count >= r[j].count
  {
    TopEntries(LocationKeys(cs), TopLocations);
    Take(SortDesc(CountBy(LocationKeys(cs)), EntryCountKey), TopLocations)
  }

  /** The leading entries of a sorted tally still name each key once, largest count first. */
  lemma TopEntries(ks: seq<string>, n: nat)
    ensures var r := Take(SortDesc(CountBy(ks), EntryCountKey), n);
            && DistinctKeys(r)
            && forall i, j :: 0 <= i < j < |r| ==> r[i].count >= r[j].count
  {
    var t := CountBy(ks);
    var sorted := SortDesc(t, EntryCountKey);
    TallySpec(ks);
    DistinctKeysPermutation(t, sorted);
    var r := Take(sorted, n);
    assert forall i :: 0 <= i < |r| ==> r[i] == sorted[i];
    assert forall i, j :: 0 <= i < j < |r| ==> EntryCountKey(r[i]) >= EntryCountKey(r[j]);
  }

  /** Every location entry counts that location's rows exactly. */
  lemma LocationCountsExact(cs: seq<Complaint>)
    ensures var r := LocationAnalysis(cs);
            forall i :: 0 <= i < |r| ==> r[i].count == Occurrences(LocationKeys(cs), r[i].key)
  {
    var ks := LocationKeys(cs);
    var t := CountBy(ks);
    var sorted := SortDesc(t, EntryCountKey);
    var r := LocationAnalysis(cs);
    TallySpec(ks);
    SortDescSameRows(t, EntryCountKey);
    forall i | 0 <= i < |r| ensures r[i].count == Occurrences(ks, r[i].key) {
      assert r[i] == sorted[i];
      var p :| 0 <= p < |t| && t[p] == sorted[i];
    }
  }

  /** A location left out of the top ten has no more rows than any location shown. */
  lemma LocationTopTen(cs: seq<Complaint>, i: nat, j: nat)
    requires i < |cs| && j < |LocationAnalysis(cs)|
    requires LocationKey(cs[i]) !in Keys(LocationAnalysis(cs))
    ensures Occurrences(LocationKeys(cs), LocationKey(cs[i])) <= LocationAnalysis(cs)[j].count
  {
    var ks := LocationKeys(cs);
    var r := LocationAnalysis(cs);
    var e := Entry(ks[i], Occurrences(ks, ks[i]));
    CountByEntry(ks, i);
    AbsentKey(r, e);
    TakeSortedDominates(CountBy(ks), EntryCountKey, TopLocations, e, j);
  }

  /** The three count actions behind the admin check; `fetchFails` is a query error. */
  function GetCategoryBreakdown(db: Db, jar: Jar, fetchFails: bool): (r: Result<seq<Entry<string>>, Error>)
    ensures CheckAdminAuthDb(db, jar).Unauthenticated? ==> r == Err(Msg(ReportActions.NotAuthenticated))
    ensures r.Ok? <==> CheckAdminAuthDb(db, jar).Authenticated? && !fetchFails
    ensures r.Ok? ==> r.value == CategoryBreakdown(db.complaints)
    ensures r.Ok? ==> Total(r.value) == |Filter(db.complaints, HasCategory)|
  {
    if CheckAdminAuthDb(db, jar).Unauthenticated? then Err(Msg(ReportActions.NotAuthenticated))
    else if fetchFails then Err(DbError(Unavailable))
    else Ok(CategoryBreakdown(db.complaints))
  }

  function GetStatusDistribution(db: Db, jar: Jar, fetchFails: bool): (r: Result<seq<Entry<string>>, Error>)
    ensures CheckAdminAuthDb(db, jar).Unauthenticated? ==> r == Err(Msg(ReportActions.NotAuthenticated))
    ensures r.Ok? <==> CheckAdminAuthDb(db, jar).Authenticated? && !fetchFails
    ensures r.Ok? ==> r.value == StatusDistribution(db.complaints)
    ensures r.Ok? ==> Total(r.value) == |db.complaints|
  {
    if CheckAdminAuthDb(db, jar).Unauthenticated? then Err(Msg(ReportActions.NotAuthenticated))
    else if fetchFails then Err(DbError(Unavailable))
    else Ok(StatusDistribution(db.complaints))
  }

  function GetLocationAnalysis(db: Db, jar: Jar, fetchFails: bool): (r: Result<seq<Entry<string>>, Error>)
    ensures CheckAdminAuthDb(db, jar).Unauthenticated? ==> r == Err(Msg(ReportActions.NotAuthenticated))
    ensures r.Ok? <==> CheckAdminAuthDb(db, jar).Authenticated? && !fetchFails
    ensures r.Ok? ==> r.value == LocationAnalysis(db.complaints)
    ensures r.Ok? ==> |r.value| <= TopLocations && DistinctKeys(r.value)
  {
    if CheckAdminAuthDb(db, jar).Unauthenticated? then Err(Msg(ReportActions.NotAuthenticated))
    else if fetchFails then Err(DbError(Unavailable))
    else Ok(LocationAnalysis(db.complaints))
  }

  // ---------------------------------------------------------------- response time

  const MillisPerDay: nat := 1000 * 60 * 60 * 24

  predicate IsClosed(c: Complaint) {
    c.status == "Resolved" || c.status == "Closed"
  }

  predicate ResolvesComplaint(h: HistoryEntry, id: string) {
    h.complaint_id == id && h.status == "Resolved"
  }

  /**
    `.eq("complaint_id", id).eq("status", "Resolved").order("created_at").limit(1)`: the
    earliest time the complaint was marked resolved, if ever.
   */
  function FirstResolution(hs: seq<HistoryEntry>, id: string): (r: Option<int>)
    ensures r.None? <==> forall i :: 0 <= i < |hs| ==> !ResolvesComplaint(hs[i], id)
    ensures r.Some? ==> exists i :: 0 <= i < |hs| && ResolvesComplaint(hs[i], id) && hs[i].created_at == r.value
    ensures r.Some? ==> forall i :: 0 <= i < |hs| && ResolvesComplaint(hs[i], id) ==> r.value <= hs[i].created_at
  {
    if |hs| == 0 then None
    else
      var rest := FirstResolution(hs[1..], id);
      assert forall i :: 1 <= i < |hs| ==> hs[i] == hs[1..][i - 1];
      if !ResolvesComplaint(hs[0], id) then rest
      else if rest.Some? && rest.value < hs[0].created_at then rest
      else Some(hs[0].created_at)
  }

  /** `Math.floor((resolution - submission) / 86 400 000)`: whole days, rounded down. */
  function DaysBetween(submitted: int, resolved: int): (d: int)
    ensures d * MillisPerDay <= resolved - submitted < (d + 1) * MillisPerDay
  {
    (resolved - submitted) / MillisPerDay
  }

  /** The closed complaints that get a resolution time: history fetched and a resolving entry found. */
  function Timed(hs: seq<HistoryEntry>, historyFails: set<string>): Complaint -> bool {
    (c: Complaint) => c.id !in historyFails && FirstResolution(hs, c.id).Some?
  }

  /**
    `days` lists, in row order, the whole days from submission to first resolution of each
    closed complaint that gets a resolution time, and nothing else.
   */
  predicate TimesOfTimed(closed: seq<Complaint>, hs: seq<HistoryEntry>, historyFails: set<string>, days: seq<int>) {
    var timed := Filter(closed, Timed(hs, historyFails));
    && |days| == |timed|
    && forall k :: 0 <= k < |days| ==>
         days[k] == DaysBetween(timed[k].submission_date, FirstResolution(hs, timed[k].id).value)
  }

  /** One more closed complaint in front adds its time in front, or nothing. */
  lemma {:induction false} TimesOfTimedCons(closed: seq<Complaint>, hs: seq<HistoryEntry>, historyFails: set<string>,
                                            rest: seq<int>)
    requires |closed| > 0 && TimesOfTimed(closed[1..], hs, historyFails, rest)
    ensures var c := closed[0];
            TimesOfTimed(closed, hs, historyFails,
                         if Timed(hs, historyFails)(c)
                         then [DaysBetween(c.submission_date, FirstResolution(hs, c.id).value)] + rest
                         else rest)
  {
    var c, timed := closed[0], Timed(hs, historyFails);
    var f, f' := Filter(closed, timed), Filter(closed[1..], timed);
    if timed(c) {
      assert f == [c] + f';
      var days := [DaysBetween(c.submission_date, FirstResolution(hs, c.id).value)] + rest;
      forall k | 0 <= k < |days|
        ensures days[k] == DaysBetween(f[k].submission_date, FirstResolution(hs, f[k].id).value)
      {
        if k > 0 {
          assert days[k] == rest[k - 1] && f[k] == f'[k - 1];
        }
      }
    } else {
      assert f == f';
    }
  }

  /** At most one time per closed complaint, and one for each when every complaint gets one. */
  lemma TimesOfTimedLength(closed: seq<Complaint>, hs: seq<HistoryEntry>, historyFails: set<string>, days: seq<int>)
    requires TimesOfTimed(closed, hs, historyFails, days)
    ensures |days| <= |closed|
    ensures (forall i :: 0 <= i < |closed| ==> closed[i].id !in historyFails && FirstResolution(hs, closed[i].id).Some?)
              ==> |days| == |closed|
  {
    var timed := Timed(hs, historyFails);
    if forall i :: 0 <= i < |closed| ==> closed[i].id !in historyFails && FirstResolution(hs, closed[i].id).Some? {
      assert forall x :: x in closed ==> timed(x);
      FilterAll(closed, timed);
    }
  }

  /**
    The resolution times of the closed complaints, in row order; a complaint whose history
    query fails (its id is in `historyFails`) or that was never marked resolved is skipped.
   */
  function ResponseDays(closed: seq<Complaint>, hs: seq<HistoryEntry>, historyFails: set<string>): (days: seq<int>)
    ensures |days| <= |closed|
    ensures (forall i :: 0 <= i < |closed| ==> closed[i].id !in historyFails && FirstResolution(hs, closed[i].id).Some?)
              ==> |days| == |closed|
    ensures TimesOfTimed(closed, hs, historyFails, days)
  {
    if |closed| == 0 then []
    else
      var c := closed[0];
      var rest := ResponseDays(closed[1..], hs, historyFails);
      var days := if Timed(hs, historyFails)(c)
                  then [DaysBetween(c.submission_date, FirstResolution(hs, c.id).value)] + rest
                  else rest;
      TimesOfTimedCons(closed, hs, historyFails, rest);
      TimesOfTimedLength(closed, hs, historyFails, days);
      days
  }

  /** The range labels, in the order they are reported. */
  const RangeLabels: seq<string> := ["1-3 days", "4-7 days", "8-14 days", "15-30 days", "30+ days"]

  /** `ranges.find(...)`: the first range holding `d`; none for a day count below one. */
  function Bucket(d: int): (b: Option<nat>)
    ensures b.None? <==> d < 1
    ensures b.Some? ==> b.value < 5
    ensures b == Some(0) <==> 1 <= d <= 3
    ensures b == Some(1) <==> 4 <= d <= 7
    ensures b == Some(2) <==> 8 <= d <= 14
    ensures b == Some(3) <==> 15 <= d <= 30
    ensures b == Some(4) <==> 31 <= d
  {
    if 1 <= d <= 3 then Some(0)
    else if 4 <= d <= 7 then Some(1)
    else if 8 <= d <= 14 then Some(2)
    else if 15 <= d <= 30 then Some(3)
    else if 31 <= d then Some(4)
    else None
  }

  /** How many of `days` fall in range `b`. */
  function InBucket(days: seq<int>, b: nat): nat {
    if |days| == 0 then 0 else InBucket(days[..|days| - 1], b) + (if Bucket(days[|days| - 1]) == Some(b) then 1 else 0)
  }

  function Sum(xs: seq<int>): int {
    if |xs| == 0 then 0 else Sum(xs[..|xs| - 1]) + xs[|xs| - 1]
  }

  function SumNat(xs: seq<nat>): nat {
    if |xs| == 0 then 0 else SumNat(xs[..|xs| - 1]) + xs[|xs| - 1]
  }

  /** How many of `days` are at least one. */
  function Positive(days: seq<int>): (n: nat)
    ensures n <= |days|
  {
    if |days| == 0 then 0 else Positive(days[..|days| - 1]) + (if days[|days| - 1] >= 1 then 1 else 0)
  }

  lemma SumNatFive(r: seq<nat>)
    requires |r| == 5
    ensures SumNat(r) == r[0] + r[1] + r[2] + r[3] + r[4]
  {
    assert SumNat(r[..1]) == r[0] by { assert r[..1][..0] == []; }
    assert SumNat(r[..2]) == r[0] + r[1] by { assert r[..2][..1] == r[..1]; }
    assert SumNat(r[..3]) == r[0] + r[1] + r[2] by { assert r[..3][..2] == r[..2]; }
    assert SumNat(r[..4]) == r[0] + r[1] + r[2] + r[3] by { assert r[..4][..3] == r[..3]; }
    assert r[..|r| - 1] == r[..4];
  }

  /** `responseTimeData.forEach(...)`: the five range counters after every day count is placed. */
  function BucketCounts(days: seq<int>): (r: seq<nat>)
    ensures |r| == 5
    ensures SumNat(r) == Positive(days)
  {
    if |days| == 0 then
      SumNatFive([0, 0, 0, 0, 0]);
      [0, 0, 0, 0, 0]
    else
      var prev := BucketCounts(days[..|days| - 1]);
      match Bucket(days[|days| - 1])
      case None => prev
      case Some(b) =>
        var r := prev[b := prev[b] + 1];
        SumNatFive(r);
        SumNatFive(prev);
        r
  }

  /** Each counter holds exactly the day counts of its range. */
  lemma {:induction false} BucketCountsSpec(days: seq<int>, b: nat)
    requires b < 5
    ensures BucketCounts(days)[b] == InBucket(days, b)
  {
    if |days| > 0 {
      BucketCountsSpec(days[..|days| - 1], b);
    }
  }

  /** A mean kept exact: `num / den`. */
  datatype Ratio = Ratio(num: int, den: nat)

  /** The mean of `days`, or 0 when there are none. */
  function Mean(days: seq<int>): (r: Ratio)
    ensures r.den > 0
    ensures |days| > 0 ==> r.den == |days| && r.num == Sum(days)
    ensures |days| == 0 ==> r.num == 0
  {
    if |days| == 0 then Ratio(0, 1) else Ratio(Sum(days), |days|)
  }

  /** The mean lies between the smallest and the largest day count. */
  lemma {:induction false} SumBounds(days: seq<int>, lo: int, hi: int)
    requires forall i :: 0 <= i < |days| ==> lo <= days[i] <= hi
    ensures |days| * lo <= Sum(days) <= |days| * hi
  {
    if |days| > 0 {
      var n := |days| - 1;
      var pre := days[..n];
      assert forall i :: 0 <= i < |pre| ==> pre[i] == days[i];
      SumBounds(pre, lo, hi);
      assert Sum(days) == Sum(pre) + days[n];
      assert |days| * lo == n * lo + lo && |days| * hi == n * hi + hi;
    }
  }

  lemma MeanWithinRange(days: seq<int>, lo: int, hi: int)
    requires |days| > 0
    requires forall i :: 0 <= i < |days| ==> lo <= days[i] <= hi
    ensures Mean(days).den * lo <= Mean(days).num <= Mean(days).den * hi
  {
    SumBounds(days, lo, hi);
  }

  /** What `getResponseTimeAnalysis` returns: the labelled counts and the exact mean. */
  datatype ResponseTimes = ResponseTimes(ranges: seq<Entry<string>>, average: Ratio)

  function Analyse(days: seq<int>): (r: ResponseTimes)
    ensures |r.ranges| == 5
    ensures forall b :: 0 <= b < 5 ==> r.ranges[b].key == RangeLabels[b]
    ensures forall b :: 0 <= b < 5 ==> r.ranges[b].count == InBucket(days, b)
    ensures Total(r.ranges) == Positive(days)
    ensures r.average == Mean(days)
  {
    var counts := BucketCounts(days);
    BucketCountsTotal(days);
    ResponseTimes(seq(5, b requires 0 <= b < 5 => Entry(RangeLabels[b], counts[b])), Mean(days))
  }

  /** The five labelled counters add up to the number of day counts of at least one. */
  lemma BucketCountsTotal(days: seq<int>)
    ensures var counts := BucketCounts(days);
            && Total(seq(5, b requires 0 <= b < 5 => Entry(RangeLabels[b], counts[b]))) == Positive(days)
            && forall b :: 0 <= b < 5 ==> counts[b] == InBucket(days, b)
  {
    var counts := BucketCounts(days);
    var t := seq(5, b requires 0 <= b < 5 => Entry(RangeLabels[b], counts[b]));
    SumNatFive(counts);
    assert Total(t[4..]) == counts[4] by { assert t[4..][1..] == []; }
    assert Total(t[3..]) == counts[3] + counts[4] by { assert t[3..][1..] == t[4..]; }
    assert Total(t[2..]) == counts[2] + counts[3] + counts[4] by { assert t[2..][1..] == t[3..]; }
    assert Total(t[1..]) == counts[1] + counts[2] + counts[3] + counts[4] by { assert t[1..][1..] == t[2..]; }
    forall b | 0 <= b < 5 ensures counts[b] == InBucket(days, b) {
      BucketCountsSpec(days, b);
    }
  }

  /** Day counts 2, 5 and 40 land in the first, second and last ranges and average 47/3. */
  lemma ResponseTimeExample()
    ensures BucketCounts([2, 5, 40]) == [1, 1, 0, 0, 1]
    ensures Mean([2, 5, 40]) == Ratio(47, 3)
  {
    assert [2, 5, 40][..2] == [2, 5];
    assert [2, 5][..1] == [2];
    assert [2][..0] == [];
  }

  /** Thirty days is still in the 15-30 range; zero days is in no range. */
  lemma RangeEdges()
    ensures Bucket(30) == Some(3) && Bucket(31) == Some(4) && Bucket(0).None?
  {
  }

  /** `getResponseTimeAnalysis()`: closed complaints only; a failed complaint query is an error. */
  function GetResponseTimeAnalysis(db: Db, jar: Jar, fetchFails: bool, historyFails: set<string>): (r: Result<ResponseTimes, Error>)
    ensures CheckAdminAuthDb(db, jar).Unauthenticated? ==> r == Err(Msg(ReportActions.NotAuthenticated))
    ensures r.Ok? <==> CheckAdminAuthDb(db, jar).Authenticated? && !fetchFails
    ensures r.Ok? ==> r.value == Analyse(ResponseDays(Filter(db.complaints, IsClosed), db.history, historyFails))
    ensures r.Ok? ==> Total(r.value.ranges) <= |Filter(db.complaints, IsClosed)|
  {
    if CheckAdminAuthDb(db, jar).Unauthenticated? then Err(Msg(ReportActions.NotAuthenticated))
    else if fetchFails then Err(DbError(Unavailable))
    else Ok(Analyse(ResponseDays(Filter(db.complaints, IsClosed), db.history, historyFails)))
  }
}
