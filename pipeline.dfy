/** The window accumulator: for a target day it takes the aggregates of the
    seven days before it, each read from the cache of daily aggregates or,
    failing that, computed from the raw log and cached, and writes their sum
    per user as the report of the target day. */
module Pipeline {
  import opened DailyAggregate

  /** A calendar day as an ordinal: `d - 1` is the day before `d`. */
  type Day = int

  /** Raw logs by day, cached daily aggregates by day, reports by day. */
  type RawLogs = map<Day, seq<Event>>
  type Cache = map<Day, Table>
  type Reports = map<Day, Table>

  const WindowLength: nat := 7

  /** The days before `target`, nearest first: target - 1, ..., target - 7. */
  function Window(target: Day): (w: seq<Day>)
    ensures |w| == WindowLength
    ensures forall i, j :: 0 <= i < j < |w| ==> w[i] != w[j]
    ensures forall d :: d in w ==> target - WindowLength <= d < target
  {
    seq(WindowLength, i => target - (i + 1))
  }

  /** The window is exactly the seven days before `target`, each once, and
      never `target` itself. */
  lemma WindowDays(target: Day)
    ensures forall d :: d in Window(target) <==> target - WindowLength <= d < target
    ensures forall i, j :: 0 <= i < j < |Window(target)| ==> Window(target)[i] != Window(target)[j]
    ensures target !in Window(target)
  {
    var w := Window(target);
    forall d | target - WindowLength <= d < target ensures d in w {
      assert w[target - 1 - d] == d;
    }
  }

  // ---------------------------------------------------------------------
  // One day of the loop: cache or compute.

  /** The raw events of a day; a day without a log has none. */
  function RawAt(raw: RawLogs, d: Day): seq<Event>
  {
    if d in raw then raw[d] else []
  }

  /** The cached aggregate of a day; a day without a cache entry reads as
      the empty table, so an absent entry and an empty one are alike. */
  function CachedAt(cache: Cache, d: Day): Table
  {
    if d in cache then cache[d] else map[]
  }

  /** The cache answers for `d` only with a non-empty aggregate. */
  predicate Hit(cache: Cache, d: Day)
  {
    CachedAt(cache, d) != map[]
  }

  /** The aggregate that day `d` adds to the report. */
  function Contribution(cache: Cache, raw: RawLogs, d: Day): Table
  {
    if Hit(cache, d) then CachedAt(cache, d)
    else if RawAt(raw, d) != [] then AggregateData(RawAt(raw, d))
    else map[]
  }

  /** The cache after the loop has handled day `d`: a miss on a day with
      raw events stores that day's aggregate; otherwise nothing is written. */
  function CacheStep(cache: Cache, raw: RawLogs, d: Day): Cache
  {
    if !Hit(cache, d) && RawAt(raw, d) != [] then cache[d := AggregateData(RawAt(raw, d))]
    else cache
  }

  /** Handling `days` stores a fresh aggregate for `d`. */
  predicate Fills(cache: Cache, raw: RawLogs, days: seq<Day>, d: Day)
  {
    d in days && !Hit(cache, d) && RawAt(raw, d) != []
  }

  /** The cache after the loop has handled `days` in order. */
  function FillCache(cache: Cache, raw: RawLogs, days: seq<Day>): Cache
  {
    if days == [] then cache
    else CacheStep(FillCache(cache, raw, days[..|days| - 1]), raw, days[|days| - 1])
  }

  lemma FillCacheSnoc(cache: Cache, raw: RawLogs, days: seq<Day>, d: Day)
    ensures FillCache(cache, raw, days + [d]) == CacheStep(FillCache(cache, raw, days), raw, d)
  {
    assert (days + [d])[..|days|] == days;
  }

  /** What the loop leaves in the cache for any one day: the day's
      aggregate when the day was handled, missed and had raw events, and
      the old entry (or its absence) otherwise. */
  lemma {:induction false} FillCacheAt(cache: Cache, raw: RawLogs, days: seq<Day>, d: Day)
    ensures d in FillCache(cache, raw, days) <==> d in cache || Fills(cache, raw, days, d)
    ensures CachedAt(FillCache(cache, raw, days), d) ==
              if Fills(cache, raw, days, d) then AggregateData(RawAt(raw, d)) else CachedAt(cache, d)
  {
    if days != [] {
      var prev := days[..|days| - 1];
      var last := days[|days| - 1];
      var before := FillCache(cache, raw, prev);
      assert FillCache(cache, raw, days) == CacheStep(before, raw, last);
      assert d in days <==> d in prev || d == last by {
        assert days == prev + [last];
      }
      FillCacheAt(cache, raw, prev, d);
      if d != last {
        assert Fills(cache, raw, days, d) == Fills(cache, raw, prev, d);
      } else if Fills(cache, raw, prev, d) {
        AggregateNonEmpty(RawAt(raw, d));
        assert Hit(before, d);
      } else {
        assert CachedAt(before, d) == CachedAt(cache, d);
      }
    }
  }

  // ---------------------------------------------------------------------
  // The merge: concatenate the day aggregates, group by email, sum.

  function AddCounts(c: Counts, e: Counts): (r: Counts)
    ensures forall a :: Field(r, a) == Field(c, a) + Field(e, a)
  {
    Counts(c.create + e.create, c.read + e.read, c.update + e.update, c.delete + e.delete)
  }

  /** Two tables stacked and grouped by email, each field summed. */
  function Combine(t: Table, u: Table): Table
  {
    map email | email in t.Keys + u.Keys :: AddCounts(RowOf(t, email), RowOf(u, email))
  }

  /** Stacking two tables: an email has a row when either has one, and each
      field is the sum of the two, a missing row counting 0. */
  lemma CombineRows(t: Table, u: Table, email: string, a: Action)
    ensures email in Combine(t, u) <==> email in t || email in u
    ensures Field(RowOf(Combine(t, u), email), a) == Field(RowOf(t, email), a) + Field(RowOf(u, email), a)
  {
  }

  /** The emails that have a row in at least one of `tables`. */
  function UnionKeys(tables: seq<Table>): set<string>
  {
    if tables == [] then {} else UnionKeys(tables[..|tables| - 1]) + tables[|tables| - 1].Keys
  }

  /** An email of some table is in the union. */
  lemma {:induction false} UnionKeysHas(tables: seq<Table>, i: nat, email: string)
    requires i < |tables| && email in tables[i]
    ensures email in UnionKeys(tables)
  {
    if i < |tables| - 1 {
      UnionKeysHas(tables[..|tables| - 1], i, email);
    }
  }

  /** An email of the union belongs to some table. */
  lemma {:induction false} UnionKeysWitness(tables: seq<Table>, email: string)
    requires email in UnionKeys(tables)
    ensures exists i :: 0 <= i < |tables| && email in tables[i]
  {
    var prev := tables[..|tables| - 1];
    if email in UnionKeys(prev) {
      UnionKeysWitness(prev, email);
      var i :| 0 <= i < |prev| && email in prev[i];
      assert email in tables[i];
    } else {
      assert email in tables[|tables| - 1];
    }
  }

  lemma {:induction false} UnionKeysConcat(s: seq<Table>, t: seq<Table>)
    ensures UnionKeys(s + t) == UnionKeys(s) + UnionKeys(t)
  {
    if t == [] {
      assert s + t == s;
    } else {
      assert (s + t)[..|s + t| - 1] == s + t[..|t| - 1];
      UnionKeysConcat(s, t[..|t| - 1]);
    }
  }

  /** The sum of field `a` of `email` over `tables`, 0 where it has no row. */
  function FieldSum(tables: seq<Table>, email: string, a: Action): nat
  {
    if tables == [] then 0
    else FieldSum(tables[..|tables| - 1], email, a) + Field(RowOf(tables[|tables| - 1], email), a)
  }

  /** The report of a sequence of day aggregates: a row for exactly the
      emails that have a row on some day. */
  function Merge(tables: seq<Table>): (r: Table)
    ensures r.Keys == UnionKeys(tables)
  {
    if tables == [] then map[]
    else Combine(Merge(tables[..|tables| - 1]), tables[|tables| - 1])
  }

  /** Every field of every email in the merge is the sum of that field
      over the tables, a table without the email counting 0. */
  lemma {:induction false} MergeFields(tables: seq<Table>, email: string, a: Action)
    ensures Field(RowOf(Merge(tables), email), a) == FieldSum(tables, email, a)
  {
    if tables != [] {
      MergeFields(tables[..|tables| - 1], email, a);
    }
  }

  lemma {:induction false} FieldSumConcat(s: seq<Table>, t: seq<Table>, email: string, a: Action)
    ensures FieldSum(s + t, email, a) == FieldSum(s, email, a) + FieldSum(t, email, a)
  {
    if t == [] {
      assert s + t == s;
    } else {
      var t' := t[..|t| - 1];
      assert (s + t)[..|s + t| - 1] == s + t';
      FieldSumConcat(s, t', email, a);
    }
  }

  lemma CountsByField(c: Counts, e: Counts)
    requires forall a :: Field(c, a) == Field(e, a)
    ensures c == e
  {
    assert Field(c, Create) == Field(e, Create) && Field(c, Read) == Field(e, Read);
    assert Field(c, Update) == Field(e, Update) && Field(c, Delete) == Field(e, Delete);
  }

  lemma UnionKeysDrop(tables: seq<Table>, i: nat)
    requires i < |tables| && tables[i] == map[]
    ensures UnionKeys(tables) == UnionKeys(tables[..i] + tables[i + 1..])
  {
    assert tables == tables[..i] + [tables[i]] + tables[i + 1..];
    UnionKeysConcat(tables[..i] + [tables[i]], tables[i + 1..]);
    UnionKeysConcat(tables[..i], [tables[i]]);
    UnionKeysConcat(tables[..i], tables[i + 1..]);
    assert [tables[i]][..0] == [];
  }

  lemma FieldSumDrop(tables: seq<Table>, i: nat, email: string, a: Action)
    requires i < |tables| && tables[i] == map[]
    ensures FieldSum(tables, email, a) == FieldSum(tables[..i] + tables[i + 1..], email, a)
  {
    assert tables == tables[..i] + [tables[i]] + tables[i + 1..];
    FieldSumConcat(tables[..i] + [tables[i]], tables[i + 1..], email, a);
    FieldSumConcat(tables[..i], [tables[i]], email, a);
    FieldSumConcat(tables[..i], tables[i + 1..], email, a);
    assert [tables[i]][..0] == [];
  }

  /** A day that contributes the empty table (no cache entry and no raw log)
      can be left out of the merge without changing the report. */
  lemma EmptyDayNeutral(tables: seq<Table>, i: nat)
    requires i < |tables| && tables[i] == map[]
    ensures Merge(tables) == Merge(tables[..i] + tables[i + 1..])
  {
    var rest := tables[..i] + tables[i + 1..];
    var left := Merge(tables);
    var right := Merge(rest);
    UnionKeysDrop(tables, i);
    forall email | email in left ensures left[email] == right[email] {
      forall a ensures Field(left[email], a) == Field(right[email], a) {
        MergeFields(tables, email, a);
        MergeFields(rest, email, a);
        FieldSumDrop(tables, i, email, a);
      }
      CountsByField(left[email], right[email]);
    }
  }

  lemma CombineEmpty(t: Table)
    ensures Combine(t, map[]) == t && Combine(map[], t) == t
  {
  }

  lemma {:induction false} MergeAllEmpty(tables: seq<Table>)
    requires forall i :: 0 <= i < |tables| ==> tables[i] == map[]
    ensures Merge(tables) == map[]
  {
    if tables != [] {
      MergeAllEmpty(tables[..|tables| - 1]);
      CombineEmpty(map[]);
    }
  }

  /** Merging days of which only day `j` has rows gives day `j`. */
  lemma {:induction false} MergeSingleDay(tables: seq<Table>, j: nat)
    requires j < |tables|
    requires forall i :: 0 <= i < |tables| && i != j ==> tables[i] == map[]
    ensures Merge(tables) == tables[j]
  {
    var n := |tables|;
    var prev := tables[..n - 1];
    var last := tables[n - 1];
    assert Merge(tables) == Combine(Merge(prev), last);
    if j == n - 1 {
      MergeAllEmpty(prev);
      CombineEmpty(last);
    } else {
      MergeSingleDay(prev, j);
      CombineEmpty(tables[j]);
    }
  }

  // ---------------------------------------------------------------------
  // The report of a target day.

  /** The day aggregates in the order the loop collects them. */
  function Contributions(cache: Cache, raw: RawLogs, days: seq<Day>): seq<Table>
  {
    seq(|days|, i requires 0 <= i < |days| => Contribution(cache, raw, days[i]))
  }

  /** The report of `target`, from the cache and raw logs before the run. */
  function Report(cache: Cache, raw: RawLogs, target: Day): Table
  {
    Merge(Contributions(cache, raw, Window(target)))
  }

  /** Field `a` of `email` summed over the contributions of days lo .. hi - 1. */
  function DaySum(cache: Cache, raw: RawLogs, email: string, a: Action, lo: Day, hi: Day): nat
    decreases hi - lo
  {
    if lo >= hi then 0
    else Field(RowOf(Contribution(cache, raw, lo), email), a) + DaySum(cache, raw, email, a, lo + 1, hi)
  }

  lemma {:induction false} FieldSumWindow(cache: Cache, raw: RawLogs, target: Day, k: nat, email: string, a: Action)
    requires k <= WindowLength
    ensures FieldSum(Contributions(cache, raw, Window(target))[..k], email, a)
         == DaySum(cache, raw, email, a, target - k, target)
  {
    if k > 0 {
      var tables := Contributions(cache, raw, Window(target));
      var prefix := tables[..k];
      assert prefix[..k - 1] == tables[..k - 1];
      WindowContribution(cache, raw, target, k - 1);
      var here := Field(RowOf(Contribution(cache, raw, target - k), email), a);
      assert FieldSum(prefix, email, a) == FieldSum(tables[..k - 1], email, a) + here;
      assert DaySum(cache, raw, email, a, target - k, target)
          == here + DaySum(cache, raw, email, a, target - (k - 1), target);
      FieldSumWindow(cache, raw, target, k - 1, email, a);
    }
  }

  lemma WindowContribution(cache: Cache, raw: RawLogs, target: Day, i: nat)
    requires i < WindowLength
    ensures Contributions(cache, raw, Window(target))[i] == Contribution(cache, raw, target - 1 - i)
  {
  }

  /** Every email of the report has a row on some day of the window. */
  lemma ReportKeysFromWindow(cache: Cache, raw: RawLogs, target: Day, email: string)
    requires email in Report(cache, raw, target)
    ensures exists d :: target - WindowLength <= d < target && email in Contribution(cache, raw, d)
  {
    var tables := Contributions(cache, raw, Window(target));
    UnionKeysWitness(tables, email);
    var i :| 0 <= i < |tables| && email in tables[i];
    WindowContribution(cache, raw, target, i);
    assert email in Contribution(cache, raw, target - 1 - i);
  }

  /** Every email with a row on some day of the window has a row in the
      report. */
  lemma ReportKeysCoverWindow(cache: Cache, raw: RawLogs, target: Day, d: Day, email: string)
    requires target - WindowLength <= d < target && email in Contribution(cache, raw, d)
    ensures email in Report(cache, raw, target)
  {
    var tables := Contributions(cache, raw, Window(target));
    WindowContribution(cache, raw, target, target - 1 - d);
    UnionKeysHas(tables, target - 1 - d, email);
  }

  /** Every field of every email in the report is the sum of that field
      over the seven days of the window, 0 for a day without the email. */
  lemma ReportFields(cache: Cache, raw: RawLogs, target: Day, email: string, a: Action)
    ensures Field(RowOf(Report(cache, raw, target), email), a)
         == DaySum(cache, raw, email, a, target - WindowLength, target)
  {
    var tables := Contributions(cache, raw, Window(target));
    MergeFields(tables, email, a);
    FieldSumWindow(cache, raw, target, WindowLength, email, a);
    assert tables[..WindowLength] == tables;
  }

  /** An empty cache and a single raw log, five days before the target,
      with two creates by `a` and a read by `b`: the report has one row for
      each, with the missing actions at 0. */
  lemma OneActiveDayReport(target: Day, a: string, b: string, t1: string, t2: string, t3: string)
    requires a != b
    ensures Report(map[], map[target - 5 := [Event(a, Create, t1), Event(a, Create, t2), Event(b, Read, t3)]], target)
         == map[a := Counts(2, 0, 0, 0), b := Counts(0, 1, 0, 0)]
  {
    var raw := map[target - 5 := [Event(a, Create, t1), Event(a, Create, t2), Event(b, Read, t3)]];
    TwoCreatesAndARead(a, b, t1, t2, t3);
    var tables := Contributions(map[], raw, Window(target));
    forall i | 0 <= i < |tables| && i != 4 ensures tables[i] == map[] {
      WindowContribution(map[], raw, target, i);
    }
    WindowContribution(map[], raw, target, 4);
    MergeSingleDay(tables, 4);
  }

  /** In the same run the cache gains exactly the entry of that day. */
  lemma OneActiveDayCache(target: Day, a: string, b: string, t1: string, t2: string, t3: string)
    requires a != b
    ensures FillCache(map[], map[target - 5 := [Event(a, Create, t1), Event(a, Create, t2), Event(b, Read, t3)]], Window(target))
         == map[target - 5 := map[a := Counts(2, 0, 0, 0), b := Counts(0, 1, 0, 0)]]
  {
    var raw := map[target - 5 := [Event(a, Create, t1), Event(a, Create, t2), Event(b, Read, t3)]];
    TwoCreatesAndARead(a, b, t1, t2, t3);
    var filled := FillCache(map[], raw, Window(target));
    WindowDays(target);
    forall d ensures d in filled <==> d == target - 5 {
      FillCacheAt(map[], raw, Window(target), d);
    }
    FillCacheAt(map[], raw, Window(target), target - 5);
  }

  // ---------------------------------------------------------------------
  // The cache across a run.

  /** A day of the window with a non-empty cached aggregate contributes that
      aggregate, whatever its raw log now holds, and keeps its entry. */
  lemma CacheHit(cache: Cache, raw: RawLogs, target: Day, d: Day)
    requires d in Window(target) && Hit(cache, d)
    ensures Contribution(cache, raw, d) == cache[d]
    ensures d in FillCache(cache, raw, Window(target))
    ensures FillCache(cache, raw, Window(target))[d] == cache[d]
  {
    FillCacheAt(cache, raw, Window(target), d);
  }

  /** A day of the window that misses the cache but has raw events
      contributes their aggregate, and the run caches it. */
  lemma CacheMiss(cache: Cache, raw: RawLogs, target: Day, d: Day)
    requires d in Window(target) && !Hit(cache, d) && RawAt(raw, d) != []
    ensures Contribution(cache, raw, d) == AggregateData(raw[d])
    ensures d in FillCache(cache, raw, Window(target))
    ensures FillCache(cache, raw, Window(target))[d] == AggregateData(raw[d])
  {
    FillCacheAt(cache, raw, Window(target), d);
  }

  /** A day that misses the cache and has no raw events contributes
      nothing, and the run writes nothing for it. */
  lemma MissingDay(cache: Cache, raw: RawLogs, target: Day, d: Day)
    requires !Hit(cache, d) && RawAt(raw, d) == []
    ensures Contribution(cache, raw, d) == map[]
    ensures d in FillCache(cache, raw, Window(target)) <==> d in cache
    ensures CachedAt(FillCache(cache, raw, Window(target)), d) == CachedAt(cache, d)
  {
    FillCacheAt(cache, raw, Window(target), d);
  }

  /** A run removes no cache entry, and changes only the entries of days of
      the window that were absent or empty. */
  lemma CacheFrame(cache: Cache, raw: RawLogs, target: Day, d: Day)
    ensures d in cache ==> d in FillCache(cache, raw, Window(target))
    ensures (d !in Window(target) || Hit(cache, d)) ==>
              (d in FillCache(cache, raw, Window(target)) <==> d in cache) &&
              CachedAt(FillCache(cache, raw, Window(target)), d) == CachedAt(cache, d)
  {
    FillCacheAt(cache, raw, Window(target), d);
  }

  /** A second run for the same target over the same raw logs writes no
      cache entry and produces the same report. */
  lemma {:induction false} RerunIsStable(cache: Cache, raw: RawLogs, target: Day)
    ensures var once := FillCache(cache, raw, Window(target));
            FillCache(once, raw, Window(target)) == once &&
            Report(once, raw, target) == Report(cache, raw, target)
  {
    var w := Window(target);
    var once := FillCache(cache, raw, w);
    var twice := FillCache(once, raw, w);
    forall d ensures d in twice <==> d in once {
      FillCacheAt(once, raw, w, d);
      FillCacheAt(cache, raw, w, d);
    }
    forall d | d in twice ensures twice[d] == once[d] {
      FillCacheAt(cache, raw, w, d);
      FillCacheAt(once, raw, w, d);
      if Fills(cache, raw, w, d) {
        AggregateNonEmpty(RawAt(raw, d));
      }
    }
    forall i | 0 <= i < |w|
      ensures Contribution(once, raw, w[i]) == Contribution(cache, raw, w[i])
    {
      FillCacheAt(cache, raw, w, w[i]);
      if Fills(cache, raw, w, w[i]) {
        AggregateNonEmpty(RawAt(raw, w[i]));
      }
    }
    assert twice.Keys == once.Keys;
    assert twice == once;
    assert Contributions(once, raw, w) == Contributions(cache, raw, w);
  }

  /** Once a run has cached a day of the window, a later run for the same
      target keeps that entry, however the day's raw log has changed since. */
  lemma StaleEntryKept(cache: Cache, raw: RawLogs, changed: RawLogs, target: Day, d: Day)
    requires d in Window(target) && RawAt(raw, d) != []
    ensures var once := FillCache(cache, raw, Window(target));
            d in once && d in FillCache(once, changed, Window(target)) &&
            FillCache(once, changed, Window(target))[d] == once[d] &&
            Contribution(once, changed, d) == once[d]
  {
    var once := FillCache(cache, raw, Window(target));
    FillCacheAt(cache, raw, Window(target), d);
    if !Hit(cache, d) {
      AggregateNonEmpty(RawAt(raw, d));
    }
    assert Hit(once, d);
    FillCacheAt(once, changed, Window(target), d);
  }

  // ---------------------------------------------------------------------
  // The stores and the run.

  /** The raw logs, the cache of daily aggregates and the reports, each
      keyed by day; the files of the three directories. */
  class Store {
    var raw: RawLogs
    var cache: Cache
    var reports: Reports

    constructor (raw: RawLogs, cache: Cache, reports: Reports)
      ensures this.raw == raw && this.cache == cache && this.reports == reports
    {
      this.raw := raw;
      this.cache := cache;
      this.reports := reports;
    }

    /** Computes the report of `target` and stores it under `target`,
        caching the aggregate of every day of the window that missed the
        cache and had raw events. */
    method ProcessLogs(target: Day)
      modifies this
      ensures raw == old(raw)
      ensures cache == FillCache(old(cache), raw, Window(target))
      ensures reports == old(reports)[target := Report(old(cache), raw, target)]
    {
      ghost var cache0 := cache;
      var dates := Window(target);
      var frames: seq<Table> := [];
      for i := 0 to |dates|
        invariant raw == old(raw) && reports == old(reports)
        invariant cache == FillCache(cache0, raw, dates[..i])
        invariant frames == Contributions(cache0, raw, dates[..i])
      {
        var day := dates[i];
        assert dates[..i + 1] == dates[..i] + [day];
        assert day !in dates[..i];
        FillCacheAt(cache0, raw, dates[..i], day);
        FillCacheSnoc(cache0, raw, dates[..i], day);
        ghost var before := cache;
        var intermediate := CachedAt(cache, day);
        if intermediate == map[] {
          var daily := RawAt(raw, day);
          if daily != [] {
            intermediate := AggregateData(daily);
            cache := cache[day := intermediate];
          }
        }
        assert cache == CacheStep(before, raw, day);
        frames := frames + [intermediate];
      }
      assert dates[..|dates|] == dates;
      var report := Merge(frames);
      reports := reports[target := report];
    }
  }
}
