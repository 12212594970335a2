/** The rate resolver: which tier -> price table applies to a billing period,
    and the history log of per-period overrides it reads
    (context/AppContext.tsx, getRatesForPeriod and the two history edits). */
module Rates {
  import opened Types
  import opened Sorting

  /** A weekly-session-count bucket. */
  type Tier = t: int | 1 <= t <= 5 witness 1

  /** A price for each of the five tiers. */
  datatype RateTable = RateTable(tier1: int, tier2: int, tier3: int, tier4: int, tier5: int) {
    function Price(t: Tier): int {
      if t == 1 then tier1 else if t == 2 then tier2 else if t == 3 then tier3 else if t == 4 then tier4 else tier5
    }
  }

  /** DEFAULT_RATES, the fallback when no override applies. */
  const DefaultRates: RateTable := RateTable(15000, 18000, 21000, 24000, 27000)

  /** An override of the rates from one period (month, year) on. */
  datatype RateEntry = RateEntry(month: int, year: int, rates: RateTable)

  /** Sort key of the history: year first, then month. */
  function EntryKey(e: RateEntry): (int, int) {
    (e.year, e.month)
  }

  predicate AtPeriod(e: RateEntry, month: int, year: int) {
    e.month == month && e.year == year
  }

  /** (e.year, e.month) comes strictly before (year, month) in calendar order. */
  predicate EarlierThan(e: RateEntry, month: int, year: int) {
    e.year < year || (e.year == year && e.month < month)
  }

  /** Array.prototype.find for the exact period. */
  function FindExact(h: seq<RateEntry>, month: int, year: int): (r: Option<RateEntry>)
    ensures r.Some? ==> exists i :: 0 <= i < |h| && h[i] == r.value && AtPeriod(h[i], month, year) &&
                          forall j :: 0 <= j < i ==> !AtPeriod(h[j], month, year)
    ensures r.None? ==> forall e :: e in h ==> !AtPeriod(e, month, year)
  {
    if h == [] then None
    else if AtPeriod(h[0], month, year) then Some(h[0])
    else
      var r := FindExact(h[1..], month, year);
      assert r.Some? ==> exists i :: 0 <= i < |h[1..]| && h[1..][i] == r.value && AtPeriod(h[1..][i], month, year) &&
                          forall j :: 0 <= j < i ==> !AtPeriod(h[1..][j], month, year);
      assert forall e :: e in h ==> e == h[0] || e in h[1..];
      if r.Some? then
        var i :| 0 <= i < |h[1..]| && h[1..][i] == r.value && AtPeriod(h[1..][i], month, year) &&
                 forall j :: 0 <= j < i ==> !AtPeriod(h[1..][j], month, year);
        assert h[i + 1] == r.value && forall j :: 0 <= j < i + 1 ==> !AtPeriod(h[j], month, year);
        r
      else r
  }

  /** Array.prototype.find for the first entry strictly before the period. */
  function FindEarlier(h: seq<RateEntry>, month: int, year: int): (r: Option<RateEntry>)
    ensures r.Some? ==> exists i :: 0 <= i < |h| && h[i] == r.value && EarlierThan(h[i], month, year) &&
                          forall j :: 0 <= j < i ==> !EarlierThan(h[j], month, year)
    ensures r.None? ==> forall e :: e in h ==> !EarlierThan(e, month, year)
  {
    if h == [] then None
    else if EarlierThan(h[0], month, year) then Some(h[0])
    else
      var r := FindEarlier(h[1..], month, year);
      assert forall e :: e in h ==> e == h[0] || e in h[1..];
      if r.Some? then
        var i :| 0 <= i < |h[1..]| && h[1..][i] == r.value && EarlierThan(h[1..][i], month, year) &&
                 forall j :: 0 <= j < i ==> !EarlierThan(h[1..][j], month, year);
        assert h[i + 1] == r.value && forall j :: 0 <= j < i + 1 ==> !EarlierThan(h[j], month, year);
        r
      else r
  }

  /** getRatesForPeriod: the exact entry, else the latest earlier one in
      (year, month) order, else the default table. */
  function RatesForPeriod(h: seq<RateEntry>, month: int, year: int): (r: RateTable)
    ensures r == DefaultRates || exists e :: e in h && e.rates == r
  {
    match FindExact(h, month, year)
    case Some(e) => e.rates
    case None =>
      SortDescMembers(h, EntryKey);
      match FindEarlier(SortDesc(h, EntryKey), month, year)
      case Some(e) => e.rates
      case None => DefaultRates
  }

  /** Step 1: an entry for the period itself wins (the first one, if the log held several). */
  lemma RatesExact(h: seq<RateEntry>, month: int, year: int, i: nat)
    requires i < |h| && AtPeriod(h[i], month, year)
    requires forall j :: 0 <= j < i ==> !AtPeriod(h[j], month, year)
    ensures RatesForPeriod(h, month, year) == h[i].rates
  {
    var r := FindExact(h, month, year);
    if r.Some? {
      var k :| 0 <= k < |h| && h[k] == r.value && AtPeriod(h[k], month, year) &&
               forall j :: 0 <= j < k ==> !AtPeriod(h[j], month, year);
      assert k == i;
    }
  }

  /** In a list sorted by descending (year, month), the first earlier entry is a latest earlier one. */
  lemma FirstEarlierIsLatest(s: seq<RateEntry>, month: int, year: int, i: nat)
    requires SortedDesc(s, EntryKey)
    requires i < |s| && forall j :: 0 <= j < i ==> !EarlierThan(s[j], month, year)
    ensures forall e' :: e' in s && EarlierThan(e', month, year) ==> !Above(EntryKey(e'), EntryKey(s[i]))
  {
    forall e' | e' in s && EarlierThan(e', month, year)
      ensures !Above(EntryKey(e'), EntryKey(s[i]))
    {
      var j :| 0 <= j < |s| && s[j] == e';
      if j > i {
        assert !Above(EntryKey(s[j]), EntryKey(s[i]));
      }
    }
  }

  /** Step 2: with no exact entry, the rates come from an earlier entry whose
      (year, month) is the greatest among all earlier entries. */
  lemma RatesClosestPast(h: seq<RateEntry>, month: int, year: int, past: RateEntry)
    requires forall e :: e in h ==> !AtPeriod(e, month, year)
    requires past in h && EarlierThan(past, month, year)
    ensures exists e :: e in h && EarlierThan(e, month, year) && RatesForPeriod(h, month, year) == e.rates &&
              forall e' :: e' in h && EarlierThan(e', month, year) ==> !Above(EntryKey(e'), EntryKey(e))
  {
    var s := SortDesc(h, EntryKey);
    assert FindExact(h, month, year).None?;
    var r := FindEarlier(s, month, year);
    assert past in multiset(s);
    assert past in s;
    assert r.Some?;
    var i :| 0 <= i < |s| && s[i] == r.value && EarlierThan(s[i], month, year) &&
             forall j :: 0 <= j < i ==> !EarlierThan(s[j], month, year);
    FirstEarlierIsLatest(s, month, year, i);
    var e := s[i];
    assert e in multiset(h);
    assert RatesForPeriod(h, month, year) == e.rates;
    forall e' | e' in h && EarlierThan(e', month, year)
      ensures !Above(EntryKey(e'), EntryKey(e))
    {
      assert e' in multiset(s);
    }
  }

  /** Step 3: neither an exact nor an earlier entry gives exactly DEFAULT_RATES. */
  lemma RatesDefault(h: seq<RateEntry>, month: int, year: int)
    requires forall e :: e in h ==> !AtPeriod(e, month, year) && !EarlierThan(e, month, year)
    ensures RatesForPeriod(h, month, year) == DefaultRates
  {
    var s := SortDesc(h, EntryKey);
    assert FindExact(h, month, year).None?;
    forall e | e in s ensures !EarlierThan(e, month, year) {
      assert e in multiset(h);
    }
  }

  /** The entries of the log for one period, in log order. */
  function EntriesAt(h: seq<RateEntry>, month: int, year: int): seq<RateEntry> {
    if h == [] then []
    else (if AtPeriod(h[0], month, year) then [h[0]] else []) + EntriesAt(h[1..], month, year)
  }

  /** The log without any entry for the period (the filter both edits share). */
  function WithoutPeriod(h: seq<RateEntry>, month: int, year: int): (r: seq<RateEntry>)
    ensures forall e :: e in r <==> e in h && !AtPeriod(e, month, year)
  {
    if h == [] then []
    else (if AtPeriod(h[0], month, year) then [] else [h[0]]) + WithoutPeriod(h[1..], month, year)
  }

  /** setHistoricalTieredAmount: replace the period's entries by one, at the end. */
  function SetHistorical(h: seq<RateEntry>, month: int, year: int, rates: RateTable): (r: seq<RateEntry>)
    ensures forall e :: e in r <==> (e in h && !AtPeriod(e, month, year)) || e == RateEntry(month, year, rates)
  {
    WithoutPeriod(h, month, year) + [RateEntry(month, year, rates)]
  }

  /** deleteHistoricalTieredAmount. */
  function DeleteHistorical(h: seq<RateEntry>, month: int, year: int): (r: seq<RateEntry>)
    ensures forall e :: e in r <==> e in h && !AtPeriod(e, month, year)
  {
    WithoutPeriod(h, month, year)
  }

  lemma {:induction false} EntriesAtConcat(a: seq<RateEntry>, b: seq<RateEntry>, month: int, year: int)
    ensures EntriesAt(a + b, month, year) == EntriesAt(a, month, year) + EntriesAt(b, month, year)
  {
    if a == [] {
      assert a + b == b;
    } else {
      assert (a + b)[0] == a[0] && (a + b)[1..] == a[1..] + b;
      EntriesAtConcat(a[1..], b, month, year);
    }
  }

  /** Removing one period's entries leaves every other period's entries as they were. */
  lemma {:induction false} WithoutPeriodEntries(h: seq<RateEntry>, month: int, year: int, m: int, y: int)
    ensures EntriesAt(WithoutPeriod(h, month, year), m, y) ==
            if m == month && y == year then [] else EntriesAt(h, m, y)
  {
    if h != [] {
      var head := if AtPeriod(h[0], month, year) then [] else [h[0]];
      EntriesAtConcat(head, WithoutPeriod(h[1..], month, year), m, y);
      WithoutPeriodEntries(h[1..], month, year, m, y);
      assert EntriesAt(head, m, y) == if AtPeriod(h[0], month, year) || !AtPeriod(h[0], m, y) then [] else [h[0]] by {
        if head != [] { assert head[1..] == []; }
      }
    }
  }

  /** After setHistoricalTieredAmount there is exactly one entry for the period,
      the resolver returns the new rates for it, and other periods keep their entries. */
  lemma SetHistoricalSpec(h: seq<RateEntry>, month: int, year: int, rates: RateTable, m: int, y: int)
    ensures EntriesAt(SetHistorical(h, month, year, rates), month, year) == [RateEntry(month, year, rates)]
    ensures RatesForPeriod(SetHistorical(h, month, year, rates), month, year) == rates
    ensures (m != month || y != year) ==>
              EntriesAt(SetHistorical(h, month, year, rates), m, y) == EntriesAt(h, m, y)
  {
    var w := WithoutPeriod(h, month, year);
    var n := [RateEntry(month, year, rates)];
    EntriesAtConcat(w, n, month, year);
    EntriesAtConcat(w, n, m, y);
    WithoutPeriodEntries(h, month, year, month, year);
    WithoutPeriodEntries(h, month, year, m, y);
    assert n[1..] == [];
    RatesExact(w + n, month, year, |w|);
  }

  /** After deleteHistoricalTieredAmount no entry for the period is left, and
      other periods keep their entries. */
  lemma DeleteHistoricalSpec(h: seq<RateEntry>, month: int, year: int, m: int, y: int)
    ensures EntriesAt(DeleteHistorical(h, month, year), month, year) == []
    ensures (m != month || y != year) ==>
              EntriesAt(DeleteHistorical(h, month, year), m, y) == EntriesAt(h, m, y)
  {
    WithoutPeriodEntries(h, month, year, month, year);
    WithoutPeriodEntries(h, month, year, m, y);
  }
}
