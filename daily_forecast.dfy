/** WeatherViewModel.dailyForecast: one sample per local calendar day, the one
    closest to that day's noon, in chronological order
    (WeatherApp/ViewModels/WeatherViewModel.swift). The source groups with
    Dictionary(grouping:by:), picks with min(by:), collects with compactMap and
    orders with sorted(by:); each step is a function here. */
module DailyForecast {
  import opened Wrappers
  import opened Forecasts

  /** The grouping key: the local start of day of the sample. */
  function Day(item: ForecastItem, utcOffset: int): int {
    StartOfDay(item.dt, utcOffset)
  }

  // ---------------------------------------------------------------------------
  // The reducer, step by step

  /** The keys of Dictionary(grouping:by:), each once. A Swift dictionary
      hands its keys out in an order of its own; this lists them in order of
      first appearance, and KeyOrderIrrelevant shows that the result does not
      depend on that choice. */
  function DayKeys(items: seq<ForecastItem>, utcOffset: int): (days: seq<int>)
    ensures forall i, j :: 0 <= i < j < |days| ==> days[i] != days[j]
    ensures forall d :: d in days <==> exists k :: 0 <= k < |items| && Day(items[k], utcOffset) == d
  {
    if items == [] then []
    else
      var prefix := items[..|items| - 1];
      var prev := DayKeys(prefix, utcOffset);
      var d := Day(items[|items| - 1], utcOffset);
      assert forall k :: 0 <= k < |prefix| ==> prefix[k] == items[k];
      if d in prev then prev else prev + [d]
  }

  /** The group of day `d`: the samples of that day, in input order. */
  function ItemsOn(items: seq<ForecastItem>, utcOffset: int, d: int): seq<ForecastItem> {
    if items == [] then []
    else (if Day(items[0], utcOffset) == d then [items[0]] else []) + ItemsOn(items[1..], utcOffset, d)
  }

  /** The loop of min(by:) with "closer to noon" as the order: the running
      minimum is replaced only by a strictly closer sample. */
  function MinByFrom(best: ForecastItem, rest: seq<ForecastItem>, utcOffset: int): ForecastItem
    decreases |rest|
  {
    if rest == [] then best
    else
      var next := if NoonDistance(rest[0], utcOffset) < NoonDistance(best, utcOffset) then rest[0] else best;
      MinByFrom(next, rest[1..], utcOffset)
  }

  /** min(by:) on one group: nil for an empty group. */
  function ClosestToNoon(group: seq<ForecastItem>, utcOffset: int): Option<ForecastItem> {
    if group == [] then None else Some(MinByFrom(group[0], group[1..], utcOffset))
  }

  /** compactMap over the groups: the non-nil minimum of each group, in key order. */
  function Picks(items: seq<ForecastItem>, utcOffset: int, days: seq<int>): seq<ForecastItem> {
    if days == [] then []
    else
      match ClosestToNoon(ItemsOn(items, utcOffset, days[0]), utcOffset)
      case None => Picks(items, utcOffset, days[1..])
      case Some(p) => [p] + Picks(items, utcOffset, days[1..])
  }

  predicate SortedByDate(s: seq<ForecastItem>) {
    forall i, j :: 0 <= i < j < |s| ==> s[i].dt <= s[j].dt
  }

  function InsertByDate(x: ForecastItem, s: seq<ForecastItem>): (r: seq<ForecastItem>)
    requires SortedByDate(s)
    ensures SortedByDate(r)
    ensures multiset(r) == multiset(s) + multiset{x}
    ensures |r| == |s| + 1 && (r[0] == x || (s != [] && r[0] == s[0]))
  {
    if s == [] || x.dt <= s[0].dt then
      SortedCons(x, s);
      [x] + s
    else
      var rest := InsertByDate(x, s[1..]);
      assert s == [s[0]] + s[1..];
      assert multiset(s) == multiset{s[0]} + multiset(s[1..]);
      SortedCons(s[0], rest);
      [s[0]] + rest
  }

  lemma SortedCons(h: ForecastItem, s: seq<ForecastItem>)
    requires SortedByDate(s) && (s != [] ==> h.dt <= s[0].dt)
    ensures SortedByDate([h] + s)
  {
    var r := [h] + s;
    forall i, j | 0 <= i < j < |r| ensures r[i].dt <= r[j].dt {
      if i > 0 {
        assert r[i] == s[i - 1] && r[j] == s[j - 1];
      } else {
        assert r[j] == s[j - 1];
      }
    }
  }

  /** sorted { $0.date < $1.date }: the samples in ascending order of time. */
  function SortByDate(s: seq<ForecastItem>): (r: seq<ForecastItem>)
    ensures SortedByDate(r)
    ensures multiset(r) == multiset(s)
  {
    if s == [] then []
    else
      assert s == [s[0]] + s[1..];
      InsertByDate(s[0], SortByDate(s[1..]))
  }

  /** The reduction of a forecast list. */
  function DailyForecastOfList(items: seq<ForecastItem>, utcOffset: int): seq<ForecastItem> {
    SortByDate(Picks(items, utcOffset, DayKeys(items, utcOffset)))
  }

  /** `dailyForecast`: empty without a forecast. */
  function DailyForecastOf(forecast: Option<ForecastResponse>, utcOffset: int): seq<ForecastItem> {
    match forecast
    case None => []
    case Some(f) => DailyForecastOfList(f.list, utcOffset)
  }

  // ---------------------------------------------------------------------------
  // What a pick is

  /** items[i] is a sample of day `d` that no other sample of that day beats:
      none is closer to noon, and none before it is as close. */
  ghost predicate FirstNearestNoon(items: seq<ForecastItem>, utcOffset: int, d: int, i: int)
    requires 0 <= i < |items|
  {
    && Day(items[i], utcOffset) == d
    && forall k :: 0 <= k < |items| && Day(items[k], utcOffset) == d ==>
         && NoonDistance(items[i], utcOffset) <= NoonDistance(items[k], utcOffset)
         && (k < i ==> NoonDistance(items[i], utcOffset) < NoonDistance(items[k], utcOffset))
  }

  /** No sample of day `d` in `s` is strictly closer to noon than `x`. */
  ghost predicate NoneCloser(s: seq<ForecastItem>, utcOffset: int, d: int, x: ForecastItem) {
    forall k :: 0 <= k < |s| && Day(s[k], utcOffset) == d ==>
      NoonDistance(x, utcOffset) <= NoonDistance(s[k], utcOffset)
  }

  lemma NoneCloserCons(s: seq<ForecastItem>, utcOffset: int, d: int, x: ForecastItem)
    requires s != [] && NoneCloser(s[1..], utcOffset, d, x)
    requires Day(s[0], utcOffset) == d ==> NoonDistance(x, utcOffset) <= NoonDistance(s[0], utcOffset)
    ensures NoneCloser(s, utcOffset, d, x)
  {
    forall k | 0 <= k < |s| && Day(s[k], utcOffset) == d
      ensures NoonDistance(x, utcOffset) <= NoonDistance(s[k], utcOffset)
    {
      if k > 0 { assert s[k] == s[1..][k - 1]; }
    }
  }

  lemma FirstNearestNoonCons(s: seq<ForecastItem>, utcOffset: int, d: int, i: int)
    requires s != [] && 0 <= i < |s| - 1 && FirstNearestNoon(s[1..], utcOffset, d, i)
    requires Day(s[0], utcOffset) == d ==> NoonDistance(s[i + 1], utcOffset) < NoonDistance(s[0], utcOffset)
    ensures FirstNearestNoon(s, utcOffset, d, i + 1)
  {
    assert s[i + 1] == s[1..][i];
    forall k | 0 <= k < |s| && Day(s[k], utcOffset) == d
      ensures NoonDistance(s[i + 1], utcOffset) <= NoonDistance(s[k], utcOffset)
      ensures k < i + 1 ==> NoonDistance(s[i + 1], utcOffset) < NoonDistance(s[k], utcOffset)
    {
      if k > 0 { assert s[k] == s[1..][k - 1]; }
    }
  }

  /** `x` is the sample the source must pick for day `d`: the first sample of
      that day, in input order, among those closest to noon. */
  ghost predicate IsNoonPick(items: seq<ForecastItem>, utcOffset: int, d: int, x: ForecastItem) {
    exists i :: 0 <= i < |items| && items[i] == x && FirstNearestNoon(items, utcOffset, d, i)
  }

  /** Running min(by:) over the group of day `d` of `s`, starting from `best`:
      either `best` survives and no sample of the day is strictly closer, or the
      result is the first sample of the day that is closest, and strictly
      closer than `best`. */
  lemma {:induction false} MinByFromOnGroup(best: ForecastItem, s: seq<ForecastItem>, utcOffset: int, d: int)
    ensures var r := MinByFrom(best, ItemsOn(s, utcOffset, d), utcOffset);
      || (r == best && NoneCloser(s, utcOffset, d, best))
      || (exists i :: 0 <= i < |s| && s[i] == r && FirstNearestNoon(s, utcOffset, d, i)
            && NoonDistance(r, utcOffset) < NoonDistance(best, utcOffset))
    decreases |s|
  {
    if s != [] {
      var tail := ItemsOn(s[1..], utcOffset, d);
      var r := MinByFrom(best, ItemsOn(s, utcOffset, d), utcOffset);
      var here := Day(s[0], utcOffset) == d;
      var next := if here && NoonDistance(s[0], utcOffset) < NoonDistance(best, utcOffset) then s[0] else best;
      if here {
        var group := [s[0]] + tail;
        assert ItemsOn(s, utcOffset, d) == group;
        assert group[0] == s[0] && group[1..] == tail;
      } else {
        assert ItemsOn(s, utcOffset, d) == tail;
      }
      assert r == MinByFrom(next, tail, utcOffset);
      MinByFromOnGroup(next, s[1..], utcOffset, d);
      if r == next && NoneCloser(s[1..], utcOffset, d, next) {
        NoneCloserCons(s, utcOffset, d, next);
        if next != best {
          assert FirstNearestNoon(s, utcOffset, d, 0);
        }
      } else {
        var i :| 0 <= i < |s[1..]| && s[1..][i] == r && FirstNearestNoon(s[1..], utcOffset, d, i)
          && NoonDistance(r, utcOffset) < NoonDistance(next, utcOffset);
        FirstNearestNoonCons(s, utcOffset, d, i);
      }
    }
  }

  /** The minimum of a day's group is the first sample of that day that is
      closest to noon; so ties go to the earlier sample in input order. */
  lemma {:induction false} ClosestToNoonOfDay(items: seq<ForecastItem>, utcOffset: int, d: int)
    requires exists k :: 0 <= k < |items| && Day(items[k], utcOffset) == d
    ensures ClosestToNoon(ItemsOn(items, utcOffset, d), utcOffset).Some?
    ensures IsNoonPick(items, utcOffset, d, ClosestToNoon(ItemsOn(items, utcOffset, d), utcOffset).value)
    decreases |items|
  {
    var tail := ItemsOn(items[1..], utcOffset, d);
    if Day(items[0], utcOffset) == d {
      var group := [items[0]] + tail;
      assert ItemsOn(items, utcOffset, d) == group;
      assert group[0] == items[0] && group[1..] == tail;
      var r := MinByFrom(items[0], tail, utcOffset);
      assert ClosestToNoon(ItemsOn(items, utcOffset, d), utcOffset) == Some(r);
      MinByFromOnGroup(items[0], items[1..], utcOffset, d);
      if r == items[0] && NoneCloser(items[1..], utcOffset, d, items[0]) {
        NoneCloserCons(items, utcOffset, d, items[0]);
        assert FirstNearestNoon(items, utcOffset, d, 0);
      } else {
        var i :| 0 <= i < |items[1..]| && items[1..][i] == r && FirstNearestNoon(items[1..], utcOffset, d, i)
          && NoonDistance(r, utcOffset) < NoonDistance(items[0], utcOffset);
        FirstNearestNoonCons(items, utcOffset, d, i);
        assert items[i + 1] == r;
      }
    } else {
      assert ItemsOn(items, utcOffset, d) == tail;
      var k :| 0 <= k < |items| && Day(items[k], utcOffset) == d;
      assert items[1..][k - 1] == items[k];
      ClosestToNoonOfDay(items[1..], utcOffset, d);
      var i :| 0 <= i < |items[1..]| && items[1..][i] == ClosestToNoon(tail, utcOffset).value
        && FirstNearestNoon(items[1..], utcOffset, d, i);
      FirstNearestNoonCons(items, utcOffset, d, i);
      assert items[i + 1] == items[1..][i];
    }
  }

  /** compactMap keeps one pick per key, in key order, each the first sample of
      its day closest to noon. */
  lemma {:induction false} PicksAreNearestNoon(items: seq<ForecastItem>, utcOffset: int, days: seq<int>)
    requires forall j :: 0 <= j < |days| ==> days[j] in DayKeys(items, utcOffset)
    ensures |Picks(items, utcOffset, days)| == |days|
    ensures forall j :: 0 <= j < |days| ==> IsNoonPick(items, utcOffset, days[j], Picks(items, utcOffset, days)[j])
  {
    if days != [] {
      assert days[0] in DayKeys(items, utcOffset);
      ClosestToNoonOfDay(items, utcOffset, days[0]);
      PicksAreNearestNoon(items, utcOffset, days[1..]);
      var p := ClosestToNoon(ItemsOn(items, utcOffset, days[0]), utcOffset).value;
      PicksConsNoonPicks(items, utcOffset, days, p);
    }
  }

  /** One step of PicksAreNearestNoon: a noon pick of the first day in front
      of the noon picks of the other days. */
  lemma PicksConsNoonPicks(items: seq<ForecastItem>, utcOffset: int, days: seq<int>, p: ForecastItem)
    requires days != [] && ClosestToNoon(ItemsOn(items, utcOffset, days[0]), utcOffset) == Some(p)
    requires IsNoonPick(items, utcOffset, days[0], p)
    requires var rest := Picks(items, utcOffset, days[1..]);
      && |rest| == |days| - 1
      && forall j :: 0 <= j < |rest| ==> IsNoonPick(items, utcOffset, days[1..][j], rest[j])
    ensures |Picks(items, utcOffset, days)| == |days|
    ensures forall j :: 0 <= j < |days| ==> IsNoonPick(items, utcOffset, days[j], Picks(items, utcOffset, days)[j])
  {
    var rest := Picks(items, utcOffset, days[1..]);
    var all := Picks(items, utcOffset, days);
    assert all == [p] + rest;
    forall j | 0 < j < |days| ensures IsNoonPick(items, utcOffset, days[j], all[j]) {
      assert days[j] == days[1..][j - 1] && all[j] == rest[j - 1];
    }
  }

  // ---------------------------------------------------------------------------
  // Ordering

  ghost predicate DistinctDays(s: seq<ForecastItem>, utcOffset: int) {
    forall i, j :: 0 <= i < j < |s| ==> Day(s[i], utcOffset) != Day(s[j], utcOffset)
  }

  lemma {:induction false} InsertKeepsDistinctDays(x: ForecastItem, s: seq<ForecastItem>, utcOffset: int)
    requires SortedByDate(s) && DistinctDays(s, utcOffset)
    requires forall k :: 0 <= k < |s| ==> Day(s[k], utcOffset) != Day(x, utcOffset)
    ensures DistinctDays(InsertByDate(x, s), utcOffset)
  {
    if s != [] && x.dt > s[0].dt {
      var rest := InsertByDate(x, s[1..]);
      InsertKeepsDistinctDays(x, s[1..], utcOffset);
      assert InsertByDate(x, s) == [s[0]] + rest;
      forall k | 0 <= k < |rest| ensures Day(rest[k], utcOffset) != Day(s[0], utcOffset) {
        assert rest[k] in multiset(s[1..]) + multiset{x};
        if rest[k] != x {
          assert rest[k] in s[1..];
        }
      }
    }
  }

  lemma {:induction false} SortKeepsDistinctDays(s: seq<ForecastItem>, utcOffset: int)
    requires DistinctDays(s, utcOffset)
    ensures DistinctDays(SortByDate(s), utcOffset)
  {
    if s != [] {
      SortKeepsDistinctDays(s[1..], utcOffset);
      var sorted := SortByDate(s[1..]);
      forall k | 0 <= k < |sorted| ensures Day(sorted[k], utcOffset) != Day(s[0], utcOffset) {
        assert sorted[k] in multiset(s[1..]);
        assert sorted[k] in s[1..];
      }
      InsertKeepsDistinctDays(s[0], sorted, utcOffset);
    }
  }

  /** Sorted by time with no day twice means strictly ascending by day and by time. */
  lemma SortedDistinctIsStrict(s: seq<ForecastItem>, utcOffset: int)
    requires SortedByDate(s) && DistinctDays(s, utcOffset)
    ensures forall i, j :: 0 <= i < j < |s| ==>
      s[i].dt < s[j].dt && Day(s[i], utcOffset) < Day(s[j], utcOffset)
  {
    forall i, j | 0 <= i < j < |s|
      ensures s[i].dt < s[j].dt && Day(s[i], utcOffset) < Day(s[j], utcOffset)
    {
      StartOfDayMonotone(s[i].dt, s[j].dt, utcOffset);
      EarlierDayEarlierTime(s[i].dt, s[j].dt, utcOffset);
    }
  }

  // ---------------------------------------------------------------------------
  // The reduction as a whole

  lemma NoonPickIsOfItsDay(items: seq<ForecastItem>, utcOffset: int, d: int, x: ForecastItem)
    requires IsNoonPick(items, utcOffset, d, x)
    ensures x in items && Day(x, utcOffset) == d
  {
  }

  /** Before sorting: one pick per distinct day, in key order. */
  lemma PicksOfAllDays(items: seq<ForecastItem>, utcOffset: int)
    ensures var days := DayKeys(items, utcOffset);
      var picks := Picks(items, utcOffset, days);
      && |picks| == |days|
      && DistinctDays(picks, utcOffset)
      && (forall j :: 0 <= j < |picks| ==>
            Day(picks[j], utcOffset) == days[j] && IsNoonPick(items, utcOffset, days[j], picks[j]))
  {
    var days := DayKeys(items, utcOffset);
    var picks := Picks(items, utcOffset, days);
    assert forall j :: 0 <= j < |days| ==> days[j] in days;
    PicksAreNearestNoon(items, utcOffset, days);
    forall j | 0 <= j < |picks| ensures Day(picks[j], utcOffset) == days[j] {
      NoonPickIsOfItsDay(items, utcOffset, days[j], picks[j]);
    }
  }

  /** The daily forecast of a list of samples: one sample per local day present
      in the input and no day twice, each the first sample of its day closest
      to noon, strictly ascending in time. */
  lemma DailyForecastCharacterised(items: seq<ForecastItem>, utcOffset: int)
    ensures var out := DailyForecastOfList(items, utcOffset);
      && |out| == |DayKeys(items, utcOffset)|
      && (forall i, j :: 0 <= i < j < |out| ==>
            out[i].dt < out[j].dt && Day(out[i], utcOffset) < Day(out[j], utcOffset))
      && (forall j :: 0 <= j < |out| ==> IsNoonPick(items, utcOffset, Day(out[j], utcOffset), out[j]))
      && (forall k :: 0 <= k < |items| ==>
            exists j :: 0 <= j < |out| && Day(out[j], utcOffset) == Day(items[k], utcOffset))
  {
    var days := DayKeys(items, utcOffset);
    var picks := Picks(items, utcOffset, days);
    var out := SortByDate(picks);
    PicksOfAllDays(items, utcOffset);
    SortKeepsDistinctDays(picks, utcOffset);
    SortedDistinctIsStrict(out, utcOffset);
    assert |out| == |picks| by {
      assert |multiset(out)| == |multiset(picks)|;
    }
    forall j | 0 <= j < |out| ensures IsNoonPick(items, utcOffset, Day(out[j], utcOffset), out[j]) {
      assert out[j] in multiset(picks);
      var m :| 0 <= m < |picks| && picks[m] == out[j];
    }
    forall k | 0 <= k < |items|
      ensures exists j :: 0 <= j < |out| && Day(out[j], utcOffset) == Day(items[k], utcOffset)
    {
      var d := Day(items[k], utcOffset);
      assert d in days;
      var m :| 0 <= m < |days| && days[m] == d;
      assert picks[m] in multiset(out);
      var j :| 0 <= j < |out| && out[j] == picks[m];
    }
  }

  /** A day has one pick: the first of its samples closest to noon. */
  lemma NoonPickUnique(items: seq<ForecastItem>, utcOffset: int, d: int, x: ForecastItem, y: ForecastItem)
    requires IsNoonPick(items, utcOffset, d, x) && IsNoonPick(items, utcOffset, d, y)
    ensures x == y
  {
    var i :| 0 <= i < |items| && items[i] == x && FirstNearestNoon(items, utcOffset, d, i);
    var j :| 0 <= j < |items| && items[j] == y && FirstNearestNoon(items, utcOffset, d, j);
    assert NoonDistance(items[i], utcOffset) <= NoonDistance(items[j], utcOffset);
    assert NoonDistance(items[j], utcOffset) <= NoonDistance(items[i], utcOffset);
  }

  lemma EmptyIffNoMembers(s: seq<ForecastItem>)
    ensures s == [] <==> forall x :: x !in s
  {
    if s != [] { assert s[0] in s; }
  }

  ghost predicate StrictlyAscending(s: seq<ForecastItem>) {
    forall i, j :: 0 <= i < j < |s| ==> s[i].dt < s[j].dt
  }

  lemma StrictlyAscendingTail(s: seq<ForecastItem>)
    requires s != [] && StrictlyAscending(s)
    ensures StrictlyAscending(s[1..])
  {
    forall i, j | 0 <= i < j < |s| - 1 ensures s[1..][i].dt < s[1..][j].dt {
      assert s[1..][i] == s[i + 1] && s[1..][j] == s[j + 1];
    }
  }

  ghost predicate SameMembers(a: seq<ForecastItem>, b: seq<ForecastItem>) {
    forall x :: x in a <==> x in b
  }

  /** Strictly ascending sequences with the same samples start alike. */
  lemma SameHead(a: seq<ForecastItem>, b: seq<ForecastItem>)
    requires a != [] && b != [] && StrictlyAscending(a) && StrictlyAscending(b)
    requires SameMembers(a, b)
    ensures a[0] == b[0]
  {
    assert a[0] in b && b[0] in a;
    var k :| 0 <= k < |b| && b[k] == a[0];
    var m :| 0 <= m < |a| && a[m] == b[0];
    assert b[0].dt <= b[k].dt && a[0].dt <= a[m].dt;
  }

  /** Behind a common first sample, the later samples of `a` are among the
      later samples of `b`. */
  lemma TailMembers(a: seq<ForecastItem>, b: seq<ForecastItem>)
    requires a != [] && b != [] && a[0] == b[0]
    requires StrictlyAscending(a) && SameMembers(a, b)
    ensures forall x :: x in a[1..] ==> x in b[1..]
  {
    forall x | x in a[1..] ensures x in b[1..] {
      var p :| 0 <= p < |a[1..]| && a[1..][p] == x;
      assert a[p + 1] == x && a[0].dt < x.dt;
      assert x in a;
      var q :| 0 <= q < |b| && b[q] == x;
      assert b[1..][q - 1] == x;
    }
  }

  /** Two sequences strictly ascending in time that hold the same samples are
      the same sequence. */
  lemma {:induction false} StrictlyAscendingUnique(a: seq<ForecastItem>, b: seq<ForecastItem>)
    requires StrictlyAscending(a) && StrictlyAscending(b)
    requires SameMembers(a, b)
    ensures a == b
  {
    EmptyIffNoMembers(a);
    EmptyIffNoMembers(b);
    if a != [] && b != [] {
      SameHead(a, b);
      TailMembers(a, b);
      TailMembers(b, a);
      StrictlyAscendingTail(a);
      StrictlyAscendingTail(b);
      StrictlyAscendingUnique(a[1..], b[1..]);
      assert a == [a[0]] + a[1..] && b == [b[0]] + b[1..];
    }
  }

  /** `x` is the pick of one of the days `ks`. */
  ghost predicate PickOfOneOf(items: seq<ForecastItem>, utcOffset: int, ks: seq<int>, x: ForecastItem) {
    exists d :: d in ks && IsNoonPick(items, utcOffset, d, x)
  }

  /** The picks for a list of distinct days, once sorted, are strictly
      ascending in time, and a sample is among them exactly when it is the
      pick of one of those days. */
  lemma SortedPicksOf(items: seq<ForecastItem>, utcOffset: int, ks: seq<int>)
    requires forall j :: 0 <= j < |ks| ==> ks[j] in DayKeys(items, utcOffset)
    requires forall i, j :: 0 <= i < j < |ks| ==> ks[i] != ks[j]
    ensures var out := SortByDate(Picks(items, utcOffset, ks));
      && (forall i, j :: 0 <= i < j < |out| ==> out[i].dt < out[j].dt)
      && (forall x :: x in out <==> PickOfOneOf(items, utcOffset, ks, x))
  {
    var picks := Picks(items, utcOffset, ks);
    var out := SortByDate(picks);
    PicksAreNearestNoon(items, utcOffset, ks);
    forall j | 0 <= j < |picks| ensures Day(picks[j], utcOffset) == ks[j] {
      NoonPickIsOfItsDay(items, utcOffset, ks[j], picks[j]);
    }
    assert DistinctDays(picks, utcOffset);
    SortKeepsDistinctDays(picks, utcOffset);
    SortedDistinctIsStrict(out, utcOffset);
    forall x ensures x in out <==> PickOfOneOf(items, utcOffset, ks, x) {
      assert x in out <==> x in multiset(picks);
      if PickOfOneOf(items, utcOffset, ks, x) {
        var d :| d in ks && IsNoonPick(items, utcOffset, d, x);
        var j :| 0 <= j < |ks| && ks[j] == d;
        NoonPickUnique(items, utcOffset, d, x, picks[j]);
        assert x in picks;
      }
      if x in picks {
        var j :| 0 <= j < |picks| && picks[j] == x;
        assert IsNoonPick(items, utcOffset, ks[j], x) && ks[j] in ks;
      }
    }
  }

  /** The order in which the grouping hands out its keys does not matter:
      any listing of the days, each once, gives the same daily forecast. */
  lemma KeyOrderIrrelevant(items: seq<ForecastItem>, utcOffset: int, ks: seq<int>)
    requires forall i, j :: 0 <= i < j < |ks| ==> ks[i] != ks[j]
    requires forall d :: d in ks <==> d in DayKeys(items, utcOffset)
    ensures SortByDate(Picks(items, utcOffset, ks)) == DailyForecastOfList(items, utcOffset)
  {
    var days := DayKeys(items, utcOffset);
    assert forall j :: 0 <= j < |ks| ==> ks[j] in days by {
      assert forall j :: 0 <= j < |ks| ==> ks[j] in ks;
    }
    assert forall j :: 0 <= j < |days| ==> days[j] in days;
    SortedPicksOf(items, utcOffset, ks);
    SortedPicksOf(items, utcOffset, days);
    var a := SortByDate(Picks(items, utcOffset, ks));
    var b := DailyForecastOfList(items, utcOffset);
    assert forall x :: PickOfOneOf(items, utcOffset, ks, x) <==> PickOfOneOf(items, utcOffset, days, x);
    StrictlyAscendingUnique(a, b);
  }

  /** Without a forecast, or with an empty list, there is nothing to show. */
  lemma DailyForecastEmpty(forecast: Option<ForecastResponse>, utcOffset: int)
    requires forecast.None? || forecast.value.list == []
    ensures DailyForecastOf(forecast, utcOffset) == []
  {
  }

  /** The daily forecast is empty exactly when the forecast list is empty. */
  lemma DailyForecastNonEmpty(items: seq<ForecastItem>, utcOffset: int)
    ensures DailyForecastOfList(items, utcOffset) == [] <==> items == []
  {
    DailyForecastCharacterised(items, utcOffset);
    if items != [] {
      assert Day(items[0], utcOffset) in DayKeys(items, utcOffset);
    }
  }

  // ---------------------------------------------------------------------------
  // Whole days of 3-hourly samples

  const SecondsPerSample: int := 10800

  /** 8·n samples three hours apart, the first at a local midnight. */
  ghost predicate WholeDaysFromMidnight(items: seq<ForecastItem>, utcOffset: int, start: int, n: nat) {
    && |items| == 8 * n
    && (start + utcOffset) % SecondsPerDay == 0
    && forall k :: 0 <= k < |items| ==> items[k].dt == start + SecondsPerSample * k
  }

  /** Sample k lies on day k / 8, (k % 8)·3 hours after its midnight. */
  lemma WholeDaySample(items: seq<ForecastItem>, utcOffset: int, start: int, n: nat, k: int)
    requires WholeDaysFromMidnight(items, utcOffset, start, n) && 0 <= k < |items|
    ensures Day(items[k], utcOffset) == start + 86400 * (k / 8)
    ensures NoonDistance(items[k], utcOffset) == 10800 * (if k % 8 < 4 then 4 - k % 8 else k % 8 - 4)
  {
    var q, r := k / 8, k % 8;
    var midnight := start + 86400 * q;
    assert items[k].dt == midnight + 10800 * r;
    var p := (start + utcOffset) / 86400;
    assert midnight + utcOffset == 86400 * (p + q);
    StartOfDayWithin(items[k].dt, midnight, utcOffset);
  }

  /** A strictly increasing run of day numbers that takes every value below n,
      and no other, is 0, 1, …, n - 1. */
  lemma AscendingCoverIsRange(s: seq<int>, n: nat)
    requires forall i, j :: 0 <= i < j < |s| ==> s[i] < s[j]
    requires forall j :: 0 <= j < |s| ==> 0 <= s[j] < n
    requires forall q :: 0 <= q < n ==> q in s
    ensures |s| == n
    ensures forall j :: 0 <= j < |s| ==> s[j] == j
  {
    var j := 0;
    while j < |s|
      invariant 0 <= j <= |s| && j <= n
      invariant forall i :: 0 <= i < j ==> s[i] == i
    {
      assert s[j] >= j by {
        if j > 0 { assert s[j - 1] < s[j]; }
      }
      assert j in s;
      assert forall w :: j < w < |s| ==> s[j] < s[w];
      j := j + 1;
    }
    assert n > 0 ==> n - 1 in s;
  }

  /** On whole days from midnight, the pick of a day is its 12:00 sample. */
  lemma WholeDayPickIsNoonSample(items: seq<ForecastItem>, utcOffset: int, start: int, n: nat, d: int, x: ForecastItem)
    requires WholeDaysFromMidnight(items, utcOffset, start, n)
    requires IsNoonPick(items, utcOffset, d, x)
    ensures var q := (d - start) / 86400;
      0 <= q < n && d == start + 86400 * q && x == items[8 * q + 4]
  {
    var i :| 0 <= i < |items| && items[i] == x && FirstNearestNoon(items, utcOffset, d, i);
    var q, r := i / 8, i % 8;
    assert i == 8 * q + r && 0 <= q < n;
    var noonSample := 8 * q + 4;
    assert noonSample / 8 == q && noonSample % 8 == 4;
    WholeDaySample(items, utcOffset, start, n, i);
    WholeDaySample(items, utcOffset, start, n, noonSample);
    assert Day(items[noonSample], utcOffset) == d;
    assert NoonDistance(items[i], utcOffset) <= NoonDistance(items[noonSample], utcOffset);
    assert r == 4;
    assert (86400 * q) / 86400 == q;
  }

  /** What the characterisation says of a reduction `out` of `items`. */
  ghost predicate IsDailyReduction(items: seq<ForecastItem>, utcOffset: int, out: seq<ForecastItem>) {
    && (forall i, j :: 0 <= i < j < |out| ==> Day(out[i], utcOffset) < Day(out[j], utcOffset))
    && (forall j {:trigger IsNoonPick(items, utcOffset, Day(out[j], utcOffset), out[j])} :: 0 <= j < |out| ==>
          IsNoonPick(items, utcOffset, Day(out[j], utcOffset), out[j]))
    && (forall k :: 0 <= k < |items| ==> Day(items[k], utcOffset) in Days(out, utcOffset))
  }

  /** The local days of a sequence of samples, in order. */
  ghost function Days(out: seq<ForecastItem>, utcOffset: int): (r: seq<int>)
    ensures |r| == |out|
    ensures forall j :: 0 <= j < |out| ==> r[j] == Day(out[j], utcOffset)
  {
    seq(|out|, j requires 0 <= j < |out| => Day(out[j], utcOffset))
  }

  /** The whole-day number of a sample, counted from `start`. */
  function DayNumber(item: ForecastItem, utcOffset: int, start: int): int {
    (Day(item, utcOffset) - start) / 86400
  }

  lemma WholeDaysPicksByNumber(items: seq<ForecastItem>, utcOffset: int, start: int, n: nat, out: seq<ForecastItem>)
    requires WholeDaysFromMidnight(items, utcOffset, start, n)
    requires IsDailyReduction(items, utcOffset, out)
    ensures forall j :: 0 <= j < |out| ==>
      var q := DayNumber(out[j], utcOffset, start);
      0 <= q < n && Day(out[j], utcOffset) == start + 86400 * q && out[j] == items[8 * q + 4]
  {
    forall j | 0 <= j < |out|
      ensures var q := DayNumber(out[j], utcOffset, start);
        0 <= q < n && Day(out[j], utcOffset) == start + 86400 * q && out[j] == items[8 * q + 4]
    {
      assert IsNoonPick(items, utcOffset, Day(out[j], utcOffset), out[j]);
      WholeDayPickIsNoonSample(items, utcOffset, start, n, Day(out[j], utcOffset), out[j]);
    }
  }

  lemma DayNumbersAscend(out: seq<ForecastItem>, utcOffset: int, start: int)
    requires forall j :: 0 <= j < |out| ==> Day(out[j], utcOffset) == start + 86400 * DayNumber(out[j], utcOffset, start)
    requires forall i, j :: 0 <= i < j < |out| ==> Day(out[i], utcOffset) < Day(out[j], utcOffset)
    ensures forall i, j :: 0 <= i < j < |out| ==> DayNumber(out[i], utcOffset, start) < DayNumber(out[j], utcOffset, start)
  {
  }

  /** The day numbers of a reduction, in order. */
  ghost function DayNumbers(out: seq<ForecastItem>, utcOffset: int, start: int): (r: seq<int>)
    ensures |r| == |out|
    ensures forall j :: 0 <= j < |out| ==> r[j] == DayNumber(out[j], utcOffset, start)
  {
    seq(|out|, j requires 0 <= j < |out| => DayNumber(out[j], utcOffset, start))
  }

  lemma DayNumbersCover(items: seq<ForecastItem>, utcOffset: int, start: int, n: nat, out: seq<ForecastItem>)
    requires WholeDaysFromMidnight(items, utcOffset, start, n)
    requires IsDailyReduction(items, utcOffset, out)
    ensures forall q :: 0 <= q < n ==> q in DayNumbers(out, utcOffset, start)
  {
    var numbers := DayNumbers(out, utcOffset, start);
    forall q | 0 <= q < n ensures q in numbers {
      WholeDaySample(items, utcOffset, start, n, 8 * q);
      assert (8 * q) / 8 == q;
      assert 0 <= 8 * q < |items|;
      var j :| 0 <= j < |out| && Days(out, utcOffset)[j] == Day(items[8 * q], utcOffset);
      assert numbers[j] == q;
    }
  }

  lemma NoonSamplesInOrder(items: seq<ForecastItem>, n: nat, out: seq<ForecastItem>)
    requires |items| == 8 * n && |out| == n
    requires forall j :: 0 <= j < n ==> out[j] == items[8 * j + 4]
    ensures out == seq(n, j requires 0 <= j < n => items[8 * j + 4])
  {
  }

  /** The j-th entry of a reduction over n whole days is on day j. */
  lemma WholeDaysNumbered(items: seq<ForecastItem>, utcOffset: int, start: int, n: nat, out: seq<ForecastItem>)
    requires WholeDaysFromMidnight(items, utcOffset, start, n)
    requires IsDailyReduction(items, utcOffset, out)
    ensures |out| == n
    ensures forall j :: 0 <= j < n ==> DayNumbers(out, utcOffset, start)[j] == j
  {
    WholeDaysPicksByNumber(items, utcOffset, start, n, out);
    DayNumbersAscend(out, utcOffset, start);
    DayNumbersCover(items, utcOffset, start, n, out);
    var numbers := DayNumbers(out, utcOffset, start);
    assert forall i, j :: 0 <= i < j < |numbers| ==> numbers[i] < numbers[j];
    assert forall j :: 0 <= j < |numbers| ==> 0 <= numbers[j] < n;
    AscendingCoverIsRange(numbers, n);
  }

  /** On n whole days from midnight, the only reduction is the n noon samples in order. */
  lemma WholeDaysReduction(items: seq<ForecastItem>, utcOffset: int, start: int, n: nat, out: seq<ForecastItem>)
    requires WholeDaysFromMidnight(items, utcOffset, start, n)
    requires IsDailyReduction(items, utcOffset, out)
    ensures out == seq(n, j requires 0 <= j < n => items[8 * j + 4])
  {
    WholeDaysPicksByNumber(items, utcOffset, start, n, out);
    WholeDaysNumbered(items, utcOffset, start, n, out);
    var numbers := DayNumbers(out, utcOffset, start);
    forall j | 0 <= j < n ensures out[j] == items[8 * j + 4] {
      assert numbers[j] == j;
    }
    NoonSamplesInOrder(items, n, out);
  }

  /** n whole days of 3-hourly samples from midnight reduce to the n noon
      samples, one per day, in order. */
  lemma WholeDaysPickNoon(items: seq<ForecastItem>, utcOffset: int, start: int, n: nat)
    requires WholeDaysFromMidnight(items, utcOffset, start, n)
    ensures DailyForecastOfList(items, utcOffset) == seq(n, j requires 0 <= j < n => items[8 * j + 4])
  {
    var out := DailyForecastOfList(items, utcOffset);
    DailyForecastCharacterised(items, utcOffset);
    forall k | 0 <= k < |items| ensures Day(items[k], utcOffset) in Days(out, utcOffset) {
      var j :| 0 <= j < |out| && Day(out[j], utcOffset) == Day(items[k], utcOffset);
      assert Days(out, utcOffset)[j] == Day(items[k], utcOffset);
    }
    WholeDaysReduction(items, utcOffset, start, n, out);
  }

  /** Eight samples 00:00 … 21:00 of one day yield the 12:00 sample alone. */
  lemma OneDayPicksNoonSample(items: seq<ForecastItem>, utcOffset: int, start: int)
    requires WholeDaysFromMidnight(items, utcOffset, start, 1)
    ensures DailyForecastOfList(items, utcOffset) == [items[4]]
  {
    WholeDaysPickNoon(items, utcOffset, start, 1);
  }
}
