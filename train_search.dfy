/**
 * The train search page (src/components/trains/TrainSearchPage.js): the
 * source/destination check and swap, and `filteredTrains`, the result list
 * kept to one departure-time bucket and sorted by departure, duration or
 * cheapest class.  `Array.prototype.sort` is stable, so the sort is a stable
 * insertion sort on the comparator's key.
 */
module TrainSearch {
  import opened Wrappers
  import opened JsText
  import opened Trains

  datatype TimeFilter = Any | Morning | Afternoon | Evening | Night

  datatype SortOrder = ByDeparture | ByDuration | ByPrice

  /** `parseInt(train.departureTime.split(':')[0])` */
  function DepartureHour(t: Train): Option<int> {
    HourOf(t.departureTime)
  }

  function HourOf(departure: string): Option<int> {
    ParseInt(Before(departure, ':'))
  }

  /** The filter callback: `any` keeps everything; a bucket keeps the hours in its
      range, and an unreadable hour (`NaN`) fails every comparison. */
  predicate Matches(f: TimeFilter, hour: Option<int>) {
    match f
    case Any => true
    case Morning => hour.Some? && 5 <= hour.value < 12
    case Afternoon => hour.Some? && 12 <= hour.value < 17
    case Evening => hour.Some? && 17 <= hour.value < 21
    case Night => hour.Some? && (hour.value >= 21 || hour.value < 5)
  }

  /** Every hour falls in one bucket, and in only one. */
  lemma HourInExactlyOneBucket(h: int)
    ensures exists f :: f != Any && Matches(f, Some(h))
    ensures forall f, g :: f != Any && g != Any && Matches(f, Some(h)) && Matches(g, Some(h)) ==> f == g
  {
    if 5 <= h < 12 {
      assert Matches(Morning, Some(h));
    } else if 12 <= h < 17 {
      assert Matches(Afternoon, Some(h));
    } else if 17 <= h < 21 {
      assert Matches(Evening, Some(h));
    } else {
      assert Matches(Night, Some(h));
    }
  }

  /** `trainResults.filter(...)` */
  function FilterTrains(ts: seq<Train>, f: TimeFilter): seq<Train> {
    FilterBy(ts, f, DepartureHour)
  }

  /** The filter over any list whose entries have an hour; written once for
      all lists so that the proofs below need not read departure times. */
  function FilterBy<T>(xs: seq<T>, f: TimeFilter, hour: T -> Option<int>): (r: seq<T>)
    ensures |r| <= |xs|
    ensures forall k :: 0 <= k < |r| ==> r[k] in xs && Matches(f, hour(r[k]))
  {
    if xs == [] then []
    else (if Matches(f, hour(xs[0])) then [xs[0]] else []) + FilterBy(xs[1..], f, hour)
  }

  /** The filter adds nothing and drops nothing but the entries outside the bucket:
      each occurs as often as in the input when it matches, and not at all otherwise. */
  lemma {:induction false} FilterKeepsExactlyMatching<T>(xs: seq<T>, f: TimeFilter, hour: T -> Option<int>, x: T)
    ensures multiset(FilterBy(xs, f, hour))[x] == if Matches(f, hour(x)) then multiset(xs)[x] else 0
  {
    if xs != [] {
      FilterKeepsExactlyMatching(xs[1..], f, hour, x);
      var rest := FilterBy(xs[1..], f, hour);
      assert xs == [xs[0]] + xs[1..];
      CountCons(xs[0], xs[1..], x);
      if Matches(f, hour(xs[0])) {
        assert FilterBy(xs, f, hour) == [xs[0]] + rest;
        CountCons(xs[0], rest, x);
      } else {
        assert FilterBy(xs, f, hour) == rest;
      }
    }
  }

  /** How often `x` occurs in a list with `a` in front. */
  lemma CountCons<T>(a: T, s: seq<T>, x: T)
    ensures multiset([a] + s)[x] == (if a == x then 1 else 0) + multiset(s)[x]
  {
    assert multiset([a] + s) == multiset([a]) + multiset(s);
  }

  /** `any` keeps the whole list, in order. */
  lemma {:induction false} FilterAnyKeepsAll<T>(xs: seq<T>, hour: T -> Option<int>)
    ensures FilterBy(xs, Any, hour) == xs
  {
    if xs != [] {
      FilterAnyKeepsAll(xs[1..], hour);
      assert xs == [xs[0]] + xs[1..];
    }
  }

  /** With readable hours, the four buckets split the list between them. */
  lemma {:induction false} BucketsPartition<T>(xs: seq<T>, hour: T -> Option<int>)
    requires forall k :: 0 <= k < |xs| ==> hour(xs[k]).Some?
    ensures |FilterBy(xs, Morning, hour)| + |FilterBy(xs, Afternoon, hour)|
          + |FilterBy(xs, Evening, hour)| + |FilterBy(xs, Night, hour)| == |xs|
  {
    if xs != [] {
      BucketsPartition(xs[1..], hour);
      HourInExactlyOneBucket(hour(xs[0]).value);
    }
  }

  // ---- Sort keys

  /** `parseInt(train.departureTime.replace(':', ''))`: "06:00" reads as 600. */
  function DepartureKey(t: Train): Option<int> {
    ClockNumber(t.departureTime)
  }

  function ClockNumber(departure: string): Option<int> {
    ParseInt(RemoveFirst(departure, ':'))
  }

  /**
   * `parseInt(d.split('h')[0]) * 60 + parseInt(d.split('h')[1].replace('m', '').trim())`.
   * A duration without an `h` makes `split('h')[1]` undefined and the
   * comparator throw; that and an unreadable number give no key.
   */
  function DurationKey(t: Train): Option<int> {
    DurationMinutes(t.duration)
  }

  function DurationMinutes(duration: string): Option<int> {
    var hours := HoursPart(duration);
    var minutes := MinutesPart(duration);
    if hours.Some? && minutes.Some? then Some(hours.value * 60 + minutes.value) else None
  }

  /** `parseInt(d.split('h')[0])` */
  function HoursPart(duration: string): Option<int> {
    ParseInt(Before(duration, 'h'))
  }

  /** `parseInt(d.split('h')[1].replace('m', '').trim())`, nothing when there is no `h`. */
  function MinutesPart(duration: string): Option<int> {
    var rest := SecondPiece(duration, 'h');
    if rest.None? then None else ParseInt(Trim(RemoveFirst(rest.value, 'm')))
  }

  function MinOf(xs: seq<nat>): (m: nat)
    requires |xs| > 0
    ensures m in xs && forall k :: 0 <= k < |xs| ==> m <= xs[k]
  {
    if |xs| == 1 then xs[0]
    else
      var rest := MinOf(xs[1..]);
      if xs[0] <= rest then xs[0] else rest
  }

  /** `Math.min(...Object.values(train.price))`; a train with no prices (`Infinity`)
      gives no key. */
  function PriceKey(t: Train): (key: Option<int>)
    ensures key.Some? <==> |t.price| > 0
    ensures key.Some? ==>
      (exists k :: 0 <= k < |t.price| && t.price[k].1 == key.value)
      && forall k :: 0 <= k < |t.price| ==> key.value <= t.price[k].1
  {
    var vs := Values(t.price);
    if vs == [] then None
    else
      var m := MinOf(vs);
      assert exists k :: 0 <= k < |vs| && vs[k] == m;
      Some(m)
  }

  function SortKey(order: SortOrder, t: Train): Option<int> {
    match order
    case ByDeparture => DepartureKey(t)
    case ByDuration => DurationKey(t)
    case ByPrice => PriceKey(t)
  }

  /** A departure "HH:MM" written with digits: the hour the filter reads is HH. */
  lemma ClockDepartureHour(hh: string, mm: string)
    requires |hh| == 2 && AllDigits(hh) && |mm| == 2 && AllDigits(mm)
    ensures HourOf(hh + ":" + mm) == Some(DecimalValue(hh))
  {
    ClockHourText(hh, mm);
    ParseIntOfDigits(hh);
  }

  lemma ClockHourText(hh: string, mm: string)
    requires |hh| == 2 && AllDigits(hh)
    ensures Before(hh + ":" + mm, ':') == hh
  {
    var s := hh + ":" + mm;
    assert s[..2] == hh && s[2] == ':';
    assert ':' !in s[..2];
    BeforeFirst(s, ':', 2);
  }

  /** A departure "HH:MM" sorts by HHMM read as a number: hour · 100 + minutes. */
  lemma ClockDepartureKey(hh: string, mm: string)
    requires |hh| == 2 && AllDigits(hh) && |mm| == 2 && AllDigits(mm)
    ensures ClockNumber(hh + ":" + mm) == Some(DecimalValue(hh) * 100 + DecimalValue(mm))
  {
    ClockKeyText(hh, mm);
    ClockNumberOf(hh + ":" + mm, DecimalValue(hh) * 100 + DecimalValue(mm));
  }

  lemma ClockNumberOf(s: string, v: int)
    requires var u := RemoveFirst(s, ':'); AllDigits(u) && u != [] && DecimalValue(u) == v
    ensures ClockNumber(s) == Some(v)
  {
    ParseIntOfDigits(RemoveFirst(s, ':'));
  }

  /** With the colon dropped, "HH:MM" is the four digits HHMM. */
  lemma ClockKeyText(hh: string, mm: string)
    requires AllDigits(hh) && |mm| == 2 && AllDigits(mm)
    ensures var u := RemoveFirst(hh + ":" + mm, ':');
      AllDigits(u) && u != [] && DecimalValue(u) == DecimalValue(hh) * 100 + DecimalValue(mm)
  {
    assert ':' !in hh;
    RemoveFirstAfter(hh, ':', mm);
    DecimalValueAppend(hh, mm);
    assert Pow10(2) == 100;
  }

  /** Reading HHMM as a number orders clock times chronologically. */
  lemma ClockKeyOrderIsChronological(h1: nat, m1: nat, h2: nat, m2: nat)
    requires m1 < 60 && m2 < 60
    ensures h1 * 100 + m1 <= h2 * 100 + m2 <==> h1 * 60 + m1 <= h2 * 60 + m2
  {
    if h1 < h2 {
      assert h1 * 100 + m1 < (h1 + 1) * 100 <= h2 * 100;
      assert h1 * 60 + m1 < (h1 + 1) * 60 <= h2 * 60;
    } else if h1 > h2 {
      assert h2 * 100 + m2 < (h2 + 1) * 100 <= h1 * 100;
      assert h2 * 60 + m2 < (h2 + 1) * 60 <= h1 * 60;
    }
  }

  /**
   * A duration "Hh Mm" written with digits: the text before the `h` reads as
   * H hours, and the piece after it, with its `m` dropped and trimmed, as M
   * minutes, so `DurationMinutes` combines them into H · 60 + M.
   */
  lemma DurationHoursRead(hh: string, mm: string)
    requires hh != [] && AllDigits(hh) && mm != [] && AllDigits(mm)
    ensures HoursPart(hh + "h " + mm + "m") == Some(DecimalValue(hh))
  {
    DurationText(hh, mm);
    HoursPartOf(hh + "h " + mm + "m", DecimalValue(hh));
  }

  lemma DurationMinutesRead(hh: string, mm: string)
    requires hh != [] && AllDigits(hh) && mm != [] && AllDigits(mm)
    ensures MinutesPart(hh + "h " + mm + "m") == Some(DecimalValue(mm))
  {
    DurationText(hh, mm);
    MinutesPartOf(hh + "h " + mm + "m", DecimalValue(mm));
  }

  lemma HoursPartOf(d: string, hours: nat)
    requires var h := Before(d, 'h'); AllDigits(h) && h != [] && DecimalValue(h) == hours
    ensures HoursPart(d) == Some(hours)
  {
    ParseIntOfDigits(Before(d, 'h'));
  }

  lemma MinutesPartOf(d: string, minutes: nat)
    requires SecondPiece(d, 'h').Some?
    requires var m := Trim(RemoveFirst(SecondPiece(d, 'h').value, 'm'));
      AllDigits(m) && m != [] && DecimalValue(m) == minutes
    ensures MinutesPart(d) == Some(minutes)
  {
    ParseIntOfDigits(Trim(RemoveFirst(SecondPiece(d, 'h').value, 'm')));
  }

  /** The hours are the digits before the `h`, the minutes those of the piece after it. */
  lemma DurationText(hh: string, mm: string)
    requires hh != [] && AllDigits(hh) && mm != [] && AllDigits(mm)
    ensures var d := hh + "h " + mm + "m";
      && Before(d, 'h') == hh
      && SecondPiece(d, 'h').Some?
      && Trim(RemoveFirst(SecondPiece(d, 'h').value, 'm')) == mm
  {
    DurationPieces(hh, mm);
    MinutesUnsuffixed(mm);
  }

  lemma DurationPieces(hh: string, mm: string)
    requires AllDigits(hh) && AllDigits(mm)
    ensures Before(hh + "h " + mm + "m", 'h') == hh
    ensures SecondPiece(hh + "h " + mm + "m", 'h') == Some(" " + mm + "m")
  {
    DurationHead(hh, mm);
    var d := hh + "h " + mm + "m";
    assert d[|hh| + 1..] == " " + mm + "m";
    NoHourMarkInMinutes(mm);
    BeforeWhole(" " + mm + "m", 'h');
  }

  lemma DurationHead(hh: string, mm: string)
    requires AllDigits(hh)
    ensures Before(hh + "h " + mm + "m", 'h') == hh
  {
    var d := hh + "h " + mm + "m";
    assert d[..|hh|] == hh && d[|hh|] == 'h';
    assert 'h' !in hh;
    BeforeFirst(d, 'h', |hh|);
  }

  lemma NoHourMarkInMinutes(mm: string)
    requires AllDigits(mm)
    ensures 'h' !in " " + mm + "m"
  {
    var rest := " " + mm + "m";
    forall k | 0 <= k < |rest|
      ensures rest[k] != 'h'
    {
      if 0 < k <= |mm| {
        assert rest[k] == mm[k - 1];
      }
    }
  }

  lemma MinutesUnsuffixed(mm: string)
    requires AllDigits(mm)
    ensures Trim(RemoveFirst(" " + mm + "m", 'm')) == mm
  {
    assert 'm' !in " " + mm;
    RemoveFirstAfter(" " + mm, 'm', []);
    assert " " + mm + "m" == (" " + mm) + ['m'] + [];
    assert (" " + mm) + [] == [' '] + mm;
    TrimLeadingBlank(mm);
    TrimOfDigits(mm);
  }

  /**
   * A key above every price in `ts`.  It stands for `Math.min()` of an empty
   * price table, `Infinity`: that compares above every price, and
   * `Infinity - Infinity` is `NaN`, which the sort reads as a tie.
   */
  function PriceCeiling(ts: seq<Train>): (top: int)
    ensures forall k :: 0 <= k < |ts| && PriceKey(ts[k]).Some? ==> PriceKey(ts[k]).value < top
  {
    if ts == [] then 0
    else
      var rest := PriceCeiling(ts[1..]);
      assert forall k :: 1 <= k < |ts| ==> ts[k] == ts[1..][k - 1];
      var key := PriceKey(ts[0]);
      if key.Some? && key.value >= rest then key.value + 1 else rest
  }

  /**
   * The comparator's key, `top` standing for `Infinity`.  A train without
   * prices gets `top`.  An unreadable departure or duration (`NaN`) ties with
   * every other train, so the order is up to the engine; it is given the key
   * 0 here (see `AllKeyed`).
   */
  function Key(order: SortOrder, t: Train, top: int): int {
    var k := SortKey(order, t);
    if k.Some? then k.value else if order == ByPrice then top else 0
  }

  /** The key the page sorts `ts` by. */
  function KeyIn(ts: seq<Train>, order: SortOrder): Train -> int {
    t => Key(order, t, PriceCeiling(ts))
  }

  /** Every train in the list has a readable key, so the comparator is a true order. */
  predicate AllKeyed(ts: seq<Train>, order: SortOrder) {
    forall k :: 0 <= k < |ts| ==> SortKey(order, ts[k]).Some?
  }

  /** Ascending by `key`. */
  predicate SortedBy<T>(s: seq<T>, key: T -> int) {
    forall i, j :: 0 <= i < j < |s| ==> key(s[i]) <= key(s[j])
  }

  /** Places `x` after every element whose key is not larger. */
  function Insert<T>(s: seq<T>, x: T, key: T -> int): seq<T> {
    if s == [] then [x]
    else if key(s[|s| - 1]) <= key(x) then s + [x]
    else Insert(s[..|s| - 1], x, key) + [s[|s| - 1]]
  }

  /** A stable sort on `key`: each element in turn inserted into the sorted prefix. */
  function StableSort<T>(s: seq<T>, key: T -> int): seq<T> {
    if s == [] then [] else Insert(StableSort(s[..|s| - 1], key), s[|s| - 1], key)
  }

  /** `.sort((a, b) => key(a) - key(b))` on the chosen key. */
  function SortTrains(ts: seq<Train>, order: SortOrder): seq<Train> {
    StableSort(ts, KeyIn(ts, order))
  }

  /** The list the page shows: the bucket's trains, sorted. */
  function DisplayedTrains(results: seq<Train>, f: TimeFilter, order: SortOrder): seq<Train> {
    SortTrains(FilterTrains(results, f), order)
  }

  /** Inserting adds `x` and keeps everything else. */
  lemma {:induction false} InsertPermutes<T>(s: seq<T>, x: T, key: T -> int)
    ensures multiset(Insert(s, x, key)) == multiset(s) + multiset{x}
  {
    if s != [] && key(s[|s| - 1]) > key(x) {
      var init, last := s[..|s| - 1], s[|s| - 1];
      InsertPermutes(init, x, key);
      assert s == init + [last];
    } else if s != [] {
      assert Insert(s, x, key) == s + [x];
    }
  }

  /** A bound on every key of `s` and on `x` bounds every key after insertion. */
  lemma InsertKeepsBound<T>(s: seq<T>, x: T, key: T -> int, bound: int)
    requires forall k :: 0 <= k < |s| ==> key(s[k]) <= bound
    requires key(x) <= bound
    ensures forall k :: 0 <= k < |Insert(s, x, key)| ==> key(Insert(s, x, key)[k]) <= bound
  {
    var r := Insert(s, x, key);
    InsertPermutes(s, x, key);
    forall k | 0 <= k < |r|
      ensures key(r[k]) <= bound
    {
      assert r[k] in multiset(s) + multiset{x} by {
        assert r[k] in multiset(r);
      }
      if r[k] != x {
        assert r[k] in s;
      }
    }
  }

  lemma {:induction false} InsertSorted<T>(s: seq<T>, x: T, key: T -> int)
    requires SortedBy(s, key)
    ensures SortedBy(Insert(s, x, key), key)
  {
    if s != [] && key(s[|s| - 1]) > key(x) {
      var init, last := s[..|s| - 1], s[|s| - 1];
      assert SortedBy(init, key);
      InsertSorted(init, x, key);
      InsertKeepsBound(init, x, key, key(last));
      var r := Insert(init, x, key);
      assert Insert(s, x, key) == r + [last];
    }
  }

  /** The sorted list is in ascending key order and is a permutation of its input. */
  lemma {:induction false} StableSortSortedPermutation<T>(s: seq<T>, key: T -> int)
    ensures SortedBy(StableSort(s, key), key)
    ensures multiset(StableSort(s, key)) == multiset(s)
  {
    if s != [] {
      var init, last := s[..|s| - 1], s[|s| - 1];
      var sorted := StableSort(init, key);
      StableSortSortedPermutation(init, key);
      InsertSorted(sorted, last, key);
      InsertPermutes(sorted, last, key);
      assert StableSort(s, key) == Insert(sorted, last, key);
      assert multiset(s) == multiset(init) + multiset{last} by {
        assert s == init + [last];
      }
    }
  }

  /** The displayed trains are ascending by the chosen key and are exactly the
      bucket's trains, each as often as it occurs there. */
  lemma SortTrainsSortedPermutation(ts: seq<Train>, order: SortOrder)
    ensures SortedBy(SortTrains(ts, order), KeyIn(ts, order))
    ensures multiset(SortTrains(ts, order)) == multiset(ts)
  {
    StableSortSortedPermutation(ts, KeyIn(ts, order));
  }

  /** Sorted by price, the trains without prices come after every train with prices. */
  lemma SortTrainsPricelessLast(ts: seq<Train>)
    ensures var s := SortTrains(ts, ByPrice);
      forall i, j :: 0 <= i < j < |s| && |s[i].price| == 0 ==> |s[j].price| == 0
  {
    var s := SortTrains(ts, ByPrice);
    var key := KeyIn(ts, ByPrice);
    SortTrainsSortedPermutation(ts, ByPrice);
    forall i, j | 0 <= i < j < |s| && |s[i].price| == 0
      ensures |s[j].price| == 0
    {
      assert key(s[i]) <= key(s[j]);
      assert s[j] in multiset(ts) by {
        assert s[j] in multiset(s);
      }
      PricedBelowCeiling(ts, s[j]);
    }
  }

  lemma PricedBelowCeiling(ts: seq<Train>, x: Train)
    requires x in ts
    ensures |x.price| > 0 ==> KeyIn(ts, ByPrice)(x) < PriceCeiling(ts)
  {
    var k :| 0 <= k < |ts| && ts[k] == x;
  }

  /** The elements of `s` whose key is `v`, in order. */
  function WithKey<T>(s: seq<T>, key: T -> int, v: int): seq<T> {
    if s == [] then []
    else WithKey(s[..|s| - 1], key, v) + (if key(s[|s| - 1]) == v then [s[|s| - 1]] else [])
  }

  lemma {:induction false} WithKeyAppend<T>(a: seq<T>, b: seq<T>, key: T -> int, v: int)
    ensures WithKey(a + b, key, v) == WithKey(a, key, v) + WithKey(b, key, v)
  {
    if b == [] {
      assert a + b == a;
    } else {
      WithKeyAppend(a, b[..|b| - 1], key, v);
      assert (a + b)[..|a + b| - 1] == a + b[..|b| - 1];
    }
  }

  lemma WithKeySingleton<T>(x: T, key: T -> int, v: int)
    ensures WithKey([x], key, v) == if key(x) == v then [x] else []
  {
    assert [x][..0] == [];
  }

  lemma {:induction false} InsertStable<T>(s: seq<T>, x: T, key: T -> int, v: int)
    ensures WithKey(Insert(s, x, key), key, v) == WithKey(s, key, v) + (if key(x) == v then [x] else [])
  {
    WithKeySingleton(x, key, v);
    if s != [] {
      var init, last := s[..|s| - 1], s[|s| - 1];
      if key(last) <= key(x) {
        WithKeyAppend(s, [x], key, v);
      } else {
        InsertStable(init, x, key, v);
        InsertBeforeLast(s, x, key, v);
      }
    }
  }

  /** The step of `InsertStable` where `x` goes before the last element: of `x`
      and that element, at most one has key `v`, so their order among the
      elements with key `v` does not matter. */
  lemma InsertBeforeLast<T>(s: seq<T>, x: T, key: T -> int, v: int)
    requires s != [] && key(s[|s| - 1]) > key(x)
    requires WithKey(Insert(s[..|s| - 1], x, key), key, v)
          == WithKey(s[..|s| - 1], key, v) + (if key(x) == v then [x] else [])
    ensures WithKey(Insert(s, x, key), key, v) == WithKey(s, key, v) + (if key(x) == v then [x] else [])
  {
    var init, last := s[..|s| - 1], s[|s| - 1];
    var inserted := Insert(init, x, key);
    var mine := if key(x) == v then [x] else [];
    var theirs := if key(last) == v then [last] else [];
    assert Insert(s, x, key) == inserted + [last];
    WithKeyAppend(inserted, [last], key, v);
    WithKeySingleton(last, key, v);
    assert WithKey(s, key, v) == WithKey(init, key, v) + theirs;
    AtMostOneSide(WithKey(init, key, v), mine, theirs);
  }

  lemma AtMostOneSide<T>(a: seq<T>, m: seq<T>, t: seq<T>)
    requires m == [] || t == []
    ensures a + m + t == a + t + m
  {
    if m == [] {
      assert a + m == a;
      assert a + t + m == a + t;
    } else {
      assert a + t == a;
      assert a + m + t == a + m;
    }
  }

  lemma {:induction false} StableSortStable<T>(s: seq<T>, key: T -> int, v: int)
    ensures WithKey(StableSort(s, key), key, v) == WithKey(s, key, v)
  {
    if s != [] {
      var init := s[..|s| - 1];
      StableSortStable(init, key, v);
      StableSortSortedPermutation(init, key);
      InsertStable(StableSort(init, key), s[|s| - 1], key, v);
    }
  }

  /** Ties keep their input order: the trains sharing any one key come out in
      the order they went in. */
  lemma SortTrainsStable(ts: seq<Train>, order: SortOrder, v: int)
    ensures WithKey(SortTrains(ts, order), KeyIn(ts, order), v) == WithKey(ts, KeyIn(ts, order), v)
  {
    StableSortStable(ts, KeyIn(ts, order), v);
  }

  // ---- Search form

  const MissingStationsMessage := "Please select both source and destination stations"
  const SameStationsMessage := "Source and destination cannot be the same"

  /** `!station`: no selection (`null`) or an empty string. */
  predicate Blank(station: Option<string>) {
    station.None? || station.value == ""
  }

  class SearchSession {
    var source: Option<string>
    var destination: Option<string>
    var classType: string
    var searchError: string
    var searchPerformed: bool
    var isSearching: bool
    var trainResults: seq<Train>
    var departureFilter: TimeFilter
    var sortBy: SortOrder
    /** The search timers not yet fired, oldest first, each with the stations
        its `handleSearch` saw.  They all wait 1.5 s, so they fire in this order. */
    var pendingSearches: seq<(string, string)>

    /**
     * The spinner is on only while a search is pending, a pending search
     * means one was performed, and every pending search is between two
     * distinct stations.
     */
    ghost predicate Valid()
      reads this`isSearching, this`searchPerformed, this`pendingSearches
    {
      && (isSearching ==> |pendingSearches| > 0)
      && (|pendingSearches| > 0 ==> searchPerformed)
      && forall k :: 0 <= k < |pendingSearches| ==>
           pendingSearches[k].0 != "" && pendingSearches[k].1 != ""
           && pendingSearches[k].0 != pendingSearches[k].1
    }

    /** The page's initial state, with the stations read from the query string. */
    constructor (initialSource: Option<string>, initialDestination: Option<string>)
      ensures Valid()
      ensures source == initialSource && destination == initialDestination
      ensures classType == "" && searchError == "" && !searchPerformed && !isSearching
      ensures trainResults == [] && departureFilter == Any && sortBy == ByDeparture
      ensures pendingSearches == []
    {
      source := initialSource;
      destination := initialDestination;
      classType := "";
      searchError := "";
      searchPerformed := false;
      isSearching := false;
      trainResults := [];
      departureFilter := Any;
      sortBy := ByDeparture;
      pendingSearches := [];
    }

    /**
     * The mount effect: with both stations given, it runs `handleSearch`;
     * otherwise it does nothing (in particular it sets no error).
     */
    method Mount()
      requires Valid()
      modifies this`searchError, this`searchPerformed, this`isSearching, this`pendingSearches
      ensures Valid()
      ensures Blank(source) || Blank(destination) ==>
        searchError == old(searchError) && searchPerformed == old(searchPerformed)
        && isSearching == old(isSearching) && pendingSearches == old(pendingSearches)
      ensures !Blank(source) && !Blank(destination) && source == destination ==>
        searchError == SameStationsMessage
        && searchPerformed == old(searchPerformed) && isSearching == old(isSearching)
        && pendingSearches == old(pendingSearches)
      ensures !Blank(source) && !Blank(destination) && source != destination ==>
        searchError == "" && searchPerformed && isSearching
        && pendingSearches == old(pendingSearches) + [(source.value, destination.value)]
    {
      if !Blank(source) && !Blank(destination) {
        HandleSearch();
      }
    }

    /** What the result list shows. */
    function Displayed(): seq<Train>
      reads this
    {
      DisplayedTrains(trainResults, departureFilter, sortBy)
    }

    /**
     * `handleSearch`: a missing station, or the same station twice, only sets
     * the error; otherwise the error is cleared and the search starts.
     */
    method HandleSearch()
      requires Valid()
      modifies this`searchError, this`searchPerformed, this`isSearching, this`pendingSearches
      ensures Valid()
      ensures Blank(source) || Blank(destination) ==>
        searchError == MissingStationsMessage
        && searchPerformed == old(searchPerformed) && isSearching == old(isSearching)
        && pendingSearches == old(pendingSearches)
      ensures !Blank(source) && !Blank(destination) && source == destination ==>
        searchError == SameStationsMessage
        && searchPerformed == old(searchPerformed) && isSearching == old(isSearching)
        && pendingSearches == old(pendingSearches)
      ensures !Blank(source) && !Blank(destination) && source != destination ==>
        searchError == "" && searchPerformed && isSearching
        && pendingSearches == old(pendingSearches) + [(source.value, destination.value)]
      ensures searchError == "" <==> !Blank(source) && !Blank(destination) && source != destination
    {
      if Blank(source) || Blank(destination) {
        searchError := MissingStationsMessage;
        return;
      }
      if source == destination {
        searchError := SameStationsMessage;
        return;
      }
      searchError := "";
      searchPerformed := true;
      isSearching := true;
      pendingSearches := pendingSearches + [(source.value, destination.value)];
    }

    /**
     * The oldest search timer fires with the catalogue's answer for its
     * stations (`pendingSearches[0]`).  The results replace the list and the
     * spinner goes off, even when a later search is still pending.
     */
    method SearchTimerFired(results: seq<Train>)
      requires Valid() && |pendingSearches| > 0
      modifies this`trainResults, this`isSearching, this`pendingSearches
      ensures Valid()
      ensures trainResults == results && !isSearching
      ensures pendingSearches == old(pendingSearches)[1..]
    {
      trainResults := results;
      isSearching := false;
      pendingSearches := pendingSearches[1..];
    }

    /** `handleSwapStations` */
    method Swap()
      modifies this`source, this`destination
      ensures source == old(destination) && destination == old(source)
    {
      var temp := source;
      source := destination;
      destination := temp;
    }

    method SetDepartureFilter(f: TimeFilter)
      modifies this`departureFilter
      ensures departureFilter == f
    {
      departureFilter := f;
    }

    method SetSortBy(order: SortOrder)
      modifies this`sortBy
      ensures sortBy == order
    {
      sortBy := order;
    }

    /** The Class Type select: stored, and read by nothing that builds the list. */
    method SetClassType(c: string)
      modifies this`classType
      ensures classType == c && Displayed() == old(Displayed())
    {
      classType := c;
    }
  }

  /**
   * Opening `/trains?source=…&destination=…`: the initial state, then the
   * mount effect.  A search starts at once exactly when both stations are
   * given and differ; the same station twice shows its error at once.
   */
  method OpenSearchPage(initialSource: Option<string>, initialDestination: Option<string>)
    returns (page: SearchSession)
    ensures fresh(page) && page.Valid()
    ensures page.source == initialSource && page.destination == initialDestination
    ensures page.searchPerformed && page.isSearching
        <==> !Blank(initialSource) && !Blank(initialDestination) && initialSource != initialDestination
    ensures page.searchError ==
        if !Blank(initialSource) && !Blank(initialDestination) && initialSource == initialDestination
        then SameStationsMessage else ""
    ensures page.pendingSearches ==
        if !Blank(initialSource) && !Blank(initialDestination) && initialSource != initialDestination
        then [(initialSource.value, initialDestination.value)] else []
    ensures page.trainResults == [] && page.departureFilter == Any && page.sortBy == ByDeparture
  {
    page := new SearchSession(initialSource, initialDestination);
    page.Mount();
  }

  /**
   * Two searches in a row, A to B and then (after a swap) B to A, before
   * either timer fires: the first timer shows the A-to-B results with the
   * spinner off, and the second then replaces them with the B-to-A results.
   */
  method OverlappingSearches(page: SearchSession, first: seq<Train>, second: seq<Train>)
    requires page.Valid() && page.pendingSearches == []
    requires !Blank(page.source) && !Blank(page.destination) && page.source != page.destination
    modifies page
    ensures page.source == old(page.destination) && page.destination == old(page.source)
    ensures page.trainResults == second && !page.isSearching && page.pendingSearches == []
  {
    var a, b := page.source.value, page.destination.value;
    page.HandleSearch();
    page.Swap();
    page.HandleSearch();
    assert page.pendingSearches == [(a, b), (b, a)];
    page.SearchTimerFired(first);
    assert page.trainResults == first && !page.isSearching && page.pendingSearches == [(b, a)];
    page.SearchTimerFired(second);
  }

  /** Swapping twice gives back the stations as they were. */
  method SwapTwice(page: SearchSession)
    modifies page
    ensures page.source == old(page.source) && page.destination == old(page.destination)
  {
    page.Swap();
    page.Swap();
  }
}
