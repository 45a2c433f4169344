/**
 The two forms of the `power_metrics` query: one DISTINCT ON over all power devices, and one DISTINCT ON
 per power device through a LATERAL join. Both are compared with what they are for: the latest sample of
 each metric of each power device.
 */
module PowerMetrics {
  import opened Wrappers
  import opened Order

  datatype Sample = Sample(device: int, metric: string, at: int, value: real)

  /** `metric_name LIKE 'battery_%_pct' OR metric_name = 'ac_connected'`; `_` in the pattern is any character. */
  predicate Wanted(metric: string) {
    metric == "ac_connected" || IsBattery(metric)
  }

  predicate IsBattery(metric: string) {
    && |metric| >= 12 && metric[..7] == "battery" && metric[|metric| - 3..] == "pct"
  }

  function Where(samples: seq<Sample>, p: Sample -> bool): seq<Sample> {
    if samples == [] then []
    else Where(samples[..|samples| - 1], p) + if p(samples[|samples| - 1]) then [samples[|samples| - 1]] else []
  }

  /** ORDER BY metric_name, collected_at DESC */
  predicate ByMetric(a: Sample, b: Sample) {
    if a.metric != b.metric then NameLe(a.metric, b.metric) else a.at >= b.at
  }

  /** ORDER BY device_id, metric_name, collected_at DESC */
  predicate ByDevice(a: Sample, b: Sample) {
    if a.device != b.device then a.device < b.device else ByMetric(a, b)
  }

  /** DISTINCT ON (device_id, metric_name): the first row of each run of equal keys. */
  function DistinctOn(rows: seq<Sample>): seq<Sample> {
    if rows == [] then []
    else
      var n := |rows| - 1;
      DistinctOn(rows[..n]) + if n == 0 || !SameKey(rows[n - 1], rows[n]) then [rows[n]] else []
  }

  predicate SameKey(a: Sample, b: Sample) {
    a.device == b.device && a.metric == b.metric
  }

  function InForm(samples: seq<Sample>, powers: seq<int>): seq<Sample> {
    DistinctOn(Sort(Where(samples, (s: Sample) => s.device in powers && Wanted(s.metric)), ByDevice))
  }

  function LateralRows(samples: seq<Sample>, device: int): seq<Sample> {
    DistinctOn(Sort(Where(samples, (s: Sample) => s.device == device && Wanted(s.metric)), ByMetric))
  }

  /** CROSS JOIN LATERAL over the power devices. */
  function LateralForm(samples: seq<Sample>, powers: seq<int>): seq<Sample> {
    if powers == [] then []
    else LateralForm(samples, powers[..|powers| - 1]) + LateralRows(samples, powers[|powers| - 1])
  }

  // ---------------------------------------------------------------- what a form selects

  /** (device_id, metric_name, collected_at) identifies a sample. */
  ghost predicate Keyed(samples: seq<Sample>) {
    forall i, j :: 0 <= i < j < |samples| ==> !(SameKey(samples[i], samples[j]) && samples[i].at == samples[j].at)
  }

  /** The latest sample of its metric on its device. */
  ghost predicate Latest(samples: seq<Sample>, s: Sample) {
    s in samples && forall t :: t in samples && SameKey(s, t) ==> t.at <= s.at
  }

  /** Equal keys lie together, the latest first. */
  ghost predicate Grouped(rows: seq<Sample>) {
    && (forall i, j, k :: 0 <= i < j < k < |rows| ==> Together(rows, i, j, k))
    && (forall i, k :: 0 <= i < k < |rows| ==> LatestFirst(rows, i, k))
  }

  predicate Together(rows: seq<Sample>, i: nat, j: nat, k: nat)
    requires i < |rows| && j < |rows| && k < |rows|
  {
    SameKey(rows[i], rows[k]) ==> SameKey(rows[j], rows[k])
  }

  predicate LatestFirst(rows: seq<Sample>, i: nat, k: nat)
    requires i < |rows| && k < |rows|
  {
    SameKey(rows[i], rows[k]) ==> rows[i].at > rows[k].at
  }

  lemma {:induction false} WhereContents(samples: seq<Sample>, p: Sample -> bool, s: Sample)
    ensures s in Where(samples, p) <==> s in samples && p(s)
  {
    if samples == [] {
    } else {
      WhereContents(samples[..|samples| - 1], p, s);
      assert samples == samples[..|samples| - 1] + [samples[|samples| - 1]];
    }
  }

  lemma {:induction false} WhereKeyed(samples: seq<Sample>, p: Sample -> bool)
    requires Keyed(samples)
    ensures Keyed(Where(samples, p))
  {
    if samples == [] {
    } else {
      var n := |samples| - 1;
      WhereKeyed(samples[..n], p);
      var before := Where(samples[..n], p);
      forall i | 0 <= i < |before| ensures !(SameKey(before[i], samples[n]) && before[i].at == samples[n].at) {
        WhereContents(samples[..n], p, before[i]);
      }
    }
  }

  lemma OrdersAreOrders()
    ensures TotalPreorder(ByMetric) && TotalPreorder(ByDevice)
  {
    NameLeIsOrder();
    forall a, b ensures ByMetric(a, b) || ByMetric(b, a) {
      NameLeTotal(a.metric, b.metric);
    }
    forall a, b, c | ByMetric(a, b) && ByMetric(b, c) ensures ByMetric(a, c) {
      MetricTransitive(a, b, c);
    }
    forall a, b, c | ByDevice(a, b) && ByDevice(b, c) ensures ByDevice(a, c) {
      if a.device == b.device == c.device {
        MetricTransitive(a, b, c);
      }
    }
  }

  lemma MetricTransitive(a: Sample, b: Sample, c: Sample)
    requires ByMetric(a, b) && ByMetric(b, c)
    ensures ByMetric(a, c)
  {
    if a.metric != b.metric && b.metric != c.metric {
      NameLeTransitive(a.metric, b.metric, c.metric);
      NameLeTotal(a.metric, b.metric);
    }
  }

  lemma SortedRowsAreKeyed(rows: seq<Sample>, le: (Sample, Sample) -> bool)
    requires Keyed(rows)
    ensures Keyed(Sort(rows, le))
    ensures forall s :: s in Sort(rows, le) <==> s in rows
  {
    assert Distinct(rows);
    SortDistinct(rows, le);
    var sorted := Sort(rows, le);
    forall i, j | 0 <= i < j < |sorted| ensures !(SameKey(sorted[i], sorted[j]) && sorted[i].at == sorted[j].at) {
      assert sorted[i] in rows && sorted[j] in rows;
      var a :| 0 <= a < |rows| && rows[a] == sorted[i];
      var b :| 0 <= b < |rows| && rows[b] == sorted[j];
      assert a != b;
      assert !(SameKey(rows[if a < b then a else b], rows[if a < b then b else a])
               && rows[if a < b then a else b].at == rows[if a < b then b else a].at);
    }
  }

  lemma SortedByDeviceIsGrouped(rows: seq<Sample>)
    requires Keyed(rows) && SortedBy(rows, ByDevice)
    ensures Grouped(rows)
  {
    forall i, j, k | 0 <= i < j < k < |rows| ensures Together(rows, i, j, k) {
      assert ByDevice(rows[i], rows[j]) && ByDevice(rows[j], rows[k]);
      NameLeTotal(rows[i].metric, rows[j].metric);
    }
    forall i, k | 0 <= i < k < |rows| ensures LatestFirst(rows, i, k) {
      assert ByDevice(rows[i], rows[k]);
    }
  }

  lemma GroupedFront(rows: seq<Sample>)
    requires rows != [] && Grouped(rows)
    ensures Grouped(rows[..|rows| - 1])
  {
    var front := rows[..|rows| - 1];
    forall i, j, k | 0 <= i < j < k < |front| ensures Together(front, i, j, k) {
      assert Together(rows, i, j, k);
    }
    forall i, k | 0 <= i < k < |front| ensures LatestFirst(front, i, k) {
      assert LatestFirst(rows, i, k);
    }
  }

  /** The last row shares its key with an earlier one only if it does with the one before it. */
  lemma LastKey(rows: seq<Sample>, i: nat)
    requires Grouped(rows) && i < |rows| - 1
    ensures SameKey(rows[i], rows[|rows| - 1]) ==>
              SameKey(rows[|rows| - 2], rows[|rows| - 1]) && rows[i].at > rows[|rows| - 1].at
  {
    var n := |rows| - 1;
    assert LatestFirst(rows, i, n);
    if i < n - 1 {
      assert Together(rows, i, n - 1, n);
    }
  }

  /** On grouped rows DISTINCT ON keeps exactly the latest row of each key, once. */
  lemma {:induction false} DistinctOnKeepsLatest(rows: seq<Sample>)
    requires Grouped(rows)
    ensures forall s :: s in DistinctOn(rows) <==> Latest(rows, s)
    ensures OneOfEach(DistinctOn(rows))
  {
    if rows == [] {
    } else {
      var front := rows[..|rows| - 1];
      GroupedFront(rows);
      DistinctOnKeepsLatest(front);
      var last := rows[|rows| - 1];
      assert rows == front + [last];
      forall t | t in front && SameKey(t, last) ensures Repeats(front, last) && t.at > last.at {
        var i :| 0 <= i < |front| && front[i] == t;
        LastKey(rows, i);
      }
      forall s ensures s in DistinctOn(rows) <==> Latest(rows, s) {
        OneMoreRow(front, last, s);
      }
      DistinctOnStep(front, last);
      OneMoreKept(front, last, DistinctOn(front), DistinctOn(rows));
    }
  }

  lemma OneMoreKept(front: seq<Sample>, last: Sample, kept: seq<Sample>, all: seq<Sample>)
    requires OneOfEach(kept) && all == kept + if Repeats(front, last) then [] else [last]
    requires forall s :: s in kept ==> s in front
    requires !Repeats(front, last) ==> forall t :: t in front ==> !SameKey(t, last)
    ensures OneOfEach(all)
  {
    forall i, j | 0 <= i < j < |all| ensures !SameKey(all[i], all[j]) {
      assert all[i] == kept[i] && kept[i] in kept && kept[i] in front;
      if j < |kept| {
        assert all[j] == kept[j];
      }
    }
  }

  lemma DistinctOnStep(front: seq<Sample>, last: Sample)
    ensures DistinctOn(front + [last]) == DistinctOn(front) + if Repeats(front, last) then [] else [last]
  {
    var rows, n := front + [last], |front|;
    assert rows[..n] == front && rows[n] == last && (n > 0 ==> rows[n - 1] == front[n - 1]);
  }

  /** The row before `last` has its key. */
  predicate Repeats(front: seq<Sample>, last: Sample) {
    front != [] && SameKey(front[|front| - 1], last)
  }

  lemma OneMoreRow(front: seq<Sample>, last: Sample, s: Sample)
    requires s in DistinctOn(front) <==> Latest(front, s)
    requires forall t :: t in front && SameKey(t, last) ==> Repeats(front, last) && t.at > last.at
    ensures s in DistinctOn(front + [last]) <==> Latest(front + [last], s)
  {
    DistinctOnStep(front, last);
    if Repeats(front, last) {
      OlderRow(front, last, front[|front| - 1], s);
    } else {
      FirstOfItsKey(front, last, s);
    }
  }

  lemma OlderRow(front: seq<Sample>, last: Sample, newer: Sample, s: Sample)
    requires newer in front && SameKey(newer, last) && newer.at > last.at
    requires forall t :: t in front && SameKey(t, last) ==> t.at > last.at
    ensures Latest(front + [last], s) <==> Latest(front, s)
  {
    assert newer in front + [last];
    if Latest(front, s) && SameKey(s, last) {
      assert s.at > last.at;
    }
  }

  lemma FirstOfItsKey(front: seq<Sample>, last: Sample, s: Sample)
    requires forall t :: t in front ==> !SameKey(t, last)
    ensures Latest(front + [last], s) <==> Latest(front, s) || s == last
  {
  }

  ghost predicate OneOfEach(rows: seq<Sample>) {
    forall i, j :: 0 <= i < j < |rows| ==> !SameKey(rows[i], rows[j])
  }

  /** What both forms are for. */
  ghost predicate Selected(samples: seq<Sample>, powers: seq<int>, s: Sample) {
    s.device in powers && Wanted(s.metric) && Latest(samples, s)
  }

  lemma InFormSelects(samples: seq<Sample>, powers: seq<int>)
    requires Keyed(samples)
    ensures forall s :: s in InForm(samples, powers) <==> Selected(samples, powers, s)
    ensures OneOfEach(InForm(samples, powers))
  {
    var p := (s: Sample) => s.device in powers && Wanted(s.metric);
    var rows := Where(samples, p);
    WhereKeyed(samples, p);
    OrdersAreOrders();
    SortSorted(rows, ByDevice);
    SortedRowsAreKeyed(rows, ByDevice);
    SortedByDeviceIsGrouped(Sort(rows, ByDevice));
    DistinctOnKeepsLatest(Sort(rows, ByDevice));
    forall s ensures s in rows <==> s in samples && p(s) {
      WhereContents(samples, p, s);
    }
    forall s ensures Latest(Sort(rows, ByDevice), s) <==> p(s) && Latest(samples, s) {
      LatestOfPart(samples, Sort(rows, ByDevice), p, s);
    }
  }

  /** A filter on the key alone does not change which sample is the latest. */
  lemma LatestOfPart(samples: seq<Sample>, rows: seq<Sample>, p: Sample -> bool, s: Sample)
    requires forall t :: t in rows <==> t in samples && p(t)
    requires forall t, u :: SameKey(t, u) ==> p(t) == p(u)
    ensures Latest(rows, s) <==> p(s) && Latest(samples, s)
  {
  }

  lemma LateralRowsSelect(samples: seq<Sample>, device: int)
    requires Keyed(samples)
    ensures forall s :: s in LateralRows(samples, device) <==>
                        s.device == device && Wanted(s.metric) && Latest(samples, s)
    ensures OneOfEach(LateralRows(samples, device))
  {
    var p := (s: Sample) => s.device == device && Wanted(s.metric);
    var rows := Where(samples, p);
    WhereKeyed(samples, p);
    OrdersAreOrders();
    SortSorted(rows, ByMetric);
    SortedRowsAreKeyed(rows, ByMetric);
    forall s ensures s in rows <==> s in samples && p(s) {
      WhereContents(samples, p, s);
    }
    var sorted := Sort(rows, ByMetric);
    forall i, j | 0 <= i < j < |sorted| ensures ByDevice(sorted[i], sorted[j]) {
      assert ByMetric(sorted[i], sorted[j]) && sorted[i] in sorted && sorted[j] in sorted;
    }
    SortedByDeviceIsGrouped(sorted);
    DistinctOnKeepsLatest(Sort(rows, ByMetric));
    forall s ensures Latest(Sort(rows, ByMetric), s) <==> p(s) && Latest(samples, s) {
      LatestOfPart(samples, Sort(rows, ByMetric), p, s);
    }
  }

  lemma {:induction false} LateralFormSelects(samples: seq<Sample>, powers: seq<int>)
    requires Keyed(samples) && Distinct(powers)
    ensures forall s :: s in LateralForm(samples, powers) <==> Selected(samples, powers, s)
    ensures OneOfEach(LateralForm(samples, powers))
  {
    if powers == [] {
    } else {
      var n := |powers| - 1;
      var front, last := powers[..n], powers[n];
      assert powers == front + [last];
      LateralFormSelects(samples, front);
      LateralRowsSelect(samples, last);
      var a, b := LateralForm(samples, front), LateralRows(samples, last);
      forall s, t | s in a && t in b ensures !SameKey(s, t) {
        assert Selected(samples, front, s);
      }
    }
  }

  /** The two forms return the same rows, each once. */
  lemma FormsAgree(samples: seq<Sample>, powers: seq<int>)
    requires Keyed(samples) && Distinct(powers)
    ensures multiset(LateralForm(samples, powers)) == multiset(InForm(samples, powers))
  {
    InFormSelects(samples, powers);
    LateralFormSelects(samples, powers);
    SameOnes(LateralForm(samples, powers), InForm(samples, powers));
  }

  lemma SameOnes(a: seq<Sample>, b: seq<Sample>)
    requires OneOfEach(a) && OneOfEach(b) && forall s :: s in a <==> s in b
    ensures multiset(a) == multiset(b)
  {
    assert Distinct(a) && Distinct(b);
    forall s ensures multiset(a)[s] == multiset(b)[s] {
      DistinctCounts(a, s);
      DistinctCounts(b, s);
      assert s in a <==> s in multiset(a);
      assert s in b <==> s in multiset(b);
    }
  }

  // ---------------------------------------------------------------- power_dev

  datatype Source = Mains | Battery

  /** The CASE over bool_or and max, for one device. */
  function PowerSource(rows: seq<Sample>, device: int): Option<Source> {
    if forall r :: r in rows ==> !IsAc(r, device) then None
    else if exists r :: r in rows && IsAc(r, device) && r.value >= 1.0 then Some(Mains)
    else Some(Battery)
  }

  predicate IsAc(r: Sample, device: int) {
    r.device == device && r.metric == "ac_connected"
  }

  /** `word` stands in `text` at `i`. */
  predicate StandsAt(text: string, word: string, i: nat) {
    i + |word| <= |text| && text[i..i + |word|] == word
  }

  /** The last place from `low` to `high` at which `word` stands. */
  function LastPlace(text: string, word: string, low: nat, high: nat): (place: Option<nat>)
    ensures place.Some? ==> low <= place.value <= high && StandsAt(text, word, place.value)
    decreases high
  {
    if high < low then None
    else if StandsAt(text, word, high) then Some(high)
    else if high == 0 then None
    else LastPlace(text, word, low, high - 1)
  }

  /** `substring(metric_name from 'battery_(.+)_pct')`: the leftmost match at or after `i`, as long as it can be. */
  function SlugFrom(metric: string, i: nat): Option<string>
    decreases |metric| - i
  {
    if i >= |metric| then None
    else
      var stop := LastPlace(metric, "_pct", i + 9, |metric|);
      if StandsAt(metric, "battery_", i) && stop.Some? then Some(metric[i + 8..stop.value])
      else SlugFrom(metric, i + 1)
  }

  function Slug(metric: string): Option<string> {
    SlugFrom(metric, 0)
  }

  /** The CASE in the ORDER BY of the batteries. */
  function SlugRank(slug: Option<string>): nat {
    if slug == Some("li_ion") then 0 else if slug == Some("lead_acid") then 1 else 99
  }

  predicate BySlug(a: Sample, b: Sample) {
    SlugRank(Slug(a.metric)) <= SlugRank(Slug(b.metric))
  }

  predicate IsBatteryOf(r: Sample, device: int) {
    r.device == device && IsBattery(r.metric)
  }

  /** The battery rows of one device, in the order in which they are aggregated. */
  function Batteries(rows: seq<Sample>, device: int): seq<Sample> {
    Sort(Where(rows, (r: Sample) => IsBatteryOf(r, device)), BySlug)
  }

  /** Rows of one device come by metric. */
  ghost predicate MetricOrder(rows: seq<Sample>) {
    forall i, j :: 0 <= i < j < |rows| && rows[i].device == rows[j].device ==> ByMetric(rows[i], rows[j])
  }

  lemma {:induction false} DistinctOnKeepsOrder(rows: seq<Sample>)
    requires MetricOrder(rows)
    ensures MetricOrder(DistinctOn(rows)) && forall s :: s in DistinctOn(rows) ==> s in rows
  {
    if rows == [] {
    } else {
      var n := |rows| - 1;
      var front, kept, all := rows[..n], DistinctOn(rows[..n]), DistinctOn(rows);
      DistinctOnKeepsOrder(front);
      assert rows == front + [rows[n]];
      forall i, j | 0 <= i < j < |all| && all[i].device == all[j].device ensures ByMetric(all[i], all[j]) {
        assert kept[i] in kept && all[i] == kept[i];
        var k :| 0 <= k < |front| && front[k] == kept[i];
        assert j < |kept| || ByMetric(rows[k], rows[n]);
      }
    }
  }

  lemma InFormOrder(samples: seq<Sample>, powers: seq<int>)
    ensures MetricOrder(InForm(samples, powers))
  {
    var rows := Where(samples, (s: Sample) => s.device in powers && Wanted(s.metric));
    OrdersAreOrders();
    SortSorted(rows, ByDevice);
    var sorted := Sort(rows, ByDevice);
    forall i, j | 0 <= i < j < |sorted| && sorted[i].device == sorted[j].device
      ensures ByMetric(sorted[i], sorted[j])
    {
      assert ByDevice(sorted[i], sorted[j]);
    }
    DistinctOnKeepsOrder(sorted);
  }

  lemma LateralRowsOrder(samples: seq<Sample>, device: int)
    ensures MetricOrder(LateralRows(samples, device))
  {
    var rows := Where(samples, (s: Sample) => s.device == device && Wanted(s.metric));
    OrdersAreOrders();
    SortSorted(rows, ByMetric);
    DistinctOnKeepsOrder(Sort(rows, ByMetric));
  }

  lemma {:induction false} LateralFormOrder(samples: seq<Sample>, powers: seq<int>)
    requires Keyed(samples) && Distinct(powers)
    ensures MetricOrder(LateralForm(samples, powers))
  {
    if powers == [] {
    } else {
      var n := |powers| - 1;
      var front, last := powers[..n], powers[n];
      LateralFormOrder(samples, front);
      LateralFormSelects(samples, front);
      LateralRowsOrder(samples, last);
      LateralRowsSelect(samples, last);
      var a, b := LateralForm(samples, front), LateralRows(samples, last);
      forall i, j | 0 <= i < |a| && 0 <= j < |b| ensures a[i].device != b[j].device {
        assert a[i] in a && b[j] in b && Selected(samples, front, a[i]);
      }
      JoinedOrder(a, b);
    }
  }

  lemma JoinedOrder(a: seq<Sample>, b: seq<Sample>)
    requires MetricOrder(a) && MetricOrder(b)
    requires forall i, j :: 0 <= i < |a| && 0 <= j < |b| ==> a[i].device != b[j].device
    ensures MetricOrder(a + b)
  {
  }

  /** The rows that a filter on one device keeps come strictly by metric. */
  ghost predicate StrictlyByMetric(rows: seq<Sample>) {
    forall i, j :: 0 <= i < j < |rows| ==> rows[i].metric != rows[j].metric && NameLe(rows[i].metric, rows[j].metric)
  }

  lemma {:induction false} PartIsStrict(rows: seq<Sample>, device: int)
    requires MetricOrder(rows) && OneOfEach(rows)
    ensures StrictlyByMetric(Where(rows, (r: Sample) => IsBatteryOf(r, device)))
  {
    var p := (r: Sample) => IsBatteryOf(r, device);
    if rows == [] {
    } else {
      var n := |rows| - 1;
      PartIsStrict(rows[..n], device);
      var before := Where(rows[..n], p);
      if p(rows[n]) {
        forall i | 0 <= i < |before|
          ensures before[i].metric != rows[n].metric && NameLe(before[i].metric, rows[n].metric)
        {
          WhereContents(rows[..n], p, before[i]);
          var k :| 0 <= k < n && rows[..n][k] == before[i];
          assert ByMetric(rows[k], rows[n]) && !SameKey(rows[k], rows[n]);
        }
      }
    }
  }

  /** Two strictly ordered lists with the same members are the same list. */
  lemma {:induction false} StrictListsAgree(a: seq<Sample>, b: seq<Sample>)
    requires StrictlyByMetric(a) && StrictlyByMetric(b) && forall s :: s in a <==> s in b
    ensures a == b
    decreases |a|
  {
    if a == [] {
      if b != [] {
        SomeMember(b);
        assert false;
      }
    } else {
      assert a[0] in b;
      var x, y := Last(a), Last(b);
      LastOfBoth(a, b);
      forall s ensures s in Init(a) <==> s in Init(b) {
        InitMember(a, s);
        InitMember(b, s);
      }
      StrictListsAgree(Init(a), Init(b));
      assert a == Init(a) + [x] && b == Init(b) + [y];
    }
  }

  lemma SomeMember(b: seq<Sample>)
    requires b != []
    ensures exists s :: s in b
  {
    assert b[0] in b;
  }

  lemma InitMember(a: seq<Sample>, s: Sample)
    requires a != [] && StrictlyByMetric(a)
    ensures s in Init(a) <==> s in a && s != Last(a)
  {
    if s in a && s != Last(a) {
      var k :| 0 <= k < |a| && a[k] == s;
      assert Init(a)[k] == s;
    }
    if s in Init(a) {
      var k :| 0 <= k < |a| - 1 && Init(a)[k] == s;
      assert a[k].metric != a[|a| - 1].metric;
    }
  }

  lemma LastOfBoth(a: seq<Sample>, b: seq<Sample>)
    requires a != [] && b != [] && StrictlyByMetric(a) && StrictlyByMetric(b) && forall s :: s in a <==> s in b
    ensures Last(a) == Last(b)
  {
    var x, y := Last(a), Last(b);
    assert x in a && y in b;
    var i :| 0 <= i < |b| && b[i] == x;
    var j :| 0 <= j < |a| && a[j] == y;
    if i < |b| - 1 && j < |a| - 1 {
      assert NameLe(b[i].metric, b[|b| - 1].metric) && NameLe(a[j].metric, a[|a| - 1].metric);
      NameLeTotal(x.metric, y.metric);
    }
  }

  lemma SlugsDiffer()
    ensures Some("li_ion") != Some("lead_acid")
  {
    assert |"li_ion"| != |"lead_acid"|;
  }

  /** A battery named in full is known by what stands between the two ends of its name. */
  lemma SlugOfName(slug: string)
    requires slug != ""
    ensures Slug("battery_" + slug + "_pct") == Some(slug)
  {
    var m := "battery_" + slug + "_pct";
    assert m[0..8] == "battery_" && m[|m| - 4..|m|] == "_pct";
    EndsWithPlace(m, "_pct", 9);
    assert m[8..|m| - 4] == slug;
  }

  lemma EndsWithPlace(text: string, word: string, low: nat)
    requires |word| == 4 && low + 4 <= |text| && text[|text| - 4..|text|] == word
    ensures LastPlace(text, word, low, |text|) == Some(|text| - 4)
  {
    var n := |text|;
    assert !StandsAt(text, word, n) && !StandsAt(text, word, n - 1);
    assert !StandsAt(text, word, n - 2) && !StandsAt(text, word, n - 3);
    assert StandsAt(text, word, n - 4);
    assert LastPlace(text, word, low, n - 4) == Some(n - 4);
    assert LastPlace(text, word, low, n - 2) == Some(n - 4);
  }

  /** `battery_%_pct` in a LIKE: two free characters around anything at all. */
  lemma IsBatteryMeans(metric: string)
    ensures IsBattery(metric) <==> exists a: char, mid: string, b: char :: metric == "battery" + [a] + mid + [b] + "pct"
  {
    if IsBattery(metric) {
      var n := |metric|;
      assert metric == "battery" + [metric[7]] + metric[8..n - 4] + [metric[n - 4]] + "pct";
    }
    if a: char, mid: string, b: char :| metric == "battery" + [a] + mid + [b] + "pct" {
      assert metric[..7] == "battery" && metric[|metric| - 3..] == "pct";
    }
  }

  /** No battery comes after one that should follow it. */
  predicate InSlugOrder(first: Sample, later: Sample) {
    && (Slug(later.metric) == Some("li_ion") ==> Slug(first.metric) == Some("li_ion"))
    && (Slug(later.metric) == Some("lead_acid") ==>
          Slug(first.metric) == Some("li_ion") || Slug(first.metric) == Some("lead_acid"))
  }

  /** The batteries of a device are its battery rows, lithium first, then lead-acid, then the others. */
  lemma BatteriesInOrder(rows: seq<Sample>, device: int)
    ensures forall i, j :: 0 <= i < j < |Batteries(rows, device)| ==>
              InSlugOrder(Batteries(rows, device)[i], Batteries(rows, device)[j])
    ensures forall s :: s in Batteries(rows, device) <==> s in rows && IsBatteryOf(s, device)
  {
    var p := (r: Sample) => IsBatteryOf(r, device);
    var part := Where(rows, p);
    SortSorted(part, BySlug);
    SortContents(part, BySlug);
    var sorted := Batteries(rows, device);
    assert SortedBy(sorted, BySlug);
    forall i, j | 0 <= i < j < |sorted| ensures InSlugOrder(sorted[i], sorted[j]) {
      assert BySlug(sorted[i], sorted[j]);
      SlugsDiffer();
    }
    forall s ensures s in Batteries(rows, device) <==> s in rows && IsBatteryOf(s, device) {
      WhereContents(rows, p, s);
      assert s in part <==> s in multiset(part);
      assert s in Batteries(rows, device) <==> s in multiset(Batteries(rows, device));
    }
  }

  lemma BatteriesSelected(samples: seq<Sample>, powers: seq<int>, device: int, rows: seq<Sample>)
    requires device in powers && forall s :: s in rows <==> Selected(samples, powers, s)
    ensures forall s :: s in Batteries(rows, device) <==> IsBatteryOf(s, device) && Latest(samples, s)
  {
    BatteriesInOrder(rows, device);
    forall s ensures s in Batteries(rows, device) <==> IsBatteryOf(s, device) && Latest(samples, s) {
      assert s in rows <==> Selected(samples, powers, s);
    }
  }

  lemma SameBatteries(samples: seq<Sample>, powers: seq<int>, device: int)
    requires Keyed(samples) && Distinct(powers)
    ensures Batteries(LateralForm(samples, powers), device) == Batteries(InForm(samples, powers), device)
  {
    var p := (r: Sample) => IsBatteryOf(r, device);
    var a, b := LateralForm(samples, powers), InForm(samples, powers);
    InFormSelects(samples, powers);
    LateralFormSelects(samples, powers);
    InFormOrder(samples, powers);
    LateralFormOrder(samples, powers);
    PartIsStrict(a, device);
    PartIsStrict(b, device);
    forall s ensures s in Where(a, p) <==> s in Where(b, p) {
      WhereContents(a, p, s);
      WhereContents(b, p, s);
    }
    StrictListsAgree(Where(a, p), Where(b, p));
  }

  /**
   Each device gets the same power source and the same batteries in the same order from both forms: the
   source its last `ac_connected` sample tells, and the last level of each battery.
   */
  lemma SamePower(samples: seq<Sample>, powers: seq<int>, device: int)
    requires Keyed(samples) && Distinct(powers) && device in powers
    ensures PowerSource(LateralForm(samples, powers), device) == PowerSource(InForm(samples, powers), device)
    ensures Batteries(LateralForm(samples, powers), device) == Batteries(InForm(samples, powers), device)
    ensures forall s :: s in Batteries(InForm(samples, powers), device) <==>
                        IsBatteryOf(s, device) && Latest(samples, s)
    ensures forall s :: Latest(samples, s) && s.device == device && s.metric == "ac_connected" ==>
              PowerSource(InForm(samples, powers), device) == Some(if s.value >= 1.0 then Mains else Battery)
    ensures (forall s :: s in samples && s.device == device ==> s.metric != "ac_connected") ==>
              PowerSource(InForm(samples, powers), device) == None
  {
    InFormSelects(samples, powers);
    LateralFormSelects(samples, powers);
    SameBatteries(samples, powers, device);
    var a, b := LateralForm(samples, powers), InForm(samples, powers);
    assert forall s :: s in a <==> s in b;
    BatteriesSelected(samples, powers, device, b);
    SourceTold(samples, powers, device, b);
  }

  lemma SourceTold(samples: seq<Sample>, powers: seq<int>, device: int, rows: seq<Sample>)
    requires device in powers && OneOfEach(rows) && forall s :: s in rows <==> Selected(samples, powers, s)
    ensures forall s :: Latest(samples, s) && IsAc(s, device) ==>
              PowerSource(rows, device) == Some(if s.value >= 1.0 then Mains else Battery)
  {
    forall s | Latest(samples, s) && IsAc(s, device)
      ensures PowerSource(rows, device) == Some(if s.value >= 1.0 then Mains else Battery)
    {
      assert Selected(samples, powers, s) && s in rows;
      forall t | t in rows && IsAc(t, device) ensures t == s {
        assert SameKey(s, t);
      }
    }
  }
}
