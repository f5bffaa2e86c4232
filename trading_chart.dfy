/** The data normalisation of the price chart (src/components/TradingChart.tsx):
    entries without a string time are dropped, the rest are stably sorted by their
    "HH:MM" time, mapped onto today's clock, reduced to the first entry of each
    time and sorted again by time, which is what the chart library requires.

    A time is given already split into hours and minutes; the chart position of
    h:m is the minute count h * 60 + m, which orders exactly as the epoch seconds
    of today at h:m do. An empty time string sorts as 00:00 but is charted at
    09:00, as the two fallbacks of the source differ. */
module TradingChart {
  import opened Common

  /** The `time` field of one entry. */
  datatype Time = NotString | EmptyString | Clock(h: int, m: int)

  datatype Entry = Entry(time: Time, value: real)

  /** One point handed to the chart, at a minute of today. */
  datatype ChartPoint = ChartPoint(time: int, value: real)

  /** The sort key: `new Date("2000/01/01 " + (time || "00:00"))`. */
  function SortKey(e: Entry): int {
    match e.time
    case Clock(h, m) => h * 60 + m
    case _ => 0
  }

  /** The chart position: `(time || "09:00")` split and set on today's date. */
  function ChartMinutes(t: Time): int {
    match t
    case Clock(h, m) => h * 60 + m
    case _ => 9 * 60
  }

  function PointTime(p: ChartPoint): int {
    p.time
  }

  // ----- first-occurrence de-duplication -----

  /** Index i holds the first point with its time: `index === self.findIndex(t => t.time === item.time)`. */
  predicate FirstAt(s: seq<ChartPoint>, i: int)
    requires 0 <= i < |s|
  {
    forall j :: 0 <= j < i ==> s[j].time != s[i].time
  }

  function DedupUpTo(s: seq<ChartPoint>, n: nat): seq<ChartPoint>
    requires n <= |s|
  {
    if n == 0 then []
    else DedupUpTo(s, n - 1) + (if FirstAt(s, n - 1) then [s[n - 1]] else [])
  }

  function Dedup(s: seq<ChartPoint>): seq<ChartPoint> {
    DedupUpTo(s, |s|)
  }

  /** De-duplication keeps only points of the input, each the first of its time. */
  lemma {:induction false} DedupSound(s: seq<ChartPoint>, n: nat)
    requires n <= |s|
    ensures forall p :: p in DedupUpTo(s, n) ==> exists j :: 0 <= j < n && s[j] == p && FirstAt(s, j)
  {
    if n > 0 {
      DedupSound(s, n - 1);
    }
  }

  /** De-duplication keeps at most one point of time k. */
  lemma {:induction false} DedupDistinct(s: seq<ChartPoint>, n: nat, k: int)
    requires n <= |s|
    ensures |KeyFilter(DedupUpTo(s, n), PointTime, k)| <= 1
  {
    if n > 0 {
      DedupDistinct(s, n - 1, k);
      var prev := DedupUpTo(s, n - 1);
      var add := if FirstAt(s, n - 1) then [s[n - 1]] else [];
      KeyFilterAppend(prev, add, PointTime, k);
      if FirstAt(s, n - 1) && s[n - 1].time == k && KeyFilter(prev, PointTime, k) != [] {
        DedupSound(s, n - 1);
        KeyFilterNonEmpty(prev, PointTime, k);
        assert false;
      }
    }
  }

  /** Every time of the input keeps a point. */
  lemma {:induction false} DedupComplete(s: seq<ChartPoint>, n: nat)
    requires n <= |s|
    ensures forall j :: 0 <= j < n ==> exists p :: p in DedupUpTo(s, n) && p.time == s[j].time
  {
    if n > 0 {
      DedupComplete(s, n - 1);
      var prev := DedupUpTo(s, n - 1);
      assert forall p :: p in prev ==> p in DedupUpTo(s, n);
      if !FirstAt(s, n - 1) {
        var i :| 0 <= i < n - 1 && s[i].time == s[n - 1].time;
        var p :| p in prev && p.time == s[i].time;
      } else {
        assert s[n - 1] in DedupUpTo(s, n);
      }
    }
  }

  /** A sequence sorted by key with at most one element per key is strictly increasing. */
  lemma StrictWhenDistinct<T>(r: seq<T>, key: T -> int)
    requires SortedBy(r, key)
    requires forall k :: |KeyFilter(r, key, k)| <= 1
    ensures forall i, j :: 0 <= i < j < |r| ==> key(r[i]) < key(r[j])
  {
    forall i, j | 0 <= i < j < |r| ensures key(r[i]) < key(r[j]) {
      if key(r[i]) == key(r[j]) {
        var k := key(r[i]);
        assert r == r[..j] + [r[j]] + r[j + 1..];
        KeyFilterAppend(r[..j] + [r[j]], r[j + 1..], key, k);
        KeyFilterAppend(r[..j], [r[j]], key, k);
        KeyFilterMembers(r[..j], key, k);
      }
    }
  }

  // ----- the pipeline -----

  function ToPoint(e: Entry): ChartPoint {
    ChartPoint(ChartMinutes(e.time), e.value)
  }

  /** `data.filter(d => d && typeof d.time === 'string')`. */
  function Valid(data: seq<Entry>): seq<Entry> {
    if |data| == 0 then []
    else Valid(data[..|data| - 1]) + (if data[|data| - 1].time.NotString? then [] else [data[|data| - 1]])
  }

  function Points(s: seq<Entry>): seq<ChartPoint> {
    seq(|s|, i requires 0 <= i < |s| => ToPoint(s[i]))
  }

  /** The mapped points in stable-sorted order, before de-duplication. */
  function Candidates(data: seq<Entry>): seq<ChartPoint> {
    Points(SortBy(Valid(data), SortKey))
  }

  /** The series handed to the chart; `None` when the input is empty and nothing is set. */
  function ChartData(data: seq<Entry>): Option<seq<ChartPoint>> {
    if |data| == 0 then None
    else Some(SortBy(Dedup(Candidates(data)), PointTime))
  }

  lemma {:induction false} ValidMembers(data: seq<Entry>)
    ensures forall e :: e in Valid(data) <==> e in data && !e.time.NotString?
  {
    if |data| > 0 {
      ValidMembers(data[..|data| - 1]);
      assert data == data[..|data| - 1] + [data[|data| - 1]];
    }
  }

  /** Empty input sets no series data; otherwise the series' times are strictly
      increasing, so no two points share a time. */
  lemma ChartTimesIncrease(data: seq<Entry>)
    ensures ChartData(data).None? <==> |data| == 0
    ensures ChartData(data).Some? ==>
              forall i, j :: 0 <= i < j < |ChartData(data).value| ==>
                ChartData(data).value[i].time < ChartData(data).value[j].time
  {
    if |data| > 0 {
      var d := Dedup(Candidates(data));
      var r := SortBy(d, PointTime);
      SortBySorted(d, PointTime);
      forall k ensures |KeyFilter(r, PointTime, k)| <= 1 {
        DedupDistinct(Candidates(data), |Candidates(data)|, k);
        SortByStable(d, PointTime, k);
      }
      StrictWhenDistinct(r, PointTime);
    }
  }

  /** Every charted point is the first candidate of its time in stable-sorted order. */
  lemma ChartPointsAreFirsts(data: seq<Entry>)
    requires |data| > 0
    ensures forall p :: p in ChartData(data).value ==>
              exists j :: 0 <= j < |Candidates(data)| && Candidates(data)[j] == p && FirstAt(Candidates(data), j)
  {
    var c := Candidates(data);
    var d := Dedup(c);
    DedupSound(c, |c|);
    SortBySorted(d, PointTime);
    forall p | p in SortBy(d, PointTime)
      ensures exists j :: 0 <= j < |c| && c[j] == p && FirstAt(c, j)
    {
      assert p in multiset(SortBy(d, PointTime));
      assert p in d;
    }
  }

  /** Every entry with a string time has its time charted. */
  lemma ChartTimesComplete(data: seq<Entry>)
    requires |data| > 0
    ensures forall e :: e in data && !e.time.NotString? ==>
              exists p :: p in ChartData(data).value && p.time == ChartMinutes(e.time)
  {
    var c := Candidates(data);
    var d := Dedup(c);
    var sorted := SortBy(Valid(data), SortKey);
    DedupComplete(c, |c|);
    SortBySorted(d, PointTime);
    ValidMembers(data);
    SortBySorted(Valid(data), SortKey);
    forall e | e in data && !e.time.NotString?
      ensures exists p :: p in ChartData(data).value && p.time == ChartMinutes(e.time)
    {
      assert e in multiset(sorted);
      var j :| 0 <= j < |sorted| && sorted[j] == e;
      assert c[j].time == ChartMinutes(e.time);
      var p :| p in d && p.time == c[j].time;
      assert p in multiset(SortBy(d, PointTime));
    }
  }

  /** Without empty time strings the sort key and the chart position agree, and the
      point kept for a time carries the value of the first input entry with that time. */
  lemma FirstInputEntryWins(data: seq<Entry>, k: int)
    requires forall e :: e in data ==> !e.time.EmptyString?
    requires KeyFilter(Valid(data), SortKey, k) != []
    ensures var first := KeyFilter(Valid(data), SortKey, k)[0];
            |data| > 0 && ToPoint(first) in ChartData(data).value
  {
    var v := Valid(data);
    var sorted := SortBy(v, SortKey);
    var c := Candidates(data);
    var first := KeyFilter(v, SortKey, k)[0];
    var j := FirstInSorted(v, SortKey, k);
    ValidMembers(data);
    KeyFilterMembers(v, SortKey, k);
    assert first in v;
    SortBySorted(v, SortKey);
    assert |c| == |sorted| && c[j] == ToPoint(first);
    forall i | 0 <= i < j ensures c[i].time != c[j].time {
      assert c[i] == ToPoint(sorted[i]);
      assert sorted[i] in multiset(sorted);
      assert sorted[i] in v;
    }
    DedupKeepsFirst(c, j);
    SortBySorted(Dedup(c), PointTime);
    assert ToPoint(first) in multiset(Dedup(c));
  }

  /** After a stable sort, the head of a key's filter is the first element with that key. */
  lemma FirstInSorted<T>(s: seq<T>, key: T -> int, k: int) returns (j: int)
    requires KeyFilter(s, key, k) != []
    ensures 0 <= j < |SortBy(s, key)| && SortBy(s, key)[j] == KeyFilter(s, key, k)[0]
    ensures forall i :: 0 <= i < j ==> key(SortBy(s, key)[i]) != k
  {
    SortByStable(s, key, k);
    FirstOfKey(SortBy(s, key), key, k);
    j :| 0 <= j < |SortBy(s, key)| && SortBy(s, key)[j] == KeyFilter(s, key, k)[0] &&
         forall i :: 0 <= i < j ==> key(SortBy(s, key)[i]) != k;
  }

  /** The head of a key's filter sits before every other element with that key. */
  lemma {:induction false} FirstOfKey<T>(s: seq<T>, key: T -> int, k: int)
    requires KeyFilter(s, key, k) != []
    ensures exists j :: 0 <= j < |s| && s[j] == KeyFilter(s, key, k)[0] &&
              forall i :: 0 <= i < j ==> key(s[i]) != k
  {
    var init, last := s[..|s| - 1], s[|s| - 1];
    var f := KeyFilter(init, key, k);
    if f != [] {
      FirstOfKey(init, key, k);
      var j :| 0 <= j < |init| && init[j] == f[0] && forall i :: 0 <= i < j ==> key(init[i]) != k;
      assert KeyFilter(s, key, k)[0] == f[0];
      forall i | 0 <= i < j ensures key(s[i]) != k {
        assert s[i] == init[i];
      }
      assert s[j] == init[j];
    } else {
      assert KeyFilter(s, key, k) == [last];
      KeyFilterMembers(init, key, k);
      forall i | 0 <= i < |s| - 1 ensures key(s[i]) != k {
        assert s[i] == init[i];
        assert s[i] in init;
      }
    }
  }

  /** A first occurrence survives de-duplication. */
  lemma {:induction false} DedupKeepsFirst(s: seq<ChartPoint>, j: int)
    requires 0 <= j < |s| && FirstAt(s, j)
    ensures s[j] in Dedup(s)
  {
    DedupPrefix(s, j + 1, |s|);
  }

  lemma {:induction false} DedupPrefix(s: seq<ChartPoint>, n: nat, m: nat)
    requires 0 < n <= m <= |s| && FirstAt(s, n - 1)
    ensures s[n - 1] in DedupUpTo(s, m)
    decreases m
  {
    if m > n {
      DedupPrefix(s, n, m - 1);
    }
  }

  /** An empty time string sorts as 00:00, ahead of a real 09:00 entry, and is then
      charted at 09:00, where it displaces that entry's value. */
  lemma EmptyTimeDisplacesNineOClock()
    ensures ChartData([Entry(Clock(9, 0), 2.0), Entry(EmptyString, 1.0)]) == Some([ChartPoint(540, 1.0)])
  {
    var nine := Entry(Clock(9, 0), 2.0);
    var empty := Entry(EmptyString, 1.0);
    var data := [nine, empty];
    assert data[..1] == [nine];
    assert [nine][..0] == [];
    assert Valid([nine]) == [nine];
    assert Valid(data) == data;
    assert SortBy([nine], SortKey) == [nine];
    assert Insert([nine], empty, SortKey) == Insert([], empty, SortKey) + [nine];
    assert SortBy(data, SortKey) == [empty, nine];
    var c := [ChartPoint(540, 1.0), ChartPoint(540, 2.0)];
    assert Candidates(data) == c;
    assert c[0].time == c[1].time;
    assert !FirstAt(c, 1);
    assert DedupUpTo(c, 1) == [ChartPoint(540, 1.0)];
    assert Dedup(c) == [ChartPoint(540, 1.0)];
    assert [ChartPoint(540, 1.0)][..0] == [];
    assert SortBy([ChartPoint(540, 1.0)], PointTime) == [ChartPoint(540, 1.0)];
  }
}
