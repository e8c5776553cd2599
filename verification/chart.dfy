/**
 * The stats chart's series (`formatChartData`) and its y-axis domain.
 *
 * The source builds each series from the records sorted oldest first:
 * daily shows the last seven records as they are; weekly and monthly fold the
 * records into a JavaScript object keyed by week start or by `YYYY-MM`, whose
 * entries come back in key-insertion order, average each entry, round it to
 * one decimal and keep the last four (weekly) or six (monthly) entries.
 */
module Chart {
  import opened Optional
  import opened Numbers
  import opened Dates
  import opened Records

  datatype Period = Daily | Weekly | Monthly

  /**
   * A bar. `key` stands for the row's `date` text: the record's day count
   * (daily), the day count of the Sunday starting the week (weekly), or the
   * month index `year * 12 + month - 1` (monthly). Display labels are not modelled.
   */
  datatype ChartPoint = ChartPoint(key: int, weight: real)

  /** One entry of the grouping object: `{ total, count }` under `key`. */
  datatype Bucket = Bucket(key: int, total: real, count: nat)

  /** How many bars a period keeps: `slice(-7)`, `slice(-4)`, `slice(-6)`. */
  function Limit(p: Period): nat
  {
    match p
    case Daily => 7
    case Weekly => 4
    case Monthly => 6
  }

  /** The key a record's date is grouped under for a period. */
  function GroupKey(p: Period, d: Date): int
  {
    match p
    case Daily => DayNumber(d)
    case Weekly => WeekStart(DayNumber(d))
    case Monthly => MonthIndex(d)
  }

  /** The grouping key as a function of the record. */
  function KeyOf(p: Period): WeightRecord -> int
  {
    (r: WeightRecord) => GroupKey(p, r.date)
  }

  /** A later date never gets an earlier group key. */
  lemma GroupKeyMonotone(p: Period, a: Date, b: Date)
    requires DayNumber(a) <= DayNumber(b)
    ensures GroupKey(p, a) <= GroupKey(p, b)
  {
    match p
    case Daily =>
    case Weekly => WeekStartMonotone(DayNumber(a), DayNumber(b));
    case Monthly => MonthIndexMonotone(a, b);
  }

  /** Position of the entry with key `k`, or `|bs|` when there is none (`!data[key]`). */
  function FindBucket(bs: seq<Bucket>, k: int): (i: nat)
    ensures i <= |bs|
    ensures i < |bs| ==> bs[i].key == k
    ensures forall j :: 0 <= j < i ==> bs[j].key != k
  {
    if |bs| == 0 then 0
    else if bs[0].key == k then 0
    else 1 + FindBucket(bs[1..], k)
  }

  /** Counts one sample into the entry for `k`, creating the entry at the end when it is new. */
  function AddSample(bs: seq<Bucket>, k: int, w: real): seq<Bucket>
  {
    var i := FindBucket(bs, k);
    if i == |bs| then bs + [Bucket(k, 0.0 + w, 1)]
    else bs[i := Bucket(k, bs[i].total + w, bs[i].count + 1)]
  }

  /** `sortedData.forEach(...)` into the grouping object, entries in insertion order. */
  function Group(s: seq<WeightRecord>, key: WeightRecord -> int): seq<Bucket>
  {
    if |s| == 0 then []
    else AddSample(Group(s[..|s| - 1], key), key(s[|s| - 1]), s[|s| - 1].weight)
  }

  /** The weights of the records of `s` grouped under `k`, in list order. */
  function Members(s: seq<WeightRecord>, key: WeightRecord -> int, k: int): seq<real>
  {
    if |s| == 0 then []
    else Members(s[..|s| - 1], key, k) + (if key(s[|s| - 1]) == k then [s[|s| - 1].weight] else [])
  }

  /** Total of the `count` fields. */
  function CountSum(bs: seq<Bucket>): nat
  {
    if |bs| == 0 then 0 else CountSum(bs[..|bs| - 1]) + bs[|bs| - 1].count
  }

  /** `s.slice(-n)`: the last `n` elements, or all of them when there are fewer. */
  function LastN<T>(s: seq<T>, n: nat): (r: seq<T>)
    ensures |r| == if |s| <= n then |s| else n
    ensures r == s[|s| - |r|..]
  {
    if |s| <= n then s else s[|s| - n..]
  }

  /** `Math.round((total / count) * 10) / 10` under the entry's key. */
  function BucketPoint(b: Bucket): ChartPoint
    requires b.count > 0
  {
    ChartPoint(b.key, Round1(b.total / b.count as real))
  }

  /** No entry is empty, so each can be averaged. */
  predicate Counted(bs: seq<Bucket>)
  {
    forall i :: 0 <= i < |bs| ==> bs[i].count > 0
  }

  function BucketPoints(bs: seq<Bucket>): (r: seq<ChartPoint>)
    requires Counted(bs)
    ensures |r| == |bs|
    ensures forall i :: 0 <= i < |bs| ==> r[i] == BucketPoint(bs[i])
  {
    seq(|bs|, i requires 0 <= i < |bs| => BucketPoint(bs[i]))
  }

  /** A daily bar: the record's own day and weight. */
  function RecordPoints(s: seq<WeightRecord>): (r: seq<ChartPoint>)
    ensures |r| == |s|
    ensures forall i :: 0 <= i < |s| ==> r[i] == ChartPoint(DayNumber(s[i].date), s[i].weight)
  {
    seq(|s|, i requires 0 <= i < |s| => ChartPoint(DayNumber(s[i].date), s[i].weight))
  }

  /**
   * Weekly or monthly bars from the records sorted oldest first: group,
   * keep the last `Limit(p)` entries, average and round each.
   */
  function BucketBars(sorted: seq<WeightRecord>, p: Period): (r: seq<ChartPoint>)
    ensures |r| <= Limit(p)
    ensures |r| == 0 <==> |sorted| == 0
  {
    var bs := Group(sorted, KeyOf(p));
    GroupCounted(sorted, KeyOf(p));
    GroupEmpty(sorted, KeyOf(p));
    CountedLastN(bs, Limit(p));
    BucketPoints(LastN(bs, Limit(p)))
  }

  /** Grouping yields no entry exactly when there is no record. */
  lemma GroupEmpty(s: seq<WeightRecord>, key: WeightRecord -> int)
    ensures |Group(s, key)| == 0 <==> |s| == 0
  {
    if |s| > 0 {
      var prev := Group(s[..|s| - 1], key);
      var i := FindBucket(prev, key(s[|s| - 1]));
      assert i < |prev| || |AddSample(prev, key(s[|s| - 1]), s[|s| - 1].weight)| == |prev| + 1;
    }
  }

  /** Keeping the last entries keeps them all non-empty. */
  lemma CountedLastN(bs: seq<Bucket>, n: nat)
    requires Counted(bs)
    ensures Counted(LastN(bs, n))
  {
    var kept := LastN(bs, n);
    forall i | 0 <= i < |kept| ensures kept[i].count > 0 {
      assert kept[i] == bs[|bs| - |kept| + i];
    }
  }

  /** `formatChartData()`. */
  function FormatChartData(data: seq<WeightRecord>, p: Period): (r: seq<ChartPoint>)
    ensures |r| == 0 <==> |data| == 0
    ensures |r| <= Limit(p)
  {
    if |data| == 0 then []
    else
      var sorted := SortByDate(data, false);
      if p == Daily then RecordPoints(LastN(sorted, 7)) else BucketBars(sorted, p)
  }

  // ---------------------------------------------------------------------------
  // Grouping: every record is counted once, under its own key, and entries
  // hold exactly the records sharing their key.
  // ---------------------------------------------------------------------------

  lemma {:induction false} MembersAppend(a: seq<WeightRecord>, b: seq<WeightRecord>, key: WeightRecord -> int, k: int)
    ensures Members(a + b, key, k) == Members(a, key, k) + Members(b, key, k)
    decreases |b|
  {
    if |b| == 0 {
      assert a + b == a;
    } else {
      var b' := b[..|b| - 1];
      assert (a + b)[..|a + b| - 1] == a + b';
      MembersAppend(a, b', key, k);
    }
  }

  /** A key with members is the key of some record. */
  lemma {:induction false} MembersWitness(s: seq<WeightRecord>, key: WeightRecord -> int, k: int)
    requires |Members(s, key, k)| > 0
    ensures exists x :: 0 <= x < |s| && key(s[x]) == k
  {
    var init := s[..|s| - 1];
    if key(s[|s| - 1]) != k {
      MembersWitness(init, key, k);
      var x :| 0 <= x < |init| && key(init[x]) == k;
      assert s[x] == init[x];
    }
  }

  /** No two entries share a key. */
  predicate DistinctKeys(bs: seq<Bucket>)
  {
    forall i, j :: 0 <= i < j < |bs| ==> bs[i].key != bs[j].key
  }

  /** The grouping object never holds two entries under one key. */
  lemma {:induction false} GroupKeysDistinct(s: seq<WeightRecord>, key: WeightRecord -> int)
    ensures DistinctKeys(Group(s, key))
  {
    if |s| > 0 {
      var init := s[..|s| - 1];
      GroupKeysDistinct(init, key);
      var prev, bs := Group(init, key), Group(s, key);
      assert DistinctKeys(prev);
      var k := key(s[|s| - 1]);
      var i := FindBucket(prev, k);
      if i == |prev| {
        assert bs == prev + [Bucket(k, 0.0 + s[|s| - 1].weight, 1)];
        forall a, b | 0 <= a < b < |bs|
          ensures bs[a].key != bs[b].key
        {
          assert bs[a] == prev[a];
          if b == |prev| {
            assert bs[b].key == k;
            assert prev[a].key != k;
          } else {
            assert bs[b] == prev[b];
            assert prev[a].key != prev[b].key;
          }
        }
      } else {
        assert bs == prev[i := Bucket(k, prev[i].total + s[|s| - 1].weight, prev[i].count + 1)];
        forall a, b | 0 <= a < b < |bs|
          ensures bs[a].key != bs[b].key
        {
          assert bs[a].key == prev[a].key && bs[b].key == prev[b].key;
          assert prev[a].key != prev[b].key;
        }
      }
    }
  }

  /** Every record's key has an entry. */
  lemma {:induction false} GroupCoversRecords(s: seq<WeightRecord>, key: WeightRecord -> int)
    ensures var bs := Group(s, key);
      forall x :: 0 <= x < |s| ==> FindBucket(bs, key(s[x])) < |bs|
  {
    if |s| > 0 {
      var init := s[..|s| - 1];
      GroupCoversRecords(init, key);
      var prev, bs := Group(init, key), Group(s, key);
      var k := key(s[|s| - 1]);
      var i := FindBucket(prev, k);
      assert |prev| <= |bs|;
      assert forall j :: 0 <= j < |prev| ==> bs[j].key == prev[j].key;
      forall x | 0 <= x < |s|
        ensures FindBucket(bs, key(s[x])) < |bs|
      {
        var kx := key(s[x]);
        if x < |init| {
          assert s[x] == init[x];
          var j := FindBucket(prev, kx);
          assert bs[j].key == kx;
        } else if i == |prev| {
          assert bs[|prev|].key == k;
        } else {
          assert bs[i].key == k;
        }
      }
    }
  }

  /** Each entry counts and sums exactly the records of `s` sharing its key, and none is empty. */
  predicate Tallies(bs: seq<Bucket>, s: seq<WeightRecord>, key: WeightRecord -> int)
  {
    forall i :: 0 <= i < |bs| ==>
      && bs[i].count == |Members(s, key, bs[i].key)|
      && bs[i].count > 0
      && bs[i].total == Sum(Members(s, key, bs[i].key))
  }

  /** Each entry's count and total are those of exactly the records sharing its key. */
  lemma {:induction false} GroupTotals(s: seq<WeightRecord>, key: WeightRecord -> int)
    ensures Tallies(Group(s, key), s, key)
  {
    if |s| > 0 {
      var init, last := s[..|s| - 1], s[|s| - 1];
      assert s == init + [last];
      var k := key(last);
      GroupTotals(init, key);
      GroupKeysDistinct(init, key);
      var prev := Group(init, key);
      var i := FindBucket(prev, k);
      if i == |prev| {
        if |Members(init, key, k)| > 0 {
          MembersWitness(init, key, k);
          var x :| 0 <= x < |init| && key(init[x]) == k;
          GroupCoversRecords(init, key);
          assert false;
        }
        TallyNew(prev, init, last, key);
      } else {
        TallyExisting(prev, init, last, key, i);
      }
    }
  }

  /** The weights under `k` after one more record: the earlier ones, then the new one if it has key `k`. */
  lemma MembersSnoc(init: seq<WeightRecord>, last: WeightRecord, key: WeightRecord -> int, k: int)
    ensures Members(init + [last], key, k) == Members(init, key, k) + (if key(last) == k then [last.weight] else [])
  {
    assert (init + [last])[..|init|] == init;
  }

  /** A record with a new key opens a new entry holding just its weight; the other entries still tally. */
  lemma TallyNew(prev: seq<Bucket>, init: seq<WeightRecord>, last: WeightRecord, key: WeightRecord -> int)
    requires Tallies(prev, init, key)
    requires FindBucket(prev, key(last)) == |prev| && |Members(init, key, key(last))| == 0
    ensures Tallies(prev + [Bucket(key(last), 0.0 + last.weight, 1)], init + [last], key)
  {
    var k, w := key(last), last.weight;
    var bs := prev + [Bucket(k, 0.0 + w, 1)];
    forall j | 0 <= j < |bs|
      ensures bs[j].count == |Members(init + [last], key, bs[j].key)| && bs[j].count > 0
      ensures bs[j].total == Sum(Members(init + [last], key, bs[j].key))
    {
      MembersSnoc(init, last, key, bs[j].key);
      if j < |prev| {
        assert bs[j] == prev[j] && bs[j].key != k;
        assert Members(init + [last], key, bs[j].key) == Members(init, key, bs[j].key);
      } else {
        assert Members(init, key, k) == [];
        assert Members(init + [last], key, k) == [w];
        assert Sum([w]) == Sum([]) + w;
      }
    }
  }

  /** A record with a known key adds its weight to that entry; the other entries still tally. */
  lemma TallyExisting(prev: seq<Bucket>, init: seq<WeightRecord>, last: WeightRecord, key: WeightRecord -> int, i: nat)
    requires Tallies(prev, init, key) && DistinctKeys(prev)
    requires i < |prev| && prev[i].key == key(last)
    ensures Tallies(prev[i := Bucket(key(last), prev[i].total + last.weight, prev[i].count + 1)], init + [last], key)
  {
    var k, w := key(last), last.weight;
    var bs := prev[i := Bucket(k, prev[i].total + w, prev[i].count + 1)];
    forall j | 0 <= j < |bs|
      ensures bs[j].count == |Members(init + [last], key, bs[j].key)| && bs[j].count > 0
      ensures bs[j].total == Sum(Members(init + [last], key, bs[j].key))
    {
      MembersSnoc(init, last, key, bs[j].key);
      if j != i {
        assert bs[j] == prev[j] && bs[j].key != k;
        assert Members(init + [last], key, bs[j].key) == Members(init, key, bs[j].key);
      } else {
        var m := Members(init, key, k);
        assert Members(init + [last], key, k) == m + [w];
        SumAppend(m, [w]);
        assert Sum([w]) == Sum([]) + w;
      }
    }
  }

  lemma GroupCounted(s: seq<WeightRecord>, key: WeightRecord -> int)
    ensures Counted(Group(s, key))
  {
    GroupTotals(s, key);
    assert Tallies(Group(s, key), s, key);
  }

  lemma {:induction false} CountSumUpdate(bs: seq<Bucket>, i: nat, b: Bucket)
    requires i < |bs|
    ensures CountSum(bs[i := b]) == CountSum(bs) - bs[i].count + b.count
  {
    if i < |bs| - 1 {
      CountSumUpdate(bs[..|bs| - 1], i, b);
      assert bs[i := b][..|bs| - 1] == bs[..|bs| - 1][i := b];
    } else {
      assert bs[i := b][..|bs| - 1] == bs[..|bs| - 1];
    }
  }

  /** Before truncation the counts add up to the number of records: each record is counted exactly once. */
  lemma {:induction false} GroupCountsEveryRecord(s: seq<WeightRecord>, key: WeightRecord -> int)
    ensures CountSum(Group(s, key)) == |s|
  {
    if |s| > 0 {
      var init := s[..|s| - 1];
      GroupCountsEveryRecord(init, key);
      var prev := Group(init, key);
      var k := key(s[|s| - 1]);
      var i := FindBucket(prev, k);
      if i == |prev| {
        assert (prev + [Bucket(k, 0.0 + s[|s| - 1].weight, 1)])[..|prev|] == prev;
      } else {
        CountSumUpdate(prev, i, Bucket(k, prev[i].total + s[|s| - 1].weight, prev[i].count + 1));
      }
    }
  }

  /**
   * Records in date order give entries in strictly ascending key order, and
   * the newest record's key is the last entry.
   */
  lemma {:induction false} GroupAscending(s: seq<WeightRecord>, key: WeightRecord -> int)
    requires forall i, j :: 0 <= i < j < |s| ==> key(s[i]) <= key(s[j])
    ensures var bs := Group(s, key);
      && (forall i, j :: 0 <= i < j < |bs| ==> bs[i].key < bs[j].key)
      && (|s| > 0 ==> |bs| > 0 && bs[|bs| - 1].key == key(s[|s| - 1]))
  {
    if |s| > 0 {
      var init := s[..|s| - 1];
      var k := key(s[|s| - 1]);
      assert forall i, j :: 0 <= i < j < |init| ==> key(init[i]) <= key(init[j]) by {
        assert forall i :: 0 <= i < |init| ==> init[i] == s[i];
      }
      GroupAscending(init, key);
      var prev := Group(init, key);
      var bs := Group(s, key);
      var i := FindBucket(prev, k);
      if |init| == 0 {
        assert bs == [Bucket(k, 0.0 + s[0].weight, 1)];
      } else {
        var top := prev[|prev| - 1].key;
        assert top == key(init[|init| - 1]);
        assert init[|init| - 1] == s[|s| - 2];
        assert top <= k;
        if top == k {
          assert i == |prev| - 1;
          assert bs == prev[i := Bucket(k, prev[i].total + s[|s| - 1].weight, prev[i].count + 1)];
          assert forall j :: 0 <= j < |bs| ==> bs[j].key == prev[j].key;
        } else {
          assert forall j :: 0 <= j < |prev| ==> prev[j].key <= top;
          assert i == |prev|;
          assert bs == prev + [Bucket(k, 0.0 + s[|s| - 1].weight, 1)];
        }
      }
    }
  }

  /** Taking one record out of a list takes out exactly its own contribution. */
  lemma MembersRemoveOne(t: seq<WeightRecord>, i: nat, key: WeightRecord -> int, k: int)
    requires i < |t|
    ensures var rest := t[..i] + t[i + 1..];
            var mx := Members([t[i]], key, k);
      && |Members(t, key, k)| == |Members(rest, key, k)| + |mx|
      && Sum(Members(t, key, k)) == Sum(Members(rest, key, k)) + Sum(mx)
  {
    var before, x, after := t[..i], t[i], t[i + 1..];
    assert t == before + [x] + after;
    MembersAppend(before + [x], after, key, k);
    MembersAppend(before, [x], key, k);
    MembersAppend(before, after, key, k);
    var mb, mx, ma := Members(before, key, k), Members([x], key, k), Members(after, key, k);
    SumAppend(mb + mx, ma);
    SumAppend(mb, mx);
    SumAppend(mb, ma);
  }

  /** A position of `x` in `t`, known to be there because it is in a multiset equal to `t`'s. */
  ghost function IndexIn(t: seq<WeightRecord>, x: WeightRecord, m: multiset<WeightRecord>): (i: nat)
    requires m == multiset(t) && x in m
    ensures i < |t| && t[i] == x
  {
    assert x in t;
    var i :| 0 <= i < |t| && t[i] == x;
    i
  }

  /** Removing one element from each of two lists with equal contents leaves equal contents. */
  lemma MultisetRemove(s: seq<WeightRecord>, t: seq<WeightRecord>, i: nat)
    requires multiset(s) == multiset(t)
    requires |s| > 0 && i < |t| && t[i] == s[|s| - 1]
    ensures multiset(s[..|s| - 1]) == multiset(t[..i] + t[i + 1..])
  {
    var x := s[|s| - 1];
    assert s == s[..|s| - 1] + [x];
    assert t == t[..i] + [x] + t[i + 1..];
    calc {
      multiset(t[..i] + t[i + 1..]);
      multiset(t) - multiset{x};
      multiset(s) - multiset{x};
      multiset(s[..|s| - 1]);
    }
  }

  /** The records sharing a key are unchanged, in number and in total weight, by reordering the list. */
  lemma {:induction false} MembersPermutation(s: seq<WeightRecord>, t: seq<WeightRecord>, key: WeightRecord -> int, k: int)
    requires multiset(s) == multiset(t)
    ensures |Members(s, key, k)| == |Members(t, key, k)|
    ensures Sum(Members(s, key, k)) == Sum(Members(t, key, k))
    decreases |s|
  {
    if |s| == 0 {
      assert |t| == |multiset(t)| == 0;
    } else {
      var init, x := s[..|s| - 1], s[|s| - 1];
      assert s == init + [x];
      var i := IndexIn(t, x, multiset(s));
      var t' := t[..i] + t[i + 1..];
      MultisetRemove(s, t, i);
      MembersPermutation(init, t', key, k);
      MembersRemoveOne(t, i, key, k);
      MembersAppend(init, [x], key, k);
      SumAppend(Members(init, key, k), Members([x], key, k));
    }
  }

  /** Every record of a list is no newer than the last element of its oldest-first sort. */
  lemma SortedLastIsNewest(data: seq<WeightRecord>, sorted: seq<WeightRecord>)
    requires multiset(data) == multiset(sorted) && |sorted| > 0
    requires SortedByDate(sorted, false)
    ensures forall x :: 0 <= x < |data| ==> DayNumber(data[x].date) <= DayNumber(sorted[|sorted| - 1].date)
  {
    forall x | 0 <= x < |data|
      ensures DayNumber(data[x].date) <= DayNumber(sorted[|sorted| - 1].date)
    {
      assert data[x] in multiset(data);
      var y := IndexIn(sorted, data[x], multiset(data));
      assert Rank(sorted[y], false) <= Rank(sorted[|sorted| - 1], false);
    }
  }

  // ---------------------------------------------------------------------------
  // The series as shown.
  // ---------------------------------------------------------------------------

  /** The last seven of an oldest-first list, as bars, keep their order. */
  lemma DailyPointsAscending(sorted: seq<WeightRecord>)
    requires SortedByDate(sorted, false)
    ensures var r := RecordPoints(LastN(sorted, 7));
      forall i, j :: 0 <= i < j < |r| ==> r[i].key <= r[j].key
  {
    var kept := LastN(sorted, 7);
    var off := |sorted| - |kept|;
    forall i, j | 0 <= i < j < |kept|
      ensures DayNumber(kept[i].date) <= DayNumber(kept[j].date)
    {
      assert kept[i] == sorted[off + i] && kept[j] == sorted[off + j];
      assert Rank(sorted[off + i], false) <= Rank(sorted[off + j], false);
    }
  }

  /** The newest daily bar is the newest record's day. */
  lemma DailyLastIsNewest(data: seq<WeightRecord>, sorted: seq<WeightRecord>)
    requires multiset(data) == multiset(sorted) && |data| == |sorted|
    requires SortedByDate(sorted, false)
    ensures var r := RecordPoints(LastN(sorted, 7));
      forall x :: 0 <= x < |data| ==> DayNumber(data[x].date) <= r[|r| - 1].key
  {
    if |data| > 0 {
      var r := RecordPoints(LastN(sorted, 7));
      assert r[|r| - 1].key == DayNumber(sorted[|sorted| - 1].date);
      SortedLastIsNewest(data, sorted);
    }
  }

  /** The bars of `RecordPoints(LastN(sorted, 7))` are the last records of `sorted`, in place. */
  lemma DailyShape(data: seq<WeightRecord>, sorted: seq<WeightRecord>)
    requires |data| == |sorted|
    ensures var r := RecordPoints(LastN(sorted, 7));
      && |r| == (if |data| <= 7 then |data| else 7)
      && (forall i :: 0 <= i < |r| ==>
            r[i] == ChartPoint(DayNumber(sorted[|data| - |r| + i].date), sorted[|data| - |r| + i].weight))
  {
    var kept := LastN(sorted, 7);
    var r := RecordPoints(kept);
    var off := |sorted| - |kept|;
    forall i | 0 <= i < |r|
      ensures r[i] == ChartPoint(DayNumber(sorted[off + i].date), sorted[off + i].weight)
    {
      assert kept[i] == sorted[off + i];
    }
  }

  lemma FormatDaily(data: seq<WeightRecord>)
    ensures FormatChartData(data, Daily) == RecordPoints(LastN(SortByDate(data, false), 7))
  {
  }

  /** Daily bars are the last seven records, oldest first, with their weights unchanged. */
  lemma DailySeries(data: seq<WeightRecord>)
    ensures var r := FormatChartData(data, Daily);
            var sorted := SortByDate(data, false);
      && |r| == (if |data| <= 7 then |data| else 7)
      && (forall i :: 0 <= i < |r| ==>
            r[i] == ChartPoint(DayNumber(sorted[|data| - |r| + i].date), sorted[|data| - |r| + i].weight))
  {
    var sorted := SortByDate(data, false);
    FormatDaily(data);
    DailyShape(data, sorted);
    assert FormatChartData(data, Daily) == RecordPoints(LastN(sorted, 7));
  }

  /** Daily bars run oldest to newest and end at the newest record's day. */
  lemma DailyOrder(data: seq<WeightRecord>)
    ensures var r := FormatChartData(data, Daily);
      && (forall i, j :: 0 <= i < j < |r| ==> r[i].key <= r[j].key)
      && (forall x :: 0 <= x < |data| ==> DayNumber(data[x].date) <= r[|r| - 1].key)
  {
    var sorted := SortByDate(data, false);
    FormatDaily(data);
    DailyPointsAscending(sorted);
    DailyLastIsNewest(data, sorted);
  }

  /** Sorting by date puts the group keys in order too. */
  lemma SortedKeysAscending(sorted: seq<WeightRecord>, p: Period)
    requires SortedByDate(sorted, false)
    ensures forall i, j :: 0 <= i < j < |sorted| ==> KeyOf(p)(sorted[i]) <= KeyOf(p)(sorted[j])
  {
    forall i, j | 0 <= i < j < |sorted|
      ensures KeyOf(p)(sorted[i]) <= KeyOf(p)(sorted[j])
    {
      assert Rank(sorted[i], false) <= Rank(sorted[j], false);
      GroupKeyMonotone(p, sorted[i].date, sorted[j].date);
    }
  }

  /** Grouping a reordering of the records counts and sums the same records under each key. */
  lemma GroupMembersOfData(data: seq<WeightRecord>, sorted: seq<WeightRecord>, key: WeightRecord -> int)
    requires multiset(data) == multiset(sorted)
    ensures Tallies(Group(sorted, key), data, key)
  {
    var bs := Group(sorted, key);
    GroupTotals(sorted, key);
    assert Tallies(bs, sorted, key);
    forall i | 0 <= i < |bs|
      ensures bs[i].count == |Members(data, key, bs[i].key)|
      ensures bs[i].total == Sum(Members(data, key, bs[i].key))
    {
      MembersPermutation(sorted, data, key, bs[i].key);
    }
  }

  /** Every input record's key has an entry, and no entry's key is newer than the last. */
  lemma GroupCoversData(data: seq<WeightRecord>, sorted: seq<WeightRecord>, key: WeightRecord -> int)
    requires multiset(data) == multiset(sorted)
    requires forall i, j :: 0 <= i < j < |sorted| ==> key(sorted[i]) <= key(sorted[j])
    ensures var bs := Group(sorted, key);
      && (forall x :: 0 <= x < |data| ==> FindBucket(bs, key(data[x])) < |bs|)
      && (forall x :: 0 <= x < |data| ==> key(data[x]) <= bs[|bs| - 1].key)
  {
    var bs := Group(sorted, key);
    GroupCoversRecords(sorted, key);
    GroupAscending(sorted, key);
    forall x | 0 <= x < |data|
      ensures FindBucket(bs, key(data[x])) < |bs|
      ensures key(data[x]) <= bs[|bs| - 1].key
    {
      assert data[x] in multiset(data);
      var y := IndexIn(sorted, data[x], multiset(data));
      var j := FindBucket(bs, key(sorted[y]));
      if j < |bs| - 1 {
        assert bs[j].key < bs[|bs| - 1].key;
      }
    }
  }

  /** Entries in strictly ascending key order. */
  predicate Ascending(bs: seq<Bucket>)
  {
    forall i, j :: 0 <= i < j < |bs| ==> bs[i].key < bs[j].key
  }

  lemma FormatBuckets(data: seq<WeightRecord>, p: Period)
    requires p != Daily
    ensures FormatChartData(data, p) == BucketBars(SortByDate(data, false), p)
  {
  }

  /**
   * Bars in strictly ascending key order, each the rounded mean of exactly
   * the records of `data` sharing its key.
   */
  predicate MeanBars(data: seq<WeightRecord>, key: WeightRecord -> int, r: seq<ChartPoint>)
  {
    && (forall i, j :: 0 <= i < j < |r| ==> r[i].key < r[j].key)
    && (forall i :: 0 <= i < |r| ==>
          |Members(data, key, r[i].key)| > 0 &&
          r[i].weight == Round1(Sum(Members(data, key, r[i].key)) / |Members(data, key, r[i].key)| as real))
  }

  /**
   * Every record either has a bar with its key, or is older than the first
   * bar while all `n` places are taken.
   */
  predicate CoveredOrOlder(data: seq<WeightRecord>, key: WeightRecord -> int, r: seq<ChartPoint>, n: nat)
  {
    forall x :: 0 <= x < |data| ==>
      |r| > 0 && ((exists i :: 0 <= i < |r| && r[i].key == key(data[x])) || (key(data[x]) < r[0].key && |r| == n))
  }

  /** No record has a key after the last bar. */
  predicate NewestKept(data: seq<WeightRecord>, key: WeightRecord -> int, r: seq<ChartPoint>)
  {
    forall x :: 0 <= x < |data| ==> |r| > 0 && key(data[x]) <= r[|r| - 1].key
  }

  /** The bars kept from tallied entries: in key order, each the rounded mean of its records. */
  lemma KeptBarsMeans(bs: seq<Bucket>, n: nat, data: seq<WeightRecord>, key: WeightRecord -> int)
    requires Counted(bs) && Tallies(bs, data, key) && Ascending(bs)
    ensures MeanBars(data, key, BucketPoints(LastN(bs, n)))
  {
    KeptTallied(bs, n, data, key);
    PointsMeans(LastN(bs, n), data, key);
  }

  /** Keeping a suffix of the entries keeps them tallied and ascending. */
  lemma KeptTallied(bs: seq<Bucket>, n: nat, data: seq<WeightRecord>, key: WeightRecord -> int)
    requires Counted(bs) && Tallies(bs, data, key) && Ascending(bs)
    ensures Counted(LastN(bs, n)) && Tallies(LastN(bs, n), data, key) && Ascending(LastN(bs, n))
  {
    var kept := LastN(bs, n);
    var off := |bs| - |kept|;
    assert forall i :: 0 <= i < |kept| ==> kept[i] == bs[off + i];
  }

  /** The bars of tallied, ascending entries are the rounded means of their records. */
  lemma PointsMeans(bs: seq<Bucket>, data: seq<WeightRecord>, key: WeightRecord -> int)
    requires Counted(bs) && Tallies(bs, data, key) && Ascending(bs)
    ensures MeanBars(data, key, BucketPoints(bs))
  {
    var r := BucketPoints(bs);
    forall i | 0 <= i < |r|
      ensures |Members(data, key, r[i].key)| > 0
      ensures r[i].weight == Round1(Sum(Members(data, key, r[i].key)) / |Members(data, key, r[i].key)| as real)
    {
      BarIsMean(bs[i], data, key);
    }
  }

  /** A tallied entry's bar is the rounded mean of its records. */
  lemma BarIsMean(b: Bucket, data: seq<WeightRecord>, key: WeightRecord -> int)
    requires b.count == |Members(data, key, b.key)| && b.count > 0
    requires b.total == Sum(Members(data, key, b.key))
    ensures BucketPoint(b).weight == Round1(Sum(Members(data, key, b.key)) / |Members(data, key, b.key)| as real)
  {
  }

  /** A record whose entry was cut off is older than every bar kept. */
  lemma KeptOrOlder(bs: seq<Bucket>, n: nat, data: seq<WeightRecord>, key: WeightRecord -> int)
    requires Counted(bs) && Ascending(bs) && n > 0 && |bs| > 0
    requires forall x :: 0 <= x < |data| ==> FindBucket(bs, key(data[x])) < |bs|
    ensures CoveredOrOlder(data, key, BucketPoints(LastN(bs, n)), n)
  {
    var kept := LastN(bs, n);
    var off := |bs| - |kept|;
    var r := BucketPoints(kept);
    forall x | 0 <= x < |data|
      ensures (exists i :: 0 <= i < |r| && r[i].key == key(data[x])) || (key(data[x]) < r[0].key && |r| == n)
    {
      var j := FindBucket(bs, key(data[x]));
      if j >= off {
        assert r[j - off].key == bs[j].key;
      } else {
        assert r[0].key == bs[off].key;
        assert bs[j].key < bs[off].key;
      }
    }
  }

  /** The newest entry always keeps its bar. */
  lemma KeptNewest(bs: seq<Bucket>, n: nat, data: seq<WeightRecord>, key: WeightRecord -> int)
    requires Counted(bs) && n > 0 && |bs| > 0
    requires forall x :: 0 <= x < |data| ==> key(data[x]) <= bs[|bs| - 1].key
    ensures NewestKept(data, key, BucketPoints(LastN(bs, n)))
  {
    var r := BucketPoints(LastN(bs, n));
    assert r[|r| - 1].key == bs[|bs| - 1].key;
  }

  /** For the non-daily periods, the series is the kept bars of the date-sorted records. */
  lemma BarsEquation(data: seq<WeightRecord>, p: Period)
    requires p != Daily
    ensures Counted(Group(SortByDate(data, false), KeyOf(p)))
    ensures FormatChartData(data, p) == BucketPoints(LastN(Group(SortByDate(data, false), KeyOf(p)), Limit(p)))
  {
    var sorted := SortByDate(data, false);
    GroupCounted(sorted, KeyOf(p));
    FormatBuckets(data, p);
    assert BucketBars(sorted, p) == BucketPoints(LastN(Group(sorted, KeyOf(p)), Limit(p)));
  }

  /**
   * Weekly and monthly bars: keys strictly ascending, and each bar averages,
   * then rounds, exactly the input records sharing its key.
   */
  lemma BucketSeries(data: seq<WeightRecord>, p: Period)
    requires p != Daily
    ensures MeanBars(data, KeyOf(p), FormatChartData(data, p))
  {
    var sorted := SortByDate(data, false);
    SortedKeysAscending(sorted, p);
    SortedBars(data, sorted, KeyOf(p), Limit(p));
    BarsEquation(data, p);
  }

  /** The kept bars of key-sorted records are the rounded means of the records with their keys. */
  lemma SortedBars(data: seq<WeightRecord>, sorted: seq<WeightRecord>, key: WeightRecord -> int, n: nat)
    requires multiset(data) == multiset(sorted)
    requires forall i, j :: 0 <= i < j < |sorted| ==> key(sorted[i]) <= key(sorted[j])
    ensures Counted(Group(sorted, key))
    ensures MeanBars(data, key, BucketPoints(LastN(Group(sorted, key), n)))
  {
    var bs := Group(sorted, key);
    GroupCounted(sorted, key);
    GroupAscending(sorted, key);
    GroupMembersOfData(data, sorted, key);
    assert Ascending(bs);
    KeptBarsMeans(bs, n, data, key);
  }

  /**
   * Truncation drops only the oldest keys, and only once all four weekly or
   * six monthly places are taken: a record without a bar is older than every
   * bar kept.
   */
  lemma BucketCoverage(data: seq<WeightRecord>, p: Period)
    requires p != Daily
    ensures CoveredOrOlder(data, KeyOf(p), FormatChartData(data, p), Limit(p))
  {
    if |data| > 0 {
      var sorted := SortByDate(data, false);
      SortedKeysAscending(sorted, p);
      SortedCoverage(data, sorted, KeyOf(p), Limit(p));
      BarsEquation(data, p);
    }
  }

  /** For key-sorted records: every record has a kept bar or is older than the first one. */
  lemma SortedCoverage(data: seq<WeightRecord>, sorted: seq<WeightRecord>, key: WeightRecord -> int, n: nat)
    requires multiset(data) == multiset(sorted) && |sorted| > 0 && n > 0
    requires forall i, j :: 0 <= i < j < |sorted| ==> key(sorted[i]) <= key(sorted[j])
    ensures Counted(Group(sorted, key))
    ensures CoveredOrOlder(data, key, BucketPoints(LastN(Group(sorted, key), n)), n)
  {
    var bs := Group(sorted, key);
    GroupAscending(sorted, key);
    GroupCounted(sorted, key);
    GroupCoversData(data, sorted, key);
    assert Ascending(bs) && |bs| > 0;
    KeptOrOlder(bs, n, data, key);
  }

  /** The newest record's key always keeps its bar, as the last one. */
  lemma BucketNewestKept(data: seq<WeightRecord>, p: Period)
    requires p != Daily
    ensures NewestKept(data, KeyOf(p), FormatChartData(data, p))
  {
    if |data| > 0 {
      var sorted := SortByDate(data, false);
      SortedKeysAscending(sorted, p);
      SortedNewest(data, sorted, KeyOf(p), Limit(p));
      BarsEquation(data, p);
    }
  }

  /** For key-sorted records: no record has a key after the last kept bar. */
  lemma SortedNewest(data: seq<WeightRecord>, sorted: seq<WeightRecord>, key: WeightRecord -> int, n: nat)
    requires multiset(data) == multiset(sorted) && |sorted| > 0 && n > 0
    requires forall i, j :: 0 <= i < j < |sorted| ==> key(sorted[i]) <= key(sorted[j])
    ensures Counted(Group(sorted, key))
    ensures NewestKept(data, key, BucketPoints(LastN(Group(sorted, key), n)))
  {
    GroupCounted(sorted, key);
    GroupCoversData(data, sorted, key);
    KeptNewest(Group(sorted, key), n, data, key);
  }

  /** `domain={[yMin, yMax]}`: two kilograms of margin, widened to whole numbers. */
  datatype Axis = Axis(yMin: int, yMax: int)

  /**
   * The y-axis domain: `Math.floor(min - 2)` to `Math.ceil(max + 2)`; none
   * when the series is empty (the "no data" placeholder is shown instead).
   */
  function YAxis(points: seq<ChartPoint>): (a: Option<Axis>)
    ensures a.None? <==> |points| == 0
    ensures a.Some? ==> forall i :: 0 <= i < |points| ==>
      a.value.yMin as real <= points[i].weight - 2.0 && points[i].weight + 2.0 <= a.value.yMax as real
    ensures a.Some? ==> exists i :: 0 <= i < |points| && points[i].weight - 3.0 < a.value.yMin as real
    ensures a.Some? ==> exists i :: 0 <= i < |points| && a.value.yMax as real < points[i].weight + 3.0
  {
    if |points| == 0 then None
    else
      var ws := seq(|points|, i requires 0 <= i < |points| => points[i].weight);
      var lo, hi := Min(ws), Max(ws);
      assert forall i :: 0 <= i < |points| ==> ws[i] == points[i].weight;
      assert exists i :: 0 <= i < |points| && points[i].weight == lo;
      assert exists i :: 0 <= i < |points| && points[i].weight == hi;
      Some(Axis(JsFloor(lo - 2.0), JsCeil(hi + 2.0)))
  }

  /** Every bar lies strictly inside the axis domain. */
  lemma BarsInsideAxis(points: seq<ChartPoint>)
    requires |points| > 0
    ensures forall i :: 0 <= i < |points| ==>
      YAxis(points).value.yMin as real < points[i].weight < YAxis(points).value.yMax as real
  {
  }
}
