/**
 * The shapes the client and the routes exchange (`WeightRecord`, `Settings`),
 * the outcome of fetching a record list, and the stable date sort every view
 * applies before it reads a list.
 */
module Records {
  import opened Optional
  import opened Dates

  /** One day's weight entry; `memo` is absent when the store holds null. */
  datatype WeightRecord = WeightRecord(
    id: string,
    date: Date,
    weight: real,
    memo: Option<string>,
    createdAt: string,
    updatedAt: string)

  /** The singleton profile row; either number may be null. */
  datatype Settings = Settings(targetWeight: Option<real>, height: Option<real>)

  /**
   * What `await (await fetch("/api/weights")).json()` produces: a thrown
   * error, a body that is not an array (the route's `{ error }` object), or
   * the record array.
   */
  datatype ListFetch = FetchThrew | NotAnArray | RecordList(records: seq<WeightRecord>)

  /** The sort key: `new Date(r.date).getTime()`, negated for a newest-first sort. */
  function Rank(r: WeightRecord, newestFirst: bool): int
  {
    if newestFirst then -DayNumber(r.date) else DayNumber(r.date)
  }

  ghost predicate SortedByDate(s: seq<WeightRecord>, newestFirst: bool)
  {
    forall i, j :: 0 <= i < j < |s| ==> Rank(s[i], newestFirst) <= Rank(s[j], newestFirst)
  }

  /** Where a stable insertion puts `x`: after every element whose key is not above its own. */
  function InsertPosition(s: seq<WeightRecord>, x: WeightRecord, newestFirst: bool): (i: nat)
    requires SortedByDate(s, newestFirst)
    ensures i <= |s|
    ensures forall j :: 0 <= j < i ==> Rank(s[j], newestFirst) <= Rank(x, newestFirst)
    ensures forall j :: i <= j < |s| ==> Rank(x, newestFirst) < Rank(s[j], newestFirst)
  {
    if |s| == 0 || Rank(s[|s| - 1], newestFirst) <= Rank(x, newestFirst) then |s|
    else InsertPosition(s[..|s| - 1], x, newestFirst)
  }

  /** Inserts `x` into a sorted list, keeping elements with equal keys in arrival order. */
  function Insert(s: seq<WeightRecord>, x: WeightRecord, newestFirst: bool): (r: seq<WeightRecord>)
    requires SortedByDate(s, newestFirst)
    ensures SortedByDate(r, newestFirst)
    ensures multiset(r) == multiset(s) + multiset{x}
    ensures |r| == |s| + 1
  {
    var i := InsertPosition(s, x, newestFirst);
    assert s == s[..i] + s[i..];
    InsertSorted(s, x, i, newestFirst);
    s[..i] + [x] + s[i..]
  }

  lemma InsertSorted(s: seq<WeightRecord>, x: WeightRecord, i: nat, newestFirst: bool)
    requires SortedByDate(s, newestFirst) && i <= |s|
    requires forall j :: 0 <= j < i ==> Rank(s[j], newestFirst) <= Rank(x, newestFirst)
    requires forall j :: i <= j < |s| ==> Rank(x, newestFirst) < Rank(s[j], newestFirst)
    ensures SortedByDate(s[..i] + [x] + s[i..], newestFirst)
  {
    var r := s[..i] + [x] + s[i..];
    forall a, b | 0 <= a < b < |r|
      ensures Rank(r[a], newestFirst) <= Rank(r[b], newestFirst)
    {
      var sa := if a < i then a else a - 1;
      var sb := if b <= i then b else b - 1;
      if a != i && b != i {
        assert r[a] == s[sa] && r[b] == s[sb];
      } else if a == i {
        assert r[b] == s[sb];
      } else {
        assert r[a] == s[sa];
      }
    }
  }

  /**
   * `[...s].sort((a, b) => key(a) - key(b))`, as an insertion sort taking
   * the elements left to right. The contract promises a sorted permutation
   * and nothing about the order of records sharing a day: the table holds
   * one row per date (the upsert is keyed on it), so such ties do not occur
   * in the lists the views receive.
   */
  function SortByDate(s: seq<WeightRecord>, newestFirst: bool): (r: seq<WeightRecord>)
    ensures SortedByDate(r, newestFirst)
    ensures multiset(r) == multiset(s)
    ensures |r| == |s|
  {
    if |s| == 0 then []
    else
      var init := s[..|s| - 1];
      assert s == init + [s[|s| - 1]];
      Insert(SortByDate(init, newestFirst), s[|s| - 1], newestFirst)
  }

  /** The weights of a list, in order: `records.map((r) => r.weight)`. */
  function Weights(s: seq<WeightRecord>): (ws: seq<real>)
    ensures |ws| == |s|
    ensures forall i :: 0 <= i < |s| ==> ws[i] == s[i].weight
  {
    seq(|s|, i requires 0 <= i < |s| => s[i].weight)
  }
}
