/**
 * The calendar's record index: the map from a day to that day's record that
 * the month view keeps in memory, and the transitions that change it — a
 * fetched month merged in, a save, a delete — together with the read-only
 * views of it (selecting a day, decorating a day's tile).
 */
module Calendar {
  import opened Optional
  import opened Dates
  import opened Records

  /** `records`: the record of each day the view has seen, keyed by its date. */
  type Index = map<Date, WeightRecord>

  /**
   * The `recordMap` built by `data.forEach((record) => recordMap[record.date] = record)`:
   * every record's day is a key, and each key holds a record of that day.
   */
  function RecordMap(data: seq<WeightRecord>): (m: Index)
    ensures forall i :: 0 <= i < |data| ==> data[i].date in m
    ensures forall d :: d in m ==> m[d].date == d && m[d] in data
  {
    if |data| == 0 then map[]
    else
      var last := data[|data| - 1];
      var m := RecordMap(data[..|data| - 1])[last.date := last];
      assert forall i :: 0 <= i < |data| - 1 ==> data[..|data| - 1][i] == data[i];
      m
  }

  /** No record after position `i` carries the same day. */
  predicate LastOfItsDay(data: seq<WeightRecord>, i: nat)
    requires i < |data|
  {
    forall j :: i < j < |data| ==> data[j].date != data[i].date
  }

  /** Within one response, the last record of a day is the one the map keeps. */
  lemma {:induction false} RecordMapLastWins(data: seq<WeightRecord>, i: nat)
    requires i < |data| && LastOfItsDay(data, i)
    ensures RecordMap(data)[data[i].date] == data[i]
  {
    if i < |data| - 1 {
      var init := data[..|data| - 1];
      assert init[i] == data[i];
      assert LastOfItsDay(init, i) by {
        forall j | i < j < |init|
          ensures init[j].date != init[i].date
        {
          assert init[j] == data[j];
        }
      }
      RecordMapLastWins(init, i);
      assert data[|data| - 1].date != data[i].date;
    }
  }

  /**
   * `fetchRecords`: a record array is merged over the index (`{ ...prev, ...recordMap }`);
   * a body that is not an array, or a fetch that throws, leaves the index as it was.
   */
  function MergeFetched(index: Index, fetched: ListFetch): (r: Index)
    ensures !fetched.RecordList? ==> r == index
    ensures fetched.RecordList? ==> index.Keys <= r.Keys
    ensures fetched.RecordList? ==> forall i :: 0 <= i < |fetched.records| ==> fetched.records[i].date in r
  {
    match fetched
    case RecordList(rs) => index + RecordMap(rs)
    case _ => index
  }

  /** Whether some record of a response falls on day `d`. */
  predicate InResponse(data: seq<WeightRecord>, d: Date)
  {
    exists i :: 0 <= i < |data| && data[i].date == d
  }

  /** After a merge, a day of the response holds the response's last record of that day. */
  lemma MergeTakesResponse(index: Index, data: seq<WeightRecord>, i: nat)
    requires i < |data| && LastOfItsDay(data, i)
    ensures MergeFetched(index, RecordList(data))[data[i].date] == data[i]
  {
    RecordMapLastWins(data, i);
  }

  /** After a merge, a day the response does not mention keeps exactly what it had. */
  lemma MergeKeepsOthers(index: Index, data: seq<WeightRecord>, d: Date)
    requires !InResponse(data, d)
    ensures d in MergeFetched(index, RecordList(data)) <==> d in index
    ensures d in index ==> MergeFetched(index, RecordList(data))[d] == index[d]
  {
  }

  /** Fetching the same month twice leaves the index as one fetch did. */
  lemma MergeIdempotent(index: Index, fetched: ListFetch)
    ensures MergeFetched(MergeFetched(index, fetched), fetched) == MergeFetched(index, fetched)
  {
  }

  /** How the server answers a request: it throws, answers with a non-ok status, or succeeds. */
  datatype SaveReply = SaveThrew | SaveRejected | SaveAccepted(saved: WeightRecord)
  datatype DeleteReply = DeleteThrew | DeleteRejected | DeleteAccepted

  /** The index after a handler, and whether the handler re-throws to its caller. */
  datatype Transition = Transition(index: Index, rethrows: bool)

  /**
   * `handleSave`: on success the day's entry becomes the record the server
   * returned; on a non-ok status or a thrown error the index is untouched and
   * the error is thrown again.
   */
  function Save(index: Index, date: Date, reply: SaveReply): (t: Transition)
    ensures t.rethrows <==> !reply.SaveAccepted?
    ensures t.rethrows ==> t.index == index
    ensures reply.SaveAccepted? ==> date in t.index && t.index[date] == reply.saved
    ensures reply.SaveAccepted? ==> t.index.Keys == index.Keys + {date}
  {
    match reply
    case SaveAccepted(saved) => Transition(index[date := saved], false)
    case _ => Transition(index, true)
  }

  /**
   * `handleDelete`: on success the day's entry is removed; on a non-ok status
   * or a thrown error the index is untouched and the error is thrown again.
   */
  function Delete(index: Index, date: Date, reply: DeleteReply): (t: Transition)
    ensures t.rethrows <==> !reply.DeleteAccepted?
    ensures t.rethrows ==> t.index == index
    ensures reply.DeleteAccepted? ==> t.index.Keys == index.Keys - {date}
  {
    match reply
    case DeleteAccepted => Transition(index - {date}, false)
    case _ => Transition(index, true)
  }

  /** `records[dateStr] || null`: the record of the selected day, if the index has one. */
  function Select(index: Index, date: Date): (record: Option<WeightRecord>)
    ensures record.Some? <==> date in index
    ensures record.Some? ==> record.value == index[date] && record.value in index.Values
  {
    if date in index then Some(index[date]) else None
  }

  /** A save changes no day but its own. */
  lemma SaveOnlyTouchesItsDay(index: Index, date: Date, reply: SaveReply, other: Date)
    requires other != date
    ensures Select(Save(index, date, reply).index, other) == Select(index, other)
  {
  }

  /** After a successful save, selecting that day shows the saved record. */
  lemma SaveThenSelect(index: Index, date: Date, saved: WeightRecord)
    ensures Select(Save(index, date, SaveAccepted(saved)).index, date) == Some(saved)
  {
  }

  /** A delete changes no day but its own, and leaves its own day empty when it succeeds. */
  lemma DeleteOnlyTouchesItsDay(index: Index, date: Date, reply: DeleteReply, other: Date)
    ensures other != date ==> Select(Delete(index, date, reply).index, other) == Select(index, other)
    ensures reply.DeleteAccepted? ==> Select(Delete(index, date, reply).index, date) == None
  {
  }

  /** Deleting a day the index does not hold leaves the index equal to before. */
  lemma DeleteAbsent(index: Index, date: Date)
    requires date !in index
    ensures Delete(index, date, DeleteAccepted).index == index
  {
  }

  /** A second successful delete of the same day changes nothing. */
  lemma DeleteIdempotent(index: Index, date: Date)
    ensures var once := Delete(index, date, DeleteAccepted).index;
      Delete(once, date, DeleteAccepted).index == once
  {
  }

  /** Saving a day the index did not hold and then deleting it restores the index. */
  lemma SaveThenDeleteRestores(index: Index, date: Date, saved: WeightRecord)
    requires date !in index
    ensures Delete(Save(index, date, SaveAccepted(saved)).index, date, DeleteAccepted).index == index
  {
    var after := Delete(Save(index, date, SaveAccepted(saved)).index, date, DeleteAccepted).index;
    assert after.Keys == index.Keys;
  }

  /** What a click hands the calendar's `onChange`: one day, or something else (a range). */
  datatype ClickValue = Day(date: Date) | NotADay

  /** The parts of the view a click touches. */
  datatype View = View(index: Index, selected: Option<Date>, record: Option<WeightRecord>, modalOpen: bool)

  /**
   * `handleDateClick`: a day click selects the day, looks its record up and
   * opens the modal; any other value leaves the view as it was. The index is
   * never changed.
   */
  function ClickDate(view: View, value: ClickValue): (v: View)
    ensures v.index == view.index
    ensures value.NotADay? ==> v == view
    ensures value.Day? ==> v.modalOpen && v.selected == Some(value.date)
    ensures value.Day? ==> (v.record.Some? <==> value.date in view.index)
    ensures value.Day? && v.record.Some? ==> v.record.value == view.index[value.date]
  {
    match value
    case Day(d) => View(view.index, Some(d), Select(view.index, d), true)
    case NotADay => view
  }

  /** `tileContent`: the weight shown under a day, when the index holds its record. */
  function TileWeight(index: Index, date: Date): (w: Option<real>)
    ensures w.Some? <==> date in index
    ensures w.Some? ==> w.value == index[date].weight
  {
    if date in index then Some(index[date].weight) else None
  }

  const HasRecordClass: string := " has-record"
  const IsTodayClass: string := " is-today"

  /** `tileClassName`: " has-record" for a day with a record, then " is-today" for today. */
  function TileClass(index: Index, date: Date, today: Date): (c: string)
    ensures date in index <==> |c| >= |HasRecordClass| && c[..|HasRecordClass|] == HasRecordClass
    ensures date == today <==> |c| >= |IsTodayClass| && c[|c| - |IsTodayClass|..] == IsTodayClass
    ensures |c| == (if date in index then |HasRecordClass| else 0) + (if date == today then |IsTodayClass| else 0)
  {
    var c := (if date in index then HasRecordClass else "") + (if date == today then IsTodayClass else "");
    assert date in index && date != today ==> c == HasRecordClass && c[|c| - 1] == 'd';
    assert date !in index && date == today ==> c == IsTodayClass;
    c
  }

  /** The four classes a tile can get: none, one of the two, or both in that order. */
  lemma TileClassCases(index: Index, date: Date, today: Date)
    ensures var c := TileClass(index, date, today);
      && (date !in index && date != today ==> c == "")
      && (date in index && date != today ==> c == " has-record")
      && (date !in index && date == today ==> c == " is-today")
      && (date in index && date == today ==> c == " has-record is-today")
  {
  }

  /** A tile shows a weight exactly when it is marked as having a record, and exactly when selecting it finds one. */
  lemma TileAgreesWithSelect(index: Index, date: Date, today: Date)
    ensures TileWeight(index, date).Some? <==> Select(index, date).Some?
    ensures TileWeight(index, date).Some? <==>
      var c := TileClass(index, date, today); |c| >= |HasRecordClass| && c[..|HasRecordClass|] == HasRecordClass
    ensures Select(index, date).Some? ==> TileWeight(index, date) == Some(Select(index, date).value.weight)
  {
  }
}
