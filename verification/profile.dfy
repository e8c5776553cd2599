/**
 * The settings page: the profile fields and their save payload, the target
 * BMI and its category, and the CSV export of every record.
 */
module Profile {
  import opened Optional
  import opened Numbers
  import opened Text
  import opened Dates
  import opened Records

  /**
   * The value of a `type="number"` input: empty, or a number. A browser
   * hands back "" for text that is not a number, so `parseFloat` of a
   * non-empty value is the number it spells.
   */
  datatype Field = Blank | Number(v: real)

  /** `value?.toString() || ""`: a stored number prefills its field, a null leaves it empty. */
  function FieldOf(value: Option<real>): (f: Field)
    ensures f.Blank? <==> value.None?
  {
    match value
    case None => Blank
    case Some(v) => Number(v)
  }

  /** `field ? parseFloat(field) : null`. */
  function ValueOf(f: Field): (value: Option<real>)
    ensures value.None? <==> f.Blank?
    ensures f.Number? ==> value == Some(f.v)
  {
    match f
    case Blank => None
    case Number(v) => Some(v)
  }

  /** Prefilling from a value and saving it back gives the value, and the other way round. */
  lemma FieldRoundTrip(value: Option<real>, f: Field)
    ensures ValueOf(FieldOf(value)) == value
    ensures FieldOf(ValueOf(f)) == f
  {
  }

  /** What `fetch("/api/settings")` gives the page: a thrown error, or a body whose two numbers may be absent. */
  datatype SettingsFetch = SettingsThrew | SettingsBody(targetWeight: Option<real>, height: Option<real>)

  /** The two input fields once the settings have loaded; a thrown fetch leaves both empty. */
  datatype ProfileForm = ProfileForm(targetWeight: Field, height: Field)

  function Prefill(fetched: SettingsFetch): (form: ProfileForm)
    ensures fetched.SettingsThrew? ==> form == ProfileForm(Blank, Blank)
    ensures fetched.SettingsBody? ==>
      ValueOf(form.targetWeight) == fetched.targetWeight && ValueOf(form.height) == fetched.height
  {
    match fetched
    case SettingsThrew => ProfileForm(Blank, Blank)
    case SettingsBody(t, h) => ProfileForm(FieldOf(t), FieldOf(h))
  }

  /** The body of `PUT /api/settings`: both fields, each a number or null. */
  function SavePayload(form: ProfileForm): (s: Settings)
    ensures s.targetWeight.None? <==> form.targetWeight.Blank?
    ensures s.height.None? <==> form.height.Blank?
    ensures form.targetWeight.Number? ==> s.targetWeight == Some(form.targetWeight.v)
    ensures form.height.Number? ==> s.height == Some(form.height.v)
  {
    Settings(ValueOf(form.targetWeight), ValueOf(form.height))
  }

  /** Saving an untouched form writes back exactly the settings it was prefilled from. */
  lemma SaveUntouchedForm(t: Option<real>, h: Option<real>)
    ensures SavePayload(Prefill(SettingsBody(t, h))) == Settings(t, h)
  {
  }

  /** Body mass index: the weight in kilograms over the square of the height in metres. */
  function BodyMassIndex(weightKg: real, heightCm: real): real
    requires heightCm > 0.0
  {
    weightKg / ((heightCm / 100.0) * (heightCm / 100.0))
  }

  /**
   * `calculateBMI()`: null when a field is empty or not positive, else the
   * body mass index of the target weight and the height, rounded to one decimal.
   */
  function CalculateBmi(form: ProfileForm): (bmi: Option<real>)
    ensures bmi.Some? <==>
      form.targetWeight.Number? && form.height.Number? && form.targetWeight.v > 0.0 && form.height.v > 0.0
    ensures bmi.Some? ==> bmi.value == Round1(BodyMassIndex(form.targetWeight.v, form.height.v))
  {
    if form.height.Blank? || form.targetWeight.Blank? then None
    else
      var heightM := form.height.v / 100.0;
      var weight := form.targetWeight.v;
      if heightM <= 0.0 || weight <= 0.0 then None
      else Some(Round1(BodyMassIndex(weight, form.height.v)))
  }

  lemma SquarePositive(m: real)
    requires m > 0.0
    ensures m * m > 0.0
  {
  }

  lemma SquareMonotone(a: real, b: real)
    requires 0.0 < a <= b
    ensures 0.0 < a * a <= b * b
  {
    assert a * a <= a * b;
    assert a * b <= b * b;
  }

  lemma DivideBySquareMonotone(a: real, b: real, m: real)
    requires a <= b && m > 0.0
    ensures a / (m * m) <= b / (m * m)
  {
    SquarePositive(m);
  }

  lemma ReciprocalAntitone(c: real, d: real)
    requires 0.0 < c <= d
    ensures 1.0 / d <= 1.0 / c
  {
  }

  lemma DivideBySquareAntitone(w: real, m1: real, m2: real)
    requires w > 0.0 && 0.0 < m1 <= m2
    ensures w / (m2 * m2) <= w / (m1 * m1)
  {
    SquareMonotone(m1, m2);
    var c, d := m1 * m1, m2 * m2;
    ReciprocalAntitone(c, d);
    assert w / d == w * (1.0 / d);
    assert w / c == w * (1.0 / c);
  }

  lemma DivideBySquarePositive(w: real, m: real)
    requires w > 0.0 && m > 0.0
    ensures w / (m * m) > 0.0
  {
    SquarePositive(m);
  }

  /** For one height, a heavier target never gives a smaller BMI. */
  lemma BmiMonotoneInWeight(w1: real, w2: real, h: real)
    requires 0.0 < w1 <= w2 && h > 0.0
    ensures CalculateBmi(ProfileForm(Number(w1), Number(h))).value <= CalculateBmi(ProfileForm(Number(w2), Number(h))).value
  {
    IndexMonotoneInWeight(w1, w2, h);
    Round1Monotone(BodyMassIndex(w1, h), BodyMassIndex(w2, h));
  }

  lemma IndexMonotoneInWeight(w1: real, w2: real, h: real)
    requires w1 <= w2 && h > 0.0
    ensures BodyMassIndex(w1, h) <= BodyMassIndex(w2, h)
  {
    DivideBySquareMonotone(w1, w2, h / 100.0);
  }

  lemma IndexAntitoneInHeight(w: real, h1: real, h2: real)
    requires w > 0.0 && 0.0 < h1 <= h2
    ensures BodyMassIndex(w, h2) <= BodyMassIndex(w, h1)
  {
    DivideBySquareAntitone(w, h1 / 100.0, h2 / 100.0);
  }

  lemma IndexPositive(w: real, h: real)
    requires w > 0.0 && h > 0.0
    ensures BodyMassIndex(w, h) > 0.0
  {
    DivideBySquarePositive(w, h / 100.0);
  }

  /** For one target weight, a taller height never gives a larger BMI. */
  lemma BmiAntitoneInHeight(w: real, h1: real, h2: real)
    requires w > 0.0 && 0.0 < h1 <= h2
    ensures CalculateBmi(ProfileForm(Number(w), Number(h2))).value <= CalculateBmi(ProfileForm(Number(w), Number(h1))).value
  {
    IndexAntitoneInHeight(w, h1, h2);
    Round1Monotone(BodyMassIndex(w, h2), BodyMassIndex(w, h1));
  }

  /** The four bands of `getBMIStatus`. */
  datatype BmiCategory = Underweight | Normal | Overweight | Obese

  /** `getBMIStatus(bmi)`: the thresholds 18.5, 23 and 25, each the lower bound of the next band. */
  function Category(bmi: real): (c: BmiCategory)
    ensures c == Underweight <==> bmi < 18.5
    ensures c == Normal <==> 18.5 <= bmi < 23.0
    ensures c == Overweight <==> 23.0 <= bmi < 25.0
    ensures c == Obese <==> 25.0 <= bmi
  {
    if bmi < 18.5 then Underweight
    else if bmi < 23.0 then Normal
    else if bmi < 25.0 then Overweight
    else Obese
  }

  /** The bands in increasing order. */
  function Severity(c: BmiCategory): nat
  {
    match c
    case Underweight => 0
    case Normal => 1
    case Overweight => 2
    case Obese => 3
  }

  /** A larger BMI never falls in a lower band. */
  lemma CategoryMonotone(a: real, b: real)
    requires a <= b
    ensures Severity(Category(a)) <= Severity(Category(b))
  {
  }

  /** The BMI card: shown, with its category, when there is a BMI and it is not zero (`bmi && bmiStatus`). */
  function ShownBmi(bmi: Option<real>): (card: Option<BmiCategory>)
    ensures card.Some? <==> bmi.Some? && bmi.value != 0.0
    ensures card.Some? ==> card.value == Category(bmi.value)
  {
    if bmi.Some? && bmi.value != 0.0 then Some(Category(bmi.value)) else None
  }

  /** The card appears exactly when both fields are positive and the BMI rounds to at least 0.1. */
  lemma BmiCardShown(form: ProfileForm)
    ensures ShownBmi(CalculateBmi(form)).Some? <==>
      && form.targetWeight.Number? && form.height.Number?
      && form.targetWeight.v > 0.0 && form.height.v > 0.0
      && BodyMassIndex(form.targetWeight.v, form.height.v) >= 0.05
  {
    if form.targetWeight.Number? && form.height.Number? && form.targetWeight.v > 0.0 && form.height.v > 0.0 {
      var bmi := BodyMassIndex(form.targetWeight.v, form.height.v);
      assert CalculateBmi(form) == Some(Round1(bmi));
      Round1Positive(bmi);
      assert Round1(bmi) != 0.0 <==> bmi >= 0.05 by {
        Round1Negative(bmi);
        IndexPositive(form.targetWeight.v, form.height.v);
      }
    }
  }

  // ---------------------------------------------------------------------------
  // CSV export.
  // ---------------------------------------------------------------------------

  /** The header line: date, weight (kg), memo. */
  const Header: string := "날짜,몸무게(kg),메모"

  /** The byte-order mark written before the content so that spreadsheets read UTF-8. */
  const Bom: char := '\U{FEFF}'

  /** `record.memo || ""`. */
  function MemoText(memo: Option<string>): (t: string)
    ensures memo.Some? ==> t == memo.value
    ensures memo.None? ==> t == ""
  {
    if memo.Some? then memo.value else ""
  }

  /** `${record.date},${record.weight},"${record.memo || ""}"`; `fmt` is `Number#toString`. */
  function CsvRow(r: WeightRecord, fmt: real -> string): (row: string)
    ensures |row| == 14 + |fmt(r.weight)| + |MemoText(r.memo)|
    ensures row[..10] == IsoDate(r.date) && row[10] == ','
    ensures row[11..11 + |fmt(r.weight)|] == fmt(r.weight)
    ensures row[11 + |fmt(r.weight)|..13 + |fmt(r.weight)|] == ",\""
    ensures row[13 + |fmt(r.weight)|..|row| - 1] == MemoText(r.memo)
    ensures row[|row| - 1] == '"'
  {
    IsoDate(r.date) + "," + fmt(r.weight) + ",\"" + MemoText(r.memo) + "\""
  }

  function CsvRows(sorted: seq<WeightRecord>, fmt: real -> string): (rows: seq<string>)
    ensures |rows| == |sorted|
    ensures forall i :: 0 <= i < |sorted| ==> rows[i] == CsvRow(sorted[i], fmt)
  {
    seq(|sorted|, i requires 0 <= i < |sorted| => CsvRow(sorted[i], fmt))
  }

  /** How an export ends: the "no data" notice, the "export failed" notice, or a file. */
  datatype Export = NoData | ExportFailed | CsvFile(text: string)

  /**
   * `handleExportCSV()`: a thrown fetch fails; a body that is not a
   * non-empty array has no data; otherwise the header and one row per
   * record, oldest first, joined by newlines, after a byte-order mark.
   */
  function ExportCsv(fetched: ListFetch, fmt: real -> string): (e: Export)
    ensures e.ExportFailed? <==> fetched.FetchThrew?
    ensures e.NoData? <==> fetched.NotAnArray? || (fetched.RecordList? && |fetched.records| == 0)
    ensures e.CsvFile? ==> |e.text| > 0 && e.text[0] == Bom
  {
    match fetched
    case FetchThrew => ExportFailed
    case NotAnArray => NoData
    case RecordList(rs) =>
      if |rs| == 0 then NoData
      else CsvFile([Bom] + CsvContent(SortByDate(rs, false), fmt))
  }

  /** `"날짜,몸무게(kg),메모\n" + rows.join("\n")`. */
  function CsvContent(sorted: seq<WeightRecord>, fmt: real -> string): string
  {
    Header + "\n" + Join(CsvRows(sorted, fmt), '\n')
  }

  /** For at least one row, the content is the header and the rows joined by newlines. */
  lemma ContentIsJoin(sorted: seq<WeightRecord>, fmt: real -> string)
    requires |sorted| > 0
    ensures CsvContent(sorted, fmt) == Join([Header] + CsvRows(sorted, fmt), '\n')
  {
    var rows := CsvRows(sorted, fmt);
    assert ([Header] + rows)[1..] == rows;
  }

  /** No line of a row breaks when the number text and the memo hold no newline. */
  lemma RowHasNoNewline(r: WeightRecord, fmt: real -> string)
    requires '\n' !in fmt(r.weight)
    requires '\n' !in MemoText(r.memo)
    ensures '\n' !in CsvRow(r, fmt)
  {
    var d := IsoDate(r.date);
    assert '\n' !in d by {
      forall i | 0 <= i < |d|
        ensures d[i] != '\n'
      {
        if i != 4 && i != 7 {
          assert '0' <= d[i] <= '9';
        }
      }
    }
  }

  /** Splitting the content of rows without newlines gives back the header and the rows. */
  lemma ContentLines(sorted: seq<WeightRecord>, fmt: real -> string)
    requires |sorted| > 0
    requires forall i :: 0 <= i < |sorted| ==> '\n' !in fmt(sorted[i].weight) && '\n' !in MemoText(sorted[i].memo)
    ensures Split(CsvContent(sorted, fmt), '\n') == [Header] + CsvRows(sorted, fmt)
  {
    var xs := [Header] + CsvRows(sorted, fmt);
    ContentIsJoin(sorted, fmt);
    forall i | 0 <= i < |xs|
      ensures '\n' !in xs[i]
    {
      if i > 0 {
        RowHasNoNewline(sorted[i - 1], fmt);
      }
    }
    SplitJoin(xs, '\n');
  }

  /**
   * Splitting the exported file after its mark at the newlines gives back
   * the header and, in order, one row per record sorted oldest first,
   * provided no memo and no number text holds a newline (memos are quoted
   * but not escaped).
   */
  lemma CsvLines(rs: seq<WeightRecord>, fmt: real -> string)
    requires |rs| > 0
    requires forall i :: 0 <= i < |rs| ==> '\n' !in fmt(rs[i].weight) && '\n' !in MemoText(rs[i].memo)
    ensures ExportCsv(RecordList(rs), fmt).CsvFile?
    ensures var lines := Split(ExportCsv(RecordList(rs), fmt).text[1..], '\n');
      && |lines| == |rs| + 1
      && lines[0] == Header
      && (forall i :: 0 <= i < |rs| ==> lines[i + 1] == CsvRow(SortByDate(rs, false)[i], fmt))
  {
    var sorted := SortByDate(rs, false);
    forall i | 0 <= i < |sorted|
      ensures '\n' !in fmt(sorted[i].weight) && '\n' !in MemoText(sorted[i].memo)
    {
      assert sorted[i] in multiset(rs);
      var j := IndexIn(rs, sorted[i]);
    }
    ContentLines(sorted, fmt);
    assert ExportCsv(RecordList(rs), fmt).text[1..] == CsvContent(sorted, fmt);
  }

  /** A position of `x` in a list that contains it. */
  ghost function IndexIn(rs: seq<WeightRecord>, x: WeightRecord): (i: nat)
    requires x in multiset(rs)
    ensures i < |rs| && rs[i] == x
  {
    assert x in rs;
    var i :| 0 <= i < |rs| && rs[i] == x;
    i
  }

  /** The rows of an oldest-first list run in ascending order of their leading date text. */
  lemma RowsAscending(sorted: seq<WeightRecord>, fmt: real -> string, i: nat, j: nat)
    requires SortedByDate(sorted, false) && i <= j < |sorted|
    ensures var rows := CsvRows(sorted, fmt);
      LexLe(rows[i][..10], rows[j][..10])
  {
    assert Rank(sorted[i], false) <= Rank(sorted[j], false);
    IsoDateOrder(sorted[i].date, sorted[j].date);
  }

  /** The exported rows run oldest first: their leading date texts are in ascending string order. */
  lemma CsvRowsAscending(rs: seq<WeightRecord>, fmt: real -> string, i: nat, j: nat)
    requires i <= j < |rs|
    ensures var rows := CsvRows(SortByDate(rs, false), fmt);
      LexLe(rows[i][..10], rows[j][..10])
  {
    RowsAscending(SortByDate(rs, false), fmt, i, j);
  }
}
