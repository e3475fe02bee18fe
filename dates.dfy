/**
 * The date reformatting of the audit combination step: `DD-MON-YY` export
 * dates become `YYYY-MM-DD`, with a fixed `14:00:00` time for trail
 * timestamps (`transform_dates_timed`) and without one for the metadata
 * dates (`transform_dates_untimed`), through `month_dict`.
 */
module Dates {
  import opened PyText
  import opened Results
  import SeqFacts

  /** Month abbreviation to its two-digit number (`month_dict`). */
  const MonthDict: map<string, string> := map[
    "JAN" := "01", "FEB" := "02", "MAR" := "03", "APR" := "04",
    "MAY" := "05", "JUN" := "06", "JUL" := "07", "AUG" := "08",
    "SEP" := "09", "OCT" := "10", "NOV" := "11", "DEC" := "12"
  ]

  /** The month numbers, "01" to "12", in calendar order. */
  const MonthNumbers: seq<string> :=
    ["01", "02", "03", "04", "05", "06", "07", "08", "09", "10", "11", "12"]

  /** The abbreviation of a month number: the inverse of `MonthDict`. */
  function MonthName(number: string): Option<string>
  {
    match number
    case "01" => Some("JAN") case "02" => Some("FEB") case "03" => Some("MAR")
    case "04" => Some("APR") case "05" => Some("MAY") case "06" => Some("JUN")
    case "07" => Some("JUL") case "08" => Some("AUG") case "09" => Some("SEP")
    case "10" => Some("OCT") case "11" => Some("NOV") case "12" => Some("DEC")
    case _ => None
  }

  /** Every abbreviation maps to a month number, and back: so no two abbreviations share a number. */
  lemma MonthDictInjective()
    ensures forall k :: k in MonthDict ==> MonthDict[k] in MonthNumbers && MonthName(MonthDict[k]) == Some(k)
  {
  }

  /** Every month number "01" to "12" is the number of exactly the abbreviation `MonthName` gives. */
  lemma MonthDictOnto()
    ensures forall i :: 0 <= i < |MonthNumbers| ==>
              MonthName(MonthNumbers[i]).Some? && MonthName(MonthNumbers[i]).value in MonthDict
              && MonthDict[MonthName(MonthNumbers[i]).value] == MonthNumbers[i]
  {
  }

  /** Every abbreviation is three letters long, so `month_dict` is consulted for each. */
  lemma MonthNamesLong()
    ensures forall k :: k in MonthDict ==> |k| == 3
  {
  }

  /** Why a date could not be reformatted: a month longer than two characters that `month_dict` lacks (`KeyError`). */
  datatype DateError = UnknownMonth(month: string)

  /** The three parts of an export date. */
  datatype Parts = Parts(day: string, month: string, year: string)

  /**
   * Lines 63-67: the day before the first '-', the month between the first
   * and the next, the year after that, each by `find` and slicing (a missing
   * '-' makes `find` give -1, which slices off the last character).
   */
  function SplitDate(s: string): Parts
  {
    var day := Slice(s, 0, Find(s, '-'));
    var rest := Slice(s, Find(s, '-') + 1, |s|);
    var month := Slice(rest, 0, Find(rest, '-'));
    var year := Slice(rest, Find(rest, '-') + 1, |rest|);
    Parts(day, month, year)
  }

  /** Lines 69-70: a month of more than two characters is looked up; a shorter one is already a number. */
  function MonthNumber(month: string): Result<string, DateError>
  {
    if |month| > 2 then
      if month in MonthDict then Success(MonthDict[month]) else Failure(UnknownMonth(month))
    else Success(month)
  }

  /** Lines 72-73: a two-character year is in this century. */
  function FullYear(year: string): string
  {
    if |year| == 2 then "20" + year else year
  }

  /** `transform_dates_timed`: the date as `YYYY-MM-DD 14:00:00`. */
  function TransformDatesTimed(s: string): Result<string, DateError>
  {
    var p := SplitDate(s);
    match MonthNumber(p.month)
    case Failure(e) => Failure(e)
    case Success(mm) => Success(FullYear(p.year) + "-" + mm + "-" + p.day + " " + "14:00:00")
  }

  /** The time is appended as a space and "14:00:00". */
  lemma WithTime(date: string)
    ensures date + " " + "14:00:00" == date + " 14:00:00"
  {
  }

  /** `transform_dates_untimed`: a null cell is returned as it is, a date as `YYYY-MM-DD`. */
  function TransformDatesUntimed(cell: Option<string>): Result<Option<string>, DateError>
  {
    match cell
    case None => Success(None)
    case Some(s) =>
      var p := SplitDate(s);
      match MonthNumber(p.month)
      case Failure(e) => Failure(e)
      case Success(mm) => Success(Some(FullYear(p.year) + "-" + mm + "-" + p.day))
  }

  /** Splitting `day-month-year` gives back the three parts, whatever the year holds. */
  lemma SplitDateOf(day: string, month: string, year: string)
    requires '-' !in day && '-' !in month
    ensures SplitDate(day + "-" + month + "-" + year) == Parts(day, month, year)
  {
    var s := day + "-" + month + "-" + year;
    var tail := month + "-" + year;
    SeqFacts.AppendAssoc(day + "-" + month, "-", year);
    SeqFacts.AppendAssoc(day + "-", month, "-" + year);
    SeqFacts.AppendAssoc(month, "-", year);
    assert s == day + "-" + tail;
    ThreeParts(day, "-", tail);
    FindIs("-" + tail, '-', 0);
    FindConcat(day, "-" + tail, '-');
    assert Slice(s, 0, Find(s, '-')) == day;
    var rest := Slice(s, Find(s, '-') + 1, |s|);
    assert rest == tail;
    ThreeParts(month, "-", year);
    FindIs("-" + year, '-', 0);
    FindConcat(month, "-" + year, '-');
    assert Find(rest, '-') == |month|;
    assert Slice(rest, 0, |month|) == month;
    assert Slice(rest, |month| + 1, |rest|) == year;
  }

  /**
   * A `DD-MON-YY` date with a known month becomes `20YY-MM-DD 14:00:00`,
   * the month replaced by its number.
   */
  lemma TimedDayMonYear(day: string, month: string, year: string)
    requires '-' !in day && '-' !in month
    requires month in MonthDict && |year| == 2
    ensures TransformDatesTimed(day + "-" + month + "-" + year)
         == Success("20" + year + "-" + MonthDict[month] + "-" + day + " 14:00:00")
  {
    SplitDateOf(day, month, year);
    MonthNamesLong();
    assert MonthNumber(month) == Success(MonthDict[month]);
    WithTime("20" + year + "-" + MonthDict[month] + "-" + day);
  }

  /** The trail date of an export, "26-MAY-23", becomes "2023-05-26 14:00:00". */
  lemma TimedExample()
    ensures TransformDatesTimed("26-MAY-23") == Success("2023-05-26 14:00:00")
  {
    ExampleParts();
    TimedDayMonYear("26", "MAY", "23");
  }

  /** The pieces of the example date, and of its reformatting. */
  lemma ExampleParts()
    ensures "26-MAY-23" == "26" + "-" + "MAY" + "-" + "23"
    ensures "MAY" in MonthDict && MonthDict["MAY"] == "05"
    ensures "20" + "23" + "-" + "05" + "-" + "26" + " 14:00:00" == "2023-05-26 14:00:00"
  {
  }

  /** A month of at most two characters is kept as it is, in either reformatting. */
  lemma NumericMonthKept(day: string, month: string, year: string)
    requires '-' !in day && '-' !in month && |month| <= 2
    ensures TransformDatesTimed(day + "-" + month + "-" + year)
         == Success(FullYear(year) + "-" + month + "-" + day + " 14:00:00")
    ensures TransformDatesUntimed(Some(day + "-" + month + "-" + year))
         == Success(Some(FullYear(year) + "-" + month + "-" + day))
  {
    SplitDateOf(day, month, year);
    WithTime(FullYear(year) + "-" + month + "-" + day);
  }

  /** A longer month that `month_dict` lacks is a `KeyError`, in either reformatting. */
  lemma UnknownMonthFails(day: string, month: string, year: string)
    requires '-' !in day && '-' !in month && |month| > 2 && month !in MonthDict
    ensures TransformDatesTimed(day + "-" + month + "-" + year) == Failure(UnknownMonth(month))
    ensures TransformDatesUntimed(Some(day + "-" + month + "-" + year)) == Failure(UnknownMonth(month))
  {
    SplitDateOf(day, month, year);
  }

  /** Only a year of exactly two characters gains the "20"; one of any other length is kept. */
  lemma YearRule(year: string)
    ensures |year| == 2 ==> FullYear(year) == "20" + year && |FullYear(year)| == 4
    ensures |year| != 2 ==> FullYear(year) == year
  {
  }

  /**
   * For the same date string the timed form is the untimed one followed by
   * " 14:00:00", and the two fail together.
   */
  lemma TimedIsUntimedPlusTime(s: string)
    ensures TransformDatesTimed(s).Failure? <==> TransformDatesUntimed(Some(s)).Failure?
    ensures TransformDatesTimed(s).Success? ==>
              TransformDatesUntimed(Some(s)).value.Some?
              && TransformDatesTimed(s).value == TransformDatesUntimed(Some(s)).value.value + " 14:00:00"
  {
    var p := SplitDate(s);
    if MonthNumber(p.month).Success? {
      WithTime(FullYear(p.year) + "-" + MonthNumber(p.month).value + "-" + p.day);
    }
  }

  /** A null metadata date stays null. */
  lemma UntimedNull()
    ensures TransformDatesUntimed(None) == Success(None)
  {
  }

  /** A date without any '-' is read as day and month its characters but the last, and as year the whole string. */
  lemma UndashedDate(s: string)
    requires '-' !in s && |s| > 0
    ensures SplitDate(s) == Parts(s[..|s| - 1], s[..|s| - 1], s)
  {
  }
}
