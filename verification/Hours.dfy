/** Opening hours: the owner's week form, the rows it becomes, the week shown again, and whether the plant is open. */
module Hours {
  import opened Basics
  import opened Strings

  // ---- times of day ----

  function DigitOf(c: char): (n: nat)
    requires IsDigit(c)
    ensures n < 10
  {
    c as int - '0' as int
  }

  function DigitChar(n: nat): (c: char)
    requires n < 10
    ensures IsDigit(c) && DigitOf(c) == n
  {
    ('0' as int + n) as char
  }

  /** Minutes of the day, from one or two digits of hours and two of minutes. */
  function ParseTime(s: string): (r: Option<nat>)
    ensures r.Some? ==> r.value < 1440
  {
    if |s| == 5 && IsDigit(s[0]) && IsDigit(s[1]) && s[2] == ':' && IsDigit(s[3]) && IsDigit(s[4]) then
      InDay(10 * DigitOf(s[0]) + DigitOf(s[1]), 10 * DigitOf(s[3]) + DigitOf(s[4]))
    else if |s| == 4 && IsDigit(s[0]) && s[1] == ':' && IsDigit(s[2]) && IsDigit(s[3]) then
      InDay(DigitOf(s[0]), 10 * DigitOf(s[2]) + DigitOf(s[3]))
    else None
  }

  function InDay(hour: nat, minute: nat): (r: Option<nat>)
    ensures r.Some? ==> r.value < 1440
  {
    if hour < 24 && minute < 60 then Some(60 * hour + minute) else None
  }

  /** The text the database gives for a time, without its seconds. */
  function TimeText(t: nat): string
    requires t < 1440
  {
    [DigitChar(t / 60 / 10), DigitChar(t / 60 % 10), ':', DigitChar(t % 60 / 10), DigitChar(t % 60 % 10)]
  }

  function DatabaseText(t: nat): string
    requires t < 1440
  {
    TimeText(t) + ":00"
  }

  function TrimSeconds(s: string): string {
    if |s| >= 5 then s[..5] else s
  }

  lemma {:induction false} TimeRead(t: nat)
    requires t < 1440
    ensures ParseTime(TimeText(t)) == Some(t) && TrimSeconds(DatabaseText(t)) == TimeText(t)
  {
    assert t == 60 * (t / 60) + t % 60;
    assert t / 60 == 10 * (t / 60 / 10) + t / 60 % 10;
    assert t % 60 == 10 * (t % 60 / 10) + t % 60 % 10;
  }

  /** A text is read as a time exactly when it is that time's text, or that without a leading zero. */
  lemma {:induction false} TimeExactly(s: string, t: nat)
    requires t < 1440
    ensures ParseTime(s) == Some(t) <==> s == TimeText(t) || (t < 600 && s == TimeText(t)[1..])
  {
    assert t == 60 * (t / 60) + t % 60;
    assert t / 60 == 10 * (t / 60 / 10) + t / 60 % 10;
    assert t % 60 == 10 * (t % 60 / 10) + t % 60 % 10;
    if |s| == 5 && ParseTime(s) == Some(t) {
      TimeShown(s);
    } else if |s| == 4 && ParseTime(s) == Some(t) {
      LongTime(s, t);
    }
  }

  lemma {:induction false} LongTime(s: string, t: nat)
    requires |s| == 4 && ParseTime(s) == Some(t)
    ensures t < 600 && s == TimeText(t)[1..]
  {
    var long := "0" + s;
    assert long[0] == '0' && long[1] == s[0] && long[2] == s[1] && long[3] == s[2] && long[4] == s[3];
    assert ParseTime(long) == Some(t);
    TimeShown(long);
    assert long[1..] == s;
  }

  /** A full two-digit time: it is shown as it was entered. */
  lemma {:induction false} TimeShown(s: string)
    requires |s| == 5 && ParseTime(s).Some?
    ensures TimeText(ParseTime(s).value) == s
  {
    var h, m := 10 * DigitOf(s[0]) + DigitOf(s[1]), 10 * DigitOf(s[3]) + DigitOf(s[4]);
    var t := ParseTime(s).value;
    assert t / 60 == h && t % 60 == m;
    assert h / 10 == DigitOf(s[0]) && h % 10 == DigitOf(s[1]) && m / 10 == DigitOf(s[3]) && m % 10 == DigitOf(s[4]);
    assert forall c: char :: IsDigit(c) ==> DigitChar(DigitOf(c)) == c;
  }

  // ---- the form ----

  datatype Field = ClosedBox(day: int) | OpenText(day: int, segment: int) | CloseText(day: int, segment: int)

  type Form = map<Field, string>

  /** A field that was not sent reads as empty. */
  function FormValue(form: Form, field: Field): string {
    if field in form then form[field] else ""
  }

  datatype Segment = Segment(day: int, segment: int, opens: string, closes: string, closed: bool)

  predicate IsClosed(form: Form, day: int) {
    FormValue(form, ClosedBox(day)) == "true"
  }

  function Opens(form: Form, day: int, segment: int): string {
    TrimSpace(FormValue(form, OpenText(day, segment)))
  }

  function Closes(form: Form, day: int, segment: int): string {
    TrimSpace(FormValue(form, CloseText(day, segment)))
  }

  function FormSegment(form: Form, day: int, segment: int): seq<Segment> {
    if Opens(form, day, segment) == "" && Closes(form, day, segment) == "" then []
    else [Segment(day, segment, Opens(form, day, segment), Closes(form, day, segment), false)]
  }

  function FormDay(form: Form, day: int): seq<Segment> {
    if IsClosed(form, day) then [Segment(day, 1, "", "", true)]
    else FormSegments(form, day, 2)
  }

  /** The segments of a day up to number n. */
  function FormSegments(form: Form, day: int, n: nat): seq<Segment> {
    if n == 0 then [] else FormSegments(form, day, n - 1) + FormSegment(form, day, n)
  }

  /** The segments of the first n days. */
  function FormDays(form: Form, n: nat): seq<Segment> {
    if n == 0 then [] else FormDays(form, n - 1) + FormDay(form, n - 1)
  }

  method ParseWeekForm(form: Form) returns (out: seq<Segment>)
    ensures out == FormDays(form, 7)
  {
    out := [];
    for day := 0 to 7
      invariant out == FormDays(form, day)
    {
      hide TrimSpace, FormDays;
      ghost var before := out;
      NextDay(form, day);
      if FormValue(form, ClosedBox(day)) == "true" {
        out := out + [Segment(day, 1, "", "", true)];
        continue;
      }
      for segment := 1 to 3
        invariant out == before + FormSegments(form, day, segment - 1)
      {
        NextSegment(before, form, day, segment);
        var opens := TrimSpace(FormValue(form, OpenText(day, segment)));
        var closes := TrimSpace(FormValue(form, CloseText(day, segment)));
        if opens == "" && closes == "" {
          continue;
        }
        out := out + [Segment(day, segment, opens, closes, false)];
      }
    }
  }

  /** A closed day has one segment, any other day those with something in one of their two fields. */
  predicate InForm(form: Form, x: Segment) {
    if FormValue(form, ClosedBox(x.day)) == "true" then x == Segment(x.day, 1, "", "", true)
    else
      && 1 <= x.segment <= 2 && !x.closed
      && x.opens == TrimSpace(FormValue(form, OpenText(x.day, x.segment)))
      && x.closes == TrimSpace(FormValue(form, CloseText(x.day, x.segment)))
      && (x.opens != "" || x.closes != "")
  }

  /** The segments of a form are exactly these. */
  lemma {:induction false} FormHolds(form: Form, n: nat, x: Segment)
    ensures x in FormDays(form, n) <==> 0 <= x.day < n && InForm(form, x)
  {
    hide InForm, FormDay;
    if n > 0 {
      FormHolds(form, n - 1, x);
      DayHolds(form, n - 1, x);
      OneDayMore(form, n - 1, x);
    }
  }

  lemma OneDayMore(form: Form, day: nat, x: Segment)
    ensures x in FormDays(form, day + 1) <==> x in FormDays(form, day) || x in FormDay(form, day)
  {
    hide FormDay;
  }

  lemma {:induction false} DayHolds(form: Form, day: int, x: Segment)
    ensures x in FormDay(form, day) <==> x.day == day && InForm(form, x)
  {
    hide TrimSpace, FormValue, FormSegment;
    if !IsClosed(form, day) {
      var first, second := FormSegment(form, day, 1), FormSegment(form, day, 2);
      assert FormSegments(form, day, 1) == first;
      assert FormDay(form, day) == first + second;
      assert x in first + second <==> x in first || x in second;
      hide *;
      SegmentHolds(form, day, 1, x);
      SegmentHolds(form, day, 2, x);
    }
  }

  lemma {:induction false} SegmentHolds(form: Form, day: int, s: int, x: Segment)
    requires !IsClosed(form, day) && 1 <= s <= 2
    ensures x in FormSegment(form, day, s) <==> x.day == day && x.segment == s && InForm(form, x)
  {
    hide TrimSpace, FormValue;
  }

  lemma NextDay(form: Form, day: nat)
    ensures FormDays(form, day + 1) == FormDays(form, day) + FormDay(form, day)
  {
  }

  lemma NextSegment(before: seq<Segment>, form: Form, day: int, n: nat)
    requires n > 0
    ensures before + FormSegments(form, day, n) == before + FormSegments(form, day, n - 1) + FormSegment(form, day, n)
  {
  }

  // ---- the rows ----

  datatype Row = Row(opens: Option<nat>, closes: Option<nat>, closed: bool)

  /** Rows of one plant by day and segment, which are unique together. */
  type Rows = map<(int, int), Row>

  /** One segment: skipped, stored, or refused for its key. */
  function Insert(rows: Rows, s: Segment): Option<Rows> {
    if s.day < 0 || s.day > 6 || s.segment < 1 || s.segment > 3 then Some(rows)
    else if s.closed then Some(rows[(s.day, 1) := Row(None, None, true)])
    else if ParseTime(s.opens).None? || ParseTime(s.closes).None? then Some(rows)
    else if (s.day, s.segment) in rows then None
    else Some(rows[(s.day, s.segment) := Row(ParseTime(s.opens), ParseTime(s.closes), false)])
  }

  /** The rows the segments leave in an emptied table, or none when one of them is refused. */
  function InsertAll(segments: seq<Segment>): Option<Rows> {
    if segments == [] then Some(map[])
    else
      match InsertAll(segments[..|segments| - 1])
      case None => None
      case Some(rows) => Insert(rows, segments[|segments| - 1])
  }

  datatype Day = Day(segments: seq<Segment>, closed: bool, unset: bool)

  function Text(t: Option<nat>): string
    requires t.Some? ==> t.value < 1440
  {
    if t.None? then "" else TrimSeconds(DatabaseText(t.value))
  }

  predicate InDayRow(r: Row) {
    (r.opens.Some? ==> r.opens.value < 1440) && (r.closes.Some? ==> r.closes.value < 1440)
  }

  ghost predicate InDayRows(rows: Rows) {
    forall k :: k in rows ==> InDayRow(rows[k])
  }

  function SegmentOf(r: Row, day: int, segment: int): Segment
    requires InDayRow(r)
  {
    Segment(day, segment, Text(r.opens), Text(r.closes), r.closed)
  }

  /** The stored segments of a day up to number n. */
  function DaySegments(rows: Rows, day: int, n: nat): seq<Segment>
    requires InDayRows(rows)
  {
    if n == 0 then []
    else DaySegments(rows, day, n - 1) + (if (day, n) in rows then [SegmentOf(rows[(day, n)], day, n)] else [])
  }

  /** A day with these segments so far. */
  function Listed(segments: seq<Segment>): Day {
    Day(segments, segments != [] && segments[|segments| - 1].closed, false)
  }

  /** The days before this one are complete, and this one up to segment n. */
  ghost predicate ListedTo(days: seq<Day>, rows: Rows, day: int, n: nat)
    requires InDayRows(rows)
  {
    && |days| == 7
    && forall d :: 0 <= d < 7 ==>
         days[d] == Listed(if d < day then DaySegments(rows, d, 3)
                           else if d == day then DaySegments(rows, d, n) else [])
  }

  lemma NothingListed(days: seq<Day>, rows: Rows)
    requires InDayRows(rows) && |days| == 7 && forall d :: 0 <= d < 7 ==> days[d] == Day([], false, false)
    ensures ListedTo(days, rows, 0, 0)
  {
  }

  lemma RowListed(days: seq<Day>, rows: Rows, day: int, n: nat)
    requires InDayRows(rows) && 0 <= day < 7 && ListedTo(days, rows, day, n)
    ensures |days| == 7
    ensures (day, n + 1) !in rows ==> ListedTo(days, rows, day, n + 1)
    ensures (day, n + 1) in rows ==>
      var s := SegmentOf(rows[(day, n + 1)], day, n + 1);
      ListedTo(days[day := Day(days[day].segments + [s], s.closed, false)], rows, day, n + 1)
  {
    hide SegmentOf;
  }

  lemma DayListed(days: seq<Day>, rows: Rows, day: int)
    requires InDayRows(rows) && ListedTo(days, rows, day, 3)
    ensures ListedTo(days, rows, day + 1, 0)
  {
    hide SegmentOf;
    assert forall d :: DaySegments(rows, d, 0) == [];
  }

  lemma WeekListed(days: seq<Day>, rows: Rows)
    requires InDayRows(rows) && ListedTo(days, rows, 7, 0)
    ensures |days| == 7 && forall d :: 0 <= d < 7 ==> days[d] == Listed(DaySegments(rows, d, 3))
  {
  }

  /** How a day is shown: its rows, the last of which says whether it is closed; or the default of a day not set. */
  function DayOf(rows: Rows, day: int): Day
    requires InDayRows(rows)
  {
    var segments := DaySegments(rows, day, 3);
    if segments == [] then Day([Segment(day, 1, "08:00", "18:00", false)], false, true)
    else Listed(segments)
  }

  /** Minutes of a text HH:MM, as the status check reads it. */
  predicate TimeInRange(minute: nat, opens: string, closes: string) {
    var start, end := ParseTime(opens), ParseTime(closes);
    start.Some? && end.Some? && start.value <= minute < if end.value <= start.value then end.value + 1440 else end.value
  }

  /** On stored times the check is plain arithmetic. */
  lemma {:induction false} RangeRead(minute: nat, opens: nat, closes: nat)
    requires minute < 1440 && opens < 1440 && closes < 1440
    ensures TimeInRange(minute, Text(Some(opens)), Text(Some(closes)))
      <==> opens <= minute && (minute < closes || closes <= opens)
  {
    TimeRead(opens);
    TimeRead(closes);
  }

  lemma TextBlank(t: Option<nat>)
    requires t.Some? ==> t.value < 1440
    ensures Text(t) == "" <==> t.None?
  {
  }

  lemma TextShown(t: Option<nat>)
    requires t.Some? ==> t.value < 1440
    ensures t.Some? ==> Text(t) == TimeText(t.value)
  {
    if t.Some? {
      TimeRead(t.value);
    }
  }

  /** The opening ranges of a day's first n segments: from and to, for those not closed with both times. */
  function Ranges(rows: Rows, day: int, n: nat): seq<string>
    requires InDayRows(rows)
  {
    if n == 0 then []
    else
      Ranges(rows, day, n - 1)
      + (if (day, n) in rows && !rows[(day, n)].closed && rows[(day, n)].opens.Some? && rows[(day, n)].closes.Some?
         then [TimeText(rows[(day, n)].opens.value) + "-" + TimeText(rows[(day, n)].closes.value)] else [])
  }

  /** Segment n is the first to cover the minute, and these are the ranges up to it. */
  ghost predicate FirstCovers(rows: Rows, day: int, n: nat, minute: nat, ranges: seq<string>)
    requires InDayRows(rows)
  {
    && Covers(rows, day, n, minute) && ranges == Ranges(rows, day, n)
    && forall m :: 1 <= m < n ==> !Covers(rows, day, m, minute)
  }

  datatype Label = OpenToday(ranges: seq<string>) | HoursNotSet | ClosedToday | Today(ranges: seq<string>)

  class PlantHours {
    var rows: Rows

    constructor ()
      ensures rows == map[]
    {
      rows := map[];
    }

    /** Deletes the week and inserts the segments; on a key conflict the transaction is rolled back. */
    method ReplaceWeek(segments: seq<Segment>) returns (ok: bool)
      modifies this
      ensures ok == InsertAll(segments).Some?
      ensures rows == if ok then InsertAll(segments).value else old(rows)
      ensures ok ==> InDayRows(rows)
    {
      var began := rows;
      rows := map[];
      for i := 0 to |segments|
        invariant InsertAll(segments[..i]) == Some(rows)
      {
        InsertNext(segments, i);
        var s := segments[i];
        if s.day < 0 || s.day > 6 || s.segment < 1 || s.segment > 3 {
          continue;
        }
        if s.closed {
          rows := rows[(s.day, 1) := Row(None, None, true)];
          continue;
        }
        if ParseTime(s.opens).None? || ParseTime(s.closes).None? {
          continue;
        }
        if (s.day, s.segment) in rows {
          rows := began;
          return false;
        }
        rows := rows[(s.day, s.segment) := Row(ParseTime(s.opens), ParseTime(s.closes), false)];
      }
      assert segments[..|segments|] == segments;
      InsertAllInDay(segments);
      return true;
    }

    /** The rows in order of day and segment, then the days without any. */
    method Week() returns (days: seq<Day>)
      requires InDayRows(rows)
      ensures |days| == 7 && forall d :: 0 <= d < 7 ==> days[d] == DayOf(rows, d)
    {
      hide ListedTo, SegmentOf, DaySegments;
      days := seq(7, d => Day([], false, false));
      NothingListed(days, rows);
      for day := 0 to 7
        invariant |days| == 7 && ListedTo(days, rows, day, 0)
      {
        for segment := 1 to 4
          invariant |days| == 7 && ListedTo(days, rows, day, segment - 1)
        {
          RowListed(days, rows, day, segment - 1);
          if (day, segment) in rows {
            var s := SegmentOf(rows[(day, segment)], day, segment);
            days := days[day := Day(days[day].segments + [s], s.closed, false)];
          }
        }
        DayListed(days, rows, day);
      }
      WeekListed(days, rows);
      for day := 0 to 7
        invariant |days| == 7
        invariant forall d :: 0 <= d < day ==> days[d] == DayOf(rows, d)
        invariant forall d :: day <= d < 7 ==> days[d] == Listed(DaySegments(rows, d, 3))
      {
        if days[day].segments == [] {
          days := days[day := Day([Segment(day, 1, "08:00", "18:00", false)], false, true)];
        }
      }
    }

    /** Open exactly when the day has no rows, or one that is not closed covers the minute. */
    method StatusNow(day: int, minute: nat) returns (isOpen: bool, text: Label)
      requires InDayRows(rows) && minute < 1440
      ensures isOpen <==> OpenAt(rows, day, minute)
      ensures isOpen <==> text.OpenToday? || text.HoursNotSet?
      ensures text.HoursNotSet? <==> NoRows(rows, day)
      ensures text.OpenToday? ==> exists n :: 1 <= n <= 3 && FirstCovers(rows, day, n, minute, text.ranges)
      ensures text.ClosedToday? ==> Ranges(rows, day, 3) == []
      ensures text.Today? ==> text.ranges == Ranges(rows, day, 3) != []
    {
      hide TimeInRange, ParseTime, TimeText, DatabaseText, TrimSeconds;
      var anyRows := false;
      var labels := [];
      for segment := 1 to 4
        invariant labels == Ranges(rows, day, segment - 1)
        invariant anyRows <==> exists n :: 1 <= n < segment && (day, n) in rows
        invariant forall n :: 1 <= n < segment ==> !Covers(rows, day, n, minute)
      {
        if (day, segment) !in rows {
          continue;
        }
        anyRows := true;
        var r := rows[(day, segment)];
        if r.closed {
          continue;
        }
        var opens, closes := Text(r.opens), Text(r.closes);
        assert InDayRow(r);
        TextShown(r.opens);
        TextShown(r.closes);
        TextBlank(r.opens);
        TextBlank(r.closes);
        if opens == "" || closes == "" {
          continue;
        }
        RangeRead(minute, r.opens.value, r.closes.value);
        labels := labels + [opens + "-" + closes];
        assert labels == Ranges(rows, day, segment);
        if TimeInRange(minute, opens, closes) {
          assert FirstCovers(rows, day, segment, minute, labels);
          return true, OpenToday(labels);
        }
      }
      if !anyRows {
        return true, HoursNotSet;
      }
      return false, if labels == [] then ClosedToday else Today(labels);
    }
  }

  lemma {:induction false} InsertAllInDay(segments: seq<Segment>)
    ensures InsertAll(segments).Some? ==> InDayRows(InsertAll(segments).value)
  {
    if segments != [] {
      InsertAllInDay(segments[..|segments| - 1]);
    }
  }

  lemma {:induction false} InsertNext(segments: seq<Segment>, i: nat)
    requires i < |segments| && InsertAll(segments[..i]).Some?
    ensures InsertAll(segments[..i + 1]) == Insert(InsertAll(segments[..i]).value, segments[i])
    ensures InsertAll(segments[..i + 1]).None? ==> InsertAll(segments).None?
  {
    assert segments[..i + 1][..i] == segments[..i];
    if InsertAll(segments[..i + 1]).None? {
      RefusedForGood(segments, i + 1);
    }
  }

  lemma {:induction false} RefusedForGood(segments: seq<Segment>, i: nat)
    requires i <= |segments| && InsertAll(segments[..i]).None?
    ensures InsertAll(segments).None?
  {
    if i == |segments| {
      assert segments[..i] == segments;
    } else {
      var init := segments[..|segments| - 1];
      assert init[..i] == segments[..i];
      RefusedForGood(init, i);
    }
  }

  // ---- open or not, in minutes ----

  predicate NoRows(rows: Rows, day: int) {
    (day, 1) !in rows && (day, 2) !in rows && (day, 3) !in rows
  }

  /** A stored segment covers a minute of its day; one that does not end after it starts runs to midnight. */
  predicate Covers(rows: Rows, day: int, segment: int, minute: nat) {
    && (day, segment) in rows
    && var r := rows[(day, segment)];
       && !r.closed && r.opens.Some? && r.closes.Some? && r.opens.value <= minute
       && (minute < r.closes.value || r.closes.value <= r.opens.value)
  }

  predicate OpenAt(rows: Rows, day: int, minute: nat) {
    NoRows(rows, day) || Covers(rows, day, 1, minute) || Covers(rows, day, 2, minute) || Covers(rows, day, 3, minute)
  }

  // ---- the round trip ----

  /** The times in a segment's two fields. */
  function OpenTime(form: Form, day: int, segment: int): Option<nat> {
    ParseTime(TrimSpace(FormValue(form, OpenText(day, segment))))
  }

  function CloseTime(form: Form, day: int, segment: int): Option<nat> {
    ParseTime(TrimSpace(FormValue(form, CloseText(day, segment))))
  }

  /** The form gives a whole opening and closing time for this segment. */
  predicate Given(form: Form, day: int, segment: int) {
    !IsClosed(form, day) && OpenTime(form, day, segment).Some? && CloseTime(form, day, segment).Some?
  }

  /** What the first n days of a form leave in the table. */
  ghost predicate Stored(rows: Rows, form: Form, n: nat) {
    && (forall d, s :: (d, s) in rows ==> 0 <= d < n && 1 <= s <= 2)
    && (forall d :: 0 <= d < n ==> DayStored(rows, form, d))
  }

  /** A closed day has one closed row; any other day one row for each segment given. */
  predicate DayStored(rows: Rows, form: Form, d: int) {
    if IsClosed(form, d) then (d, 1) in rows && rows[(d, 1)] == Row(None, None, true) && (d, 2) !in rows
    else SegmentStored(rows, form, d, 1) && SegmentStored(rows, form, d, 2)
  }

  predicate SegmentStored(rows: Rows, form: Form, d: int, s: int) {
    && ((d, s) in rows <==> Given(form, d, s))
    && ((d, s) in rows ==> rows[(d, s)] == Row(OpenTime(form, d, s), CloseTime(form, d, s), false))
  }

  lemma {:induction false} InsertSnoc(segments: seq<Segment>, s: Segment)
    requires InsertAll(segments).Some?
    ensures InsertAll(segments + [s]) == Insert(InsertAll(segments).value, s)
  {
    assert (segments + [s])[..|segments|] == segments;
  }

  /** At most the row of key k is new. */
  ghost predicate OneMore(before: Rows, after: Rows, k: (int, int)) {
    && (forall j :: j in before ==> j in after && after[j] == before[j])
    && (forall j :: j in after ==> j in before || j == k)
  }

  /** Inserting what the form says about one segment of a day not closed. */
  lemma SegmentInserted(segments: seq<Segment>, form: Form, d: int, s: int)
    requires InsertAll(segments).Some? && (d, s) !in InsertAll(segments).value
    requires 0 <= d < 7 && 1 <= s <= 2 && !IsClosed(form, d)
    ensures var after := InsertAll(segments + FormSegment(form, d, s));
      after.Some? && SegmentStored(after.value, form, d, s) && OneMore(InsertAll(segments).value, after.value, (d, s))
  {
    hide TrimSpace, InDay, InsertAll, IsDigit;
    if FormSegment(form, d, s) == [] {
      assert segments + [] == segments;
    } else {
      InsertSnoc(segments, FormSegment(form, d, s)[0]);
    }
  }

  /** The rows of the other days are the same. */
  ghost predicate OthersKept(before: Rows, after: Rows, d: int) {
    && (forall e, s :: (e, s) in before ==> e != d && (e, s) in after && after[(e, s)] == before[(e, s)])
    && (forall e, s :: (e, s) in after ==> (e, s) in before || (e == d && 1 <= s <= 2))
  }

  lemma StoredGrows(before: Rows, after: Rows, form: Form, d: nat)
    requires Stored(before, form, d) && OthersKept(before, after, d) && DayStored(after, form, d)
    ensures Stored(after, form, d + 1)
  {
    forall e | 0 <= e < d ensures DayStored(after, form, e) {
      assert DayStored(before, form, e);
      assert (e, 1) in after <==> (e, 1) in before;
      assert (e, 2) in after <==> (e, 2) in before;
    }
  }

  lemma {:induction false} TwoSegmentsStored(before: Rows, middle: Rows, after: Rows, form: Form, d: int)
    requires forall e, s :: (e, s) in before ==> e != d
    requires OneMore(before, middle, (d, 1)) && OneMore(middle, after, (d, 2)) && !IsClosed(form, d)
    requires SegmentStored(middle, form, d, 1) && SegmentStored(after, form, d, 2)
    ensures OthersKept(before, after, d) && DayStored(after, form, d)
  {
    hide Given;
  }

  lemma OpenDayInserted(segments: seq<Segment>, form: Form, d: nat)
    requires d < 7 && InsertAll(segments).Some? && Stored(InsertAll(segments).value, form, d) && !IsClosed(form, d)
    ensures var after := InsertAll(segments + FormDay(form, d));
      after.Some? && OthersKept(InsertAll(segments).value, after.value, d) && DayStored(after.value, form, d)
  {
    hide InsertAll, FormSegment, SegmentStored, OneMore, OthersKept, DayStored, IsClosed;
    var first, second := FormSegment(form, d, 1), FormSegment(form, d, 2);
    assert FormSegments(form, d, 1) == first;
    assert segments + FormDay(form, d) == segments + first + second;
    SegmentInserted(segments, form, d, 1);
    OtherKey(InsertAll(segments).value, InsertAll(segments + first).value, d);
    SegmentInserted(segments + first, form, d, 2);
    TwoSegmentsStored(InsertAll(segments).value, InsertAll(segments + first).value,
                      InsertAll(segments + first + second).value, form, d);
  }

  lemma OtherKey(before: Rows, middle: Rows, d: int)
    requires OneMore(before, middle, (d, 1)) && (d, 2) !in before
    ensures (d, 2) !in middle
  {
  }

  lemma DayInserted(segments: seq<Segment>, form: Form, d: nat)
    requires d < 7 && InsertAll(segments).Some? && Stored(InsertAll(segments).value, form, d)
    ensures var after := InsertAll(segments + FormDay(form, d)); after.Some? && Stored(after.value, form, d + 1)
  {
    if IsClosed(form, d) {
      InsertSnoc(segments, Segment(d, 1, "", "", true));
    } else {
      OpenDayInserted(segments, form, d);
    }
    hide Given, Insert, InsertAll, FormDay;
    StoredGrows(InsertAll(segments).value, InsertAll(segments + FormDay(form, d)).value, form, d);
  }

  /** No form ever conflicts with itself, and each day is stored as given. */
  lemma {:induction false} FormStored(form: Form, n: nat)
    requires n <= 7
    ensures InsertAll(FormDays(form, n)).Some? && Stored(InsertAll(FormDays(form, n)).value, form, n)
  {
    if n > 0 {
      hide InsertAll, Stored, FormDay;
      FormStored(form, n - 1);
      DayInserted(FormDays(form, n - 1), form, n - 1);
    }
  }

  /** A saved form: the rows it leaves, for any form at all. */
  function Saved(form: Form): (rows: Rows)
    ensures InsertAll(FormDays(form, 7)) == Some(rows) && Stored(rows, form, 7) && InDayRows(rows)
  {
    FormStored(form, 7);
    var rows := InsertAll(FormDays(form, 7)).value;
    StoredInDay(rows, form);
    rows
  }

  lemma StoredInDay(rows: Rows, form: Form)
    requires Stored(rows, form, 7)
    ensures InDayRows(rows)
  {
    forall k | k in rows ensures InDayRow(rows[k]) {
      var (d, s) := k;
      assert (d, s) in rows && DayStored(rows, form, d);
    }
  }

  /** The segments of a form's day as the week shows them again: those given in full, in two-digit times. */
  function ShownSegment(form: Form, d: int, s: int): seq<Segment> {
    if Given(form, d, s) then
      [Segment(d, s, TimeText(OpenTime(form, d, s).value), TimeText(CloseTime(form, d, s).value), false)]
    else []
  }

  function ShownDay(form: Form, d: int): Day {
    var segments := ShownSegment(form, d, 1) + ShownSegment(form, d, 2);
    if IsClosed(form, d) then Day([Segment(d, 1, "", "", true)], true, false)
    else if segments == [] then Day([Segment(d, 1, "08:00", "18:00", false)], false, true)
    else Day(segments, false, false)
  }

  lemma {:induction false} SegmentShown(rows: Rows, form: Form, d: int, s: int)
    requires InDayRows(rows) && SegmentStored(rows, form, d, s) && !IsClosed(form, d)
    ensures (if (d, s) in rows then [SegmentOf(rows[(d, s)], d, s)] else []) == ShownSegment(form, d, s)
  {
    if Given(form, d, s) {
      TimeRead(OpenTime(form, d, s).value);
      TimeRead(CloseTime(form, d, s).value);
    }
  }

  /** The segments listed for a day with rows for its first two segments at most. */
  lemma ThreeSegments(rows: Rows, d: int)
    requires InDayRows(rows) && (d, 3) !in rows
    ensures DaySegments(rows, d, 3)
         == (if (d, 1) in rows then [SegmentOf(rows[(d, 1)], d, 1)] else [])
            + (if (d, 2) in rows then [SegmentOf(rows[(d, 2)], d, 2)] else [])
  {
    hide SegmentOf;
    assert DaySegments(rows, d, 0) == [];
    assert DaySegments(rows, d, 3) == DaySegments(rows, d, 2);
  }

  /** The row's texts as the database gives them, without seconds, or blank. */
  function ShownRow(rows: Rows, d: int, s: int): seq<Segment>
    requires InDayRows(rows)
  {
    if (d, s) !in rows then []
    else
      var r := rows[(d, s)];
      [Segment(d, s, if r.opens.Some? then TimeText(r.opens.value) else "",
               if r.closes.Some? then TimeText(r.closes.value) else "", r.closed)]
  }

  /**
   A day shows its rows in order, and is closed when the last one says so; without rows it shows the
   default, unset.
   */
  lemma {:induction false} DayShownExactly(rows: Rows, d: int)
    requires InDayRows(rows)
    ensures var day := DayOf(rows, d);
      && (day.unset <==> (d, 1) !in rows && (d, 2) !in rows && (d, 3) !in rows)
      && day.segments == (if day.unset then [Segment(d, 1, "08:00", "18:00", false)]
                          else ShownRow(rows, d, 1) + ShownRow(rows, d, 2) + ShownRow(rows, d, 3))
      && (day.closed <==> if (d, 3) in rows then rows[(d, 3)].closed
                          else if (d, 2) in rows then rows[(d, 2)].closed
                          else (d, 1) in rows && rows[(d, 1)].closed)
  {
    forall s | (d, s) in rows ensures [SegmentOf(rows[(d, s)], d, s)] == ShownRow(rows, d, s) {
      var r := rows[(d, s)];
      assert InDayRow(r);
      if r.opens.Some? {
        TimeRead(r.opens.value);
      }
      if r.closes.Some? {
        TimeRead(r.closes.value);
      }
    }
    hide TimeText, DatabaseText, ParseTime, SegmentOf;
    assert DaySegments(rows, d, 0) == [];
    assert DaySegments(rows, d, 1) == ShownRow(rows, d, 1);
    assert DaySegments(rows, d, 2) == ShownRow(rows, d, 1) + ShownRow(rows, d, 2);
    assert DaySegments(rows, d, 3) == ShownRow(rows, d, 1) + ShownRow(rows, d, 2) + ShownRow(rows, d, 3);
  }

  lemma OpenDayShown(rows: Rows, form: Form, d: int)
    requires InDayRows(rows) && DayStored(rows, form, d) && (d, 3) !in rows && !IsClosed(form, d)
    ensures DayOf(rows, d) == ShownDay(form, d)
  {
    hide ShownSegment, SegmentOf, SegmentStored, DaySegments, Given;
    ThreeSegments(rows, d);
    SegmentShown(rows, form, d, 1);
    SegmentShown(rows, form, d, 2);
    ShownOpen(form, d, 1);
    ShownOpen(form, d, 2);
  }

  lemma ShownOpen(form: Form, d: int, s: int)
    ensures forall t :: t in ShownSegment(form, d, s) ==> !t.closed
  {
  }

  lemma ClosedDayShown(rows: Rows, form: Form, d: int)
    requires InDayRows(rows) && DayStored(rows, form, d) && (d, 3) !in rows && IsClosed(form, d)
    ensures DayOf(rows, d) == ShownDay(form, d)
  {
    hide DaySegments;
    ThreeSegments(rows, d);
  }

  /** Saving any form and reading the week again shows each day as the form gave it. */
  lemma {:induction false} WeekShowsForm(form: Form, d: int)
    requires 0 <= d < 7
    ensures DayOf(Saved(form), d) == ShownDay(form, d)
  {
    var rows := Saved(form);
    assert DayStored(rows, form, d) && (d, 3) !in rows;
    hide Saved, DayOf, ShownDay, DayStored, IsClosed, Stored;
    if IsClosed(form, d) {
      ClosedDayShown(rows, form, d);
    } else {
      OpenDayShown(rows, form, d);
    }
  }

  /** Blank, or both times in full with two-digit hours, and nothing around them. */
  predicate Canonical(form: Form, d: int, s: int) {
    var opens, closes := FormValue(form, OpenText(d, s)), FormValue(form, CloseText(d, s));
    || (opens == "" && closes == "")
    || (|opens| == 5 && |closes| == 5 && ParseTime(opens).Some? && ParseTime(closes).Some?)
  }

  /** The segment with just what stands in its two fields, or none when both are blank. */
  function FieldSegment(form: Form, d: int, s: int): seq<Segment> {
    var opens, closes := FormValue(form, OpenText(d, s)), FormValue(form, CloseText(d, s));
    if opens == "" && closes == "" then [] else [Segment(d, s, opens, closes, false)]
  }

  lemma CanonicalShown(form: Form, d: int, s: int)
    requires Canonical(form, d, s) && !IsClosed(form, d)
    ensures ShownSegment(form, d, s) == FieldSegment(form, d, s)
  {
    var opens, closes := FormValue(form, OpenText(d, s)), FormValue(form, CloseText(d, s));
    if opens != "" {
      assert TrimSpace(opens) == opens && TrimSpace(closes) == closes;
      TimeShown(opens);
      TimeShown(closes);
    }
  }

  /**
   A canonical form comes back unchanged: a day is closed exactly when its box says so, is shown with
   the texts of its fields otherwise, and is unset when these are all blank.
   */
  lemma {:induction false} CanonicalRoundTrip(form: Form, d: int)
    requires 0 <= d < 7 && Canonical(form, d, 1) && Canonical(form, d, 2)
    ensures var day := DayOf(Saved(form), d);
      var fields := FieldSegment(form, d, 1) + FieldSegment(form, d, 2);
      && (day.closed <==> ClosedBox(d) in form && form[ClosedBox(d)] == "true")
      && (day.closed ==> day.segments == [Segment(d, 1, "", "", true)] && !day.unset)
      && (!day.closed ==> (day.unset <==> fields == []))
      && (!day.closed ==> day.segments == if fields == [] then [Segment(d, 1, "08:00", "18:00", false)] else fields)
  {
    hide Saved, DayOf, Canonical, ShownSegment, FieldSegment;
    WeekShowsForm(form, d);
    if !IsClosed(form, d) {
      CanonicalShown(form, d, 1);
      CanonicalShown(form, d, 2);
    }
  }

  /** The two fields of a segment hold times, and a minute of the day lies between them. */
  predicate FieldsCover(form: Form, d: int, s: int, minute: nat) {
    var opens := ParseTime(TrimSpace(FormValue(form, OpenText(d, s))));
    var closes := ParseTime(TrimSpace(FormValue(form, CloseText(d, s))));
    && opens.Some? && closes.Some? && opens.value <= minute
    && (minute < closes.value || closes.value <= opens.value)
  }

  /** The two fields of a segment hold times. */
  predicate FieldsGiven(form: Form, d: int, s: int) {
    && ParseTime(TrimSpace(FormValue(form, OpenText(d, s)))).Some?
    && ParseTime(TrimSpace(FormValue(form, CloseText(d, s)))).Some?
  }

  /**
   After saving a form the plant is open exactly when the day is not closed and gives no whole segment,
   or one whose fields cover the minute.
   */
  lemma OpenAfterSaving(form: Form, d: int, minute: nat)
    requires 0 <= d < 7
    ensures OpenAt(Saved(form), d, minute) <==>
      && !(ClosedBox(d) in form && form[ClosedBox(d)] == "true")
      && ((!FieldsGiven(form, d, 1) && !FieldsGiven(form, d, 2))
          || FieldsCover(form, d, 1, minute) || FieldsCover(form, d, 2, minute))
  {
    var rows := Saved(form);
    assert DayStored(rows, form, d) && (d, 3) !in rows;
    hide Saved, ParseTime, TrimSpace;
  }

  // ---- any segments ----

  ghost predicate DifferentKeys(segments: seq<Segment>) {
    forall i, j :: 0 <= i < j < |segments| ==>
      segments[i].day != segments[j].day || segments[i].segment != segments[j].segment
  }

  /** A segment of the week with both times in full. */
  predicate Storable(x: Segment) {
    0 <= x.day <= 6 && 1 <= x.segment <= 3 && !x.closed && ParseTime(x.opens).Some? && ParseTime(x.closes).Some?
  }

  /** Open segments with different keys are stored, all those of the week with both times in full and no others. */
  lemma {:induction false} SegmentsStored(segments: seq<Segment>)
    requires DifferentKeys(segments) && forall i :: 0 <= i < |segments| ==> !segments[i].closed
    ensures InsertAll(segments).Some?
    ensures var rows := InsertAll(segments).value;
      && (forall d, s :: (d, s) in rows <==>
            exists i :: 0 <= i < |segments| && segments[i].day == d && segments[i].segment == s
                        && Storable(segments[i]))
      && forall i :: 0 <= i < |segments| && Storable(segments[i]) ==>
           && (segments[i].day, segments[i].segment) in rows
           && rows[(segments[i].day, segments[i].segment)]
              == Row(ParseTime(segments[i].opens), ParseTime(segments[i].closes), false)
  {
    if segments != [] {
      hide ParseTime;
      var n := |segments| - 1;
      var init, last := segments[..n], segments[n];
      SegmentsStored(init);
      var before := InsertAll(init).value;
      assert (last.day, last.segment) !in before;
      assert InsertAll(segments) == Insert(before, last);
      forall d, s
        ensures (d, s) in InsertAll(segments).value <==>
          exists i :: 0 <= i < |segments| && segments[i].day == d && segments[i].segment == s && Storable(segments[i])
      {
        assert (d, s) in before <==>
          exists i :: 0 <= i < |init| && init[i].day == d && init[i].segment == s && Storable(init[i]);
        assert forall i :: 0 <= i < n ==> init[i] == segments[i];
      }
    }
  }

  /** A closed day overwrites its first segment, and a segment stored twice is refused. */
  lemma {:induction false} ClosedOrTwice(d: int, s: int, opens: string, closes: string, again: string)
    requires Storable(Segment(d, s, opens, closes, false)) && ParseTime(again).Some?
    ensures InsertAll([Segment(d, 1, opens, closes, false), Segment(d, s, "", "", true)])
         == Some(map[(d, 1) := Row(None, None, true)])
    ensures InsertAll([Segment(d, s, opens, closes, false), Segment(d, s, again, closes, false)]) == None
  {
    var first, closed := Segment(d, 1, opens, closes, false), Segment(d, s, "", "", true);
    assert InsertAll([]) == Some(map[]);
    assert [first, closed][..1] == [first] && [first][..0] == [];
    var row := Row(ParseTime(opens), ParseTime(closes), false);
    assert InsertAll([first]) == Some(map[(d, 1) := row]);
    assert map[(d, 1) := row][(d, 1) := Row(None, None, true)] == map[(d, 1) := Row(None, None, true)];
    var one, two := Segment(d, s, opens, closes, false), Segment(d, s, again, closes, false);
    assert [one, two][..1] == [one] && [one][..0] == [];
    hide ParseTime;
  }
}
