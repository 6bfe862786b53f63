/** The study-schedule suggester: two-hour sessions on the preferred days,
    starting at the hours of the preferred part of the day, with end times
    worked out on a 12-hour clock. */
module StudySchedule {

  import opened Wrappers
  import opened PyStr
  import Decimal

  const HoursPerSession: nat := 2

  // ---------------------------------------------------------------------
  // Days

  /** The weekday names, indexed by their ordinal (Sunday is 0). */
  const DayNames: seq<string> :=
    ["Sunday", "Monday", "Tuesday", "Wednesday", "Thursday", "Friday", "Saturday"]

  const DayMapping: map<string, nat> := map[
    "Sunday" := 0, "Monday" := 1, "Tuesday" := 2, "Wednesday" := 3,
    "Thursday" := 4, "Friday" := 5, "Saturday" := 6]

  /** `day_mapping.get(name, 1)`: the weekday ordinal of a name, Monday for
      anything that is not an exact, capitalised English day name. */
  function DayOrdinal(name: string): (d: nat)
    ensures d <= 6
    ensures name in DayNames ==> DayNames[d] == name
    ensures name !in DayNames ==> d == 1
  {
    if name in DayMapping then DayMapping[name] else 1
  }

  // ---------------------------------------------------------------------
  // 12-hour clock times

  datatype Period = AM | PM

  /** A whole-hour time "h:00 AM" or "h:00 PM". */
  datatype Clock = Clock(hour: nat, period: Period)

  predicate ValidClock(c: Clock) {
    1 <= c.hour <= 12
  }

  function PeriodText(p: Period): string {
    match p
    case AM => "AM"
    case PM => "PM"
  }

  /** `f"{hour}:00 {period}"` */
  function RenderClock(c: Clock): string {
    Decimal.Render(c.hour) + ":00 " + PeriodText(c.period)
  }

  /** In a rendered time the text before the colon is the hour's digits, and
      the second space-separated field is the period. */
  lemma RenderClockFields(c: Clock)
    ensures SplitHead(RenderClock(c), ':') == Decimal.Render(c.hour)
    ensures SplitSecond(RenderClock(c), ' ') == Some(PeriodText(c.period))
  {
    var digits := Decimal.Render(c.hour);
    var p := PeriodText(c.period);
    var s := RenderClock(c);
    Decimal.RenderShape(c.hour);
    assert SplitHead(s, ':') == digits by {
      assert s == digits + [':'] + ("00 " + p);
      SplitHeadAt(digits, ':', "00 " + p);
    }
    var beforeSpace := digits + ":00";
    assert SplitHead(s, ' ') == beforeSpace by {
      assert s == beforeSpace + [' '] + p;
      assert ' ' !in beforeSpace;
      SplitHeadAt(beforeSpace, ' ', p);
    }
    assert SplitHead(s[|beforeSpace| + 1..], ' ') == p by {
      assert s[|beforeSpace| + 1..] == p;
      SplitHeadAt(p, ' ', []);
    }
  }

  /** What the suggester reads back from a start time: the hour is
      `int(s.split(':')[0])` and the period is `s.split(' ')[1]`. A missing
      field, a non-numeric hour or a period other than AM/PM is a failure. */
  function ParseClock(s: string): Option<Clock> {
    match SplitSecond(s, ' ')
    case None => None
    case Some(periodText) =>
      match Decimal.Parse(SplitHead(s, ':'))
      case None => None
      case Some(h) =>
        if periodText == "AM" then Some(Clock(h, AM))
        else if periodText == "PM" then Some(Clock(h, PM))
        else None
  }

  /** Reading a rendered time gives back its hour and period. */
  lemma ParseRenderClock(c: Clock)
    ensures ParseClock(RenderClock(c)) == Some(c)
  {
    RenderClockFields(c);
    Decimal.ParseRender(c.hour);
  }

  /** The minute of the day a valid clock time stands for (0 to 1439). */
  function MinuteOfDay(c: Clock): nat
    requires ValidClock(c)
  {
    (c.hour % 12) * 60 + (if c.period == PM then 720 else 0)
  }

  /** The end of a session that starts at `start`, as the suggester computes
      it: two hours later, taking 12 off the hour when it passes 12, and then
      always in the afternoon. */
  function EndClock(start: Clock): (r: Clock)
    ensures ValidClock(start) ==> ValidClock(r)
    ensures start.hour + HoursPerSession > 12 ==> r.period == PM
    ensures start.hour + HoursPerSession <= 12 ==> r.period == start.period
    ensures ValidClock(start) ==> r.hour % 12 == (start.hour + HoursPerSession) % 12
  {
    var endHour := start.hour + HoursPerSession;
    if endHour > 12 then
      Clock(endHour - 12, if start.period == AM then PM else PM)
    else
      Clock(endHour, start.period)
  }

  /** The start times for which the computed end is not two hours later. */
  predicate EndClockSkewed(c: Clock) {
    c.hour == 10 || (c.hour == 11 && c.period == PM) || (c.hour == 12 && c.period == AM)
  }

  /** The computed end is the wall-clock time two hours after the start
      exactly when the start is not one of the skewed times: 10 o'clock
      ends at 12 with the start's period kept, and a wrap past 12 always
      lands in the afternoon. */
  lemma EndClockWallTime(c: Clock)
    requires ValidClock(c)
    ensures MinuteOfDay(EndClock(c)) == (MinuteOfDay(c) + 120) % 1440 <==> !EndClockSkewed(c)
  {
  }

  // ---------------------------------------------------------------------
  // Start-time table

  const TimeSlots: map<string, seq<Clock>> := map[
    "morning" := [Clock(9, AM), Clock(10, AM), Clock(11, AM)],
    "afternoon" := [Clock(2, PM), Clock(3, PM), Clock(4, PM)],
    "evening" := [Clock(6, PM), Clock(7, PM), Clock(8, PM)]]

  /** `time_slots.get(preference, time_slots["morning"])`: three
      consecutive whole hours in one half of the day. */
  function StartSlots(preference: string): (r: seq<Clock>)
    ensures |r| == 3
    ensures forall i | 0 <= i < 3 :: ValidClock(r[i]) && r[i].period == r[0].period
    ensures forall i | 0 <= i < 3 :: r[i].hour == r[0].hour + i
  {
    if preference in TimeSlots then TimeSlots[preference] else TimeSlots["morning"]
  }

  /** An unknown preference falls back to the morning slots. */
  lemma StartSlotsFallback(preference: string)
    requires preference != "morning" && preference != "afternoon" && preference != "evening"
    ensures StartSlots(preference) == StartSlots("morning")
  {
  }

  /** The start times as the text the suggester hands out. */
  function StartTimes(preference: string): (r: seq<string>)
    ensures |r| == 3
  {
    var slots := StartSlots(preference);
    seq(3, i requires 0 <= i < 3 => RenderClock(slots[i]))
  }

  lemma RenderedSlots(preference: string)
    ensures var slots := StartSlots(preference);
      StartTimes(preference) == [RenderClock(slots[0]), RenderClock(slots[1]), RenderClock(slots[2])]
  {
  }

  /** Every start time in the table reads back as the slot it was rendered
      from, so the loop's `int(split(':')[0])` and `split(' ')[1]` succeed. */
  lemma StartTimesParse(preference: string, i: nat)
    requires i < 3
    ensures ParseClock(StartTimes(preference)[i]) == Some(StartSlots(preference)[i])
  {
    ParseRenderClock(StartSlots(preference)[i]);
  }

  /** The rendered table is, word for word, the table of time strings. */
  lemma StartTimeTexts()
    ensures StartTimes("morning") == ["9:00 AM", "10:00 AM", "11:00 AM"]
    ensures StartTimes("afternoon") == ["2:00 PM", "3:00 PM", "4:00 PM"]
    ensures StartTimes("evening") == ["6:00 PM", "7:00 PM", "8:00 PM"]
  {
    assert Decimal.Render(10) == "10";
    assert Decimal.Render(11) == "11";
    RenderedSlots("morning");
    RenderedSlots("afternoon");
    RenderedSlots("evening");
    assert RenderClock(Clock(9, AM)) == "9:00 AM";
    assert RenderClock(Clock(10, AM)) == "10:00 AM";
    assert RenderClock(Clock(11, AM)) == "11:00 AM";
    assert RenderClock(Clock(2, PM)) == "2:00 PM";
    assert RenderClock(Clock(3, PM)) == "3:00 PM";
    assert RenderClock(Clock(4, PM)) == "4:00 PM";
    assert RenderClock(Clock(6, PM)) == "6:00 PM";
    assert RenderClock(Clock(7, PM)) == "7:00 PM";
    assert RenderClock(Clock(8, PM)) == "8:00 PM";
  }

  /** Of all the slots in the table, only 10:00 AM gets a wrong end time. */
  lemma SkewedSlots(preference: string, i: nat)
    requires i < 3
    ensures EndClockSkewed(StartSlots(preference)[i]) <==> StartSlots(preference)[i] == Clock(10, AM)
  {
  }

  // ---------------------------------------------------------------------
  // Sessions and the schedule

  datatype Session = Session(day: nat, dayName: string, startTime: string, endTime: string, duration: nat)

  datatype ScheduleResult = ScheduleResult(
    success: bool,
    totalHours: int,
    sessionsPerWeek: nat,
    schedule: seq<Session>,
    message: string)

  /** `min(available_hours // 2, len(preferred_days))`, and no sessions at all
      when that is negative: as many two-hour sessions as the hours allow,
      at most one per preferred day. */
  function SessionCount(availableHours: int, dayCount: nat): (n: nat)
    ensures n <= dayCount
    ensures n > 0 ==> HoursPerSession * n <= availableHours
    ensures n == dayCount || availableHours < HoursPerSession * (n + 1)
  {
    var numSessions := availableHours / HoursPerSession;
    var bound := if numSessions < dayCount then numSessions else dayCount;
    if bound < 0 then 0 else bound
  }

  /** The session the loop builds in round `i`. */
  function SessionFor(i: nat, days: seq<string>, slots: seq<Clock>): Session
    requires i < |days| && |slots| > 0
  {
    var slot := slots[i % |slots|];
    Session(DayOrdinal(days[i]), days[i], RenderClock(slot), RenderClock(EndClock(slot)), HoursPerSession)
  }

  /** The first `n` sessions, appended one round at a time. */
  function Sessions(n: nat, days: seq<string>, slots: seq<Clock>): (r: seq<Session>)
    requires n <= |days| && |slots| > 0
    ensures |r| == n
    ensures forall k | 0 <= k < n :: r[k] == SessionFor(k, days, slots)
  {
    if n == 0 then [] else Sessions(n - 1, days, slots) + [SessionFor(n - 1, days, slots)]
  }

  function Message(count: nat): string {
    "Created " + Decimal.Render(count) + " study sessions totaling "
      + Decimal.Render(count * HoursPerSession) + " hours"
  }

  /** The message's first number is the session count and the number after
      "totaling " is the hour total: both read back from the text. */
  lemma MessageCounts(count: nat)
    ensures var m := Message(count);
      var k := |Decimal.Render(count)|;
      && 8 + k + 25 <= |m|
      && m[..8] == "Created "
      && Decimal.Parse(SplitHead(m[8..], ' ')) == Some(count)
      && Decimal.Parse(SplitHead(m[8 + k + 25..], ' ')) == Some(count * HoursPerSession)
  {
    Decimal.RenderShape(count);
    Decimal.RenderShape(count * HoursPerSession);
    Decimal.ParseRender(count);
    Decimal.ParseRender(count * HoursPerSession);
    MessageParts(Message(count), "Created ", Decimal.Render(count), " study sessions totaling ",
      Decimal.Render(count * HoursPerSession), " hours");
  }

  /** In `m == lead + a + middle + b + unit`, where `a` and `b` hold no space
      and the middle and the unit start with one, the first space-separated
      field after `lead` is `a`, and the one after the middle is `b`. */
  lemma MessageParts(m: string, lead: string, a: string, middle: string, b: string, unit: string)
    requires ' ' !in a && ' ' !in b
    requires |middle| > 0 && middle[0] == ' ' && |unit| > 0 && unit[0] == ' '
    requires m == lead + a + middle + b + unit
    ensures |lead| + |a| + |middle| <= |m|
    ensures m[..|lead|] == lead
    ensures SplitHead(m[|lead|..], ' ') == a
    ensures SplitHead(m[|lead| + |a| + |middle|..], ' ') == b
  {
    var i := |lead|;
    var j := |lead| + |a| + |middle|;
    assert m[i..] == a + (middle + b + unit);
    assert m[j..] == b + unit;
    FieldBeforeSpace(a, middle + b + unit);
    FieldBeforeSpace(b, unit);
  }

  /** A field with no space, followed by text that starts with a space, is
      the first space-separated field. */
  lemma FieldBeforeSpace(field: string, rest: string)
    requires ' ' !in field
    requires |rest| > 0 && rest[0] == ' '
    ensures SplitHead(field + rest, ' ') == field
  {
    assert field + rest == field + [' '] + rest[1..] by {
      assert rest == [' '] + rest[1..];
    }
    SplitHeadAt(field, ' ', rest[1..]);
  }

  /** One round of the loop, computed the way the source does it (index
      modulo the list lengths, start text parsed back), is `SessionFor`. */
  lemma RoundSession(i: nat, days: seq<string>, preference: string)
    requires i < |days|
    ensures var startTime := StartTimes(preference)[i % 3];
      var parsed := ParseClock(startTime);
      && parsed.Some?
      && Session(DayOrdinal(days[i % |days|]), days[i % |days|], startTime,
           RenderClock(EndClock(parsed.value)), HoursPerSession)
         == SessionFor(i, days, StartSlots(preference))
  {
    assert i % |days| == i;
    StartTimesParse(preference, i % 3);
  }

  /** The suggester's result as a function of its arguments. */
  function ScheduleOf(availableHours: int, preferredDays: seq<string>, timePreference: string): (r: ScheduleResult)
    ensures r.success && r.totalHours == availableHours
    ensures r.sessionsPerWeek == |r.schedule| == SessionCount(availableHours, |preferredDays|)
  {
    var n := SessionCount(availableHours, |preferredDays|);
    var sessions := Sessions(n, preferredDays, StartSlots(timePreference));
    ScheduleResult(true, availableHours, |sessions|, sessions, Message(|sessions|))
  }

  /** `suggest_study_schedule_tool` */
  method SuggestStudySchedule(availableHours: int, preferredDays: seq<string>, timePreference: string)
    returns (result: ScheduleResult)
    ensures result == ScheduleOf(availableHours, preferredDays, timePreference)
  {
    var startTimes := StartTimes(timePreference);
    ghost var slots := StartSlots(timePreference);
    var sessions: seq<Session> := [];
    var numSessions := availableHours / HoursPerSession;
    var bound := if numSessions < |preferredDays| then numSessions else |preferredDays|;
    var i := 0;
    while i < bound
      invariant 0 <= i <= SessionCount(availableHours, |preferredDays|)
      invariant sessions == Sessions(i, preferredDays, slots)
    {
      RoundSession(i, preferredDays, timePreference);
      var dayName := preferredDays[i % |preferredDays|];
      var dayNum := DayOrdinal(dayName);
      var startTime := startTimes[i % |startTimes|];
      var start := ParseClock(startTime).value;
      var endTime := RenderClock(EndClock(start));
      sessions := sessions + [Session(dayNum, dayName, startTime, endTime, HoursPerSession)];
      i := i + 1;
    }
    result := ScheduleResult(true, availableHours, |sessions|, sessions, Message(|sessions|));
  }

  /** The summary fields: always a success, the hours echoed back, the
      session count equal to the length of the schedule, and the message
      quoting that count and twice it in hours. */
  lemma ScheduleSummary(availableHours: int, preferredDays: seq<string>, timePreference: string)
    ensures var r := ScheduleOf(availableHours, preferredDays, timePreference);
      && r.success
      && r.totalHours == availableHours
      && r.sessionsPerWeek == |r.schedule| == SessionCount(availableHours, |preferredDays|)
      && r.message == "Created " + Decimal.Render(r.sessionsPerWeek) + " study sessions totaling "
           + Decimal.Render(2 * r.sessionsPerWeek) + " hours"
  {
  }

  /** No session is produced exactly when there is no preferred day or less
      than one session's worth of hours. */
  lemma EmptySchedule(availableHours: int, preferredDays: seq<string>, timePreference: string)
    ensures ScheduleOf(availableHours, preferredDays, timePreference).schedule == []
        <==> |preferredDays| == 0 || availableHours < HoursPerSession
  {
  }

  /** Session `k` is on the k-th preferred day, starts at slot `k mod 3` of
      the preferred part of the day, lasts two hours, and ends at that
      slot's end clock. */
  lemma ScheduleSession(availableHours: int, preferredDays: seq<string>, timePreference: string, k: nat)
    requires k < |ScheduleOf(availableHours, preferredDays, timePreference).schedule|
    ensures var s := ScheduleOf(availableHours, preferredDays, timePreference).schedule[k];
      var slot := StartSlots(timePreference)[k % 3];
      && k < |preferredDays|
      && s.dayName == preferredDays[k]
      && s.day == DayOrdinal(preferredDays[k])
      && s.startTime == StartTimes(timePreference)[k % 3]
      && s.endTime == RenderClock(EndClock(slot))
      && s.duration == HoursPerSession
  {
  }

  /** The clock texts the morning scenario produces. */
  lemma MorningTexts()
    ensures RenderClock(Clock(9, AM)) == "9:00 AM"
    ensures RenderClock(Clock(10, AM)) == "10:00 AM"
    ensures RenderClock(Clock(11, AM)) == "11:00 AM"
    ensures RenderClock(Clock(12, AM)) == "12:00 AM"
    ensures RenderClock(Clock(1, PM)) == "1:00 PM"
  {
    assert RenderClock(Clock(10, AM)) == "10:00 AM" by {
      assert Decimal.Render(10) == "10";
    }
    assert RenderClock(Clock(11, AM)) == "11:00 AM" by {
      assert Decimal.Render(11) == "11";
    }
    assert RenderClock(Clock(12, AM)) == "12:00 AM" by {
      assert Decimal.Render(12) == "12";
    }
  }

  /** Ten hours on Monday, Wednesday and Friday mornings: three sessions,
      the Wednesday one ending at "12:00 AM". */
  lemma WeekdayMorningsScenario()
    ensures var r := ScheduleOf(10, ["Monday", "Wednesday", "Friday"], "morning");
      && r.success && r.totalHours == 10 && r.sessionsPerWeek == 3
      && r.schedule == [
           Session(1, "Monday", "9:00 AM", "11:00 AM", 2),
           Session(3, "Wednesday", "10:00 AM", "12:00 AM", 2),
           Session(5, "Friday", "11:00 AM", "1:00 PM", 2)]
      && r.message == "Created " + "3" + " study sessions totaling " + "6" + " hours"
  {
    var days := ["Monday", "Wednesday", "Friday"];
    var slots := StartSlots("morning");
    assert slots == [Clock(9, AM), Clock(10, AM), Clock(11, AM)];
    assert SessionCount(10, 3) == 3;
    MorningTexts();
    assert Decimal.Render(3) == "3" && Decimal.Render(3 * HoursPerSession) == "6";
    var sessions := Sessions(3, days, slots);
    assert sessions[0] == Session(1, "Monday", "9:00 AM", "11:00 AM", 2) by {
      assert sessions[0] == SessionFor(0, days, slots);
    }
    assert sessions[1] == Session(3, "Wednesday", "10:00 AM", "12:00 AM", 2) by {
      assert sessions[1] == SessionFor(1, days, slots);
    }
    assert sessions[2] == Session(5, "Friday", "11:00 AM", "1:00 PM", 2) by {
      assert sessions[2] == SessionFor(2, days, slots);
    }
  }
}
