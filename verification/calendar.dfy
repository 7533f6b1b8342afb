/** Calendar arithmetic of the scheduling and reminder steps. Days are
    numbered consecutively (day 0 is any fixed date); instants are minutes
    since midnight of day 0. "Today" and its weekday come from the clock and
    are parameters here. Weekdays follow Python's `date.weekday()`:
    Monday is 0 and Sunday is 6. */
module Calendar {
  import opened Wrappers
  import opened Decimal

  const MinutesPerHour := 60
  const MinutesPerDay := 24 * MinutesPerHour

  // ----- Candidate booking dates -----

  /** Weekday of the day `offset` days after a day whose weekday is `weekday`. */
  function WeekdayAfter(weekday: int, offset: int): (w: int)
    requires 0 <= weekday < 7
    ensures 0 <= w < 7
    ensures offset % 7 == 0 ==> w == weekday
    ensures (weekday + offset + 7) % 7 == w
  {
    (weekday + offset) % 7
  }

  /** Each day on, the weekday advances by one, Sunday wrapping to Monday. */
  lemma {:induction false} WeekdayAfterNextDay(weekday: int, offset: int)
    requires 0 <= weekday < 7
    ensures WeekdayAfter(weekday, offset + 1) == (WeekdayAfter(weekday, offset) + 1) % 7
    ensures WeekdayAfter(weekday, offset) == 6 ==> WeekdayAfter(weekday, offset + 1) == 0
  {
    var q := (weekday + offset) / 7;
    assert weekday + offset == 7 * q + WeekdayAfter(weekday, offset);
    assert weekday + offset + 1 == 7 * q + (WeekdayAfter(weekday, offset) + 1);
  }

  /** `day` is one of the next seven days and falls Monday to Friday. */
  predicate BookableDay(today: int, weekday: int, day: int)
    requires 0 <= weekday < 7
  {
    today + 1 <= day <= today + 7 && WeekdayAfter(weekday, day - today) < 5
  }

  predicate StrictlyIncreasing(s: seq<int>) {
    forall i, j :: 0 <= i < j < |s| ==> s[i] < s[j]
  }

  /** How many of the days `today + 1 .. today + k` fall Monday to Friday. */
  function WorkdaysAhead(weekday: int, k: nat): nat
    requires 0 <= weekday < 7
  {
    if k == 0 then 0
    else WorkdaysAhead(weekday, k - 1) + (if WeekdayAfter(weekday, k) < 5 then 1 else 0)
  }

  /** Any seven consecutive days hold exactly five working days. */
  lemma WeekHoldsFiveWorkdays(weekday: int)
    requires 0 <= weekday < 7
    ensures WorkdaysAhead(weekday, 7) == 5
  {
    var counts := [WorkdaysAhead(weekday, 0), WorkdaysAhead(weekday, 1), WorkdaysAhead(weekday, 2),
                   WorkdaysAhead(weekday, 3), WorkdaysAhead(weekday, 4), WorkdaysAhead(weekday, 5),
                   WorkdaysAhead(weekday, 6), WorkdaysAhead(weekday, 7)];
    if weekday == 0 { assert counts == [0, 1, 2, 3, 4, 4, 4, 5]; }
    else if weekday == 1 { assert counts == [0, 1, 2, 3, 3, 3, 4, 5]; }
    else if weekday == 2 { assert counts == [0, 1, 2, 2, 2, 3, 4, 5]; }
    else if weekday == 3 { assert counts == [0, 1, 1, 1, 2, 3, 4, 5]; }
    else if weekday == 4 { assert counts == [0, 0, 0, 1, 2, 3, 4, 5]; }
    else if weekday == 5 { assert counts == [0, 0, 1, 2, 3, 4, 5, 5]; }
    else { assert counts == [0, 1, 2, 3, 4, 5, 5, 5]; }
  }

  /** The dates offered in the date picker: the next seven days, Monday to
      Friday only, earliest first. */
  method CandidateDates(today: int, weekday: int) returns (dates: seq<int>)
    requires 0 <= weekday < 7
    ensures StrictlyIncreasing(dates)
    ensures forall d :: d in dates <==> BookableDay(today, weekday, d)
    ensures |dates| == 5
  {
    dates := [];
    var i := 1;
    while i < 8
      invariant 1 <= i <= 8
      invariant StrictlyIncreasing(dates)
      invariant forall d :: d in dates <==> today + 1 <= d < today + i && WeekdayAfter(weekday, d - today) < 5
      invariant forall k :: 0 <= k < |dates| ==> dates[k] < today + i
      invariant |dates| == WorkdaysAhead(weekday, i - 1)
    {
      if WeekdayAfter(weekday, i) < 5 {
        dates := dates + [today + i];
      }
      i := i + 1;
    }
    WeekHoldsFiveWorkdays(weekday);
  }

  // ----- Appointment times -----

  /** The ten start times offered in the time picker. */
  const TimeSlots: seq<string> :=
    ["09:00", "09:30", "10:00", "10:30", "11:00", "11:30", "14:00", "14:30", "15:00", "15:30"]

  /** Minute of the day of an `HH:MM` 24-hour clock time. */
  function ParseClock(s: string): (m: Option<int>)
    ensures m.Some? ==> 0 <= m.value < MinutesPerDay
  {
    if |s| == 5 && s[2] == ':' && AllDigits(s[..2]) && AllDigits(s[3..])
       && ToNat(s[..2]) < 24 && ToNat(s[3..]) < 60
    then Some(ToNat(s[..2]) * MinutesPerHour + ToNat(s[3..]))
    else None
  }

  /** Every offered slot is a valid clock time at 09:00 or later. */
  lemma TimeSlotsAreMorningOrLater()
    ensures forall t :: t in TimeSlots ==> ParseClock(t).Some? && ParseClock(t).value >= 9 * MinutesPerHour
  {
    forall t | t in TimeSlots
      ensures ParseClock(t).Some? && ParseClock(t).value >= 9 * MinutesPerHour
    {
      assert t[2] == ':' && AllDigits(t[..2]) && AllDigits(t[3..]);
      TwoDigits(t[..2]);
      TwoDigits(t[3..]);
    }
  }

  // ----- Reminders -----

  /** The three reminder instants: standard (three days before), interactive
      (one day before) and final (four hours before). */
  datatype ReminderTimes = ReminderTimes(standard: int, interactive: int, final: int)

  function Midnight(day: int): int {
    day * MinutesPerDay
  }

  /** Calendar day of an instant (what `strftime('%Y-%m-%d')` shows). */
  function DateOf(instant: int): (day: int)
    ensures Midnight(day) <= instant < Midnight(day) + MinutesPerDay
  {
    instant / MinutesPerDay
  }

  /** The reminders as the page computes them: offsets from midnight of the
      appointment date, because the booked time is not used when the
      reminder instants are computed. */
  function RemindersAsWritten(day: int): (r: ReminderTimes)
    ensures r.standard < r.interactive < r.final < Midnight(day)
    ensures DateOf(r.standard) == day - 3 && DateOf(r.interactive) == day - 1
    ensures DateOf(r.final) == day - 1 && r.final - Midnight(day - 1) == 20 * MinutesPerHour
  {
    var m := Midnight(day);
    ReminderTimes(m - 3 * MinutesPerDay, m - MinutesPerDay, m - 4 * MinutesPerHour)
  }

  /** The final reminder as written is not four hours before an appointment
      that starts after midnight: it is four hours plus the start time. */
  lemma FinalReminderAsWrittenIsEarly(day: int, startMinute: int)
    requires 0 < startMinute < MinutesPerDay
    ensures Midnight(day) + startMinute - RemindersAsWritten(day).final == 4 * MinutesPerHour + startMinute
    ensures Midnight(day) + startMinute - RemindersAsWritten(day).final != 4 * MinutesPerHour
  {
  }

  /** For the 09:00 slot the "4 hours before" reminder fires 13 hours before,
      at 20:00 the evening before. */
  lemma FinalReminderAsWrittenNineOClock(day: int)
    ensures ParseClock("09:00") == Some(540)
    ensures Midnight(day) + 540 - RemindersAsWritten(day).final == 13 * MinutesPerHour
  {
    assert "09:00"[..2] == "09" && "09:00"[3..] == "00";
    TwoDigits("09");
    TwoDigits("00");
  }

  /** The intended reminders: 72, 24 and 4 hours before the appointment
      starts (day plus minute of the day). */
  function Reminders(day: int, startMinute: int): (r: ReminderTimes)
    requires 0 <= startMinute < MinutesPerDay
    ensures r.standard < r.interactive < r.final < Midnight(day) + startMinute
    ensures DateOf(r.standard) == day - 3 && DateOf(r.interactive) == day - 1
    ensures startMinute >= 4 * MinutesPerHour ==> DateOf(r.final) == day
    ensures startMinute < 4 * MinutesPerHour ==> DateOf(r.final) == day - 1
  {
    var start := Midnight(day) + startMinute;
    ReminderTimes(start - 72 * MinutesPerHour, start - 24 * MinutesPerHour, start - 4 * MinutesPerHour)
  }

  /** The reminders of an appointment booked at one of the offered times. */
  function ReminderSchedule(day: int, time: string): (r: Option<ReminderTimes>)
    ensures r.Some? <==> ParseClock(time).Some?
  {
    match ParseClock(time)
    case Some(m) => Some(Reminders(day, m))
    case None => None
  }

  /** For every offered slot the intended schedule exists, each reminder lies
      exactly 72, 24 and 4 hours before the start, the first two fall on the
      same dates the page shows, and the final one falls on the appointment
      day rather than the evening before. */
  lemma ReminderScheduleForSlots(day: int, time: string)
    requires time in TimeSlots
    ensures ReminderSchedule(day, time).Some?
    ensures var r := ReminderSchedule(day, time).value;
            var start := Midnight(day) + ParseClock(time).value;
            && start - r.standard == 72 * MinutesPerHour
            && start - r.interactive == 24 * MinutesPerHour
            && start - r.final == 4 * MinutesPerHour
            && DateOf(r.standard) == DateOf(RemindersAsWritten(day).standard)
            && DateOf(r.interactive) == DateOf(RemindersAsWritten(day).interactive)
            && DateOf(r.final) == day
            && DateOf(RemindersAsWritten(day).final) == day - 1
  {
    TimeSlotsAreMorningOrLater();
  }
}
