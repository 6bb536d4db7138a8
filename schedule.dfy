/** A doctor's weekly working-hours template: the JSON object stored in the
    doctors.schedule column, mapping lower-case weekday names to
    start and end texts. A JSON object keeps its keys in insertion order, so
    it is modelled as a list of entries. Duplicate keys in the stored text
    are not represented: when two entries share a day, Lookup answers with
    the first. */
module WeeklySchedule {
  import opened Common
  import opened Clock
  import opened Calendar

  /** The empty string stands for a missing or falsy start or end. */
  datatype DayHours = DayHours(start: string, end: string)

  datatype Entry = Entry(day: string, hours: DayHours)

  type Schedule = seq<Entry>

  /** What the schedule column holds: nothing, a well-formed object, or text
      that does not parse as one. */
  datatype StoredSchedule = NoSchedule | Stored(entries: Schedule) | Unparseable


  /** The keys of the object. */
  function Days(s: Schedule): set<string>
  {
    if s == [] then {} else {s[0].day} + Days(s[1..])
  }

  /** No key occurs twice. */
  predicate DistinctDays(s: Schedule)
  {
    s == [] || (s[0].day !in Days(s[1..]) && DistinctDays(s[1..]))
  }

  /** schedule[day]. */
  function Lookup(s: Schedule, day: string): (r: Option<DayHours>)
    ensures r.None? <==> day !in Days(s)
    ensures r.Some? ==> Entry(day, r.value) in s
  {
    if s == [] then None
    else if s[0].day == day then Some(s[0].hours)
    else Lookup(s[1..], day)
  }

  /** schedule[day] = hours: replaces the entry in place, or appends a new one. */
  function Put(s: Schedule, day: string, hours: DayHours): (r: Schedule)
    ensures Days(r) == Days(s) + {day}
    ensures Lookup(r, day) == Some(hours)
    ensures forall other :: other != day ==> Lookup(r, other) == Lookup(s, other)
  {
    if s == [] then [Entry(day, hours)]
    else if s[0].day == day then [Entry(day, hours)] + s[1..]
    else [s[0]] + Put(s[1..], day, hours)
  }

  lemma {:induction false} PutKeepsDistinct(s: Schedule, day: string, hours: DayHours)
    requires DistinctDays(s)
    ensures DistinctDays(Put(s, day, hours))
  {
    if s != [] && s[0].day != day {
      PutKeepsDistinct(s[1..], day, hours);
    }
  }

  /** The working hours for a date: absent when the weekday has no entry or
      the entry lacks its start or its end. */
  function HoursOn(s: Schedule, date: Date): (r: Option<DayHours>)
    ensures r.Some? ==> r.value.start != "" && r.value.end != ""
    ensures r.Some? <==> WeekdayKey(date) in Days(s) && Lookup(s, WeekdayKey(date)).value.start != ""
                         && Lookup(s, WeekdayKey(date)).value.end != ""
  {
    match Lookup(s, WeekdayKey(date))
    case None => None
    case Some(h) => if h.start == "" || h.end == "" then None else Some(h)
  }

  /** The template given to a new doctor: 09:00 to 17:00 from Monday to Friday. */
  function DefaultSchedule(): Schedule
  {
    var h := DayHours("09:00", "17:00");
    [Entry("monday", h), Entry("tuesday", h), Entry("wednesday", h), Entry("thursday", h), Entry("friday", h)]
  }

  /** On the default template a date has working hours exactly on weekdays,
      and they are always 09:00 to 17:00. */
  lemma DefaultScheduleHours(date: Date)
    requires ValidDate(date)
    ensures HoursOn(DefaultSchedule(), date).Some? <==> 1 <= DayOfWeek(date) <= 5
    ensures HoursOn(DefaultSchedule(), date).Some? ==>
              HoursOn(DefaultSchedule(), date).value == DayHours("09:00", "17:00")
  {
    var s := DefaultSchedule();
    var w := DayOfWeek(date);
    assert Days(s) == {"monday", "tuesday", "wednesday", "thursday", "friday"};
    assert WeekdayKey(date) == WeekdayNames[w];
    assert WeekdayNames[w] in Days(s) <==> 1 <= w <= 5;
  }
}
