/** The doctor's profile form (public/js/doctor/profile.js): saving turns the
    checked working-day boxes and the start and end fields into a weekly
    schedule object; loading turns a schedule back into checked boxes and
    field values. */
module DoctorProfile {
  import opened Common
  import opened WeeklySchedule

  /** A working-day checkbox: its element id and its value attribute. */
  datatype DayBox = DayBox(id: string, value: string)

  /** ASCII case folding. */
  function LowerChar(c: char): (d: char)
    ensures 'A' <= c <= 'Z' ==> d as int == c as int + 32
    ensures !('A' <= c <= 'Z') ==> d == c
  {
    if 'A' <= c <= 'Z' then (c as int + 32) as char else c
  }

  /** String.prototype.toLowerCase on ASCII text. */
  function ToLower(s: string): (r: string)
    ensures |r| == |s|
    ensures forall i :: 0 <= i < |s| ==> r[i] == LowerChar(s[i])
  {
    if s == [] then [] else [LowerChar(s[0])] + ToLower(s[1..])
  }

  /** The values of the ticked day boxes, in the order of the boxes. */
  function WorkingDays(boxes: seq<DayBox>, checked: seq<bool>): (days: seq<string>)
    requires |checked| == |boxes|
    ensures forall d :: d in days <==> exists i :: 0 <= i < |boxes| && checked[i] && boxes[i].value == d
  {
    if boxes == [] then []
    else
      var rest := WorkingDays(boxes[1..], checked[1..]);
      if checked[0] then [boxes[0].value] + rest else rest
  }

  /** The object the save handler builds (public/js/doctor/profile.js:111-117):
      for each working day in order, the lower-cased day is set to the form's
      start and end. */
  function ScheduleOf(days: seq<string>, hours: DayHours): Schedule
  {
    if days == [] then []
    else Put(ScheduleOf(days[..|days| - 1], hours), ToLower(days[|days| - 1]), hours)
  }

  /** One more iteration of the forEach assigns one more day. */
  lemma ScheduleOfStep(days: seq<string>, i: nat, hours: DayHours)
    requires i < |days|
    ensures ScheduleOf(days[..i + 1], hours) == Put(ScheduleOf(days[..i], hours), ToLower(days[i]), hours)
  {
    assert days[..i + 1][..i] == days[..i];
  }

  /** The lower-cased working days. */
  function LowerSet(days: seq<string>): set<string>
  {
    set d | d in days :: ToLower(d)
  }

  lemma LowerSetSnoc(days: seq<string>, last: string)
    ensures LowerSet(days + [last]) == LowerSet(days) + {ToLower(last)}
  {
  }

  /** The built schedule has one key per working day, lower-cased, and no
      other key. */
  lemma {:induction false} ScheduleOfDays(days: seq<string>, hours: DayHours)
    ensures Days(ScheduleOf(days, hours)) == LowerSet(days)
  {
    if days != [] {
      var init, last := days[..|days| - 1], days[|days| - 1];
      ScheduleOfDays(init, hours);
      assert days == init + [last];
      LowerSetSnoc(init, last);
    }
  }

  /** No key of the built schedule occurs twice. */
  lemma {:induction false} ScheduleOfDistinct(days: seq<string>, hours: DayHours)
    ensures DistinctDays(ScheduleOf(days, hours))
  {
    if days != [] {
      ScheduleOfDistinct(days[..|days| - 1], hours);
      PutKeepsDistinct(ScheduleOf(days[..|days| - 1], hours), ToLower(days[|days| - 1]), hours);
    }
  }

  /** Every entry of the built schedule carries the same start and end. */
  lemma {:induction false} ScheduleOfHours(days: seq<string>, hours: DayHours)
    ensures forall e :: e in ScheduleOf(days, hours) ==> e.hours == hours
    ensures ScheduleOf(days, hours) == [] <==> days == []
  {
    if days != [] {
      ScheduleOfHours(days[..|days| - 1], hours);
      PutEntries(ScheduleOf(days[..|days| - 1], hours), ToLower(days[|days| - 1]), hours);
    }
  }

  /** Every entry after schedule[day] = hours is an old one or the new one. */
  lemma {:induction false} PutEntries(s: Schedule, day: string, hours: DayHours)
    ensures forall e :: e in Put(s, day, hours) ==> e in s || e == Entry(day, hours)
  {
    if s != [] && s[0].day != day {
      PutEntries(s[1..], day, hours);
    }
  }

  /** The box the page finds for an id: the first box carrying it. */
  function FindBox(boxes: seq<DayBox>, id: string): (r: Option<nat>)
    ensures r.Some? ==> r.value < |boxes| && boxes[r.value].id == id &&
                        forall j :: 0 <= j < r.value ==> boxes[j].id != id
    ensures r.None? ==> forall j :: 0 <= j < |boxes| ==> boxes[j].id != id
  {
    if boxes == [] then None
    else if boxes[0].id == id then Some(0)
    else
      match FindBox(boxes[1..], id)
      case None => None
      case Some(i) => Some(i + 1)
  }

  /** After loading: a box is checked when its id is a key of the schedule
      and it is the box getElementById finds for that id. */
  function LoadedChecks(boxes: seq<DayBox>, s: Schedule): (checks: seq<bool>)
    ensures |checks| == |boxes|
  {
    seq(|boxes|, i requires 0 <= i < |boxes| => boxes[i].id in Days(s) && FindBox(boxes, boxes[i].id) == Some(i))
  }

  datatype Bound = StartBound | EndBound

  function BoundOf(h: DayHours, which: Bound): string
  {
    if which == StartBound then h.start else h.end
  }

  /** The field value after the entries of s are read in order: the last
      non-empty start (or end) among them, or the value it had before. */
  function LastGiven(s: Schedule, which: Bound, before: string): string
  {
    if s == [] then before
    else if BoundOf(s[|s| - 1].hours, which) != "" then BoundOf(s[|s| - 1].hours, which)
    else LastGiven(s[..|s| - 1], which, before)
  }

  lemma {:induction false} DaysSnoc(s: Schedule, e: Entry)
    ensures Days(s + [e]) == Days(s) + {e.day}
  {
    if s != [] {
      DaysSnoc(s[1..], e);
      assert (s + [e])[1..] == s[1..] + [e];
    }
  }

  /** Reading one more entry sets the field when the entry gives a value. */
  lemma LastGivenStep(s: Schedule, e: Entry, which: Bound, before: string)
    ensures LastGiven(s + [e], which, before) ==
            if BoundOf(e.hours, which) != "" then BoundOf(e.hours, which) else LastGiven(s, which, before)
  {
    assert (s + [e])[..|s|] == s;
  }

  /** Loading one more entry checks exactly the box found for its day. */
  lemma LoadStep(boxes: seq<DayBox>, s: Schedule, e: Entry, checks: seq<bool>)
    requires checks == LoadedChecks(boxes, s)
    ensures FindBox(boxes, e.day).Some? ==> LoadedChecks(boxes, s + [e]) == checks[FindBox(boxes, e.day).value := true]
    ensures FindBox(boxes, e.day).None? ==> LoadedChecks(boxes, s + [e]) == checks
  {
    DaysSnoc(s, e);
  }

  /** saving is refused unless the password and its confirmation agree
      (lines 152-158). */
  function PasswordMismatch(newPassword: string, confirmPassword: string): (r: Option<string>)
    ensures r.Some? <==> newPassword != confirmPassword
    ensures r.Some? ==> r.value == "New passwords do not match"
  {
    if newPassword != confirmPassword then Some("New passwords do not match") else None
  }

  /** The form's state: the checkboxes and the two time fields. */
  class ProfileForm {
    const boxes: seq<DayBox>
    var checked: seq<bool>
    var startTime: string
    var endTime: string

    ghost predicate Valid()
      reads this
    {
      |checked| == |boxes|
    }

    constructor (boxes: seq<DayBox>)
      ensures Valid()
      ensures this.boxes == boxes && startTime == "" && endTime == ""
      ensures forall i :: 0 <= i < |checked| ==> !checked[i]
    {
      this.boxes := boxes;
      checked := seq(|boxes|, _ => false);
      startTime := "";
      endTime := "";
    }

    /** Building the schedule in updateProfile (lines 98-117). */
    method Save() returns (r: Result<Schedule, string>)
      requires Valid()
      ensures startTime == "" || endTime == "" ==> r == Failure("Please set working hours")
      ensures startTime != "" && endTime != "" ==>
                r == Success(ScheduleOf(WorkingDays(boxes, checked), DayHours(startTime, endTime)))
    {
      var days := WorkingDays(boxes, checked);
      if startTime == "" || endTime == "" {
        return Failure("Please set working hours");
      }
      var hours := DayHours(startTime, endTime);
      var schedule: Schedule := [];
      var i := 0;
      while i < |days|
        invariant 0 <= i <= |days|
        invariant schedule == ScheduleOf(days[..i], hours)
      {
        ScheduleOfStep(days, i, hours);
        schedule := Put(schedule, ToLower(days[i]), hours);
        i := i + 1;
      }
      assert days[..|days|] == days;
      r := Success(schedule);
    }

    /** Loading a schedule in loadDoctorProfile (lines 62-80): clear every
        box, then for each entry in order check the box with the day's id and
        copy a non-empty start and end into the fields. */
    method Load(schedule: Schedule)
      requires Valid()
      modifies this
      ensures Valid()
      ensures checked == LoadedChecks(boxes, schedule)
      ensures startTime == LastGiven(schedule, StartBound, old(startTime))
      ensures endTime == LastGiven(schedule, EndBound, old(endTime))
    {
      var i := 0;
      while i < |checked|
        invariant Valid() && 0 <= i <= |checked|
        invariant forall j :: 0 <= j < i ==> !checked[j]
        invariant startTime == old(startTime) && endTime == old(endTime)
      {
        checked := checked[i := false];
        i := i + 1;
      }
      assert checked == LoadedChecks(boxes, schedule[..0]);
      var k := 0;
      while k < |schedule|
        invariant Valid() && 0 <= k <= |schedule|
        invariant checked == LoadedChecks(boxes, schedule[..k])
        invariant startTime == LastGiven(schedule[..k], StartBound, old(startTime))
        invariant endTime == LastGiven(schedule[..k], EndBound, old(endTime))
      {
        var e := schedule[k];
        assert schedule[..k + 1] == schedule[..k] + [e];
        LoadStep(boxes, schedule[..k], e, checked);
        LastGivenStep(schedule[..k], e, StartBound, old(startTime));
        LastGivenStep(schedule[..k], e, EndBound, old(endTime));
        var box := FindBox(boxes, e.day);
        if box.Some? {
          checked := checked[box.value := true];
        }
        if e.hours.start != "" {
          startTime := e.hours.start;
        }
        if e.hours.end != "" {
          endTime := e.hours.end;
        }
        k := k + 1;
      }
      assert schedule[..|schedule|] == schedule;
    }
  }

  /** Loading what saving built checks the same boxes again, when every
      box's id is its value in lower case and ids are distinct. */
  lemma RoundTripChecks(boxes: seq<DayBox>, checked: seq<bool>, hours: DayHours)
    requires |checked| == |boxes|
    requires forall i :: 0 <= i < |boxes| ==> boxes[i].id == ToLower(boxes[i].value)
    requires forall i, j :: 0 <= i < j < |boxes| ==> boxes[i].id != boxes[j].id
    ensures LoadedChecks(boxes, ScheduleOf(WorkingDays(boxes, checked), hours)) == checked
  {
    var days := WorkingDays(boxes, checked);
    ScheduleOfDays(days, hours);
    var loaded := LoadedChecks(boxes, ScheduleOf(days, hours));
    forall i | 0 <= i < |boxes| ensures loaded[i] == checked[i]
    {
      assert FindBox(boxes, boxes[i].id) == Some(i);
      CheckedIffKey(boxes, checked, i);
    }
  }

  lemma {:induction false} NothingChecked(boxes: seq<DayBox>, checked: seq<bool>)
    requires |checked| == |boxes| && !(true in checked)
    ensures WorkingDays(boxes, checked) == []
  {
    if boxes != [] {
      assert !(true in checked[1..]);
      NothingChecked(boxes[1..], checked[1..]);
    }
  }

  /** A box's id is among the lower-cased working days exactly when the box
      is checked. */
  lemma CheckedIffKey(boxes: seq<DayBox>, checked: seq<bool>, i: nat)
    requires |checked| == |boxes| && i < |boxes|
    requires forall i :: 0 <= i < |boxes| ==> boxes[i].id == ToLower(boxes[i].value)
    requires forall i, j :: 0 <= i < j < |boxes| ==> boxes[i].id != boxes[j].id
    ensures boxes[i].id in LowerSet(WorkingDays(boxes, checked)) <==> checked[i]
  {
    var days := WorkingDays(boxes, checked);
    if checked[i] {
      assert boxes[i].value in days;
    }
    if boxes[i].id in LowerSet(days) {
      var d :| d in days && ToLower(d) == boxes[i].id;
      var j :| 0 <= j < |boxes| && checked[j] && boxes[j].value == d;
      assert boxes[j].id == boxes[i].id;
    }
  }

  /** Loading what saving built restores the start and end whenever at least
      one day was checked; with none checked the schedule is empty and the
      fields keep whatever they held. */
  lemma RoundTripHours(boxes: seq<DayBox>, checked: seq<bool>, hours: DayHours, startBefore: string, endBefore: string)
    requires |checked| == |boxes|
    requires hours.start != "" && hours.end != ""
    ensures true in checked ==>
              LastGiven(ScheduleOf(WorkingDays(boxes, checked), hours), StartBound, startBefore) == hours.start &&
              LastGiven(ScheduleOf(WorkingDays(boxes, checked), hours), EndBound, endBefore) == hours.end
    ensures !(true in checked) ==> ScheduleOf(WorkingDays(boxes, checked), hours) == []
  {
    var days := WorkingDays(boxes, checked);
    var s := ScheduleOf(days, hours);
    ScheduleOfHours(days, hours);
    if true in checked {
      var i :| 0 <= i < |checked| && checked[i];
      assert boxes[i].value in days;
      assert s[|s| - 1] in s;
    } else {
      NothingChecked(boxes, checked);
    }
  }
}
