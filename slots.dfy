/** The slot grid of one working day and the removal of booked slots
    (server.js, the available-slots handler and generateTimeSlots). */
module SlotGrid {
  import opened Common
  import opened Clock
  import opened WeeklySchedule

  /** Minutes between two consecutive slots. */
  const Interval := 30

  /** The slot times of a window: start, start + 30, ... while below end. */
  function Grid(start: nat, end: Minute): (g: seq<Minute>)
    ensures g != [] <==> start < end
    ensures forall i :: 0 <= i < |g| ==> start <= g[i] < end
    decreases end - start
  {
    if start < end then [start as Minute] + Grid(start + Interval, end) else []
  }

  /** The grid is the arithmetic progression from start with step 30 that
      stops before end: it starts at start, never reaches end, and is empty
      exactly when start >= end. */
  lemma {:induction false} GridShape(start: nat, end: Minute)
    ensures |Grid(start, end)| == if start < end then (end - start + Interval - 1) / Interval else 0
    ensures forall i :: 0 <= i < |Grid(start, end)| ==>
              Grid(start, end)[i] == start + Interval * i && Grid(start, end)[i] < end
    decreases end - start
  {
    if start < end {
      GridShape(start + Interval, end);
      var g := Grid(start, end);
      forall i | 1 <= i < |g| ensures g[i] == start + Interval * i {
        assert g[i] == Grid(start + Interval, end)[i - 1];
      }
    }
  }

  /** The "HH:MM" texts of times of one day, the first five characters of
      each time's text. */
  function TextsOf(g: seq<Minute>): seq<string>
  {
    if g == [] then [] else [TimeText(g[0])] + TextsOf(g[1..])
  }

  /** Each text is the text of the time at the same position. */
  lemma {:induction false} TextsOfAt(g: seq<Minute>)
    ensures |TextsOf(g)| == |g|
    ensures forall i :: 0 <= i < |g| ==> TextsOf(g)[i] == TimeText(g[i])
  {
    if g != [] {
      TextsOfAt(g[1..]);
    }
  }

  /** Pushing one more time pushes its text. */
  lemma {:induction false} TextsOfSnoc(g: seq<Minute>, x: Minute)
    ensures TextsOf(g + [x]) == TextsOf(g) + [TimeText(x)]
  {
    if g != [] {
      assert (g + [x])[1..] == g[1..] + [x];
      TextsOfSnoc(g[1..], x);
    }
  }

  /** The slot texts of a day's hours. A start or end that does not parse is
      an Invalid Date, and comparisons with it are false: no slot. */
  function DaySlots(h: DayHours): seq<string>
  {
    match (ParseTime(h.start), ParseTime(h.end))
    case (Some(s), Some(e)) => TextsOf(Grid(s, e))
    case _ => []
  }

  /** The loop of server.js:224-232: walk from start in 30-minute steps
      while the current time is below end, pushing each "HH:MM". */
  method GenerateSlots(h: DayHours) returns (slots: seq<string>)
    ensures slots == DaySlots(h)
  {
    slots := [];
    var s, e := ParseTime(h.start), ParseTime(h.end);
    if s.None? || e.None? {
      return;
    }
    var end := e.value;
    var current: nat := s.value;
    ghost var times: seq<Minute> := [];
    while current < end
      invariant times + Grid(current, end) == Grid(s.value, end)
      invariant slots == TextsOf(times)
      decreases end - current
    {
      var slot: Minute := current;
      AppendAssoc(times, slot, Grid(current + Interval, end));
      TextsOfSnoc(times, slot);
      slots := slots + [TimeText(slot)];
      times := times + [slot];
      current := current + Interval;
    }
    assert times + [] == times;
  }

  /** Some booked time's first five characters spell the slot. */
  predicate IsBooked(slot: string, booked: set<string>)
  {
    exists b :: b in booked && Prefix(b, 5) == slot
  }

  /** The grid without the booked slots, in the grid's order. */
  function Available(grid: seq<string>, booked: set<string>): (r: seq<string>)
    ensures forall x :: x in r <==> x in grid && !IsBooked(x, booked)
    ensures |r| <= |grid|
  {
    if grid == [] then []
    else if IsBooked(grid[0], booked) then Available(grid[1..], booked)
    else [grid[0]] + Available(grid[1..], booked)
  }

  /** r can be obtained from s by deleting elements: same order. */
  predicate IsSubsequence(r: seq<string>, s: seq<string>)
    decreases |s|
  {
    r == [] || (s != [] && ((r[0] == s[0] && IsSubsequence(r[1..], s[1..])) || IsSubsequence(r, s[1..])))
  }

  /** Filtering keeps the original order of the grid. */
  lemma {:induction false} AvailableKeepsOrder(grid: seq<string>, booked: set<string>)
    ensures IsSubsequence(Available(grid, booked), grid)
  {
    if grid != [] {
      AvailableKeepsOrder(grid[1..], booked);
      var r := Available(grid, booked);
      if !IsBooked(grid[0], booked) {
        assert r[1..] == Available(grid[1..], booked);
      }
    }
  }

  /** With nothing booked the whole grid is offered. */
  lemma {:induction false} AvailableWhenNothingBooked(grid: seq<string>, booked: set<string>)
    requires forall i :: 0 <= i < |grid| ==> !IsBooked(grid[i], booked)
    ensures Available(grid, booked) == grid
  {
    if grid != [] {
      AvailableWhenNothingBooked(grid[1..], booked);
    }
  }

  /** The hours generateTimeSlots receives: schedule[dayOfWeek], possibly
      undefined, with start and end that must both be truthy. */
  function WorkingSlots(hours: Option<DayHours>): seq<string>
  {
    if hours.None? || hours.value.start == "" || hours.value.end == "" then [] else DaySlots(hours.value)
  }

  /** generateTimeSlots at server.js:353-372, with the comparison it evidently
      intends: a booked TIME value matches the slot on its "HH:MM" prefix. */
  method GenerateTimeSlots(hours: Option<DayHours>, booked: set<string>) returns (slots: seq<string>)
    ensures slots == Available(WorkingSlots(hours), booked)
  {
    if hours.None? || hours.value.start == "" || hours.value.end == "" {
      return [];
    }
    var grid := GenerateSlots(hours.value);
    slots := [];
    var i := 0;
    while i < |grid|
      invariant 0 <= i <= |grid|
      invariant slots + Available(grid[i..], booked) == Available(grid, booked)
    {
      assert grid[i..] == [grid[i]] + grid[i + 1..];
      if !IsBooked(grid[i], booked) {
        AppendAssoc(slots, grid[i], Available(grid[i + 1..], booked));
        slots := slots + [grid[i]];
      }
      i := i + 1;
    }
    assert grid[|grid|..] == [];
  }

  /** The comparison generateTimeSlots actually makes: a slot is dropped
      only when a booked time equals it as a whole text. */
  function AvailableExact(grid: seq<string>, booked: set<string>): (r: seq<string>)
    ensures forall x :: x in r <==> x in grid && x !in booked
    ensures |r| <= |grid|
  {
    if grid == [] then []
    else if grid[0] in booked then AvailableExact(grid[1..], booked)
    else [grid[0]] + AvailableExact(grid[1..], booked)
  }

  /** generateTimeSlots at server.js:353-372 as written. */
  method GenerateTimeSlotsAsWritten(hours: Option<DayHours>, booked: set<string>) returns (slots: seq<string>)
    ensures slots == AvailableExact(WorkingSlots(hours), booked)
  {
    if hours.None? || hours.value.start == "" || hours.value.end == "" {
      return [];
    }
    var grid := GenerateSlots(hours.value);
    slots := [];
    var i := 0;
    while i < |grid|
      invariant 0 <= i <= |grid|
      invariant slots + AvailableExact(grid[i..], booked) == AvailableExact(grid, booked)
    {
      assert grid[i..] == [grid[i]] + grid[i + 1..];
      if grid[i] !in booked {
        AppendAssoc(slots, grid[i], AvailableExact(grid[i + 1..], booked));
        slots := slots + [grid[i]];
      }
      i := i + 1;
    }
    assert grid[|grid|..] == [];
  }

  /** The TIME column comes back as "HH:MM:SS" (eight characters) and a slot is
      "HH:MM" (five): the exact comparison never matches, so every booked slot
      is still offered. */
  lemma {:induction false} ExactMatchIgnoresBookings(grid: seq<string>, booked: set<string>)
    requires forall i :: 0 <= i < |grid| ==> |grid[i]| == 5
    requires forall b :: b in booked ==> |b| == 8
    ensures AvailableExact(grid, booked) == grid
  {
    if grid != [] {
      assert grid[0] !in booked;
      ExactMatchIgnoresBookings(grid[1..], booked);
    }
  }

  /** Monday 09:00 to 11:00 gives 09:00, 09:30, 10:00 and 10:30. */
  lemma MorningGrid()
    ensures DaySlots(DayHours("09:00", "11:00")) == ["09:00", "09:30", "10:00", "10:30"]
  {
    assert ParseTime("09:00") == Some(540) && ParseTime("11:00") == Some(660);
    assert Grid(660, 660) == [];
    assert Grid(630, 660) == [630];
    assert Grid(600, 660) == [600, 630];
    assert Grid(540, 660) == [540, 570, 600, 630];
    var g: seq<Minute> := [540, 570, 600, 630];
    TextsOfAt(g);
    MorningTexts();
  }

  /** The slot texts of the four morning times. */
  lemma MorningTexts()
    ensures TimeText(540) == "09:00" && TimeText(570) == "09:30"
    ensures TimeText(600) == "10:00" && TimeText(630) == "10:30"
  {
    assert TwoDigits(9) == "09" && TwoDigits(10) == "10";
    assert TwoDigits(0) == "00" && TwoDigits(30) == "30";
  }

  /** A slot booked through the TIME column: the corrected filter drops it
      and the as-written one still offers it. */
  lemma BookedSlotStillOffered(h: DayHours, t: Minute)
    requires TimeText(t) in DaySlots(h)
    ensures TimeText(t) !in Available(DaySlots(h), {ColumnText(t)})
    ensures TimeText(t) in AvailableExact(DaySlots(h), {ColumnText(t)})
  {
    var slots := DaySlots(h);
    assert IsBooked(TimeText(t), {ColumnText(t)});
    SlotsAreFiveLong(h);
    ExactMatchIgnoresBookings(slots, {ColumnText(t)});
  }

  /** Every slot text has the five characters of "HH:MM". */
  lemma SlotsAreFiveLong(h: DayHours)
    ensures forall i :: 0 <= i < |DaySlots(h)| ==> |DaySlots(h)[i]| == 5
  {
    if ParseTime(h.start).Some? && ParseTime(h.end).Some? {
      TextsOfAt(Grid(ParseTime(h.start).value, ParseTime(h.end).value));
    }
  }
}
