/** The booking page's own slot generator (generateTimeSlots in
    public/js/book-appointment.js): steps of a given duration from start to
    end, jumping over a break window. */
module BookingForm {
  import opened Common
  import opened Clock
  import opened SlotGrid

  /** The break window: both bounds must be given (non-empty) for skipping
      to happen, and a bound that is not a time compares false with every
      time, so it switches skipping off as well. */
  datatype Break = NoBreak | Window(from: Minute, until: Minute)

  /** The window the page's two break inputs give: exactly when both read as
      times, from the first to the second. */
  function BreakOf(breakStart: string, breakEnd: string): (b: Break)
    ensures b.Window? <==> ParseTime(breakStart).Some? && ParseTime(breakEnd).Some?
    ensures b.Window? ==> b.from == ParseTime(breakStart).value && b.until == ParseTime(breakEnd).value
  {
    match (ParseTime(breakStart), ParseTime(breakEnd))
    case (Some(s), Some(e)) => Window(s, e)
    case _ => NoBreak
  }

  predicate InBreak(t: int, b: Break)
  {
    b.Window? && b.from <= t < b.until
  }

  /** The candidate times the loop emits from current on: a candidate inside
      the break is replaced by the break's end, any other is emitted and
      followed by candidate + duration. */
  function BreakGrid(current: nat, end: Minute, duration: nat, b: Break): (g: seq<Minute>)
    requires duration > 0
    ensures forall i :: 0 <= i < |g| ==> current <= g[i] < end
    decreases end - current
  {
    if current >= end then []
    else if InBreak(current, b) then BreakGrid(b.until, end, duration, b)
    else [current] + BreakGrid(current + duration, end, duration, b)
  }

  /** What generateTimeSlots returns; a start or end that is not a time is an
      Invalid Date, the loop condition is false and no slot is produced. */
  function BreakSlots(start: string, end: string, duration: int, breakStart: string, breakEnd: string): seq<string>
    requires duration > 0
  {
    match (ParseTime(start), ParseTime(end))
    case (Some(s), Some(e)) => TextsOf(BreakGrid(s, e, duration, BreakOf(breakStart, breakEnd)))
    case _ => []
  }

  /** generateTimeSlots (public/js/book-appointment.js:192-213). A duration
      of zero or less never leaves the loop, so the caller must give a
      positive one. */
  method GenerateTimeSlots(start: string, end: string, duration: int, breakStart: string, breakEnd: string)
    returns (slots: seq<string>)
    requires duration > 0
    ensures slots == BreakSlots(start, end, duration, breakStart, breakEnd)
    ensures forall x :: x in slots ==>
              ParseTime(x).Some? && ParseTime(start).Some? && ParseTime(end).Some? &&
              ParseTime(start).value <= ParseTime(x).value < ParseTime(end).value
    ensures ParseTime(breakStart).Some? && ParseTime(breakEnd).Some? ==>
              forall x :: x in slots ==>
                !(ParseTime(breakStart).value <= ParseTime(x).value < ParseTime(breakEnd).value)
  {
    SlotsSkipBreak(start, end, duration, breakStart, breakEnd);
    var s, e := ParseTime(start), ParseTime(end);
    if s.None? || e.None? {
      return [];
    }
    slots := WalkSlots(s.value, e.value, duration, BreakOf(breakStart, breakEnd));
  }

  /** One round of the loop, below the end: a candidate in the break is
      replaced by the break's end, any other is emitted first. */
  lemma BreakGridStep(current: nat, end: Minute, duration: nat, b: Break)
    requires duration > 0 && current < end
    ensures InBreak(current, b) ==> BreakGrid(current, end, duration, b) == BreakGrid(b.until, end, duration, b)
    ensures !InBreak(current, b) ==>
              BreakGrid(current, end, duration, b) == [current as Minute] + BreakGrid(current + duration, end, duration, b)
  {
  }

  /** The loop of generateTimeSlots on parsed times (lines 199-210). */
  method WalkSlots(start: Minute, end: Minute, duration: nat, b: Break) returns (slots: seq<string>)
    requires duration > 0
    ensures slots == TextsOf(BreakGrid(start, end, duration, b))
  {
    slots := [];
    var current: nat := start;
    ghost var times: seq<Minute> := [];
    while current < end
      invariant times + BreakGrid(current, end, duration, b) == BreakGrid(start, end, duration, b)
      invariant slots == TextsOf(times)
      decreases end - current
    {
      BreakGridStep(current, end, duration, b);
      if InBreak(current, b) {
        // the candidate lies in the break: jump to its end
        current := b.until;
      } else {
        var slot: Minute := current;
        AppendAssoc(times, slot, BreakGrid(current + duration, end, duration, b));
        TextsOfSnoc(times, slot);
        slots := slots + [TimeText(slot)];
        times := times + [slot];
        current := current + duration;
      }
    }
    assert times + [] == times;
  }

  /** Every slot lies between the first candidate and the end, which is never
      emitted; a start at or after the end gives no slot. */
  lemma {:induction false} Bounds(current: nat, end: Minute, duration: nat, b: Break)
    requires duration > 0
    ensures current >= end ==> BreakGrid(current, end, duration, b) == []
    ensures forall i :: 0 <= i < |BreakGrid(current, end, duration, b)| ==>
              current <= BreakGrid(current, end, duration, b)[i] < end
    decreases end - current
  {
    if current < end {
      if InBreak(current, b) {
        Bounds(b.until, end, duration, b);
      } else {
        Bounds(current + duration, end, duration, b);
      }
    }
  }

  /** The first time emitted from current is current itself, or the end of
      the break when current lies in it. */
  lemma FirstSlot(current: nat, end: Minute, duration: nat, b: Break)
    requires duration > 0
    requires BreakGrid(current, end, duration, b) != []
    ensures var g := BreakGrid(current, end, duration, b);
            if InBreak(current, b) then g[0] == b.until else g[0] == current
  {
    if InBreak(current, b) {
      assert !InBreak(b.until, b);
    }
  }

  /** No slot lies in the break [breakStart, breakEnd). */
  lemma {:induction false} AvoidsBreak(current: nat, end: Minute, duration: nat, b: Break)
    requires duration > 0
    ensures forall i :: 0 <= i < |BreakGrid(current, end, duration, b)| ==> !InBreak(BreakGrid(current, end, duration, b)[i], b)
    decreases end - current
  {
    if current < end {
      if InBreak(current, b) {
        AvoidsBreak(b.until, end, duration, b);
      } else {
        AvoidsBreak(current + duration, end, duration, b);
      }
    }
  }

  /** On the page's own text inputs: every offered slot reads as a time from
      start up to end, and when both break bounds are times, none reads as a
      time inside the break. */
  lemma SlotsSkipBreak(start: string, end: string, duration: int, breakStart: string, breakEnd: string)
    requires duration > 0
    ensures forall x :: x in BreakSlots(start, end, duration, breakStart, breakEnd) ==>
              ParseTime(x).Some? && ParseTime(start).Some? && ParseTime(end).Some? &&
              ParseTime(start).value <= ParseTime(x).value < ParseTime(end).value
    ensures ParseTime(breakStart).Some? && ParseTime(breakEnd).Some? ==>
              forall x :: x in BreakSlots(start, end, duration, breakStart, breakEnd) ==>
                !(ParseTime(breakStart).value <= ParseTime(x).value < ParseTime(breakEnd).value)
  {
    if ParseTime(start).Some? && ParseTime(end).Some? {
      var s, e := ParseTime(start).value, ParseTime(end).value;
      var b := BreakOf(breakStart, breakEnd);
      var g := BreakGrid(s, e, duration, b);
      assert BreakSlots(start, end, duration, breakStart, breakEnd) == TextsOf(g);
      TextsOfAt(g);
      AvoidsBreak(s, e, duration, b);
      forall x | x in TextsOf(g)
        ensures ParseTime(x).Some? && s <= ParseTime(x).value < e && !InBreak(ParseTime(x).value, b)
      {
        var i :| 0 <= i < |g| && TextsOf(g)[i] == x;
        ParseTimeText(g[i]);
      }
    }
  }

  /** One step of the loop between two emitted slots: the later one is the
      earlier plus the duration, or, when that candidate fell in the break,
      exactly the break's end; either way it is later. */
  predicate Step(x: int, y: int, duration: int, b: Break)
  {
    x < y && (y == x + duration || (InBreak(x + duration, b) && y == b.until))
  }

  /** Consecutive slots are related by one step, so they strictly increase. */
  lemma {:induction false} Steps(current: nat, end: Minute, duration: nat, b: Break)
    requires duration > 0
    ensures var g := BreakGrid(current, end, duration, b);
            forall i :: 0 <= i < |g| - 1 ==> Step(g[i], g[i + 1], duration, b)
    decreases end - current
  {
    if current < end {
      if InBreak(current, b) {
        Steps(b.until, end, duration, b);
        var g := BreakGrid(current, end, duration, b);
        assert g == BreakGrid(b.until, end, duration, b);
        forall i | 0 <= i < |g| - 1 ensures Step(g[i], g[i + 1], duration, b) {
        }
      } else {
        var rest := BreakGrid(current + duration, end, duration, b);
        Steps(current + duration, end, duration, b);
        if rest != [] {
          FirstSlot(current + duration, end, duration, b);
        }
        var g := BreakGrid(current, end, duration, b);
        assert g == [current] + rest;
        forall i | 1 <= i < |g| - 1
          ensures Step(g[i], g[i + 1], duration, b)
        {
          assert g[i] == rest[i - 1] && g[i + 1] == rest[i];
        }
      }
    }
  }

  /** Without a break and with 30-minute steps the booking page produces the
      server's grid. */
  lemma {:induction false} NoBreakIsServerGrid(start: nat, end: Minute)
    ensures BreakGrid(start, end, Interval, NoBreak) == Grid(start, end)
    decreases end - start
  {
    if start < end {
      NoBreakIsServerGrid(start + Interval, end);
    }
  }

  /** 09:00 to 11:00 by 30 minutes with a break from 10:00 to 10:30: the
      10:00 candidate is replaced by 10:30. */
  lemma MorningWithBreak()
    ensures BreakGrid(540, 660, 30, Window(600, 630)) == [540, 570, 630]
  {
    var b := Window(600, 630);
    assert BreakGrid(660, 660, 30, b) == [];
    assert BreakGrid(630, 660, 30, b) == [630];
    assert BreakGrid(600, 660, 30, b) == [630];
    assert BreakGrid(570, 660, 30, b) == [570, 630];
  }
}
