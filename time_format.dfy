/** The 12-hour rendering of a time text (formatTime), written identically in
    the booking page and in the appointment list: split the text on ':',
    parseInt the first field, and print "h:mm AM" or "h:mm PM". */
module TimeFormat {
  import opened Common
  import opened Clock

  /** Index of the first ':' of s. */
  function ColonAt(s: string): (i: nat)
    requires ':' in s
    ensures i < |s| && s[i] == ':' && ':' !in s[..i]
  {
    if s[0] == ':' then 0
    else
      assert ':' in s[1..];
      var j := ColonAt(s[1..]);
      assert s[..j + 1] == [s[0]] + s[1..][..j];
      j + 1
  }

  /** The first ':' of p + ":" + rest is the one after p when p has none. */
  lemma ColonAfter(p: string, rest: string)
    requires ':' !in p
    ensures ColonAt(p + ":" + rest) == |p|
  {
    var s := p + ":" + rest;
    assert s[..|p|] == p && s[|p|] == ':';
  }

  /** The fields of s between its colons, in order (one field when s has no colon). */
  function Split(s: string): (parts: seq<string>)
    ensures |parts| >= 1
    ensures forall i :: 0 <= i < |parts| ==> ':' !in parts[i]
    decreases |s|
  {
    if ':' !in s then [s]
    else
      var i := ColonAt(s);
      [s[..i]] + Split(s[i + 1..])
  }

  /** Splitting p + ":" + rest splits off p and continues with rest. */
  lemma FieldsAround(p: string, rest: string)
    requires ':' !in p
    ensures Split(p + ":" + rest) == [p] + Split(rest)
  {
    var s := p + ":" + rest;
    ColonAfter(p, rest);
    assert s[..|p|] == p && s[|p| + 1..] == rest;
  }

  /** The fields put back together with a colon between each two. */
  function Join(parts: seq<string>): string
    requires |parts| >= 1
  {
    if |parts| == 1 then parts[0] else parts[0] + ":" + Join(parts[1..])
  }

  /** Joining the fields gives the text back. */
  lemma {:induction false} JoinSplit(s: string)
    ensures Join(Split(s)) == s
    decreases |s|
  {
    if ':' in s {
      var i := ColonAt(s);
      var tail := Split(s[i + 1..]);
      JoinSplit(s[i + 1..]);
      assert Split(s) == [s[..i]] + tail;
      assert Join(Split(s)) == s[..i] + ":" + Join(tail);
      assert s[..i] + ":" + s[i + 1..] == s;
    }
  }

  /** Splitting a join of colon-free fields gives the fields back. */
  lemma {:induction false} SplitJoin(parts: seq<string>)
    requires |parts| >= 1
    requires forall i :: 0 <= i < |parts| ==> ':' !in parts[i]
    ensures Split(Join(parts)) == parts
  {
    if |parts| > 1 {
      var rest := Join(parts[1..]);
      FieldsAround(parts[0], rest);
      SplitJoin(parts[1..]);
      assert parts == [parts[0]] + parts[1..];
    }
  }

  /** The run of digits at the front of s. */
  function LeadingDigits(s: string): (d: string)
    ensures d <= s
    ensures forall i :: 0 <= i < |d| ==> IsDigit(d[i])
    ensures |d| < |s| ==> !IsDigit(s[|d|])
  {
    if s != [] && IsDigit(s[0]) then [s[0]] + LeadingDigits(s[1..]) else []
  }

  /** parseInt on a text without leading blanks, sign or "0x" prefix: the
      value of the leading digits; None stands for NaN. */
  function ParseIntPrefix(s: string): (r: Option<nat>)
    ensures r.None? <==> s == [] || !IsDigit(s[0])
  {
    var d := LeadingDigits(s);
    if d == [] then None else Some(DigitsValue(d))
  }

  /** The three parts of the formatted text. */
  datatype Clock12 = Clock12(hour: nat, minutes: string, pm: bool)

  /** The hour modulo 12, with 12 in place of a zero remainder or of an hour
      that did not parse. */
  function Hour12(hour: Option<nat>): (h: nat)
    ensures 1 <= h <= 12
  {
    if hour.Some? && hour.value % 12 != 0 then hour.value % 12 else 12
  }

  /** The 12-hour reading of a time text: the 12-hour value, the minutes
      field as given, and PM exactly when the hour read is 12 or more. An hour
      that does not parse reads as 12 AM; a text without a colon has the
      minutes field undefined. */
  function ToClock12(time: string): (c: Clock12)
    ensures 1 <= c.hour <= 12
    ensures c.pm ==> ParseIntPrefix(Split(time)[0]).Some?
  {
    var parts := Split(time);
    var hour := ParseIntPrefix(parts[0]);
    Clock12(Hour12(hour), if |parts| >= 2 then parts[1] else "undefined", hour.Some? && hour.value >= 12)
  }

  function Suffix(pm: bool): (s: string)
    ensures |s| == 2
  {
    if pm then "PM" else "AM"
  }

  /** The hour in decimal, a colon, the minutes text, a space and the AM/PM suffix. */
  function Render(c: Clock12): (r: string)
    ensures |r| >= 2 && r[|r| - 2..] == Suffix(c.pm)
  {
    NatText(c.hour) + ":" + (c.minutes + " " + Suffix(c.pm))
  }

  /** The rendered text splits back into the hour and the copied minutes. */
  lemma RenderFields(c: Clock12)
    requires ':' !in c.minutes
    ensures Split(Render(c)) == [NatText(c.hour), c.minutes + " " + Suffix(c.pm)]
  {
    assert ':' !in NatText(c.hour);
    assert ':' !in c.minutes + " " + Suffix(c.pm);
    SplitJoin([NatText(c.hour), c.minutes + " " + Suffix(c.pm)]);
  }

  /** The 12-hour text shown for a time text. It always ends in AM or PM; on
      an "HH:MM" time the suffix is PM exactly from noon on. */
  function FormatTime12(time: string): (r: string)
    ensures |r| >= 2 && (r[|r| - 2..] == "AM" || r[|r| - 2..] == "PM")
    ensures ParseTime(time).Some? ==> (r[|r| - 2..] == "PM" <==> ParseTime(time).value >= 720)
  {
    if ParseTime(time).Some? then
      ParsedAfterNoon(time);
      Render(ToClock12(time))
    else
      Render(ToClock12(time))
  }

  /** An "HH:MM" text reads as PM exactly from noon on. */
  lemma ParsedAfterNoon(time: string)
    requires ParseTime(time).Some?
    ensures ToClock12(time).pm <==> ParseTime(time).value >= 720
  {
    var t := ParseTime(time).value;
    TimeTextParse(time, t);
    FormatTimeText(t);
  }

  /** The 24-hour hour a 12-hour reading stands for. */
  function To24(c: Clock12): nat
  {
    (if c.hour == 12 then 0 else c.hour) + (if c.pm then 12 else 0)
  }

  /** The 12-hour reading of a valid hour: 0 is 12 AM, 1 to 11 are AM, 12 is
      12 PM and 13 to 23 are h - 12 PM; it reads back as the same hour. */
  lemma ReadHour(h: nat, minutes: string)
    requires h < 24
    ensures var c := Clock12(Hour12(Some(h)), minutes, h >= 12);
            (h == 0 ==> c.hour == 12) && (1 <= h <= 12 ==> c.hour == h) &&
            (13 <= h ==> c.hour == h - 12) && To24(c) == h
  {
  }

  /** A text that starts with digits and a ':' has those digits as its hour
      and the next field as its minutes. */
  lemma ReadFields(first: string, rest: string)
    requires first != [] && forall i :: 0 <= i < |first| ==> IsDigit(first[i])
    ensures var h := DigitsValue(first);
            ToClock12(first + ":" + rest) == Clock12(Hour12(Some(h)), Split(rest)[0], h >= 12)
  {
    assert ':' !in first by {
      forall i | 0 <= i < |first| ensures first[i] != ':' {
        assert IsDigit(first[i]);
      }
    }
    FieldsAround(first, rest);
    ParseDigits(first);
  }

  /** The 12-hour reading of every hour 0..23 written in decimal, whatever
      follows the ':'. */
  lemma TwelveHourCases(h: nat, minutes: string)
    requires h < 24
    ensures var c := ToClock12(NatText(h) + ":" + minutes);
            (c.pm <==> h >= 12) &&
            (h == 0 ==> c.hour == 12) &&
            (1 <= h <= 12 ==> c.hour == h) &&
            (13 <= h ==> c.hour == h - 12) &&
            To24(c) == h
  {
    ReadFields(NatText(h), minutes);
    NatTextValue(h);
    ReadHour(h, Split(minutes)[0]);
  }

  /** parseInt of a nonempty digit string is its value. */
  lemma ParseDigits(s: string)
    requires s != [] && forall i :: 0 <= i < |s| ==> IsDigit(s[i])
    ensures ParseIntPrefix(s) == Some(DigitsValue(s))
  {
    LeadingAll(s);
  }

  /** A text made only of digits is its own leading run. */
  lemma {:induction false} LeadingAll(s: string)
    requires forall i :: 0 <= i < |s| ==> IsDigit(s[i])
    ensures LeadingDigits(s) == s
  {
    if s != [] {
      LeadingAll(s[1..]);
    }
  }

  /** The hours and minutes fields of a "HH:MM" text, alone or followed by
      ":SS" as the TIME column gives it, are read back exactly: the 12-hour
      reading stands for the same hour, is PM exactly from noon, and the
      minutes are copied. */
  lemma FormatTimeText(t: Minute)
    ensures var c := Clock12(Hour12(Some(t / 60)), TwoDigits(t % 60), t >= 720);
            ToClock12(TimeText(t)) == c && ToClock12(ColumnText(t)) == c &&
            To24(c) == t / 60
  {
    var h := t / 60;
    var hh, mm := TwoDigits(h), TwoDigits(t % 60);
    assert ':' !in mm;
    assert Split(mm) == [mm];
    ReadFields(hh, mm);
    FieldsAround(mm, "00");
    ConcatAssoc(hh + ":", mm, ":00");
    ReadFields(hh, mm + ":00");
    TwoDigitsValue(h);
    ReadHour(h, mm);
  }

  lemma TwoDigitsValue(n: nat)
    requires n < 100
    ensures DigitsValue(TwoDigits(n)) == n
  {
    var s := TwoDigits(n);
    assert s[..1][..0] == [];
    assert DigitsValue(s[..1]) == DigitValue(s[0]);
  }

  /** The TIME column text and the slot text render the same way. */
  lemma ColumnAndSlotAgree(t: Minute)
    ensures FormatTime12(ColumnText(t)) == FormatTime12(TimeText(t))
  {
    FormatTimeText(t);
  }
}
