/** Times of day. The server turns "HH:MM" texts into Date objects on the
    fixed day 2000-01-01 and back into "HH:MM" with toTimeString().slice(0, 5);
    here a time of day is the number of minutes after midnight. */
module Clock {
  import opened Common

  const MinutesPerDay := 1440

  type Minute = t: int | 0 <= t < MinutesPerDay

  function TwoDigits(n: nat): (s: string)
    requires n < 100
    ensures |s| == 2 && IsDigit(s[0]) && IsDigit(s[1])
    ensures DigitValue(s[0]) * 10 + DigitValue(s[1]) == n
  {
    [DigitChar(n / 10), DigitChar(n % 10)]
  }

  /** The zero-padded 24-hour text "HH:MM" of a time of day. */
  function TimeText(t: Minute): (s: string)
    ensures |s| == 5 && s[2] == ':'
  {
    TwoDigits(t / 60) + ":" + TwoDigits(t % 60)
  }

  /** The text a MySQL TIME column holds for a time of day: "HH:MM:SS". */
  function ColumnText(t: Minute): (s: string)
    ensures |s| == 8 && Prefix(s, 5) == TimeText(t)
  {
    TimeText(t) + ":00"
  }

  /** Reads a zero-padded "HH:MM" text; anything else gives None, as an
      unparseable time gives an Invalid Date in the source. */
  function ParseTime(s: string): (r: Option<Minute>)
    ensures r.Some? ==> |s| == 5 && s[2] == ':'
  {
    if |s| == 5 && s[2] == ':' && IsDigit(s[0]) && IsDigit(s[1]) && IsDigit(s[3]) && IsDigit(s[4]) then
      var h := DigitValue(s[0]) * 10 + DigitValue(s[1]);
      var m := DigitValue(s[3]) * 10 + DigitValue(s[4]);
      if h < 24 && m < 60 then Some(h * 60 + m) else None
    else
      None
  }

  lemma ParseTimeText(t: Minute)
    ensures ParseTime(TimeText(t)) == Some(t)
  {
    var s := TimeText(t);
    assert s[0] == DigitChar(t / 60 / 10) && s[1] == DigitChar(t / 60 % 10);
    assert s[3] == DigitChar(t % 60 / 10) && s[4] == DigitChar(t % 60 % 10);
  }

  lemma TimeTextParse(s: string, t: Minute)
    requires ParseTime(s) == Some(t)
    ensures TimeText(t) == s
  {
    var h := DigitValue(s[0]) * 10 + DigitValue(s[1]);
    var m := DigitValue(s[3]) * 10 + DigitValue(s[4]);
    assert t == h * 60 + m;
    assert t / 60 == h && t % 60 == m;
    var r := TimeText(t);
    assert r[0] == DigitChar(h / 10) == s[0];
    assert r[1] == DigitChar(h % 10) == s[1];
    assert r[3] == DigitChar(m / 10) == s[3];
    assert r[4] == DigitChar(m % 10) == s[4];
  }

  /** JavaScript's less-than on strings: lexicographic order of the characters. */
  predicate LexLess(a: string, b: string)
  {
    if a == [] then b != []
    else if b == [] then false
    else if a[0] != b[0] then a[0] < b[0]
    else LexLess(a[1..], b[1..])
  }

  /** For two "HH:MM" texts, the string comparison the source uses agrees with
      the order of the times they denote. */
  lemma {:induction false} LexLessTimeText(t1: Minute, t2: Minute)
    ensures LexLess(TimeText(t1), TimeText(t2)) <==> t1 < t2
  {
    var a, b := TimeText(t1), TimeText(t2);
    var h1, m1, h2, m2 := t1 / 60, t1 % 60, t2 / 60, t2 % 60;
    assert a[0] == DigitChar(h1 / 10) && a[1] == DigitChar(h1 % 10);
    assert a[3] == DigitChar(m1 / 10) && a[4] == DigitChar(m1 % 10);
    assert b[0] == DigitChar(h2 / 10) && b[1] == DigitChar(h2 % 10);
    assert b[3] == DigitChar(m2 / 10) && b[4] == DigitChar(m2 % 10);
    var a1, b1 := a[1..], b[1..];
    var a2, b2 := a1[1..], b1[1..];
    var a3, b3 := a2[1..], b2[1..];
    var a4, b4 := a3[1..], b3[1..];
    assert a4[1..] == [] && b4[1..] == [];
    assert LexLess(a4, b4) <==> m1 % 10 < m2 % 10;
    assert LexLess(a3, b3) <==> m1 / 10 < m2 / 10 || (m1 / 10 == m2 / 10 && m1 % 10 < m2 % 10);
    assert LexLess(a2, b2) <==> LexLess(a3, b3);
    assert LexLess(a1, b1) <==> h1 % 10 < h2 % 10 || (h1 % 10 == h2 % 10 && LexLess(a2, b2));
    assert LexLess(a, b) <==> h1 / 10 < h2 / 10 || (h1 / 10 == h2 / 10 && LexLess(a1, b1));
    assert t1 < t2 <==> h1 < h2 || (h1 == h2 && m1 < m2);
  }
}
