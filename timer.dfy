/** The play-time clock shown as `hh:mm:ss`. Once a second the clock reads the three fields
    back from the display, advances them and writes them out again. The fields are kept as
    the strings the display holds: a field the step does not touch keeps its old text. */
module Timer {
  import opened Decimal

  datatype Clock = Clock(hour: string, min: string, sec: string)

  predicate WellFormed(c: Clock) {
    IsNumeral(c.hour) && IsNumeral(c.min) && IsNumeral(c.sec)
  }

  /** Minutes and seconds are below 60. */
  predicate InRange(c: Clock)
    requires WellFormed(c)
  {
    Value(c.min) < 60 && Value(c.sec) < 60
  }

  /** The time the clock shows, in seconds. */
  function ElapsedSeconds(c: Clock): nat
    requires WellFormed(c)
  {
    3600 * Value(c.hour) + 60 * Value(c.min) + Value(c.sec)
  }

  /** A number rendered with one leading zero when it is below ten (`if (n < 10) n = "0" + n`). */
  function Padded(n: nat): (r: string)
    ensures IsNumeral(r) && |r| >= 2 && Value(r) == n
    ensures r[0] == '0' <==> n < 10
    ensures |r| == 2 <==> n < 100
  {
    NatToStringReadsBack(n);
    if n < 10 then
      ValueLeadingZero(NatToString(n));
      "0" + NatToString(n)
    else
      NatToString(n)
  }

  /** One step of the clock. While paused the three fields are written back as read.
      Otherwise the seconds advance; at 59 they carry into the minutes, and minutes at 59
      carry into the hours. After a carry the seconds show "0", unpadded. */
  function Tick(c: Clock, isPaused: bool): (r: Clock)
    requires WellFormed(c)
    ensures WellFormed(r)
    ensures isPaused ==> r == c
    ensures !isPaused ==> ElapsedSeconds(r) == ElapsedSeconds(c) + 1
    ensures InRange(c) ==> InRange(r)
  {
    NatToStringReadsBack(0);
    if isPaused then c
    else if Value(c.sec) == 59 then
      if Value(c.min) == 59 then Clock(Padded(Value(c.hour) + 1), Padded(0), NatToString(0))
      else Clock(c.hour, Padded(Value(c.min) + 1), NatToString(0))
    else Clock(c.hour, c.min, Padded(Value(c.sec) + 1))
  }

  /** Below 59 seconds only the seconds change, and they are shown with two digits. */
  lemma TickWithoutCarry(c: Clock)
    requires WellFormed(c) && Value(c.sec) < 59
    ensures Tick(c, false).hour == c.hour && Tick(c, false).min == c.min
    ensures Value(Tick(c, false).sec) == Value(c.sec) + 1 && |Tick(c, false).sec| == 2
  {
  }

  /** At 59 seconds and under 59 minutes the minutes become exactly `Padded(minutes + 1)`,
      the hours stay and the seconds show "0". The value and length clauses follow from
      `Padded`'s contract and are spelled out for the reader. */
  lemma TickMinuteCarry(c: Clock)
    requires WellFormed(c) && Value(c.sec) == 59 && Value(c.min) != 59
    ensures Tick(c, false).hour == c.hour
    ensures Value(Tick(c, false).min) == Value(c.min) + 1 && |Tick(c, false).min| >= 2
    ensures Tick(c, false).min == Padded(Value(c.min) + 1)
    ensures Tick(c, false).sec == "0"
  {
  }

  /** At 59:59 the hours become exactly `Padded(hours + 1)` (padded only below ten), the
      minutes show "00" and the seconds "0". The value and first-character clauses follow
      from `Padded`'s contract and are spelled out for the reader. */
  lemma TickHourCarry(c: Clock)
    requires WellFormed(c) && Value(c.sec) == 59 && Value(c.min) == 59
    ensures Value(Tick(c, false).hour) == Value(c.hour) + 1
    ensures Tick(c, false).hour[0] == '0' <==> Value(c.hour) + 1 < 10
    ensures Tick(c, false).hour == Padded(Value(c.hour) + 1)
    ensures Tick(c, false).min == "00" && Tick(c, false).sec == "0"
  {
  }

  /** The clock after n unpaused steps. */
  function Ticks(c: Clock, n: nat): (r: Clock)
    requires WellFormed(c)
    ensures WellFormed(r)
    ensures ElapsedSeconds(r) == ElapsedSeconds(c) + n
    ensures InRange(c) ==> InRange(r)
  {
    if n == 0 then c else Tick(Ticks(c, n - 1), false)
  }

  /** `resetTimer`'s display. */
  const ResetClock := Clock("00", "00", "00")

  lemma DivMod60(t: int, q: int, r: int)
    requires 0 <= r < 60 && t == 60 * q + r
    ensures t / 60 == q && t % 60 == r
  {
  }

  lemma DivMod3600(t: int, q: int, r: int)
    requires 0 <= r < 3600 && t == 3600 * q + r
    ensures t / 3600 == q
  {
  }

  /** Hours, minutes and seconds of an in-range clock are those of its elapsed seconds. */
  lemma InRangeFields(c: Clock)
    requires WellFormed(c) && InRange(c)
    ensures Value(c.sec) == ElapsedSeconds(c) % 60
    ensures Value(c.min) == ElapsedSeconds(c) / 60 % 60
    ensures Value(c.hour) == ElapsedSeconds(c) / 3600
  {
    var h, m, s := Value(c.hour), Value(c.min), Value(c.sec);
    var t := ElapsedSeconds(c);
    DivMod60(t, 60 * h + m, s);
    DivMod60(60 * h + m, h, m);
    DivMod3600(t, h, 60 * m + s);
  }

  /** n seconds after a reset the clock shows n seconds as hours, minutes and seconds. */
  lemma TicksFromReset(n: nat)
    ensures WellFormed(ResetClock)
    ensures Value(Ticks(ResetClock, n).hour) == n / 3600
    ensures Value(Ticks(ResetClock, n).min) == n / 60 % 60
    ensures Value(Ticks(ResetClock, n).sec) == n % 60
  {
    ValueLeadingZero("0");
    assert Value("00") == 0;
    assert ElapsedSeconds(ResetClock) == 0 && InRange(ResetClock);
    var c := Ticks(ResetClock, n);
    assert ElapsedSeconds(c) == n && InRange(c);
    InRangeFields(c);
  }

  /** `hour + ":" + min + ":" + sec`: the three fields joined by colons. */
  function Render(c: Clock): (r: string)
    ensures r == Join([c.hour, c.min, c.sec])
  {
    assert [c.hour, c.min, c.sec][1..] == [c.min, c.sec] && [c.min, c.sec][1..] == [c.sec];
    assert Join([c.min, c.sec]) == c.min + ":" + c.sec;
    assert c.hour + ":" + c.min + ":" + c.sec == c.hour + ":" + (c.min + ":" + c.sec);
    c.hour + ":" + c.min + ":" + c.sec
  }

  /** The pieces joined with a colon between each two. */
  function Join(parts: seq<string>): string
    requires |parts| >= 1
  {
    if |parts| == 1 then parts[0] else parts[0] + ":" + Join(parts[1..])
  }

  /** `s.split(":")`: the pieces of s between colons. */
  function Split(s: string): (parts: seq<string>)
    ensures |parts| >= 1
    ensures forall k :: 0 <= k < |parts| ==> ':' !in parts[k]
  {
    if s == [] then [""]
    else
      var rest := Split(s[1..]);
      if s[0] == ':' then [""] + rest else [[s[0]] + rest[0]] + rest[1..]
  }

  /** Putting a character in front of the first piece puts it in front of the joined text. */
  lemma {:induction false} JoinConsChar(ch: char, parts: seq<string>)
    requires |parts| >= 1
    ensures Join([[ch] + parts[0]] + parts[1..]) == [ch] + Join(parts)
  {
    var moved := [[ch] + parts[0]] + parts[1..];
    assert moved[0] == [ch] + parts[0] && moved[1..] == parts[1..];
    if |parts| > 1 {
      calc {
        Join(moved);
        moved[0] + ":" + Join(moved[1..]);
        ([ch] + parts[0]) + ":" + Join(parts[1..]);
        [ch] + (parts[0] + ":" + Join(parts[1..]));
      }
    }
  }

  /** Joining the pieces of a split with colons gives back the text. */
  lemma {:induction false} JoinSplit(s: string)
    ensures Join(Split(s)) == s
  {
    if s != [] {
      var rest := Split(s[1..]);
      JoinSplit(s[1..]);
      if s[0] == ':' {
        assert ([""] + rest)[1..] == rest;
      } else {
        JoinConsChar(s[0], rest);
        assert [s[0]] + s[1..] == s;
      }
    }
  }

  lemma {:induction false} SplitNoColon(a: string)
    requires IsNumeral(a)
    ensures Split(a) == [a]
  {
    if a != [] {
      SplitNoColon(a[1..]);
      assert [a[0]] + a[1..] == a;
    }
  }

  lemma {:induction false} SplitAfterNumeral(a: string, b: string)
    requires IsNumeral(a)
    ensures Split(a + ":" + b) == [a] + Split(b)
  {
    if a == [] {
      assert a + ":" + b == [':'] + b;
      assert (a + ":" + b)[1..] == b;
    } else {
      SplitAfterNumeral(a[1..], b);
      assert (a + ":" + b)[1..] == a[1..] + ":" + b;
      assert [a[0]] + a[1..] == a;
    }
  }

  /** Splitting a rendered clock gives back its three fields. */
  lemma SplitRender(c: Clock)
    requires WellFormed(c)
    ensures Split(Render(c)) == [c.hour, c.min, c.sec]
  {
    assert Render(c) == c.hour + ":" + (c.min + ":" + c.sec);
    SplitAfterNumeral(c.hour, c.min + ":" + c.sec);
    SplitAfterNumeral(c.min, c.sec);
    SplitNoColon(c.sec);
  }

  /** A display text the clock can read: at least three fields, the first three numerals. */
  predicate IsClockText(text: string) {
    var parts := Split(text);
    |parts| >= 3 && WellFormed(Clock(parts[0], parts[1], parts[2]))
  }

  function ReadClock(text: string): (c: Clock)
    requires IsClockText(text)
    ensures WellFormed(c)
  {
    var parts := Split(text);
    Clock(parts[0], parts[1], parts[2])
  }

  /** Reading back a written clock gives the same three fields. */
  lemma ReadRender(c: Clock)
    requires WellFormed(c)
    ensures IsClockText(Render(c)) && ReadClock(Render(c)) == c
  {
    SplitRender(c);
  }

  /** One run of `start_timer`: read the display, step, write the display. */
  function StartTimerStep(text: string, isPaused: bool): (r: string)
    requires IsClockText(text)
    ensures IsClockText(r) && |Split(r)| == 3
    ensures ReadClock(r) == Tick(ReadClock(text), isPaused)
    ensures isPaused ==> ReadClock(r) == ReadClock(text)
    ensures !isPaused ==> ElapsedSeconds(ReadClock(r)) == ElapsedSeconds(ReadClock(text)) + 1
  {
    var c := Tick(ReadClock(text), isPaused);
    SplitRender(c);
    Render(c)
  }

  /** `resetTimer`: the display shows "00:00:00", no time elapsed. */
  function ResetTimer(): (r: string)
    ensures IsClockText(r) && |Split(r)| == 3
    ensures ReadClock(r) == ResetClock && ElapsedSeconds(ReadClock(r)) == 0
  {
    assert WellFormed(ResetClock) && Value("0") == 0;
    ValueLeadingZero("0");
    SplitRender(ResetClock);
    "00" + ":" + "00" + ":" + "00"
  }
}
