/**
 * Time arithmetic on minutes since midnight (src/utils/time.ts): the strict
 * `H:MM`/`HH:MM` parser, the clamping formatter, the Korean 12-hour display,
 * session lookup and the remaining-time text.
 */
module Time {
  import opened Wrappers
  import opened Digits
  import opened Types

  /** The last minute of a day, 23:59. */
  const LastMinute: int := 1439

  /** Period labels "오전 " (morning) and "오후 " (afternoon), each with its trailing space. */
  const Morning: string := "오전 "
  const Afternoon: string := "오후 "

  /** Unit words of the remaining-time text: "시간 " (hours, with a space) and "분" (minutes). */
  const HoursWord: string := "시간 "
  const MinutesWord: string := "분"

  predicate HourChars(a: char, b: char) {
    ((a == '0' || a == '1') && IsDigit(b)) || (a == '2' && '0' <= b <= '3')
  }

  predicate MinuteChars(a: char, b: char) {
    '0' <= a <= '5' && IsDigit(b)
  }

  /**
   * The accepted time text: a one-digit hour, or a
   * two-digit hour from 00 to 23, then a colon and two minute digits 00..59.
   */
  predicate IsTimeText(s: string) {
    || (|s| == 4 && IsDigit(s[0]) && s[1] == ':' && MinuteChars(s[2], s[3]))
    || (|s| == 5 && HourChars(s[0], s[1]) && s[2] == ':' && MinuteChars(s[3], s[4]))
  }

  /** Hour and minute fields of accepted text, as `Number` reads them. */
  function HourOf(s: string): (h: nat)
    requires IsTimeText(s)
    ensures h <= 23
  {
    if |s| == 4 then DigitValue(s[0]) else DigitValue(s[0]) * 10 + DigitValue(s[1])
  }

  function MinuteOf(s: string): (m: nat)
    requires IsTimeText(s)
    ensures m <= 59
  {
    DigitValue(s[|s| - 2]) * 10 + DigitValue(s[|s| - 1])
  }

  /** Parses `H:MM`/`HH:MM`; every other string reads as 0. */
  function TimeToMinutes(s: string): (r: int)
    ensures 0 <= r <= LastMinute
    ensures !IsTimeText(s) ==> r == 0
    ensures IsTimeText(s) ==> r / 60 == HourOf(s) && r % 60 == MinuteOf(s)
  {
    if !IsTimeText(s) then 0 else HourOf(s) * 60 + MinuteOf(s)
  }

  function Clamp(mins: int): (c: int)
    ensures 0 <= c <= LastMinute
    ensures 0 <= mins <= LastMinute ==> c == mins
  {
    if mins < 0 then 0 else if mins > LastMinute then LastMinute else mins
  }

  /** Clamps to [0, 1439] and renders zero-padded `HH:MM`. */
  function MinutesToTime(mins: int): (r: string)
    ensures |r| == 5 && IsTimeText(r)
    ensures TimeToMinutes(r) == Clamp(mins)
  {
    var c := Clamp(mins);
    var r := Pad2(c / 60) + ":" + Pad2(c % 60);
    assert IsTimeText(r);
    assert HourOf(r) == c / 60 && MinuteOf(r) == c % 60;
    r
  }

  lemma MinutesRoundTrip(m: int)
    requires 0 <= m <= LastMinute
    ensures TimeToMinutes(MinutesToTime(m)) == m
  {
  }

  /** Formatted text parses to the clamped minute, so formatting that minute again changes nothing. */
  lemma FormatIsStable(m: int)
    ensures TimeToMinutes(MinutesToTime(m)) == Clamp(m)
    ensures MinutesToTime(TimeToMinutes(MinutesToTime(m))) == MinutesToTime(m)
  {
    assert Clamp(Clamp(m)) == Clamp(m);
  }

  /** Formatting the parsed value of two-digit-hour text gives the text back. */
  lemma TextRoundTrip(s: string)
    requires IsTimeText(s) && |s| == 5
    ensures MinutesToTime(TimeToMinutes(s)) == s
  {
    var r := MinutesToTime(TimeToMinutes(s));
    DigitCharOfValue(s[0]);
    DigitCharOfValue(s[1]);
    DigitCharOfValue(s[3]);
    DigitCharOfValue(s[4]);
    assert r[0] == s[0] && r[1] == s[1] && r[2] == s[2] && r[3] == s[3] && r[4] == s[4];
  }

  /** One-digit-hour text formats back with a leading zero. */
  lemma ShortTextRoundTrip(s: string)
    requires IsTimeText(s) && |s| == 4
    ensures MinutesToTime(TimeToMinutes(s)) == "0" + s
  {
    var r := MinutesToTime(TimeToMinutes(s));
    var z := "0" + s;
    DigitCharOfValue(s[0]);
    DigitCharOfValue(s[2]);
    DigitCharOfValue(s[3]);
    assert r[0] == z[0] && r[1] == z[1] && r[2] == z[2] && r[3] == z[3] && r[4] == z[4];
  }

  /**
   * The accepted strings are exactly the formatter's outputs, with or without
   * the leading zero of the hour.
   */
  lemma AcceptedIsFormatted(s: string)
    ensures IsTimeText(s) <==>
      (s == MinutesToTime(TimeToMinutes(s)) || "0" + s == MinutesToTime(TimeToMinutes(s)))
  {
    if IsTimeText(s) {
      if |s| == 5 { TextRoundTrip(s); } else { ShortTextRoundTrip(s); }
    }
  }

  /** Session windows in minutes, read from the constant `HH:MM` texts. */
  function SessionStartMinutes(session: Session): (r: int)
    ensures r == (if session == 1 then 570 else 870)
  {
    var t := SessionStartText(session);
    assert IsTimeText(t) && HourOf(t) == (if session == 1 then 9 else 14) && MinuteOf(t) == 30;
    TimeToMinutes(t)
  }

  function SessionEndMinutes(session: Session): (r: int)
    ensures r == (if session == 1 then 810 else 1110)
  {
    var t := SessionEndText(session);
    assert IsTimeText(t) && HourOf(t) == (if session == 1 then 13 else 18) && MinuteOf(t) == 30;
    TimeToMinutes(t)
  }

  /**
   * The 12-hour display: a period label, then a clock whose hour is 1..12.
   * Hours 1..12 show the input text unchanged.
   */
  function FormatTimeDisplay(time: string): (r: string)
    ensures |r| >= 3
    ensures r[..3] == (if TimeToMinutes(time) < 720 then Morning else Afternoon)
    ensures IsTimeText(r[3..])
    ensures 60 <= TimeToMinutes(r[3..]) < 780
    ensures TimeToMinutes(r[3..]) % 720 == TimeToMinutes(time) % 720
    ensures 60 <= TimeToMinutes(time) < 780 ==> r[3..] == time
    ensures TimeToMinutes(time) < 60 ==> |r| == 8 && r[3..] == MinutesToTime(720 + TimeToMinutes(time))
    ensures 780 <= TimeToMinutes(time) ==> |r| == 8 && r[3..] == MinutesToTime(TimeToMinutes(time) - 720)
  {
    Labelled(if TimeToMinutes(time) < 720 then Morning else Afternoon, TwelveHourClock(time))
  }

  /** The clock part of the display: hour 0 shows as 12, hours past 12 lose twelve, the rest show as given. */
  function TwelveHourClock(time: string): (c: string)
    ensures IsTimeText(c)
    ensures 60 <= TimeToMinutes(c) < 780
    ensures TimeToMinutes(c) % 720 == TimeToMinutes(time) % 720
    ensures 60 <= TimeToMinutes(time) < 780 ==> c == time
    ensures TimeToMinutes(time) < 60 ==> |c| == 5 && c == MinutesToTime(720 + TimeToMinutes(time))
    ensures 780 <= TimeToMinutes(time) ==> |c| == 5 && c == MinutesToTime(TimeToMinutes(time) - 720)
  {
    var mins := TimeToMinutes(time);
    if mins / 60 == 0 then MidnightClock(mins)
    else if mins / 60 <= 12 then time
    else AfternoonClock(mins)
  }

  /** Hour 0 shows as 12: "12:MM". */
  function MidnightClock(mins: int): (c: string)
    requires 0 <= mins < 60
    ensures IsTimeText(c) && TimeToMinutes(c) == 720 + mins && TimeToMinutes(c) % 720 == mins
    ensures c == MinutesToTime(720 + mins)
  {
    Clock(12, mins)
  }

  /** Hours 13..23 lose twelve, padded to two digits. */
  function AfternoonClock(mins: int): (c: string)
    requires 780 <= mins <= LastMinute
    ensures IsTimeText(c) && TimeToMinutes(c) == mins - 720 && TimeToMinutes(c) % 720 == mins % 720
    ensures c == MinutesToTime(mins - 720)
  {
    var hour := mins / 60 - 12;
    assert hour * 60 + mins % 60 == mins - 720;
    assert (mins - 720) % 720 == mins % 720;
    Clock(hour, mins % 60)
  }

  /** A three-character period label followed by a clock. */
  function Labelled(period: string, clock: string): (r: string)
    requires |period| == 3
    ensures |r| >= 3 && r[..3] == period && r[3..] == clock
  {
    period + clock
  }

  /** The clock text `HH:MM` for an hour and a minute below 100 and 60. */
  function Clock(hour: nat, minute: nat): (r: string)
    requires hour <= 23 && minute < 60
    ensures IsTimeText(r) && TimeToMinutes(r) == hour * 60 + minute
    ensures r == MinutesToTime(hour * 60 + minute)
  {
    var r := Pad2(hour) + ":" + Pad2(minute);
    assert IsTimeText(r) && HourOf(r) == hour && MinuteOf(r) == minute;
    assert Clamp(hour * 60 + minute) / 60 == hour && Clamp(hour * 60 + minute) % 60 == minute;
    r
  }

  /** Malformed input displays as midnight. */
  lemma DisplayOfMalformed(time: string)
    requires !IsTimeText(time)
    ensures FormatTimeDisplay(time) == "오전 12:00"
  {
  }

  /** The session whose half-open window contains the time, if any. */
  function GetCurrentSession(time: string): (r: Option<Session>)
    ensures r == Some(1) <==> 570 <= TimeToMinutes(time) < 810
    ensures r == Some(2) <==> 870 <= TimeToMinutes(time) < 1110
    ensures r.None? <==> !(570 <= TimeToMinutes(time) < 810) && !(870 <= TimeToMinutes(time) < 1110)
  {
    var mins := TimeToMinutes(time);
    if mins >= SessionStartMinutes(1) && mins < SessionEndMinutes(1) then Some(1)
    else if mins >= SessionStartMinutes(2) && mins < SessionEndMinutes(2) then Some(2)
    else None
  }

  /** Minutes left before the session ends, never negative. */
  function MinutesLeft(time: string, session: Session): (r: nat) {
    var d := SessionEndMinutes(session) - TimeToMinutes(time);
    if d <= 0 then 0 else d
  }

  /** Reads a remaining-time text back into minutes. */
  function ReadRemaining(t: string): Option<nat> {
    if |t| == 0 || t[|t| - 1..] != MinutesWord then None
    else
      var body := t[..|t| - 1];
      if |body| >= 5 && body[|body| - 5..|body| - 2] == HoursWord then
        match (ParseDecimal(body[..|body| - 5]), ParseDecimal(body[|body| - 2..]))
        case (Some(h), Some(m)) => Some(h * 60 + m)
        case _ => None
      else ParseDecimal(body)
  }

  lemma ReadHoursForm(h: nat, m: nat)
    requires m < 100
    ensures ReadRemaining(DecimalText(h) + HoursWord + Pad2(m) + MinutesWord) == Some(h * 60 + m)
  {
    var t := DecimalText(h) + HoursWord + Pad2(m) + MinutesWord;
    var body := t[..|t| - 1];
    assert t[|t| - 1..] == MinutesWord;
    assert body == DecimalText(h) + HoursWord + Pad2(m);
    assert body[..|body| - 5] == DecimalText(h);
    assert body[|body| - 5..|body| - 2] == HoursWord;
    assert body[|body| - 2..] == Pad2(m);
    DecimalTextRoundTrip(h);
    Pad2RoundTrip(m);
  }

  lemma ReadMinutesForm(n: nat)
    ensures ReadRemaining(DecimalText(n) + MinutesWord) == Some(n)
  {
    var t := DecimalText(n) + MinutesWord;
    var body := t[..|t| - 1];
    assert t[|t| - 1..] == MinutesWord;
    assert body == DecimalText(n);
    DecimalTextRoundTrip(n);
    if |body| >= 5 {
      assert IsDigit(body[|body| - 5]);
      assert body[|body| - 5..|body| - 2][0] == body[|body| - 5];
      assert body[|body| - 5..|body| - 2] != HoursWord;
    }
  }

  /** A text ending in the minutes word. */
  predicate EndsInMinutes(t: string) {
    |t| >= 2 && t[|t| - 1..] == MinutesWord
  }

  lemma EndsInMinutesAppend(body: string)
    requires |body| >= 1
    ensures EndsInMinutes(body + MinutesWord)
  {
    assert (body + MinutesWord)[|body|..] == MinutesWord;
  }

  /**
   * The shape "H시간 MM분" for `h` hours and `m` minutes: the hours in
   * canonical decimal, the hours word, exactly two minute digits, the minutes word.
   */
  predicate HoursForm(t: string, h: nat, m: nat) {
    && |t| >= 7
    && Canonical(t[..|t| - 6]) && DigitsValue(t[..|t| - 6]) == h
    && t[|t| - 6..|t| - 3] == HoursWord
    && AllDigits(t[|t| - 3..|t| - 1]) && DigitsValue(t[|t| - 3..|t| - 1]) == m
    && t[|t| - 1..] == MinutesWord
  }

  /** The shape "M분" for `n` minutes: canonical decimal, then the minutes word. */
  predicate MinutesForm(t: string, n: nat) {
    && |t| >= 2
    && Canonical(t[..|t| - 1]) && DigitsValue(t[..|t| - 1]) == n
    && t[|t| - 1..] == MinutesWord
  }

  /** The hours-and-minutes form "H시간 MM분", read back. */
  function HoursText(h: nat, m: nat): (r: string)
    requires m < 60
    ensures HoursForm(r, h, m)
    ensures EndsInMinutes(r) && ReadRemaining(r) == Some(h * 60 + m)
  {
    ReadHoursForm(h, m);
    EndsInMinutesAppend(DecimalText(h) + HoursWord + Pad2(m));
    DecimalTextRoundTrip(h);
    Pad2RoundTrip(m);
    var t := DecimalText(h) + HoursWord + Pad2(m) + MinutesWord;
    assert t[..|t| - 6] == DecimalText(h);
    assert t[|t| - 6..|t| - 3] == HoursWord;
    assert t[|t| - 3..|t| - 1] == Pad2(m);
    t
  }

  /** Only one text has the hours form for given hours and minutes. */
  lemma HoursFormIsUnique(t: string, h: nat, m: nat)
    requires m < 60
    ensures HoursForm(t, h, m) <==> t == HoursText(h, m)
  {
    if HoursForm(t, h, m) {
      CanonicalIsDecimalText(t[..|t| - 6]);
      TwoDigitsArePad2(t[|t| - 3..|t| - 1]);
      assert t == t[..|t| - 6] + t[|t| - 6..|t| - 3] + t[|t| - 3..|t| - 1] + t[|t| - 1..];
    }
  }

  /** The minutes-only form "M분", read back. */
  function MinutesText(n: nat): (r: string)
    ensures MinutesForm(r, n)
    ensures EndsInMinutes(r) && ReadRemaining(r) == Some(n)
  {
    ReadMinutesForm(n);
    EndsInMinutesAppend(DecimalText(n));
    DecimalTextRoundTrip(n);
    var t := DecimalText(n) + MinutesWord;
    assert t[..|t| - 1] == DecimalText(n);
    t
  }

  /** Only one text has the minutes form for a given count. */
  lemma MinutesFormIsUnique(t: string, n: nat)
    ensures MinutesForm(t, n) <==> t == MinutesText(n)
  {
    if MinutesForm(t, n) {
      CanonicalIsDecimalText(t[..|t| - 1]);
      assert t == t[..|t| - 1] + t[|t| - 1..];
    }
  }

  /**
   * "H시간 MM분" from one hour up, "M분" below an hour, "0분" once the
   * session is over; read back, the text gives the minutes left.
   */
  function GetRemainingTime(time: string, session: Session): (r: string)
    ensures EndsInMinutes(r)
    ensures MinutesLeft(time, session) == 0 ==> r == "0" + MinutesWord
    ensures MinutesLeft(time, session) >= 60 ==>
      HoursForm(r, MinutesLeft(time, session) / 60, MinutesLeft(time, session) % 60)
    ensures MinutesLeft(time, session) < 60 ==> MinutesForm(r, MinutesLeft(time, session))
    ensures ReadRemaining(r) == Some(MinutesLeft(time, session))
  {
    var remaining := SessionEndMinutes(session) - TimeToMinutes(time);
    if remaining <= 0 then
      assert MinutesText(0) == "0" + MinutesWord;
      MinutesText(0)
    else
      assert MinutesLeft(time, session) == remaining;
      var h := remaining / 60;
      var m := remaining % 60;
      if h > 0 then HoursText(h, m)
      else
        assert m == remaining;
        MinutesText(m)
  }
}
