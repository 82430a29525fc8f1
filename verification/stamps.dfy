/** The text helpers both scheduling pages use for the `starts_at` /
    `ends_at` strings the server returns: `formatTime`, `formatDateTime`
    and the string normalisation inside `parseLocalDateTime`. Turning the
    normalised text into a JavaScript `Date` is outside the model; the
    slot engine receives timestamps as minutes instead. */
module Stamps {
  import opened Values
  import opened Lists
  import opened Text
  import opened Clock

  predicate IsDigit(c: char) {
    '0' <= c <= '9'
  }

  /** A match of `/T(\d{2}:\d{2})/` starting at `i`. */
  predicate ClockAt(s: string, i: int) {
    && 0 <= i && i + 6 <= |s|
    && s[i] == 'T' && IsDigit(s[i + 1]) && IsDigit(s[i + 2])
    && s[i + 3] == ':' && IsDigit(s[i + 4]) && IsDigit(s[i + 5])
  }

  /** The leftmost match at or after `from`. */
  function FirstClock(s: string, from: nat): (r: Option<nat>)
    requires from <= |s|
    ensures r.Some? ==> from <= r.value && ClockAt(s, r.value)
    ensures r.Some? ==> forall j :: from <= j < r.value ==> !ClockAt(s, j)
    ensures r.None? ==> forall j :: from <= j ==> !ClockAt(s, j)
    decreases |s| - from
  {
    if from + 6 > |s| then None
    else if ClockAt(s, from) then Some(from)
    else FirstClock(s, from + 1)
  }

  function Min(a: int, b: int): int {
    if a <= b then a else b
  }

  /** `formatTime`: `-` for an empty value; the `HH:MM` after the first
      `T` that is followed by one; otherwise the first five characters of
      the second space-separated piece when there is one; otherwise the
      value itself. */
  function FormatTime(value: string): (r: string)
    ensures value == "" ==> r == "-"
    ensures value != "" && (exists i :: ClockAt(value, i)) ==>
      && IsHourText(r)
      && exists i :: ClockAt(value, i) && r == value[i + 1..i + 6] && forall j :: 0 <= j < i ==> !ClockAt(value, j)
    ensures value != "" && (forall i :: !ClockAt(value, i)) ==>
      var parts := Split(value, ' ');
      if |parts| > 1 && parts[1] != "" then r == parts[1][..Min(5, |parts[1]|)] && ' ' !in r
      else r == value
  {
    if value == "" then "-"
    else
      match FirstClock(value, 0)
      case Some(i) =>
        ClockTextAt(value, i);
        value[i + 1..i + 6]
      case None =>
        var parts := Split(value, ' ');
        if |parts| > 1 && parts[1] != "" then
          PieceHeadPlain(parts[1]);
          parts[1][..Min(5, |parts[1]|)]
        else value
  }

  /** The text a match captures is a well-formed `HH:MM`. */
  lemma ClockTextAt(s: string, i: int)
    requires ClockAt(s, i)
    ensures IsHourText(s[i + 1..i + 6])
  {
    var r := s[i + 1..i + 6];
    assert r[..2] == s[i + 1..i + 3] && r[3..] == s[i + 4..i + 6];
  }

  lemma PieceHeadPlain(piece: string)
    requires ' ' !in piece
    ensures ' ' !in piece[..Min(5, |piece|)]
  {
    assert forall k :: 0 <= k < Min(5, |piece|) ==> piece[..Min(5, |piece|)][k] == piece[k];
  }

  /** Any stamp `date + "T" + HH:MM + rest`, with no `T` in the date part
      and two digits on each side of the colon, shows exactly its `HH:MM`. */
  lemma FormatTimeOfClockText(date: string, clock: string, rest: string)
    requires 'T' !in date && IsHourText(clock)
    ensures FormatTime(date + "T" + clock + rest) == clock
  {
    var v := date + "T" + clock + rest;
    assert ClockAt(v, |date|) by {
      assert v[|date|] == 'T';
      assert v[|date| + 1..|date| + 6] == clock;
      assert forall k :: 0 <= k < 2 ==> v[|date| + 1 + k] == clock[..2][k];
      assert forall k :: 0 <= k < 2 ==> v[|date| + 4 + k] == clock[3..][k];
    }
    forall j | 0 <= j < |date|
      ensures !ClockAt(v, j)
    {
      assert v[j] == date[j];
    }
    var i := FirstClock(v, 0).value;
    assert i == |date|;
    assert v[|date| + 1..|date| + 6] == clock;
  }

  /** In particular an ISO stamp carrying the minute of day `m` shows
      `formatHourLocal(m)`. */
  lemma FormatTimeOfIsoStamp(date: string, m: int, rest: string)
    requires 'T' !in date
    requires 0 <= m < MinutesPerDay
    ensures FormatTime(date + "T" + FormatHour(m) + rest) == FormatHour(m)
  {
    FormatHourReadsBack(m);
    FormatTimeOfClockText(date, FormatHour(m), rest);
  }

  /** The shown time reads back to the minute of day the stamp carries. */
  lemma FormatTimeReadsBack(date: string, m: int, rest: string)
    requires 'T' !in date
    requires 0 <= m < MinutesPerDay
    ensures IsHourText(FormatTime(date + "T" + FormatHour(m) + rest))
    ensures ParseHour(FormatTime(date + "T" + FormatHour(m) + rest)) == m
  {
    FormatTimeOfIsoStamp(date, m, rest);
    FormatHourReadsBack(m);
  }

  /** A space-separated stamp `date + " " + time` without any `T` shows
      the first five characters of its time part. */
  lemma FormatTimeOfSpacedStamp(date: string, time: string)
    requires date != "" && time != ""
    requires 'T' !in date && 'T' !in time && ' ' !in date && ' ' !in time
    ensures FormatTime(date + " " + time) == time[..Min(5, |time|)]
  {
    var v := date + " " + time;
    forall j | true
      ensures !ClockAt(v, j)
    {
      if 0 <= j < |v| {
        assert v[j] in date || v[j] == ' ' || v[j] in time;
      }
    }
    SplitAtSeparator(date, ' ', time);
    SplitNoSeparator(time, ' ');
  }

  /** The text with its first `from` character replaced by `to`
      (`String.prototype.replace` with a one-character pattern). */
  function ReplaceFirst(s: string, from: char, to: char): (r: string)
    ensures |r| == |s|
    ensures from !in s ==> r == s
    ensures from in s ==> r == s[IndexOf(s, from) := to]
  {
    if from in s then s[IndexOf(s, from) := to] else s
  }

  /** `formatDateTime`: `-` for an empty value; otherwise the value with its
      first `T` turned into a space, cut to sixteen characters. */
  function FormatDateTime(value: string): (r: string)
    ensures value == "" ==> r == "-"
    ensures value != "" ==> |r| == Min(|value|, 16)
    ensures value != "" ==> forall i :: 0 <= i < |r| ==>
      r[i] == (if 'T' in value && i == IndexOf(value, 'T') then ' ' else value[i])
  {
    if value == "" then "-"
    else
      var n := ReplaceFirst(value, 'T', ' ');
      n[..Min(|n|, 16)]
  }

  /** An ISO stamp `YYYY-MM-DDTHH:MM...` shows as `YYYY-MM-DD HH:MM`. */
  lemma FormatDateTimeOfIsoStamp(date: string, m: int, rest: string)
    requires |date| == 10 && 'T' !in date
    requires 0 <= m < MinutesPerDay
    ensures FormatDateTime(date + "T" + FormatHour(m) + rest) == date + " " + FormatHour(m)
  {
    FormatDateTimeOfStamp(date, FormatHour(m), rest);
  }

  /** The same for any five-character time text. */
  lemma FormatDateTimeOfStamp(date: string, time: string, rest: string)
    requires |date| == 10 && 'T' !in date && |time| == 5
    ensures FormatDateTime(date + "T" + time + rest) == date + " " + time
  {
    var v := date + "T" + time + rest;
    var want := date + " " + time;
    assert v == date + ['T'] + (time + rest);
    IndexOfAfter(date, 'T', time + rest);
    var r := FormatDateTime(v);
    forall i | 0 <= i < 16
      ensures r[i] == want[i]
    {
      if i < 10 {
        assert v[i] == date[i] == want[i];
      } else if i > 10 {
        assert v[i] == time[i - 11] == want[i];
      }
    }
  }

  /** The two helpers agree on an ISO stamp: the date-time text is the date
      followed by the time `formatTime` shows. */
  lemma FormatViewsAgree(date: string, clock: string, rest: string)
    requires |date| == 10 && 'T' !in date && IsHourText(clock)
    ensures FormatDateTime(date + "T" + clock + rest) == date + " " + FormatTime(date + "T" + clock + rest)
  {
    FormatTimeOfClockText(date, clock, rest);
    FormatDateTimeOfStamp(date, clock, rest);
  }

  lemma IndexOfAfter(p: string, c: char, t: string)
    requires c !in p
    ensures IndexOf(p + [c] + t, c) == |p|
  {
    var v := p + [c] + t;
    assert forall i :: 0 <= i < |p| ==> v[i] == p[i];
    assert v[|p|] == c;
    forall k | |p| < k <= |v|
      ensures c in v[..k]
    {
      assert v[..k][|p|] == c;
    }
  }

  /** Text ending in a time-zone designator: `Z`, `z` or `+HH:MM`/`-HH:MM`. */
  predicate Zoned(s: string) {
    || (|s| > 0 && (s[|s| - 1] == 'Z' || s[|s| - 1] == 'z'))
    || (&& |s| >= 6 && (s[|s| - 6] == '+' || s[|s| - 6] == '-')
        && IsDigit(s[|s| - 5]) && IsDigit(s[|s| - 4]) && s[|s| - 3] == ':'
        && IsDigit(s[|s| - 2]) && IsDigit(s[|s| - 1]))
  }

  /** Text that is exactly `YYYY-MM-DD`. */
  predicate DateOnly(s: string) {
    |s| == 10 && IsIsoDatePrefix(s)
  }

  /** The text `parseLocalDateTime` hands to `new Date`: none for an empty
      value (an invalid date); a zoned stamp unchanged; otherwise the first
      space becomes `T` unless a `T` is already present, and a bare date
      gets `T00:00` so that it reads as local midnight. */
  function LocalStampText(value: string): (r: Option<string>)
    ensures r.None? <==> value == ""
    ensures Zoned(value) ==> r == Some(value)
    ensures DateOnly(value) ==> r == Some(value + "T00:00")
    ensures r.Some? ==> r.value != "" && (Zoned(r.value) <==> Zoned(value))
  {
    DateOnlyPlain(value);
    if value == "" then None
    else if Zoned(value) then Some(value)
    else
      var n := if 'T' in value then value else ReplaceFirst(value, ' ', 'T');
      assert Zoned(n) == Zoned(value) by {
        if n != value {
          ReplaceKeepsZone(value);
        }
      }
      if DateOnly(n) then
        var r := n + "T00:00";
        assert r[|r| - 6] == 'T';
        Some(r)
      else Some(n)
  }

  /** A bare date holds digits and dashes only: no space, no `T`, no zone. */
  lemma DateOnlyPlain(s: string)
    ensures DateOnly(s) ==> ' ' !in s && 'T' !in s && !Zoned(s)
  {
    if DateOnly(s) {
      forall i | 0 <= i < |s|
        ensures s[i] == '-' || '0' <= s[i] <= '9'
      {
        if i < 4 {
          assert s[..4][i] == s[i];
        } else if 5 <= i < 7 {
          assert s[5..7][i - 5] == s[i];
        } else if 8 <= i {
          assert s[8..10][i - 8] == s[i];
        }
      }
      assert s[9] != 'Z' && s[9] != 'z';
    }
  }

  lemma ReplaceKeepsZone(s: string)
    requires ' ' in s
    ensures Zoned(ReplaceFirst(s, ' ', 'T')) <==> Zoned(s)
  {
    var k := IndexOf(s, ' ');
    var n := ReplaceFirst(s, ' ', 'T');
    assert forall i :: 0 <= i < |s| && i != k ==> n[i] == s[i];
  }

  /** Normalising twice is normalising once. */
  lemma LocalStampTextIdempotent(value: string)
    requires value != ""
    ensures LocalStampText(LocalStampText(value).value) == LocalStampText(value)
  {
    var r := LocalStampText(value).value;
    if !Zoned(value) {
      var n := if 'T' in value then value else ReplaceFirst(value, ' ', 'T');
      if 'T' !in value && ' ' in value {
        assert n[IndexOf(value, ' ')] == 'T';
      }
      if DateOnly(n) {
        assert r[10] == 'T';
      }
      if DateOnly(r) {
        DateOnlyHasNoT(r);
      }
    }
  }

  /** A server stamp `date + " " + time` reads as `date + "T" + time`. */
  lemma LocalStampTextOfSpaced(date: string, time: string)
    requires 'T' !in date && 'T' !in time && ' ' !in date
    requires !Zoned(date + " " + time)
    ensures LocalStampText(date + " " + time) == Some(date + "T" + time)
  {
    var v := date + " " + time;
    IndexOfAfter(date, ' ', time);
    assert 'T' !in v;
    var n := ReplaceFirst(v, ' ', 'T');
    assert n == date + "T" + time;
    if DateOnly(n) {
      DateOnlyHasNoT(n);
    }
  }

  lemma DateOnlyHasNoT(s: string)
    requires DateOnly(s)
    ensures 'T' !in s
  {
    forall k | 0 <= k < |s|
      ensures s[k] != 'T'
    {
      if k < 4 {
        assert s[k] == s[..4][k];
      } else if 5 <= k < 7 {
        assert s[k] == s[5..7][k - 5];
      } else if 8 <= k {
        assert s[k] == s[8..10][k - 8];
      }
    }
  }
}
