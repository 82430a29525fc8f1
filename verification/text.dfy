/** The JavaScript string operations the panel relies on, over `string`
    (a sequence of Dafny `char`s, which are Unicode scalar values rather
    than UTF-16 code units, so surrogate pairs and the code-unit `length`
    of text outside the Basic Multilingual Plane are not modelled): `trim`,
    `toLowerCase`, `includes`, `split`/`join`, `String(n)`, `Number(s)`,
    `padStart(2, "0")`, the `<` comparison of strings, and the `x || null`
    idiom for optional form fields. */
module Text {
  import opened Values

  /** The characters `String.prototype.trim` removes (ASCII whitespace,
      line terminators, and the Unicode space separators). */
  predicate IsSpace(c: char) {
    || c == ' ' || c == '\t' || c == '\n' || c == '\r' || c == '\U{B}' || c == '\U{C}'
    || c == '\U{A0}' || c == '\U{FEFF}' || c == '\U{1680}' || ('\U{2000}' <= c <= '\U{200A}')
    || c == '\U{2028}' || c == '\U{2029}' || c == '\U{202F}' || c == '\U{205F}' || c == '\U{3000}'
  }

  predicate AllSpace(s: string) {
    forall i :: 0 <= i < |s| ==> IsSpace(s[i])
  }

  function TrimStart(s: string): (r: string)
    ensures |r| <= |s| && r == s[|s| - |r|..]
    ensures AllSpace(s[..|s| - |r|])
    ensures |r| > 0 ==> !IsSpace(r[0])
  {
    if |s| > 0 && IsSpace(s[0]) then TrimStart(s[1..]) else s
  }

  function TrimEnd(s: string): (r: string)
    ensures |r| <= |s| && r == s[..|r|]
    ensures AllSpace(s[|r|..])
    ensures |r| > 0 ==> !IsSpace(r[|r| - 1])
  {
    if |s| > 0 && IsSpace(s[|s| - 1]) then TrimEnd(s[..|s| - 1]) else s
  }

  /** `s.trim()`. */
  function Trim(s: string): (r: string)
    ensures |r| <= |s|
    ensures |r| > 0 ==> !IsSpace(r[0]) && !IsSpace(r[|r| - 1])
  {
    var t := TrimStart(s);
    var r := TrimEnd(t);
    assert |r| > 0 ==> r[0] == t[0];
    r
  }

  lemma {:induction false} TrimStartBlank(s: string)
    ensures TrimStart(s) == "" <==> AllSpace(s)
  {
    if |s| > 0 && IsSpace(s[0]) {
      TrimStartBlank(s[1..]);
      assert AllSpace(s) <==> AllSpace(s[1..]);
    }
  }

  lemma {:induction false} TrimEndBlank(s: string)
    ensures TrimEnd(s) == "" <==> AllSpace(s)
  {
    if |s| > 0 && IsSpace(s[|s| - 1]) {
      TrimEndBlank(s[..|s| - 1]);
      assert AllSpace(s) <==> AllSpace(s[..|s| - 1]);
    }
  }

  /** `!s.trim()` holds exactly for blank strings. */
  lemma TrimBlank(s: string)
    ensures Trim(s) == "" <==> AllSpace(s)
  {
    TrimStartBlank(s);
    var t := TrimStart(s);
    TrimEndBlank(t);
    if t != "" {
      assert !IsSpace(t[0]);
    }
  }

  /** Every character `trim` keeps comes from its input. */
  lemma TrimKeeps(s: string, c: char)
    requires c in Trim(s)
    ensures c in s
  {
    TrimEndKeeps(TrimStart(s), c);
    TrimStartKeeps(s, c);
  }

  lemma TrimStartKeeps(s: string, c: char)
    requires c in TrimStart(s)
    ensures c in s
  {
    var r := TrimStart(s);
    var k := |s| - |r|;
    var i :| 0 <= i < |r| && r[i] == c;
    assert r == s[k..];
    assert s[k + i] == c;
  }

  lemma TrimEndKeeps(s: string, c: char)
    requires c in TrimEnd(s)
    ensures c in s
  {
    var i :| 0 <= i < |TrimEnd(s)| && TrimEnd(s)[i] == c;
    assert s[i] == c;
  }

  /** A string `trim` leaves alone. */
  predicate Trimmed(s: string) {
    |s| == 0 || (!IsSpace(s[0]) && !IsSpace(s[|s| - 1]))
  }

  lemma TrimOfTrimmed(s: string)
    requires Trimmed(s)
    ensures Trim(s) == s
  {
  }

  lemma TrimIdempotent(s: string)
    ensures Trim(Trim(s)) == Trim(s)
  {
  }

  /** Leading whitespace does not survive `trim`. */
  lemma {:induction false} TrimAfterSpace(c: char, s: string)
    requires IsSpace(c)
    ensures Trim([c] + s) == Trim(s)
  {
    assert ([c] + s)[1..] == s;
  }

  /** `toLowerCase` on one character: ASCII and the Latin-1 capitals used
      in Portuguese names; other characters are left as they are. */
  function LowerChar(c: char): (r: char)
    ensures 'A' <= c <= 'Z' ==> r as int == c as int + 32
    ensures !('A' <= c <= 'Z') && !('\U{C0}' <= c <= '\U{DE}') ==> r == c
  {
    if 'A' <= c <= 'Z' || ('\U{C0}' <= c <= '\U{DE}' && c != '\U{D7}') then (c as int + 32) as char
    else c
  }

  /** `s.toLowerCase()`. */
  function Lower(s: string): (r: string)
    ensures |r| == |s|
    ensures forall i :: 0 <= i < |s| ==> r[i] == LowerChar(s[i])
  {
    seq(|s|, i requires 0 <= i < |s| => LowerChar(s[i]))
  }

  /** `hay.includes(needle)`. */
  predicate Contains(hay: string, needle: string) {
    exists i :: 0 <= i <= |hay| - |needle| && MatchAt(hay, needle, i)
  }

  predicate MatchAt(hay: string, needle: string, i: int)
    requires 0 <= i <= |hay| - |needle|
  {
    hay[i..i + |needle|] == needle
  }

  /** `xs.join(sep)`. */
  function Join(xs: seq<string>, sep: string): string
  {
    if |xs| == 0 then ""
    else if |xs| == 1 then xs[0]
    else xs[0] + sep + Join(xs[1..], sep)
  }

  /** `s.split(sep)` for a one-character separator: the pieces between
      separators, always at least one (`"".split(",")` is `[""]`). */
  function Split(s: string, sep: char): (r: seq<string>)
    ensures |r| >= 1
    ensures forall i :: 0 <= i < |r| ==> sep !in r[i]
    ensures Join(r, [sep]) == s
  {
    if |s| == 0 then [""]
    else
      var rest := Split(s[1..], sep);
      assert s == [s[0]] + s[1..];
      if s[0] == sep then
        JoinEmptyHead(rest, sep);
        [""] + rest
      else
        JoinConsHead(s[0], rest, sep);
        [[s[0]] + rest[0]] + rest[1..]
  }

  lemma JoinEmptyHead(rest: seq<string>, sep: char)
    requires |rest| >= 1
    ensures Join([""] + rest, [sep]) == [sep] + Join(rest, [sep])
  {
    assert ([""] + rest)[1..] == rest;
  }

  lemma JoinConsHead(c: char, rest: seq<string>, sep: char)
    requires |rest| >= 1
    requires c != sep && forall i :: 0 <= i < |rest| ==> sep !in rest[i]
    ensures forall i :: 0 <= i < |[[c] + rest[0]] + rest[1..]| ==> sep !in ([[c] + rest[0]] + rest[1..])[i]
    ensures Join([[c] + rest[0]] + rest[1..], [sep]) == [c] + Join(rest, [sep])
  {
    ConsHeadPiecesClean(c, rest, sep);
    JoinOfConsHead(c, rest, [sep]);
  }

  lemma ConsHeadPiecesClean(c: char, rest: seq<string>, sep: char)
    requires |rest| >= 1
    requires c != sep && forall i :: 0 <= i < |rest| ==> sep !in rest[i]
    ensures forall i :: 0 <= i < |[[c] + rest[0]] + rest[1..]| ==> sep !in ([[c] + rest[0]] + rest[1..])[i]
  {
    var r := [[c] + rest[0]] + rest[1..];
    forall i | 0 <= i < |r|
      ensures sep !in r[i]
    {
      if i > 0 {
        assert r[i] == rest[i];
      }
    }
  }

  lemma JoinOfConsHead(c: char, rest: seq<string>, sep: string)
    requires |rest| >= 1
    ensures Join([[c] + rest[0]] + rest[1..], sep) == [c] + Join(rest, sep)
  {
    var r := [[c] + rest[0]] + rest[1..];
    if |rest| > 1 {
      assert r[1..] == rest[1..];
      var tail := Join(rest[1..], sep);
      calc {
        Join(r, sep);
        ([c] + rest[0]) + sep + tail;
        { assert ([c] + rest[0]) + sep + tail == [c] + (rest[0] + sep + tail); }
        [c] + (rest[0] + sep + tail);
        [c] + Join(rest, sep);
      }
    }
  }

  /** A piece free of the separator splits to itself. */
  lemma SplitNoSeparator(s: string, sep: char)
    requires sep !in s
    ensures Split(s, sep) == [s]
  {
    if |s| > 0 {
      SplitNoSeparator(s[1..], sep);
      assert s == [s[0]] + s[1..];
    }
  }

  /** Splitting `p + sep + t`, with no separator in `p`, yields `p` and
      then the pieces of `t`. */
  lemma {:induction false} SplitAtSeparator(p: string, sep: char, t: string)
    requires sep !in p
    ensures Split(p + [sep] + t, sep) == [p] + Split(t, sep)
    decreases |p|
  {
    if |p| == 0 {
      assert p + [sep] + t == [sep] + t;
      assert ([sep] + t)[1..] == t;
    } else {
      assert (p + [sep] + t)[1..] == p[1..] + [sep] + t;
      SplitAtSeparator(p[1..], sep, t);
      assert [p[0]] + p[1..] == p;
    }
  }

  /** The first piece is the text up to the first separator. */
  lemma SplitHead(s: string, sep: char, r: seq<string>)
    requires r == Split(s, sep)
    ensures |r[0]| <= |s| && s[..|r[0]|] == r[0]
    ensures |r[0]| < |s| ==> s[|r[0]|] == sep
  {
    if |r| > 1 {
      assert s == r[0] + [sep] + Join(r[1..], [sep]);
    }
  }

  /** Prefixing a non-separator character joins it to the first piece. */
  lemma SplitConsChar(c: char, s: string, sep: char)
    requires c != sep
    ensures Split([c] + s, sep) == [[c] + Split(s, sep)[0]] + Split(s, sep)[1..]
  {
    assert ([c] + s)[1..] == s;
  }

  function DigitChar(d: int): (c: char)
    requires 0 <= d < 10
    ensures '0' <= c <= '9'
  {
    ('0' as int + d) as char
  }

  function DigitValue(c: char): (d: int)
    requires '0' <= c <= '9'
    ensures 0 <= d < 10 && DigitChar(d) == c
  {
    c as int - '0' as int
  }

  predicate AllDigits(s: string) {
    forall i :: 0 <= i < |s| ==> '0' <= s[i] <= '9'
  }

  /** The decimal value of a digit string (most significant first). */
  function DigitsValue(s: string): (n: nat)
    requires AllDigits(s)
  {
    if |s| == 0 then 0 else DigitsValue(s[..|s| - 1]) * 10 + DigitValue(s[|s| - 1])
  }

  /** `String(n)` for a non-negative integer: shortest decimal spelling. */
  function NatToString(n: nat): (r: string)
    ensures |r| >= 1 && AllDigits(r)
    ensures |r| > 1 ==> r[0] != '0'
  {
    if n < 10 then [DigitChar(n)] else NatToString(n / 10) + [DigitChar(n % 10)]
  }

  /** `String(n)` for an integer. */
  function IntToString(n: int): (r: string)
    ensures |r| >= 1
    ensures n >= 0 ==> AllDigits(r)
    ensures n < 0 ==> r[0] == '-' && |r| >= 2 && AllDigits(r[1..])
  {
    if n >= 0 then NatToString(n) else "-" + NatToString(-n)
  }

  lemma {:induction false} NatToStringValue(n: nat)
    ensures DigitsValue(NatToString(n)) == n
  {
    if n >= 10 {
      NatToStringValue(n / 10);
      var s := NatToString(n);
      assert s[..|s| - 1] == NatToString(n / 10);
    }
  }

  /** Distinct integers print differently. */
  lemma IntToStringInjective(a: int, b: int)
    requires IntToString(a) == IntToString(b)
    ensures a == b
  {
    if a >= 0 && b >= 0 {
      NatToStringValue(a);
      NatToStringValue(b);
    } else if a < 0 && b < 0 {
      var m: nat, k: nat := -a, -b;
      NegativeDigits(a);
      NegativeDigits(b);
      NatToStringValue(m);
      NatToStringValue(k);
    } else {
      assert false;
    }
  }

  lemma NegativeDigits(n: int)
    requires n < 0
    ensures IntToString(n)[1..] == NatToString(-n)
  {
    assert IntToString(n) == "-" + NatToString(-n);
  }

  /** The outcome of JavaScript's `Number(s)`: an integer, or anything
      else (`NaN`, fractions, exponent and hexadecimal spellings). */
  datatype JsNumber = Finite(n: int) | Other

  /** `Number(s)`: blank is 0, an optionally signed run of decimal digits
      (surrounding whitespace ignored) is its value. */
  function ToNumber(s: string): JsNumber
  {
    NumberOfTrimmed(Trim(s))
  }

  function NumberOfTrimmed(t: string): JsNumber
  {
    if |t| == 0 then Finite(0)
    else if AllDigits(t) then Finite(DigitsValue(t))
    else if |t| > 1 && t[0] == '-' && AllDigits(t[1..]) then Finite(-(DigitsValue(t[1..]) as int))
    else if |t| > 1 && t[0] == '+' && AllDigits(t[1..]) then Finite(DigitsValue(t[1..]))
    else Other
  }

  /** `Number(String(n)) === n` for every integer. */
  lemma ToNumberOfIntToString(n: int)
    ensures ToNumber(IntToString(n)) == Finite(n)
  {
    IntToStringTrimmed(n);
    ToNumberOfTrimmed(IntToString(n));
    if n >= 0 {
      NumberOfNatString(n);
    } else {
      NumberOfNegativeString(n);
    }
  }

  lemma NumberOfNatString(n: nat)
    ensures NumberOfTrimmed(IntToString(n)) == Finite(n)
  {
    assert IntToString(n) == NatToString(n);
    NatToStringValue(n);
    NumberOfDigits(NatToString(n));
  }

  lemma NumberOfNegativeString(n: int)
    requires n < 0
    ensures NumberOfTrimmed(IntToString(n)) == Finite(n)
  {
    var m: nat := -n;
    assert IntToString(n) == "-" + NatToString(m);
    NumberOfMinus(m);
  }

  lemma NumberOfMinus(m: nat)
    ensures NumberOfTrimmed("-" + NatToString(m)) == Finite(-(m as int))
  {
    NatToStringValue(m);
    NumberOfNegative(NatToString(m));
  }

  lemma ToNumberOfTrimmed(s: string)
    requires Trimmed(s)
    ensures ToNumber(s) == NumberOfTrimmed(s)
  {
    TrimOfTrimmed(s);
  }

  lemma IntToStringTrimmed(n: int)
    ensures Trimmed(IntToString(n))
  {
    var s := IntToString(n);
    assert '0' <= s[|s| - 1] <= '9' by {
      if n < 0 {
        assert s[|s| - 1] == s[1..][|s| - 2];
      }
    }
    assert !IsSpace(s[0]);
  }

  lemma NumberOfDigits(t: string)
    requires |t| > 0 && AllDigits(t)
    ensures NumberOfTrimmed(t) == Finite(DigitsValue(t))
  {
  }

  lemma NumberOfNegative(t: string)
    requires |t| > 0 && AllDigits(t)
    ensures NumberOfTrimmed("-" + t) == Finite(-(DigitsValue(t) as int))
  {
    var s := "-" + t;
    assert s[1..] == t;
    assert s[0] == '-';
  }

  /** `String(n).padStart(2, "0")`. */
  function PadStart2(n: nat): (r: string)
    ensures |r| >= 2 && AllDigits(r)
    ensures n < 100 ==> |r| == 2 && DigitsValue(r) == n
  {
    if n < 10 then
      PadOneDigit(n);
      "0" + NatToString(n)
    else
      PadTwoDigits(n);
      NatToString(n)
  }

  lemma PadOneDigit(n: nat)
    requires n < 10
    ensures |"0" + NatToString(n)| == 2 && DigitsValue("0" + NatToString(n)) == n
  {
    var r := "0" + NatToString(n);
    assert r == ['0', DigitChar(n)];
    DigitsValueTwo(r);
  }

  lemma PadTwoDigits(n: nat)
    requires n >= 10
    ensures n < 100 ==> |NatToString(n)| == 2 && DigitsValue(NatToString(n)) == n
  {
    if n < 100 {
      assert NatToString(n / 10) == [DigitChar(n / 10)];
      assert NatToString(n) == [DigitChar(n / 10), DigitChar(n % 10)];
      DigitsValueTwo(NatToString(n));
    }
  }

  lemma DigitsValueTwo(s: string)
    requires |s| == 2 && AllDigits(s)
    ensures DigitsValue(s) == DigitValue(s[0]) * 10 + DigitValue(s[1])
  {
    var p := s[..1];
    assert p[..0] == "";
    assert DigitsValue(p) == DigitValue(s[0]);
  }

  /** JavaScript's `a < b` on strings: code-unit lexicographic order. */
  predicate StrLess(a: string, b: string) {
    if |a| == 0 then |b| > 0
    else if |b| == 0 then false
    else if a[0] != b[0] then a[0] < b[0]
    else StrLess(a[1..], b[1..])
  }

  /** The order is strict and total: exactly one of `a < b`, `a == b`,
      `b < a` holds. */
  lemma {:induction false} StrLessTrichotomy(a: string, b: string)
    ensures !(StrLess(a, b) && StrLess(b, a))
    ensures !StrLess(a, a)
    ensures a != b ==> StrLess(a, b) || StrLess(b, a)
  {
    if |a| > 0 && |b| > 0 {
      StrLessTrichotomy(a[1..], b[1..]);
      StrLessTrichotomy(a[1..], a[1..]);
      if a[0] == b[0] && a != b {
        assert a == [a[0]] + a[1..] && b == [b[0]] + b[1..];
      }
    } else if |a| > 0 {
      StrLessTrichotomy(a[1..], a[1..]);
    }
  }

  lemma {:induction false} StrLessTransitive(a: string, b: string, c: string)
    requires StrLess(a, b) && StrLess(b, c)
    ensures StrLess(a, c)
  {
    if |a| > 0 && a[0] == b[0] && b[0] == c[0] {
      StrLessTransitive(a[1..], b[1..], c[1..]);
    }
  }

  /** `s || null`: an empty form field is sent as `null`. */
  function OrNull(s: string): (r: Option<string>)
    ensures r.None? <==> s == ""
    ensures r.GetOr("") == s
  {
    if s == "" then None else Some(s)
  }
}
