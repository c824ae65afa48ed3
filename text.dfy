/** Outcomes shared by every module: an optional value, and the way a Python call ends. */
module Outcomes {

  datatype Option<+T> = None | Some(value: T)

  /** The Python exceptions that the modelled code lets escape to its caller. */
  datatype PyError = IndexError | ValueError

  /** A call either returns a boolean, or an exception escapes from it. */
  datatype Status = Returned(value: bool) | Raised(error: PyError)
}

/** The few operations on Python `str` values that the message layer relies on:
    decimal formatting (`f'{n}'`, `f'{n:<w}'`), `int()`, `in`, slicing and `split`.
    Strings are sequences of characters; the payloads are taken to be ASCII, so a
    character is one byte on the wire. */
module Text {
  import opened Outcomes

  predicate IsDigit(c: char) { '0' <= c <= '9' }

  predicate AllDigits(s: string) { forall i :: 0 <= i < |s| ==> IsDigit(s[i]) }

  /** The ASCII characters Python's `int()` strips around a number. */
  predicate IsSpace(c: char) { c == ' ' || 9 <= c as int <= 13 || 28 <= c as int <= 31 }

  function DigitChar(d: nat): (c: char)
    requires d < 10
    ensures IsDigit(c)
  {
    ('0' as int + d) as char
  }

  function DigitValue(c: char): (d: nat)
    requires IsDigit(c)
    ensures d < 10 && DigitChar(d) == c
  {
    c as int - '0' as int
  }

  function Pow10(k: nat): (p: nat)
    ensures p >= 1
  {
    if k == 0 then 1 else 10 * Pow10(k - 1)
  }

  /** `str(n)` for a natural number: its decimal digits, most significant first. */
  function NatToString(n: nat): (s: string)
    ensures |s| >= 1 && AllDigits(s)
    decreases n
  {
    if n < 10 then [DigitChar(n)] else NatToString(n / 10) + [DigitChar(n % 10)]
  }

  /** `str(i)` for any integer: a minus sign before the digits of a negative number. */
  function IntToString(i: int): (s: string)
    ensures |s| >= 1 && (forall k :: 0 <= k < |s| ==> IsDigit(s[k]) || s[k] == '-')
  {
    if i < 0 then "-" + NatToString(-i) else NatToString(i)
  }

  function Spaces(k: nat): (s: string)
    ensures |s| == k && forall i :: 0 <= i < k ==> s[i] == ' '
  {
    seq(k, _ => ' ')
  }

  /** `f'{s:<w}'`: `s` left-aligned in a field of width `w`, never truncated. */
  function PadRight(s: string, w: nat): (r: string)
    ensures |r| == if |s| >= w then |s| else w
    ensures r[..|s|] == s && forall i :: |s| <= i < |r| ==> r[i] == ' '
  {
    if |s| >= w then s else s + Spaces(w - |s|)
  }

  /** The value of a string of decimal digits (0 for the empty string). */
  function DigitsValue(s: string): nat
    requires AllDigits(s)
  {
    if s == [] then 0 else DigitsValue(s[..|s| - 1]) * 10 + DigitValue(s[|s| - 1])
  }

  function TrimLeft(s: string): (r: string)
    ensures |r| <= |s| && (r != [] ==> !IsSpace(r[0]))
  {
    if |s| > 0 && IsSpace(s[0]) then TrimLeft(s[1..]) else s
  }

  function TrimRight(s: string): (r: string)
    ensures |r| <= |s| && r == s[..|r|] && (r != [] ==> !IsSpace(r[|r| - 1]))
  {
    if |s| > 0 && IsSpace(s[|s| - 1]) then TrimRight(s[..|s| - 1]) else s
  }

  /** Python's `int(s)` on a string: surrounding white space is ignored, then an optional
      sign and at least one decimal digit must make up the whole rest; anything else is
      the `ValueError` Python raises, here `None`. */
  function ParseInt(s: string): Option<int>
  {
    ParseSigned(TrimRight(TrimLeft(s)))
  }

  /** An optional sign followed by at least one decimal digit, and nothing else. */
  function ParseSigned(t: string): Option<int>
  {
    if |t| == 0 then None
    else if t[0] == '-' || t[0] == '+' then
      if |t| > 1 && AllDigits(t[1..]) then
        var v: int := DigitsValue(t[1..]);
        Some(if t[0] == '-' then -v else v)
      else None
    else if AllDigits(t) then Some(DigitsValue(t))
    else None
  }

  /** `sub in s` for Python strings. */
  predicate Contains(s: string, sub: string)
    decreases |s|
  {
    (|sub| <= |s| && s[..|sub|] == sub) || (|s| > 0 && Contains(s[1..], sub))
  }

  /** `s[i:j]` for Python strings with 0 <= i <= j: the bounds are clamped to the length. */
  function PySlice(s: string, i: nat, j: nat): (r: string)
    requires i <= j
    ensures j <= |s| ==> r == s[i..j]
    ensures |r| <= j - i
  {
    if j <= |s| then s[i..j] else if i <= |s| then s[i..] else ""
  }

  /** `s.split(sep)`: the pieces between the separators, one more than there are
      separators. */
  function Split(s: string, sep: char): (parts: seq<string>)
    ensures |parts| == multiset(s)[sep] + 1
  {
    if s == [] then [""]
    else
      var tail := Split(s[1..], sep);
      assert s == [s[0]] + s[1..];
      if s[0] == sep then [""] + tail else [[s[0]] + tail[0]] + tail[1..]
  }

  // ---------------------------------------------------------------------------
  // Number formatting and parsing are inverse to each other.

  /** Reading the digits of `str(n)` gives back `n`. */
  lemma {:induction false} DigitsRoundTrip(n: nat)
    ensures DigitsValue(NatToString(n)) == n
    decreases n
  {
    if n >= 10 {
      var s := NatToString(n);
      assert s[..|s| - 1] == NatToString(n / 10);
      DigitsRoundTrip(n / 10);
    }
  }

  /** A number below 10^k has at most k digits. */
  lemma {:induction false} NatToStringLength(n: nat, k: nat)
    requires 1 <= k && n < Pow10(k)
    ensures |NatToString(n)| <= k
    decreases n
  {
    if n >= 10 {
      assert k >= 2;
      NatToStringLength(n / 10, k - 1);
    }
  }

  lemma {:induction false} TrimLeftNoSpace(s: string)
    requires s != [] && !IsSpace(s[0])
    ensures TrimLeft(s) == s
  {
  }

  /** Trailing blanks after a string that does not end in white space are trimmed away. */
  lemma {:induction false} TrimRightPadding(s: string, k: nat)
    requires s != [] && !IsSpace(s[|s| - 1])
    ensures TrimRight(s + Spaces(k)) == s
    decreases k
  {
    if k > 0 {
      var t := s + Spaces(k);
      assert t[..|t| - 1] == s + Spaces(k - 1);
      TrimRightPadding(s, k - 1);
    } else {
      assert s + Spaces(0) == s;
    }
  }

  /** Padding a string that neither starts nor ends in white space is undone by stripping. */
  lemma StripPadded(s: string, w: nat)
    requires s != [] && !IsSpace(s[0]) && !IsSpace(s[|s| - 1])
    ensures TrimRight(TrimLeft(PadRight(s, w))) == s
  {
    var p := PadRight(s, w);
    assert p == s + Spaces(|p| - |s|) by {
      if |s| >= w { assert s + Spaces(0) == s; }
    }
    assert p[0] == s[0];
    TrimLeftNoSpace(p);
    TrimRightPadding(s, |p| - |s|);
  }

  /** `str(i)` is read back as `i`. */
  lemma ParseSignedOfIntToString(i: int)
    ensures ParseSigned(IntToString(i)) == Some(i)
  {
    var t := IntToString(i);
    if i < 0 {
      var d := NatToString(-i);
      assert t[0] == '-' && t[1..] == d;
      DigitsRoundTrip(-i);
    } else {
      assert IsDigit(t[0]);
      DigitsRoundTrip(i);
    }
  }

  /** `int(f'{i:<w}')` gives back `i` for every integer `i` and width `w`. */
  lemma ParseIntOfPadded(i: int, w: nat)
    ensures ParseInt(PadRight(IntToString(i), w)) == Some(i)
  {
    var s := IntToString(i);
    assert IsDigit(s[|s| - 1]);
    assert IsDigit(s[0]) || s[0] == '-';
    StripPadded(s, w);
    ParseSignedOfIntToString(i);
  }

  // ---------------------------------------------------------------------------
  // Splitting a joined pair gives back the pair.

  lemma {:induction false} SplitWithoutSeparator(s: string, sep: char)
    requires sep !in s
    ensures Split(s, sep) == [s]
  {
    if s != [] {
      SplitWithoutSeparator(s[1..], sep);
      assert [s[0]] + s[1..] == s;
    }
  }

  /** `(a + sep + b).split(sep) == [a, b]` when neither piece holds the separator. */
  lemma {:induction false} SplitJoined(a: string, b: string, sep: char)
    requires sep !in a && sep !in b
    ensures Split(a + [sep] + b, sep) == [a, b]
  {
    if a == [] {
      assert a + [sep] + b == [sep] + b;
      assert ([sep] + b)[1..] == b;
      SplitWithoutSeparator(b, sep);
    } else {
      assert (a + [sep] + b)[1..] == a[1..] + [sep] + b;
      SplitJoined(a[1..], b, sep);
      assert [a[0]] + a[1..] == a;
    }
  }

  /** A sequence contains any of its prefixes. */
  lemma ContainsPrefix(sub: string, rest: string)
    ensures Contains(sub + rest, sub)
  {
    assert (sub + rest)[..|sub|] == sub;
  }
}
