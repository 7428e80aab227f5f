/**
 * The few Python `str` operations the bot's handlers rely on, written over
 * `seq<char>` (one `char` per Unicode code point, as Python counts them):
 * substring and prefix tests, `split` on one character, `strip`, `rstrip`,
 * `str(int)` / `int(str)` on decimal text, and ASCII upper/lower case.
 */
module PyStrings {
  import opened Wrappers

  // ---------------------------------------------------------------------------
  // Prefix and substring tests (`s.startswith(p)`, `w in s`)
  // ---------------------------------------------------------------------------

  predicate StartsWith(s: string, prefix: string) {
    |prefix| <= |s| && s[..|prefix|] == prefix
  }

  /** Python's `w in s` on strings: `w` occurs somewhere in `s` (case-sensitive, no word boundaries). */
  predicate Contains(s: string, w: string)
    decreases |s|
  {
    StartsWith(s, w) || (|s| > 0 && Contains(s[1..], w))
  }

  /** `w` occurs in `s` starting at index `i`. */
  predicate OccursAt(s: string, w: string, i: nat) {
    i + |w| <= |s| && s[i..i + |w|] == w
  }

  lemma SliceOfTail(s: string, a: nat, n: nat)
    requires 0 < |s| && a + 1 + n <= |s|
    ensures s[1..][a..a + n] == s[a + 1..a + 1 + n]
  {
  }

  /** `w` occurs in `s` exactly when it occurs at some index of `s`. */
  lemma {:induction false} ContainsIff(s: string, w: string)
    ensures Contains(s, w) <==> exists i: nat :: OccursAt(s, w, i)
    decreases |s|
  {
    if StartsWith(s, w) {
      assert OccursAt(s, w, 0);
    } else if |s| == 0 {
      assert |w| > 0;
    } else {
      ContainsIff(s[1..], w);
      if Contains(s[1..], w) {
        var i: nat :| OccursAt(s[1..], w, i);
        assert s[i + 1..i + 1 + |w|] == s[1..][i..i + |w|];
        assert OccursAt(s, w, i + 1);
      } else {
        forall i: nat ensures !OccursAt(s, w, i) {
          if i == 0 {
            if |w| <= |s| {
              assert s[0..0 + |w|] == s[..|w|];
            }
          } else if i + |w| <= |s| {
            SliceOfTail(s, i - 1, |w|);
            assert !OccursAt(s[1..], w, i - 1);
          }
        }
      }
    }
  }

  /** A word that occurs in a slice of `s` occurs in `s` itself. */
  lemma {:induction false} ContainsInSlice(s: string, i: nat, j: nat, w: string)
    requires i <= j <= |s|
    requires Contains(s[i..j], w)
    ensures Contains(s, w)
  {
    ContainsIff(s[i..j], w);
    var k: nat :| OccursAt(s[i..j], w, k);
    assert k + |w| <= j - i;
    forall t | 0 <= t < |w| ensures s[i + k..i + k + |w|][t] == w[t] {
      assert s[i..j][k..k + |w|][t] == w[t];
    }
    assert OccursAt(s, w, i + k);
    ContainsIff(s, w);
  }

  // ---------------------------------------------------------------------------
  // `s.split(sep)` for a one-character separator
  // ---------------------------------------------------------------------------

  /** `sep` glued between consecutive parts: Python's `sep.join(parts)`. */
  function JoinWith(parts: seq<string>, sep: char): string
    decreases |parts|
  {
    if |parts| == 0 then ""
    else if |parts| == 1 then parts[0]
    else parts[0] + [sep] + JoinWith(parts[1..], sep)
  }

  /** Python's `s.split(sep)`: never empty, and one part more than `s` holds separators. */
  function Split(s: string, sep: char): (parts: seq<string>)
    ensures |parts| >= 1
    decreases |s|
  {
    if |s| == 0 then [""]
    else
      var rest := Split(s[1..], sep);
      if s[0] == sep then [""] + rest
      else [[s[0]] + rest[0]] + rest[1..]
  }

  /** No part of a split holds the separator. */
  lemma {:induction false} SplitPartsFree(s: string, sep: char)
    ensures forall k :: 0 <= k < |Split(s, sep)| ==> sep !in Split(s, sep)[k]
    decreases |s|
  {
    if |s| > 0 {
      SplitPartsFree(s[1..], sep);
      var rest, parts := Split(s[1..], sep), Split(s, sep);
      if s[0] != sep {
        assert parts[0] == [s[0]] + rest[0];
        assert forall k :: 1 <= k < |parts| ==> parts[k] == rest[k];
      } else {
        assert forall k :: 1 <= k < |parts| ==> parts[k] == rest[k - 1];
      }
    }
  }

  /** Joining the parts of a split back with the separator gives the text again. */
  lemma {:induction false} SplitJoin(s: string, sep: char)
    ensures JoinWith(Split(s, sep), sep) == s
    decreases |s|
  {
    if |s| > 0 {
      SplitJoin(s[1..], sep);
      var rest, parts := Split(s[1..], sep), Split(s, sep);
      if s[0] != sep {
        assert parts[1..] == rest[1..];
        assert parts[0] == [s[0]] + rest[0];
        if |rest| > 1 {
          assert JoinWith(rest, sep) == rest[0] + [sep] + JoinWith(rest[1..], sep);
          assert JoinWith(parts, sep) == [s[0]] + rest[0] + [sep] + JoinWith(rest[1..], sep);
        }
      } else {
        assert parts[1..] == rest;
      }
      assert s == [s[0]] + s[1..];
    }
  }

  /** A split has more than one part exactly when the separator occurs in the text. */
  lemma {:induction false} SplitCount(s: string, sep: char)
    ensures |Split(s, sep)| > 1 <==> sep in s
    decreases |s|
  {
    if |s| > 0 {
      SplitCount(s[1..], sep);
      assert s == [s[0]] + s[1..];
    }
  }

  /** Python's `s.split(sep, 1)[1]`: the text after the first `sep`, or `None` where Python raises IndexError. */
  function AfterFirst(s: string, sep: char): (r: Option<string>)
    ensures r.None? <==> sep !in s
    ensures r.Some? ==> |r.value| < |s|
    decreases |s|
  {
    if |s| == 0 then None
    else if s[0] == sep then Some(s[1..])
    else
      assert s == [s[0]] + s[1..];
      AfterFirst(s[1..], sep)
  }

  /** The text after the first separator, when the separator-free `a` precedes it. */
  lemma {:induction false} AfterFirstAppend(a: string, sep: char, b: string)
    requires sep !in a
    ensures AfterFirst(a + [sep] + b, sep) == Some(b)
    decreases |a|
  {
    var s := a + [sep] + b;
    if |a| == 0 {
      assert s[0] == sep && s[1..] == b;
    } else {
      assert s[0] == a[0] && s[1..] == a[1..] + [sep] + b;
      AfterFirstAppend(a[1..], sep, b);
    }
  }

  // ---------------------------------------------------------------------------
  // Whitespace and stripping
  // ---------------------------------------------------------------------------

  /** Python's `str.isspace` on one code point. */
  predicate IsSpace(c: char) {
    c == ' ' || '\t' <= c <= '\r' || '\U{1C}' <= c <= '\U{1F}' || c == '\U{85}' || c == '\U{A0}'
    || c == '\U{1680}' || '\U{2000}' <= c <= '\U{200A}' || c == '\U{2028}' || c == '\U{2029}'
    || c == '\U{202F}' || c == '\U{205F}' || c == '\U{3000}'
  }

  /** Python's `s.lstrip()`. */
  function TrimStart(s: string): (r: string)
    ensures |r| <= |s| && r == s[|s| - |r|..]
    ensures r == [] || !IsSpace(r[0])
    ensures forall k :: 0 <= k < |s| - |r| ==> IsSpace(s[k])
    decreases |s|
  {
    if |s| > 0 && IsSpace(s[0]) then TrimStart(s[1..]) else s
  }

  /** Python's `s.rstrip()`. */
  function TrimEnd(s: string): (r: string)
    ensures |r| <= |s| && r == s[..|r|]
    ensures r == [] || !IsSpace(r[|r| - 1])
    ensures forall k :: |r| <= k < |s| ==> IsSpace(s[k])
    decreases |s|
  {
    if |s| > 0 && IsSpace(s[|s| - 1]) then TrimEnd(s[..|s| - 1]) else s
  }

  /** Python's `s.strip()`: leading and trailing whitespace removed, nothing else. */
  function Strip(s: string): (r: string)
    ensures r == [] || (!IsSpace(r[0]) && !IsSpace(r[|r| - 1]))
    ensures |r| <= |s|
  {
    TrimStart(TrimEnd(s))
  }

  /** `strip()` keeps a contiguous slice of `s` and drops only whitespace before and after it. */
  lemma StripIsSlice(s: string)
    ensures exists i :: 0 <= i <= |s| - |Strip(s)| && s[i..][..|Strip(s)|] == Strip(s)
                        && (forall k :: 0 <= k < i ==> IsSpace(s[k]))
                        && (forall k :: i + |Strip(s)| <= k < |s| ==> IsSpace(s[k]))
  {
    var e := TrimEnd(s);
    var r := TrimStart(e);
    var i := |e| - |r|;
    assert e == s[..|e|] && r == e[i..];
    forall k | 0 <= k < i
      ensures IsSpace(s[k])
    {
      assert s[k] == e[k];
    }
    assert s[i..][..|r|] == s[i..|e|] == e[i..];
  }

  /** Text that neither begins nor ends with whitespace is its own `strip()`. */
  lemma StripOfStripped(s: string)
    requires s == [] || (!IsSpace(s[0]) && !IsSpace(s[|s| - 1]))
    ensures Strip(s) == s
  {
  }

  /** Python's `s.rstrip(c)` for a single character `c`. */
  function TrimEndChar(s: string, c: char): (r: string)
    ensures |r| <= |s| && r == s[..|r|]
    ensures r == [] || r[|r| - 1] != c
    ensures forall k :: |r| <= k < |s| ==> s[k] == c
    decreases |s|
  {
    if |s| > 0 && s[|s| - 1] == c then TrimEndChar(s[..|s| - 1], c) else s
  }

  // ---------------------------------------------------------------------------
  // Decimal text: `str(n)` and `int(s)`
  // ---------------------------------------------------------------------------

  predicate IsDigit(c: char) {
    '0' <= c <= '9'
  }

  function DigitChar(d: nat): (c: char)
    requires d < 10
    ensures IsDigit(c)
  {
    ('0' as int + d) as char
  }

  predicate AllDigits(s: string) {
    forall k :: 0 <= k < |s| ==> IsDigit(s[k])
  }

  /** Python's `str(n)` for `n >= 0`. */
  function NatToString(n: nat): (s: string)
    ensures |s| > 0 && AllDigits(s)
    decreases n
  {
    if n < 10 then [DigitChar(n)] else NatToString(n / 10) + [DigitChar(n % 10)]
  }

  /** Python's `str(n)`: decimal digits, with a leading `-` for a negative `n`. */
  function IntToString(n: int): (s: string)
    ensures |s| > 0
  {
    if n < 0 then "-" + NatToString(-n) else NatToString(n)
  }

  /** The number a nonempty run of decimal digits denotes. */
  function DigitsValue(s: string): nat
    requires AllDigits(s)
    decreases |s|
  {
    if |s| == 0 then 0 else DigitsValue(s[..|s| - 1]) * 10 + (s[|s| - 1] as int - '0' as int)
  }

  /**
   * Python's `int(s)` on decimal text: surrounding whitespace, an optional sign,
   * then one or more ASCII digits; `None` where Python raises ValueError.
   */
  function ParseInt(s: string): (r: Option<int>)
    ensures r.Some? ==> |Strip(s)| > 0
  {
    var t := Strip(s);
    if |t| > 0 && (t[0] == '-' || t[0] == '+') then
      if |t| > 1 && AllDigits(t[1..]) then
        Some(if t[0] == '-' then 0 - DigitsValue(t[1..]) else DigitsValue(t[1..]))
      else None
    else if |t| > 0 && AllDigits(t) then Some(DigitsValue(t))
    else None
  }

  lemma {:induction false} DigitsValueOfNat(n: nat)
    ensures DigitsValue(NatToString(n)) == n
    decreases n
  {
    var s := NatToString(n);
    if n >= 10 {
      DigitsValueOfNat(n / 10);
      assert s[..|s| - 1] == NatToString(n / 10);
    }
  }

  /** Digits read back: `int` of the decimal text of a natural number is that number. */
  lemma ParseNatString(n: nat)
    ensures ParseInt(NatToString(n)) == Some(n)
  {
    var s := NatToString(n);
    assert IsDigit(s[0]) && IsDigit(s[|s| - 1]);
    StripOfStripped(s);
    DigitsValueOfNat(n);
  }

  /** A minus sign then digits read back as the negated number. */
  lemma ParseNegString(m: nat)
    requires m > 0
    ensures ParseInt("-" + NatToString(m)) == Some(-(m as int))
  {
    var s := "-" + NatToString(m);
    assert s[1..] == NatToString(m);
    assert IsDigit(s[|s| - 1]);
    StripOfStripped(s);
    DigitsValueOfNat(m);
  }

  /** `int(str(n)) == n`: the decimal text the bot writes reads back as the same number. */
  lemma ParseIntToString(n: int)
    ensures ParseInt(IntToString(n)) == Some(n)
  {
    if n < 0 {
      ParseNegString(-n);
    } else {
      ParseNatString(n);
    }
  }

  // ---------------------------------------------------------------------------
  // ASCII letter case (`upper`, `lower`, `capitalize` on ASCII text)
  // ---------------------------------------------------------------------------

  predicate IsUpper(c: char) { 'A' <= c <= 'Z' }
  predicate IsLower(c: char) { 'a' <= c <= 'z' }
  predicate IsAlnum(c: char) { IsUpper(c) || IsLower(c) || IsDigit(c) }

  function ToUpper(c: char): (r: char)
    ensures IsLower(c) ==> IsUpper(r)
    ensures !IsLower(c) ==> r == c
  {
    if IsLower(c) then (c as int - 32) as char else c
  }

  function ToLower(c: char): (r: char)
    ensures IsUpper(c) ==> IsLower(r)
    ensures !IsUpper(c) ==> r == c
  {
    if IsUpper(c) then (c as int + 32) as char else c
  }

  /** `s.lower()` on ASCII text. */
  function Lower(s: string): (r: string)
    ensures |r| == |s|
    ensures forall k :: 0 <= k < |s| ==> r[k] == ToLower(s[k])
  {
    seq(|s|, k requires 0 <= k < |s| => ToLower(s[k]))
  }

  /** `w.capitalize()` on ASCII text: first character upper case, the rest lower case. */
  function Capitalize(w: string): (r: string)
    ensures |r| == |w|
    ensures |w| > 0 ==> r[0] == ToUpper(w[0])
    ensures forall k :: 1 <= k < |w| ==> r[k] == ToLower(w[k])
  {
    if |w| == 0 then "" else [ToUpper(w[0])] + Lower(w[1..])
  }
}
