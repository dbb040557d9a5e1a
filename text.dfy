/**
 * The text operations the downloader relies on, with Python's meaning:
 * `str(n)` for a natural number, `int(s)` in base 10, `s.strip()`,
 * `s.split(c)` for a one-character separator, and the yes/no prompt
 * answers compared after `.strip().lower()`.
 */
module Text {
  import opened Wrappers

  predicate IsDigit(c: char) {
    '0' <= c <= '9'
  }

  predicate AllDigits(s: string) {
    forall i :: 0 <= i < |s| ==> IsDigit(s[i])
  }

  function DigitChar(d: nat): (c: char)
    requires d < 10
    ensures IsDigit(c) && c as int - '0' as int == d
  {
    ('0' as int + d) as char
  }

  /** Python's `str(n)` for a natural number: shortest decimal numeral. */
  function Decimal(n: nat): (s: string)
    ensures |s| >= 1 && AllDigits(s)
    ensures s[0] == '0' ==> n == 0
    decreases n
  {
    if n < 10 then [DigitChar(n)] else Decimal(n / 10) + [DigitChar(n % 10)]
  }

  /** The number a string of decimal digits denotes (leading zeros allowed). */
  function DigitsValue(s: string): nat
    requires AllDigits(s)
  {
    if s == [] then 0 else 10 * DigitsValue(s[..|s| - 1]) + (s[|s| - 1] as int - '0' as int)
  }

  /** A non-empty run of ASCII digits and its value; anything else is rejected. */
  function ParseNat(s: string): (r: Option<nat>)
    ensures r.Some? <==> |s| > 0 && AllDigits(s)
  {
    if |s| > 0 && AllDigits(s) then Some(DigitsValue(s)) else None
  }

  lemma {:induction false} DecimalValue(n: nat)
    ensures DigitsValue(Decimal(n)) == n
    decreases n
  {
    if n >= 10 {
      DecimalValue(n / 10);
      var s := Decimal(n);
      assert s[..|s| - 1] == Decimal(n / 10);
    }
  }

  /** Printing a number and reading it back gives the number. */
  lemma DecimalRoundTrip(n: nat)
    ensures ParseNat(Decimal(n)) == Some(n)
  {
    DecimalValue(n);
  }

  /** Distinct numbers print differently. */
  lemma DecimalInjective(m: nat, n: nat)
    requires Decimal(m) == Decimal(n)
    ensures m == n
  {
    DecimalRoundTrip(m);
    DecimalRoundTrip(n);
  }

  /** The characters Python's `str.isspace` accepts, which `strip()` removes. */
  predicate IsSpace(c: char) {
    ('\t' <= c <= '\r') || ('\U{1C}' <= c <= ' ') || c == '\U{85}' || c == '\U{A0}'
    || c == '\U{1680}' || ('\U{2000}' <= c <= '\U{200A}') || c == '\U{2028}' || c == '\U{2029}'
    || c == '\U{202F}' || c == '\U{205F}' || c == '\U{3000}'
  }

  /** Number of leading whitespace characters. */
  function LeadingSpaces(s: string): (k: nat)
    ensures k <= |s|
    ensures k < |s| ==> !IsSpace(s[k])
  {
    if s != [] && IsSpace(s[0]) then 1 + LeadingSpaces(s[1..]) else 0
  }

  /** Number of trailing whitespace characters. */
  function TrailingSpaces(s: string): (k: nat)
    ensures k <= |s|
    ensures k < |s| ==> !IsSpace(s[|s| - 1 - k])
  {
    if s != [] && IsSpace(s[|s| - 1]) then 1 + TrailingSpaces(s[..|s| - 1]) else 0
  }

  /** Every character `LeadingSpaces` counts is whitespace. */
  lemma {:induction false} LeadingAreSpaces(s: string, i: nat)
    requires i < LeadingSpaces(s)
    ensures IsSpace(s[i])
  {
    if i > 0 {
      LeadingAreSpaces(s[1..], i - 1);
    }
  }

  /** Every character `TrailingSpaces` counts is whitespace. */
  lemma {:induction false} TrailingAreSpaces(s: string, i: nat)
    requires |s| - TrailingSpaces(s) <= i < |s|
    ensures IsSpace(s[i])
  {
    if i < |s| - 1 {
      TrailingAreSpaces(s[..|s| - 1], i);
    }
  }

  /** Python's `s.strip()`: the infix left after removing whitespace at both ends. */
  function Strip(s: string): (r: string)
    ensures r == [] || (!IsSpace(r[0]) && !IsSpace(r[|r| - 1]))
    ensures |r| <= |s|
  {
    var t := s[LeadingSpaces(s)..];
    t[..|t| - TrailingSpaces(t)]
  }

  /** A non-space character of `s` survives `Strip`, at its offset shifted by the leading spaces. */
  lemma StripKeeps(s: string, i: nat)
    requires i < |s| && !IsSpace(s[i])
    ensures LeadingSpaces(s) <= i
    ensures i - LeadingSpaces(s) < |Strip(s)|
    ensures Strip(s)[i - LeadingSpaces(s)] == s[i]
  {
    var k := LeadingSpaces(s);
    var t := s[k..];
    assert k <= i by {
      if i < k { LeadingAreSpaces(s, i); }
    }
    assert t[i - k] == s[i];
    var m := TrailingSpaces(t);
    assert i - k < |t| - m by {
      if i - k >= |t| - m { TrailingAreSpaces(t, i - k); }
    }
    assert Strip(s) == t[..|t| - m];
  }

  lemma StripDigits(s: string)
    requires |s| > 0 && AllDigits(s)
    ensures Strip(s) == s && Margins(s) == []
  {
    assert !IsSpace(s[0]);
    assert TrailingSpaces(s) == 0 by { assert !IsSpace(s[|s| - 1]); }
  }

  /** Stripping twice is stripping once: a stripped text has no margins. */
  lemma StripIdempotent(s: string)
    ensures Strip(Strip(s)) == Strip(s)
    ensures Margins(Strip(s)) == []
  {
    var t := Strip(s);
    if t != [] {
      assert LeadingSpaces(t) == 0;
      assert TrailingSpaces(t) == 0;
    }
  }

  /** The whitespace `strip()` removes: the leading run, then the trailing run. */
  function Margins(s: string): (m: string)
    ensures |m| + |Strip(s)| == |s|
  {
    var k := LeadingSpaces(s);
    var t := s[k..];
    s[..k] + t[|t| - TrailingSpaces(t)..]
  }

  /**
   * The ASCII information separators U+001C to U+001F. `str.isspace` accepts
   * them, so `strip()` removes them, but `int()` skips only the other
   * whitespace and refuses them.
   */
  predicate IsInfoSeparator(c: char) {
    '\U{1C}' <= c <= '\U{1F}'
  }

  /** Every character `strip()` would remove from `s` is whitespace `int()` also skips. */
  predicate ClearMargins(s: string) {
    forall i :: 0 <= i < |Margins(s)| ==> !IsInfoSeparator(Margins(s)[i])
  }

  /** An optional sign followed by ASCII digits, as `int` reads its stripped argument. */
  function ParseSigned(t: string): (r: Option<int>)
    ensures r.Some? ==> |t| > 0
  {
    if |t| > 0 && (t[0] == '+' || t[0] == '-') then
      match ParseNat(t[1..])
      case Some(v) =>
        var signed: int := if t[0] == '-' then -(v as int) else v;
        Some(signed)
      case None => None
    else
      ParseNat(t)
  }

  /**
   * Python's `int(s)` in base 10: surrounding whitespace, an optional sign,
   * ASCII digits. An information separator among the surrounding whitespace
   * stops `int()`'s own skipping, and the text left then starts or ends
   * with a character that is neither a sign nor a digit.
   */
  function ParseInt(s: string): (r: Option<int>)
    ensures r.Some? ==> |Strip(s)| > 0 && ClearMargins(s)
  {
    if ClearMargins(s) then ParseSigned(Strip(s)) else None
  }

  /**
   * `int(s.strip())` reads the stripped text as a signed numeral, and it
   * agrees with `int(s)` unless `int(s)` refuses an information separator
   * in the margins.
   */
  lemma ParseIntStripped(s: string)
    ensures ParseInt(Strip(s)) == ParseSigned(Strip(s))
    ensures ClearMargins(s) ==> ParseInt(s) == ParseInt(Strip(s))
    ensures !ClearMargins(s) ==> ParseInt(s) == None
  {
    StripIdempotent(s);
  }

  /** `int()` refuses a text that starts with an information separator. */
  lemma LeadingSeparatorRefused(s: string)
    requires |s| > 0 && IsInfoSeparator(s[0])
    ensures ParseInt(s) == None
  {
    assert LeadingSpaces(s) > 0;
    assert Margins(s)[0] == s[0];
  }

  /** `int('\x1c5')` fails while `int('\x1c5'.strip())` is 5. */
  lemma InfoSeparatorRefused()
    ensures ParseInt("\U{1C}5") == None
    ensures ParseInt(Strip("\U{1C}5")) == Some(5)
  {
    var s := "\U{1C}5";
    LeadingSeparatorRefused(s);
    assert LeadingSpaces(s[1..]) == 0;
    assert TrailingSpaces(s[1..]) == 0;
    assert Strip(s) == "5";
    assert DigitsValue("5") == 5;
  }

  /** `int(str(n)) == n`. */
  lemma ParseIntDecimal(n: nat)
    ensures ParseInt(Decimal(n)) == Some(n)
  {
    StripDigits(Decimal(n));
    DecimalRoundTrip(n);
  }

  /** `int` fails on any text that keeps a non-digit after its first character once stripped. */
  lemma ParseIntRejects(s: string, i: nat)
    requires i < |s| && !IsSpace(s[i]) && !IsDigit(s[i])
    requires LeadingSpaces(s) < i
    ensures ParseSigned(Strip(s)) == None
    ensures ParseInt(s) == None
  {
    StripKeeps(s, i);
  }

  /** `int` fails on text that, once stripped, is a lone sign. */
  lemma ParseIntLoneSign(s: string)
    requires Strip(s) == "-" || Strip(s) == "+"
    ensures ParseInt(s) == None
  {
  }

  /** Python's `sep.join(parts)`. */
  function Join(parts: seq<string>, sep: char): string
    requires |parts| >= 1
  {
    if |parts| == 1 then parts[0] else parts[0] + [sep] + Join(parts[1..], sep)
  }

  /** Python's `s.split(sep)` for a one-character separator. */
  function Split(s: string, sep: char): (parts: seq<string>)
    ensures |parts| >= 1
    ensures forall i :: 0 <= i < |parts| ==> sep !in parts[i]
    ensures Join(parts, sep) == s
  {
    if s == [] then [[]]
    else
      var rest := Split(s[1..], sep);
      if s[0] == sep then [[]] + rest
      else [[s[0]] + rest[0]] + rest[1..]
  }

  /** The pieces `Split` returns are the only separator-free pieces that join back to `s`. */
  lemma {:induction false} SplitUnique(s: string, sep: char, parts: seq<string>)
    requires |parts| >= 1
    requires forall i :: 0 <= i < |parts| ==> sep !in parts[i]
    requires Join(parts, sep) == s
    ensures parts == Split(s, sep)
    decreases |s|
  {
    if s == [] {
    } else if parts[0] == [] {
      assert |parts| > 1;
      assert s[0] == sep;
      assert s[1..] == Join(parts[1..], sep);
      SplitUnique(s[1..], sep, parts[1..]);
    } else {
      var tail := [parts[0][1..]] + parts[1..];
      assert s[0] == parts[0][0] && s[0] != sep;
      if |parts| == 1 {
        assert Join(tail, sep) == s[1..];
      } else {
        assert Join(tail, sep) == parts[0][1..] + [sep] + Join(parts[1..], sep);
        assert s == parts[0] + [sep] + Join(parts[1..], sep);
      }
      forall i | 0 <= i < |tail| ensures sep !in tail[i] {
        if i == 0 {
          assert forall c :: c in parts[0][1..] ==> c in parts[0];
        } else {
          assert tail[i] == parts[i];
        }
      }
      SplitUnique(s[1..], sep, tail);
      assert parts[0] == [s[0]] + tail[0];
      assert parts == [parts[0]] + tail[1..];
    }
  }

  /** Splitting after a separator-free prefix yields that prefix first. */
  lemma SplitAfter(a: string, sep: char, b: string)
    requires sep !in a
    ensures Split(a + [sep] + b, sep) == [a] + Split(b, sep)
  {
    var parts := [a] + Split(b, sep);
    assert parts[1..] == Split(b, sep);
    forall i | 0 <= i < |parts| ensures sep !in parts[i] {
      if i > 0 { assert parts[i] == Split(b, sep)[i - 1]; }
    }
    SplitUnique(a + [sep] + b, sep, parts);
  }

  /** The text before the first `sep`, or all of `s` when there is none. */
  function Before(s: string, sep: char): (r: string)
    ensures r <= s && sep !in r
    ensures |r| < |s| ==> s[|r|] == sep
  {
    if s == [] || s[0] == sep then [] else [s[0]] + Before(s[1..], sep)
  }

  /** `s.split(sep)` has a second part exactly when `sep` occurs in `s`. */
  lemma SplitSeparates(s: string, sep: char)
    ensures |Split(s, sep)| >= 2 <==> sep in s
  {
    var parts := Split(s, sep);
    if |parts| >= 2 {
      assert s == parts[0] + [sep] + Join(parts[1..], sep);
      assert s[|parts[0]|] == sep;
    }
  }

  /** `s.split(sep)[0]` is the text before the first separator. */
  lemma {:induction false} SplitFirst(s: string, sep: char)
    ensures Split(s, sep)[0] == Before(s, sep)
  {
    if s != [] && s[0] != sep {
      SplitFirst(s[1..], sep);
    }
  }

  /** The prompts' answers, as compared after `.strip().lower()`. */
  datatype Answer = Yes | No | Invalid

  /** `.lower()` maps only 's'/'S' to "s" and only 'n'/'N' to "n" among one-character strings. */
  function AnswerOf(typed: string): Answer {
    var t := Strip(typed);
    if t == "s" || t == "S" then Yes
    else if t == "n" || t == "N" then No
    else Invalid
  }

  /** Surrounding whitespace never changes an answer. */
  lemma AnswerIgnoresSpaces(typed: string)
    ensures AnswerOf(Strip(typed)) == AnswerOf(typed)
  {
    StripIdempotent(typed);
  }

  /** None of these lines answers a yes/no prompt, so each one is asked again. */
  predicate Unanswered(lines: seq<string>) {
    forall j :: 0 <= j < |lines| ==> AnswerOf(lines[j]) == Invalid
  }

  /** The index of the first line that answers a yes/no prompt, if any does. */
  function FirstAnswer(lines: seq<string>): (r: Option<nat>)
    ensures r.Some? ==> r.value < |lines|
  {
    if lines == [] then None
    else if AnswerOf(lines[0]) != Invalid then Some(0)
    else
      match FirstAnswer(lines[1..])
      case None => None
      case Some(i) => Some(i + 1)
  }

  /** The first answering line answers, every line before it does not, and there is none exactly when no line answers. */
  lemma {:induction false} FirstAnswerSpec(lines: seq<string>)
    ensures FirstAnswer(lines).None? <==> Unanswered(lines)
    ensures FirstAnswer(lines).Some? ==> AnswerOf(lines[FirstAnswer(lines).value]) != Invalid
    ensures FirstAnswer(lines).Some? ==> Unanswered(lines[..FirstAnswer(lines).value])
  {
    if lines != [] && AnswerOf(lines[0]) == Invalid {
      var rest := lines[1..];
      FirstAnswerSpec(rest);
      if Unanswered(rest) {
        forall j | 0 <= j < |lines| ensures AnswerOf(lines[j]) == Invalid {
          if j > 0 {
            assert lines[j] == rest[j - 1];
          }
        }
      } else {
        var i := FirstAnswer(rest).value;
        assert !Unanswered(lines) by {
          var j :| 0 <= j < |rest| && AnswerOf(rest[j]) != Invalid;
          assert lines[j + 1] == rest[j];
        }
        var before := lines[..i + 1];
        forall j | 0 <= j < |before| ensures AnswerOf(before[j]) == Invalid {
          if j == 0 {
            assert before[j] == lines[0];
          } else {
            assert before[j] == rest[..i][j - 1];
            assert AnswerOf(rest[..i][j - 1]) == Invalid;
          }
        }
      }
    }
  }
}
