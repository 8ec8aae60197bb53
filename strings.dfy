/**
 * The Python string operations the translator relies on: `str.split` with a
 * one-character separator, `str.join`, `str.lower` and `str.capitalize`
 * (restricted to ASCII case mapping), `str.format` with automatically
 * numbered `{}` fields, and `str()` of an integer.
 */
module Strings {
  import opened Wrappers

  predicate IsDigit(c: char) { '0' <= c <= '9' }
  predicate IsAsciiUpper(c: char) { 'A' <= c <= 'Z' }
  predicate IsAsciiLower(c: char) { 'a' <= c <= 'z' }

  predicate AllDigits(s: string) {
    forall i :: 0 <= i < |s| ==> IsDigit(s[i])
  }

  // ---------------------------------------------------------------------------
  // Case mapping

  /** ASCII lower-casing of one character; every other character is kept. */
  function LowerChar(c: char): (r: char)
    ensures !IsAsciiUpper(r)
    ensures IsAsciiLower(r) <==> IsAsciiUpper(c) || IsAsciiLower(c)
    ensures !IsAsciiUpper(c) ==> r == c
  {
    if IsAsciiUpper(c) then (c as int + 32) as char else c
  }

  /** ASCII upper-casing of one character; every other character is kept. */
  function UpperChar(c: char): (r: char)
    ensures !IsAsciiLower(r)
    ensures IsAsciiUpper(r) <==> IsAsciiUpper(c) || IsAsciiLower(c)
    ensures !IsAsciiLower(c) ==> r == c
  {
    if IsAsciiLower(c) then (c as int - 32) as char else c
  }

  /** Upper- and lower-casing each forget the case the other one produced. */
  lemma CaseForgetsCase(c: char)
    ensures LowerChar(UpperChar(c)) == LowerChar(c)
    ensures UpperChar(LowerChar(c)) == UpperChar(c)
  {
  }

  /** `str.lower()`: the same characters with every ASCII capital made small. */
  function Lower(s: string): (r: string)
    ensures |r| == |s|
    ensures forall i :: 0 <= i < |r| ==> !IsAsciiUpper(r[i])
    ensures forall i :: 0 <= i < |r| ==> UpperChar(r[i]) == UpperChar(s[i])
  {
    seq(|s|, i requires 0 <= i < |s| => LowerChar(s[i]))
  }

  /** A string without ASCII capitals is its own lower-casing. */
  lemma LowerOfLower(s: string)
    requires forall i :: 0 <= i < |s| ==> !IsAsciiUpper(s[i])
    ensures Lower(s) == s
  {
  }

  /**
   * `str.capitalize()`: the first character upper-cased and all the others
   * lower-cased (so `"cpuUtilization"` gives `"Cpuutilization"`).
   */
  function Capitalize(s: string): (r: string)
    ensures |r| == |s|
    ensures |r| > 0 ==> !IsAsciiLower(r[0])
    ensures forall i :: 1 <= i < |r| ==> !IsAsciiUpper(r[i])
    ensures forall i :: 0 <= i < |r| ==> LowerChar(r[i]) == LowerChar(s[i])
  {
    if s == [] then []
    else
      var r := [UpperChar(s[0])] + Lower(s[1..]);
      assert LowerChar(r[0]) == LowerChar(s[0]) by { CaseForgetsCase(s[0]); }
      assert forall i :: 1 <= i < |r| ==> LowerChar(r[i]) == LowerChar(s[i]) by {
        forall i | 1 <= i < |r| ensures LowerChar(r[i]) == LowerChar(s[i]) {
          CaseForgetsCase(s[i]);
        }
      }
      r
  }

  /** Capitalizing ignores the case of its input: `average` and `AVERAGE` give the same text. */
  lemma CapitalizeIgnoresCase(s: string, t: string)
    requires |s| == |t|
    requires forall i :: 0 <= i < |s| ==> LowerChar(s[i]) == LowerChar(t[i])
    ensures Capitalize(s) == Capitalize(t)
  {
    if s != [] {
      CaseForgetsCase(s[0]);
      CaseForgetsCase(t[0]);
      assert UpperChar(s[0]) == UpperChar(t[0]);
      var ls, lt := Lower(s[1..]), Lower(t[1..]);
      forall i | 0 <= i < |ls| ensures ls[i] == lt[i] {
        assert LowerChar(s[i + 1]) == LowerChar(t[i + 1]);
      }
      assert ls == lt;
    }
  }

  /** Capitalizing twice is capitalizing once. */
  lemma CapitalizeIdempotent(s: string)
    ensures Capitalize(Capitalize(s)) == Capitalize(s)
  {
    CapitalizeIgnoresCase(Capitalize(s), s);
  }

  // ---------------------------------------------------------------------------
  // split and join

  /** Number of occurrences of `c` in `s`. */
  function Count(s: string, c: char): nat {
    if s == [] then 0 else (if s[0] == c then 1 else 0) + Count(s[1..], c)
  }

  /** `sep.join(parts)`. */
  function Join(parts: seq<string>, sep: string): string {
    if |parts| == 0 then []
    else if |parts| == 1 then parts[0]
    else parts[0] + sep + Join(parts[1..], sep)
  }

  /**
   * `s.split(sep)` for a one-character separator: the pieces between separators,
   * empty ones included; there is one more piece than there are separators, no
   * piece holds a separator, and joining the pieces back gives `s`.
   */
  function Split(s: string, sep: char): (parts: seq<string>)
    ensures |parts| == Count(s, sep) + 1
    ensures forall i :: 0 <= i < |parts| ==> sep !in parts[i]
    ensures Join(parts, [sep]) == s
    decreases |s|
  {
    if s == [] then [[]]
    else
      var rest := Split(s[1..], sep);
      if s[0] == sep then
        assert s == [sep] + s[1..];
        [[]] + rest
      else
        var parts := [[s[0]] + rest[0]] + rest[1..];
        assert parts[1..] == rest[1..];
        assert s == [s[0]] + s[1..];
        parts
  }

  /** A piece free of separators followed by a separator is split off as the first piece. */
  lemma {:induction false} SplitFirst(p: string, sep: char, rest: string)
    requires sep !in p
    ensures Split(p + [sep] + rest, sep) == [p] + Split(rest, sep)
    decreases |p|
  {
    var s := p + [sep] + rest;
    if p == [] {
      assert s[1..] == rest;
    } else {
      assert s[1..] == p[1..] + [sep] + rest;
      SplitFirst(p[1..], sep, rest);
      assert [p[0]] + p[1..] == p;
    }
  }

  /** A piece free of separators that ends the text or is followed by a separator is the first piece. */
  lemma {:induction false} SplitHead(p: string, sep: char, rest: string)
    requires sep !in p
    requires rest == [] || rest[0] == sep
    ensures Split(p + rest, sep)[0] == p
    decreases |p|
  {
    var s := p + rest;
    if p == [] {
      assert s == rest;
    } else {
      assert s[1..] == p[1..] + rest;
      SplitHead(p[1..], sep, rest);
      assert [p[0]] + p[1..] == p;
    }
  }

  // ---------------------------------------------------------------------------
  // Decimal text of integers

  function DigitValue(c: char): int
    requires IsDigit(c)
  {
    c as int - '0' as int
  }

  function DigitChar(d: int): (c: char)
    requires 0 <= d < 10
    ensures IsDigit(c) && DigitValue(c) == d
  {
    ('0' as int + d) as char
  }

  /** The number a string of decimal digits denotes (Python's `int()` on such a string). */
  function DigitsValue(s: string): nat
    requires AllDigits(s)
  {
    if s == [] then 0 else DigitsValue(s[..|s| - 1]) * 10 + DigitValue(s[|s| - 1])
  }

  /** `str()` of a natural number: its shortest decimal text, which denotes it again. */
  function NatToString(n: nat): (s: string)
    ensures |s| >= 1 && AllDigits(s)
    ensures s[0] == '0' ==> n == 0 && |s| == 1
    ensures DigitsValue(s) == n
    decreases n
  {
    if n < 10 then [DigitChar(n)]
    else
      var prefix := NatToString(n / 10);
      var s := prefix + [DigitChar(n % 10)];
      assert s[..|s| - 1] == prefix;
      s
  }

  /** `str()` of an integer: a minus sign before the digits of a negative number. */
  function IntToString(i: int): string {
    if i < 0 then "-" + NatToString(-i) else NatToString(i)
  }

  /** Reads back an optional minus sign followed by at least one decimal digit. */
  function DecimalValue(s: string): Option<int> {
    if |s| > 1 && s[0] == '-' && AllDigits(s[1..]) then Some(-(DigitsValue(s[1..]) as int))
    else if |s| > 0 && AllDigits(s) then Some(DigitsValue(s))
    else None
  }

  /** The decimal text of an integer reads back as that integer. */
  lemma IntToStringRoundTrip(i: int)
    ensures DecimalValue(IntToString(i)) == Some(i)
  {
    if i < 0 {
      var s := IntToString(i);
      assert s[1..] == NatToString(-i);
    }
  }

  // ---------------------------------------------------------------------------
  // str.format with `{}` fields

  /** Whether a template starts with a `{}` field. */
  predicate FieldFirst(template: string) {
    |template| >= 2 && template[0] == '{' && template[1] == '}'
  }

  /** How many `{}` fields a template has. */
  function FieldCount(template: string): nat {
    if template == [] then 0
    else
      var width := if FieldFirst(template) then 2 else 1;
      (if FieldFirst(template) then 1 else 0) + FieldCount(template[width..])
  }

  /**
   * `template.format(*args)` for a template whose only braces are `{}` fields:
   * each field is replaced by the next argument, in order, and arguments left
   * over are ignored. Python raises `IndexError` when there are fewer
   * arguments than fields, so the caller must supply enough.
   */
  function Format(template: string, args: seq<string>): string
    requires FieldCount(template) <= |args|
  {
    if template == [] then []
    else
      var width := if FieldFirst(template) then 2 else 1;
      var piece := if FieldFirst(template) then args[0] else [template[0]];
      piece + Format(template[width..], if FieldFirst(template) then args[1..] else args)
  }

  /** Text without braces is copied as it is and uses no argument. */
  lemma {:induction false} FormatText(text: string, rest: string, args: seq<string>)
    requires '{' !in text
    ensures FieldCount(text + rest) == FieldCount(rest)
    ensures FieldCount(rest) <= |args| ==> Format(text + rest, args) == text + Format(rest, args)
  {
    if text != [] {
      var t := text + rest;
      assert t[0] == text[0] && t[1..] == text[1..] + rest;
      FormatText(text[1..], rest, args);
      if FieldCount(rest) <= |args| {
        assert [text[0]] + text[1..] == text;
      }
    } else {
      assert text + rest == rest;
    }
  }

  /** A `{}` field takes the next argument. */
  lemma FormatField(rest: string, arg: string, args: seq<string>)
    ensures FieldCount("{}" + rest) == FieldCount(rest) + 1
    ensures FieldCount(rest) <= |args| ==> Format("{}" + rest, [arg] + args) == arg + Format(rest, args)
  {
    var t := "{}" + rest;
    assert t[0] == '{' && t[1] == '}' && t[2..] == rest;
    assert ([arg] + args)[1..] == args;
  }

  /** Text without braces is a template without fields, which formats to itself. */
  lemma FormatPlain(text: string, args: seq<string>)
    requires '{' !in text
    ensures FieldCount(text) == 0 && Format(text, args) == text
  {
    FormatText(text, [], args);
    assert text + [] == text;
  }

  /** Text without braces and a `{}` field: the text is copied and the field takes the next argument. */
  lemma FormatStep(text: string, rest: string, arg: string, args: seq<string>)
    requires '{' !in text
    ensures FieldCount(text + ("{}" + rest)) == FieldCount(rest) + 1
    ensures FieldCount(rest) <= |args| ==>
      Format(text + ("{}" + rest), [arg] + args) == text + (arg + Format(rest, args))
  {
    FormatField(rest, arg, args);
    FormatText(text, "{}" + rest, [arg] + args);
  }

  /** A template with two fields between three plain texts. */
  lemma FormatTwo(a: string, b: string, c: string, x: string, y: string)
    requires '{' !in a && '{' !in b && '{' !in c
    ensures FieldCount(a + ("{}" + (b + ("{}" + c)))) == 2
    ensures Format(a + ("{}" + (b + ("{}" + c))), [x, y]) == a + (x + (b + (y + c)))
  {
    FormatPlain(c, []);
    FormatStep(b, c, y, []);
    assert [y] + [] == [y];
    FormatStep(a, b + ("{}" + c), x, [y]);
    assert [x] + [y] == [x, y];
  }
}
