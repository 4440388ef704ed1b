/** Character-level helpers: decimal digits, splitting and joining on a
    separator, blank strings, and the lexicographic order on strings. */
module Strings {
  import opened Wrappers

  predicate IsDigit(c: char) {
    '0' <= c <= '9'
  }

  predicate AllDigits(s: string) {
    forall i :: 0 <= i < |s| ==> IsDigit(s[i])
  }

  /** One or more ASCII digits: what `\d+` matches as a whole string. */
  predicate IsDigitRun(s: string) {
    |s| > 0 && AllDigits(s)
  }

  function DigitChar(d: nat): (c: char)
    requires d < 10
    ensures IsDigit(c)
  {
    (('0' as int) + d) as char
  }

  function DigitValue(c: char): (d: nat)
    requires IsDigit(c)
    ensures d < 10
  {
    (c as int) - ('0' as int)
  }

  /** The value of a run of decimal digits (String#to_i, parseInt). */
  function DigitsToNat(s: string): nat
    requires AllDigits(s)
    decreases |s|
  {
    if |s| == 0 then 0 else DigitsToNat(s[..|s| - 1]) * 10 + DigitValue(s[|s| - 1])
  }

  /** Decimal rendering of a natural number, without leading zeros. */
  function NatToDigits(n: nat): (s: string)
    ensures IsDigitRun(s)
    decreases n
  {
    if n < 10 then [DigitChar(n)] else NatToDigits(n / 10) + [DigitChar(n % 10)]
  }

  /** Integer#to_s / String(n) on an integer. */
  function IntToString(i: int): (s: string)
    ensures |s| > 0
  {
    if i < 0 then "-" + NatToDigits(-i) else NatToDigits(i)
  }

  lemma {:induction false} DigitsRoundTrip(n: nat)
    ensures DigitsToNat(NatToDigits(n)) == n
    decreases n
  {
    if n >= 10 {
      DigitsRoundTrip(n / 10);
      var s := NatToDigits(n);
      assert s[..|s| - 1] == NatToDigits(n / 10);
    }
  }

  /** Index of the first occurrence of `c` in `s`. */
  function IndexOf(s: string, c: char): (i: nat)
    requires c in s
    ensures i < |s| && s[i] == c && c !in s[..i]
  {
    if s[0] == c then 0 else 1 + IndexOf(s[1..], c)
  }

  /** Splitting on every occurrence of `sep`, keeping empty pieces
      (JavaScript String.prototype.split with a one-character separator). */
  function Split(s: string, sep: char): (parts: seq<string>)
    ensures |parts| >= 1
    ensures forall i :: 0 <= i < |parts| ==> sep !in parts[i]
    decreases |s|
  {
    if sep !in s then [s]
    else
      var i := IndexOf(s, sep);
      [s[..i]] + Split(s[i + 1..], sep)
  }

  /** Array#join / Array.prototype.join with a one-character separator. */
  function Join(parts: seq<string>, sep: char): string
    requires |parts| >= 1
  {
    if |parts| == 1 then parts[0] else parts[0] + [sep] + Join(parts[1..], sep)
  }

  lemma {:induction false} JoinSplit(s: string, sep: char)
    ensures Join(Split(s, sep), sep) == s
    decreases |s|
  {
    if sep in s {
      var i := IndexOf(s, sep);
      var a, b := s[..i], s[i + 1..];
      SplitAtFirst(s, sep);
      JoinSplit(b, sep);
      JoinCons(a, Split(b, sep), sep);
      Reassemble(s, i);
    }
  }

  /** Split takes the piece before the first separator, then splits the
      rest. */
  lemma SplitAtFirst(s: string, sep: char)
    requires sep in s
    ensures Split(s, sep) == [s[..IndexOf(s, sep)]] + Split(s[IndexOf(s, sep) + 1..], sep)
  {
  }

  lemma Reassemble(s: string, i: nat)
    requires i < |s|
    ensures s == s[..i] + [s[i]] + s[i + 1..]
  {
  }

  /** Joining a list with one more piece in front. */
  lemma JoinCons(a: string, rest: seq<string>, sep: char)
    requires |rest| >= 1
    ensures Join([a] + rest, sep) == a + [sep] + Join(rest, sep)
  {
    assert ([a] + rest)[1..] == rest;
  }

  lemma {:induction false} SplitJoin(parts: seq<string>, sep: char)
    requires |parts| >= 1
    requires forall i :: 0 <= i < |parts| ==> sep !in parts[i]
    ensures Split(Join(parts, sep), sep) == parts
    decreases |parts|
  {
    if |parts| > 1 {
      var a, rest := parts[0], parts[1..];
      assert forall i :: 0 <= i < |rest| ==> sep !in rest[i] by {
        forall i | 0 <= i < |rest| ensures sep !in rest[i] { assert rest[i] == parts[i + 1]; }
      }
      var b := Join(rest, sep);
      assert parts == [a] + rest;
      JoinCons(a, rest, sep);
      SplitCons(a, sep, b);
      SplitJoin(rest, sep);
    }
  }

  /** Splitting text that starts with a separator-free piece and a
      separator. */
  lemma SplitCons(a: string, sep: char, b: string)
    requires sep !in a
    ensures Split(a + [sep] + b, sep) == [a] + Split(b, sep)
  {
    var s := a + [sep] + b;
    IndexOfAfterPrefix(a, sep, b);
    assert s[|a|] == sep;
    assert s[..|a|] == a;
    assert s[|a| + 1..] == b;
  }

  lemma {:induction false} IndexOfAfterPrefix(a: string, sep: char, b: string)
    requires sep !in a
    ensures IndexOf(a + [sep] + b, sep) == |a|
    decreases |a|
  {
    if |a| > 0 {
      assert (a + [sep] + b)[1..] == a[1..] + [sep] + b;
      IndexOfAfterPrefix(a[1..], sep, b);
    }
  }

  /** Drops the empty strings at the end of a list of pieces. */
  function DropTrailingEmpty(parts: seq<string>): (r: seq<string>)
    ensures |r| <= |parts| && r == parts[..|r|]
    ensures |r| > 0 ==> r[|r| - 1] != ""
    ensures forall i :: |r| <= i < |parts| ==> parts[i] == ""
  {
    if |parts| == 0 then []
    else if parts[|parts| - 1] == "" then DropTrailingEmpty(parts[..|parts| - 1])
    else parts
  }

  /** Ruby String#split with a one-character string pattern other than " ":
      split on every occurrence, then drop trailing empty pieces
      ("" gives [], "a,,b" gives ["a", "", "b"], "a,b," gives ["a", "b"]). */
  function RubySplit(s: string, sep: char): seq<string> {
    DropTrailingEmpty(Split(s, sep))
  }

  lemma RubySplitEmpty(sep: char)
    ensures RubySplit("", sep) == []
  {
    assert Split("", sep) == [""];
  }

  /** The ASCII whitespace String#to_i skips: space, tab, newline, vertical
      tab, form feed, carriage return. */
  predicate IsSpace(c: char) {
    c == ' ' || c == '\t' || c == '\n' || c == '\r' || c == 12 as char || c == 11 as char
  }

  /** A character of the `[[:space:]]` class String#blank? matches: the
      Unicode White_Space characters, which include the ASCII ones, NEL, the
      no-break spaces and the ideographic space. */
  predicate IsBlankSpace(c: char) {
    var n := c as int;
    || (9 <= n <= 13) || n == 32 || n == 0x85 || n == 0xA0 || n == 0x1680
    || (0x2000 <= n <= 0x200A) || n == 0x2028 || n == 0x2029 || n == 0x202F
    || n == 0x205F || n == 0x3000
  }

  /** String#blank?: empty or made only of `[[:space:]]` characters. */
  predicate IsBlank(s: string) {
    forall i :: 0 <= i < |s| ==> IsBlankSpace(s[i])
  }

  /** Blank is wider than the whitespace to_i skips: a no-break space or an
      ideographic space alone is blank, and every ASCII space is blank. */
  lemma BlankIncludesUnicodeSpaces(c: char)
    ensures IsSpace(c) ==> IsBlankSpace(c)
    ensures IsBlank([0xA0 as char]) && IsBlank([0x3000 as char])
    ensures !IsSpace(0xA0 as char)
  {
  }

  /** Lexicographic order on character codes: `a` may precede `b`. */
  predicate StrLeq(a: string, b: string)
    decreases |a|
  {
    if |a| == 0 then true
    else if |b| == 0 then false
    else if a[0] != b[0] then a[0] < b[0]
    else StrLeq(a[1..], b[1..])
  }

  lemma {:induction false} StrLeqTotal(a: string, b: string)
    ensures StrLeq(a, b) || StrLeq(b, a)
    decreases |a|
  {
    if |a| > 0 && |b| > 0 && a[0] == b[0] {
      StrLeqTotal(a[1..], b[1..]);
    }
  }

  lemma {:induction false} StrLeqTransitive(a: string, b: string, c: string)
    requires StrLeq(a, b) && StrLeq(b, c)
    ensures StrLeq(a, c)
    decreases |a|
  {
    if |a| > 0 && |b| > 0 && |c| > 0 && a[0] == b[0] && b[0] == c[0] {
      StrLeqTransitive(a[1..], b[1..], c[1..]);
    }
  }

  /** `s` without its leading whitespace. */
  function TrimLeft(s: string): (r: string)
    ensures |r| <= |s| && r == s[|s| - |r|..]
    ensures |r| > 0 ==> !IsSpace(r[0])
    ensures IsBlank(s[..|s| - |r|])
    decreases |s|
  {
    if |s| > 0 && IsSpace(s[0]) then TrimLeft(s[1..]) else s
  }

  /** The digits of the longest numeral at the start of `s`, as String#to_i
      reads it: digits, where a single `_` between two digits is a separator
      and is dropped. */
  function LeadingDigits(s: string): (r: string)
    ensures AllDigits(r) && |r| <= |s|
    ensures |r| == 0 <==> |s| == 0 || !IsDigit(s[0])
    decreases |s|
  {
    if |s| == 0 || !IsDigit(s[0]) then []
    else if |s| >= 3 && s[1] == '_' && IsDigit(s[2]) then [s[0]] + LeadingDigits(s[2..])
    else [s[0]] + LeadingDigits(s[1..])
  }

  /** Whether `t` opens with the decimal prefix `0d` or `0D`. */
  predicate HasDecimalPrefix(t: string) {
    |t| >= 2 && t[0] == '0' && (t[1] == 'd' || t[1] == 'D')
  }

  /** The unsigned part of String#to_i: an optional decimal prefix, then
      the numeral that follows it. */
  function UnsignedToI(t: string): nat {
    if HasDecimalPrefix(t) then DigitsToNat(LeadingDigits(t[2..]))
    else DigitsToNat(LeadingDigits(t))
  }

  /** String#to_i: leading whitespace, an optional sign, an optional `0d`
      prefix, then the numeral that follows; anything unreadable is 0. */
  function RubyToI(s: string): (i: int)
    ensures |s| > 0 && !IsSpace(s[0]) && !IsDigit(s[0]) && s[0] != '-' && s[0] != '+' ==> i == 0
  {
    var t := TrimLeft(s);
    if |t| > 0 && t[0] == '-' then 0 - UnsignedToI(t[1..]) as int
    else if |t| > 0 && t[0] == '+' then UnsignedToI(t[1..])
    else UnsignedToI(t)
  }

  /** The decimal prefix is skipped, after the sign: "0d5" reads as 5 and
      "-0D5" as -5, while "0d" alone and "0d_5" read as 0. */
  lemma ToIDecimalPrefix(p: char, a: char)
    requires (p == 'd' || p == 'D') && IsDigit(a)
    ensures RubyToI(['0', p, a]) == DigitValue(a)
    ensures RubyToI(['-', '0', p, a]) == 0 - DigitValue(a)
    ensures RubyToI(['0', p]) == 0
    ensures RubyToI(['0', p, '_', a]) == 0
  {
    assert ['0', p, a][2..] == [a];
    assert ['-', '0', p, a][1..] == ['0', p, a];
    assert ['0', p, '_', a][2..] == ['_', a];
    assert ['0', p][2..] == [];
    ToIPrefixed(['0', p, a]);
    ToIPrefixed(['-', '0', p, a]);
    ToIPrefixed(['0', p]);
    ToIPrefixed(['0', p, '_', a]);
    OneDigitValue(a);
  }

  /** A string that starts with a digit or a sign has no leading
      whitespace. */
  lemma ToIPrefixed(s: string)
    requires |s| > 0 && (IsDigit(s[0]) || s[0] == '-')
    ensures TrimLeft(s) == s
  {
    assert !IsSpace(s[0]);
  }

  /** Underscore separators: "1_0" reads as 10, while a doubled or a
      trailing underscore ends the numeral. */
  lemma ToISeparators(a: char, b: char)
    requires IsDigit(a) && IsDigit(b)
    ensures RubyToI([a, '_', b]) == DigitValue(a) * 10 + DigitValue(b)
    ensures RubyToI([a, '_', '_', b]) == DigitValue(a)
    ensures RubyToI([a, '_']) == DigitValue(a)
  {
    ToISingle(a, b);
    ToIDoubled(a, b);
    ToITrailing(a);
  }

  lemma ToISingle(a: char, b: char)
    requires IsDigit(a) && IsDigit(b)
    ensures RubyToI([a, '_', b]) == DigitValue(a) * 10 + DigitValue(b)
  {
    ToIAtDigit([a, '_', b]);
    LeadingSeparated(a, b);
    TwoDigitsValue(a, b);
  }

  lemma ToIDoubled(a: char, b: char)
    requires IsDigit(a) && IsDigit(b)
    ensures RubyToI([a, '_', '_', b]) == DigitValue(a)
  {
    var s := [a, '_', '_', b];
    ToIAtDigit(s);
    assert s == [a, '_'] + ['_', b];
    LeadingStopsAtUnderscore(a, ['_', b]);
    OneDigitValue(a);
  }

  lemma ToITrailing(a: char)
    requires IsDigit(a)
    ensures RubyToI([a, '_']) == DigitValue(a)
  {
    ToIAtDigit([a, '_']);
    assert [a, '_'] == [a, '_'] + [];
    LeadingStopsAtUnderscore(a, []);
    OneDigitValue(a);
  }

  lemma LeadingSeparated(a: char, b: char)
    requires IsDigit(a) && IsDigit(b)
    ensures LeadingDigits([a, '_', b]) == [a, b]
  {
    var s := [a, '_', b];
    assert s[2..] == [b];
    assert [b][1..] == [];
    assert LeadingDigits([b]) == [b];
  }

  /** A `_` that is not followed by a digit ends the numeral. */
  lemma LeadingStopsAtUnderscore(a: char, rest: string)
    requires IsDigit(a) && (|rest| == 0 || !IsDigit(rest[0]))
    ensures LeadingDigits([a, '_'] + rest) == [a]
  {
    var s := [a, '_'] + rest;
    assert s[1] == '_' && (|s| >= 3 ==> s[2] == rest[0]);
    assert s[1..][0] == '_';
  }

  lemma TwoDigitsValue(a: char, b: char)
    requires IsDigit(a) && IsDigit(b)
    ensures DigitsToNat([a, b]) == DigitValue(a) * 10 + DigitValue(b)
  {
    assert [a, b][..1] == [a];
    OneDigitValue(a);
  }

  lemma OneDigitValue(a: char)
    requires IsDigit(a)
    ensures DigitsToNat([a]) == DigitValue(a)
  {
    assert [a][..0] == [];
  }

  /** A string that starts with a digit has no leading whitespace, so
      to_i reads its numeral from the start. */
  lemma ToIAtDigit(s: string)
    requires |s| > 0 && IsDigit(s[0]) && !HasDecimalPrefix(s)
    ensures RubyToI(s) == DigitsToNat(LeadingDigits(s))
  {
    assert !IsSpace(s[0]) && s[0] != '-' && s[0] != '+';
    var t := TrimLeft(s);
    assert t == s;
    assert RubyToI(s) == DigitsToNat(LeadingDigits(t));
  }

  /** nil.to_i is 0; a string parameter converts with String#to_i. */
  function ParamToI(p: Option<string>): int {
    if p.Some? then RubyToI(p.value) else 0
  }

  /** Object#present? on a string parameter: given and not blank. */
  predicate Present(p: Option<string>) {
    p.Some? && !IsBlank(p.value)
  }

  /** A decimal rendering reads back as the number it renders. */
  lemma ToIRoundTrip(n: nat)
    ensures RubyToI(NatToDigits(n)) == n
  {
    var d := NatToDigits(n);
    DigitsUnprefixed(d);
    assert RubyToI(d) == UnsignedToI(d);
    LeadingDigitsOfDigits(d);
    DigitsRoundTrip(n);
  }

  /** A run of digits has no leading whitespace, sign or decimal prefix. */
  lemma DigitsUnprefixed(d: string)
    requires IsDigitRun(d)
    ensures TrimLeft(d) == d && d[0] != '-' && d[0] != '+' && !HasDecimalPrefix(d)
  {
    assert IsDigit(d[0]) && !IsSpace(d[0]);
    if |d| >= 2 {
      assert IsDigit(d[1]);
    }
  }

  lemma {:induction false} LeadingDigitsOfDigits(s: string)
    requires AllDigits(s)
    ensures LeadingDigits(s) == s
    decreases |s|
  {
    if |s| > 0 {
      LeadingDigitsOfDigits(s[1..]);
    }
  }

  /** Text without a digit after the optional sign reads as 0. */
  lemma ToIOfNonNumeric(s: string)
    requires |s| > 0 && !IsDigit(s[0]) && !IsSpace(s[0]) && s[0] != '-' && s[0] != '+'
    ensures RubyToI(s) == 0
  {
  }
}
