/**
 * The pieces of the C++ standard library that the store's text format relies
 * on, stated over strings: std::string::find, the space trimming of the
 * loader, the line joining of std::getline, std::format of integers, and
 * std::stoi / std::stoll (which parse as strtol does, then check the range).
 */
module Text {
  import opened Wrappers

  /** std::string::find(c, from): the first index at or after from that holds c. */
  function FindChar(s: string, c: char, from: nat): (r: Option<nat>)
    decreases |s| - from
    ensures r.Some? ==> from <= r.value < |s| && s[r.value] == c
    ensures r.Some? ==> forall j :: from <= j < r.value ==> s[j] != c
    ensures r.None? ==> forall j :: from <= j < |s| ==> s[j] != c
  {
    if from >= |s| then None
    else if s[from] == c then Some(from)
    else FindChar(s, c, from + 1)
  }

  /** find returns an index that holds c when no index before it does. */
  lemma FindCharFirst(s: string, c: char, from: nat, k: nat)
    requires from <= k < |s| && s[k] == c
    requires forall j :: from <= j < k ==> s[j] != c
    ensures FindChar(s, c, from) == Some(k)
  {
  }

  /** erase(0, find_first_not_of(" ")): drop the leading spaces (all of s when s holds only spaces). */
  function TrimLeft(s: string): (r: string)
    ensures |r| <= |s| && r == s[|s| - |r|..]
    ensures forall j :: 0 <= j < |s| - |r| ==> s[j] == ' '
    ensures r == [] || r[0] != ' '
  {
    if s != [] && s[0] == ' ' then TrimLeft(s[1..]) else s
  }

  /** erase(find_last_not_of(" ") + 1): drop the trailing spaces. */
  function TrimRight(s: string): (r: string)
    ensures |r| <= |s| && r == s[..|r|]
    ensures forall j :: |r| <= j < |s| ==> s[j] == ' '
    ensures r == [] || r[|r| - 1] != ' '
  {
    if s != [] && s[|s| - 1] == ' ' then TrimRight(s[..|s| - 1]) else s
  }

  /** The two erase calls of the loader, in their order. */
  function Trim(s: string): string
  {
    TrimRight(TrimLeft(s))
  }

  /** Text that neither starts nor ends with a space, as the values toJSON writes. */
  predicate Unpadded(s: string)
  {
    s != [] && s[0] != ' ' && s[|s| - 1] != ' '
  }

  /** A string that neither starts nor ends with a space is left alone by Trim. */
  lemma TrimUnpadded(s: string)
    requires Unpadded(s)
    ensures Trim(s) == s
  {
  }

  /** The parts with sep between each two of them. */
  function Join(parts: seq<string>, sep: string): string
  {
    if parts == [] then ""
    else if |parts| == 1 then parts[0]
    else parts[0] + sep + Join(parts[1..], sep)
  }

  /** Appending one more part, as a loop with a `first` flag does. */
  lemma {:induction false} JoinSnoc(parts: seq<string>, p: string, sep: string)
    ensures Join(parts + [p], sep) == if parts == [] then p else Join(parts, sep) + sep + p
  {
    if |parts| > 1 {
      assert (parts + [p])[1..] == parts[1..] + [p];
      JoinSnoc(parts[1..], p, sep);
    } else if |parts| == 1 {
      assert (parts + [p])[1..] == [p];
    }
  }

  /** The join of the first i + 1 parts, from the join of the first i. */
  lemma JoinPrefix(parts: seq<string>, i: int, sep: string)
    requires 0 <= i < |parts|
    ensures Join(parts[..i + 1], sep) == if i == 0 then parts[i] else Join(parts[..i], sep) + sep + parts[i]
  {
    assert parts[..i + 1] == parts[..i] + [parts[i]];
    JoinSnoc(parts[..i], parts[i], sep);
  }

  /** `while (getline(file, line)) json += line;`: the text with its line breaks taken out. */
  function JoinLines(s: string): (r: string)
    ensures '\n' !in r
    ensures '\n' !in s ==> r == s
    ensures |r| <= |s|
  {
    if s == [] then []
    else (if s[0] == '\n' then [] else [s[0]]) + JoinLines(s[1..])
  }

  /** Each line break only separates two lines: what comes before it and what comes after are kept, in order. */
  lemma {:induction false} JoinLinesSplit(a: string, b: string)
    ensures JoinLines(a + "\n" + b) == JoinLines(a) + JoinLines(b)
  {
    if a == [] {
      assert a + "\n" + b == ['\n'] + b;
      JoinLinesCons('\n', b);
    } else {
      var t := a[1..] + "\n" + b;
      assert a + "\n" + b == [a[0]] + t;
      assert a == [a[0]] + a[1..];
      JoinLinesCons(a[0], t);
      JoinLinesCons(a[0], a[1..]);
      JoinLinesSplit(a[1..], b);
      AppendAssoc(if a[0] == '\n' then [] else [a[0]], JoinLines(a[1..]), JoinLines(b));
    }
  }

  /** Regrouping a concatenation of three texts. */
  lemma AppendAssoc(x: string, y: string, z: string)
    ensures x + (y + z) == (x + y) + z
  {
  }

  /** The first character is kept unless it is a line break. */
  lemma JoinLinesCons(c: char, t: string)
    ensures JoinLines([c] + t) == (if c == '\n' then [] else [c]) + JoinLines(t)
  {
    assert ([c] + t)[0] == c && ([c] + t)[1..] == t;
  }

  predicate IsDigit(c: char)
  {
    '0' <= c <= '9'
  }

  predicate AllDigits(s: string)
  {
    forall i :: 0 <= i < |s| ==> IsDigit(s[i])
  }

  /** The characters isspace accepts in the C locale. */
  predicate IsSpace(c: char)
  {
    c == ' ' || c == '\t' || c == '\n' || c == '\r' || c == '\U{000B}' || c == '\U{000C}'
  }

  function DigitChar(d: nat): (c: char)
    requires d < 10
    ensures IsDigit(c)
  {
    (('0' as int) + d) as char
  }

  function DigitValue(c: char): (d: nat)
    requires IsDigit(c)
    ensures d < 10 && DigitChar(d) == c
  {
    (c as int) - ('0' as int)
  }

  /** std::format("{}", n) for a non-negative n: its decimal digits, with no leading zero. */
  function NatToString(n: nat): (r: string)
    decreases n
    ensures |r| > 0 && AllDigits(r)
    ensures |r| > 1 ==> r[0] != '0'
  {
    if n < 10 then [DigitChar(n)] else NatToString(n / 10) + [DigitChar(n % 10)]
  }

  /** std::format("{}", i): a minus sign before the digits of a negative number. */
  function IntToString(i: int): (r: string)
    ensures |r| > 0 && (r[0] == '-' <==> i < 0) && (i >= 0 ==> IsDigit(r[0]))
    ensures forall k :: 0 < k < |r| ==> IsDigit(r[k])
    ensures i >= 0 && |r| > 1 ==> r[0] != '0'
    ensures i < 0 ==> |r| >= 2 && r[1] != '0'
    ensures ' ' !in r && ',' !in r && '}' !in r && '{' !in r && '"' !in r && ':' !in r && '\n' !in r
  {
    if i < 0 then "-" + NatToString(-i) else NatToString(i)
  }

  /** The value of a run of decimal digits, read from the left. */
  function DigitsValue(d: string): nat
    requires AllDigits(d)
  {
    if d == [] then 0 else DigitsValue(d[..|d| - 1]) * 10 + DigitValue(d[|d| - 1])
  }

  /** The whitespace strtol skips before the number. */
  function SkipSpace(s: string): (r: string)
    ensures |r| <= |s| && r == s[|s| - |r|..]
    ensures forall j :: 0 <= j < |s| - |r| ==> IsSpace(s[j])
    ensures r == [] || !IsSpace(r[0])
  {
    if s != [] && IsSpace(s[0]) then SkipSpace(s[1..]) else s
  }

  /** The longest run of digits that s starts with. */
  function DigitRun(s: string): (r: string)
    ensures AllDigits(r) && |r| <= |s| && r == s[..|r|]
    ensures |r| < |s| ==> !IsDigit(s[|r|])
  {
    if s != [] && IsDigit(s[0]) then [s[0]] + DigitRun(s[1..]) else []
  }

  /**
   * strtol in base 10 followed by a range check, as std::stoi and std::stoll
   * do: leading whitespace, an optional sign, then at least one digit; the
   * characters after the digits are ignored. None stands for the exception
   * they throw: invalid_argument without digits, out_of_range outside [lo, hi].
   */
  function ParseInteger(s: string, lo: int, hi: int): (r: Option<int>)
    ensures r.Some? ==> lo <= r.value <= hi
  {
    ParseSigned(SkipSpace(s), lo, hi)
  }

  /** After the whitespace: an optional sign, then the digits. */
  function ParseSigned(t: string, lo: int, hi: int): (r: Option<int>)
    ensures r.Some? ==> lo <= r.value <= hi
  {
    if t != [] && t[0] == '-' then ParseDigits(t[1..], true, lo, hi)
    else if t != [] && t[0] == '+' then ParseDigits(t[1..], false, lo, hi)
    else ParseDigits(t, false, lo, hi)
  }

  /** The value of the longest run of digits u starts with, negated after a minus sign, then the range check. */
  function ParseDigits(u: string, negative: bool, lo: int, hi: int): (r: Option<int>)
    ensures r.Some? ==> lo <= r.value <= hi
  {
    var digits := DigitRun(u);
    if digits == [] then None else InRange(Signed(DigitsValue(digits), negative), lo, hi)
  }

  /** The magnitude, negated after a minus sign. */
  function Signed(magnitude: nat, negative: bool): int
  {
    if negative then -(magnitude as int) else magnitude
  }

  /** The range check: out_of_range outside [lo, hi]. */
  function InRange(v: int, lo: int, hi: int): (r: Option<int>)
    ensures r.Some? ==> lo <= r.value <= hi
  {
    if lo <= v <= hi then Some(v) else None
  }

  const IntMin: int := -0x8000_0000
  const IntMax: int := 0x7fff_ffff
  const LongMin: int := -0x8000_0000_0000_0000
  const LongMax: int := 0x7fff_ffff_ffff_ffff

  /** std::stoi: the range of a 32-bit int. */
  function Stoi(s: string): (r: Option<int>)
    ensures r.Some? ==> IntMin <= r.value <= IntMax
  {
    ParseInteger(s, IntMin, IntMax)
  }

  /** std::stoll: the range of a 64-bit long long (std::time_t here). */
  function Stoll(s: string): (r: Option<int>)
    ensures r.Some? ==> LongMin <= r.value <= LongMax
  {
    ParseInteger(s, LongMin, LongMax)
  }

  /** Reading back the digits std::format wrote gives the number again. */
  lemma {:induction false} NatToStringValue(n: nat)
    decreases n
    ensures DigitsValue(NatToString(n)) == n
  {
    if n >= 10 {
      NatToStringValue(n / 10);
      var r := NatToString(n);
      assert r[..|r| - 1] == NatToString(n / 10);
    }
  }

  /** The digit run of an all-digit string is the whole string. */
  lemma {:induction false} DigitRunAll(s: string)
    requires AllDigits(s)
    ensures DigitRun(s) == s
  {
    if s != [] {
      DigitRunAll(s[1..]);
    }
  }

  /** strtol on a run of digits reads their value. */
  lemma ParseUnsigned(d: string, i: int, lo: int, hi: int)
    requires d != [] && AllDigits(d) && DigitsValue(d) == i && lo <= i <= hi
    ensures ParseInteger(d, lo, hi) == Some(i)
  {
    assert IsDigit(d[0]);
    NoLeadingSpace(d);
    ParseAllDigits(d, false, i, lo, hi);
  }

  /** strtol on a minus sign and a run of digits reads the negated value. */
  lemma ParseNegative(d: string, i: int, lo: int, hi: int)
    requires d != [] && AllDigits(d) && DigitsValue(d) == -i && lo <= i <= hi
    ensures ParseInteger("-" + d, lo, hi) == Some(i)
  {
    var s := "-" + d;
    assert s[0] == '-';
    NoLeadingSpace(s);
    assert s[1..] == d;
    ParseAllDigits(d, true, i, lo, hi);
  }

  /** A text made only of digits is read whole. */
  lemma ParseAllDigits(d: string, negative: bool, i: int, lo: int, hi: int)
    requires d != [] && AllDigits(d) && lo <= i <= hi
    requires Signed(DigitsValue(d), negative) == i
    ensures ParseDigits(d, negative, lo, hi) == Some(i)
  {
    DigitRunAll(d);
  }

  /** strtol skips nothing when the text does not start with whitespace. */
  lemma NoLeadingSpace(s: string)
    requires s != [] && !IsSpace(s[0])
    ensures SkipSpace(s) == s
  {
  }

  /** strtol reads back what std::format wrote, for every number in the target's range. */
  lemma ParseFormatted(i: int, lo: int, hi: int)
    requires lo <= i <= hi
    ensures ParseInteger(IntToString(i), lo, hi) == Some(i)
  {
    var n: nat := if i < 0 then -i else i;
    NatToStringValue(n);
    if i < 0 {
      ParseNegative(NatToString(n), i, lo, hi);
    } else {
      ParseUnsigned(NatToString(n), i, lo, hi);
    }
  }
}
