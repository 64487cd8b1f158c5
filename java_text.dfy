/**
 * The java.lang.String operations the reader relies on, over `seq<char>`.
 * Case mapping is ASCII-only (see README, "Left out").
 */
module JavaText {
  import opened Wrappers

  /** `Character.toLowerCase` on ASCII letters; every other character is left alone. */
  function LowerChar(c: char): char {
    if 'A' <= c <= 'Z' then (c as int + 32) as char else c
  }

  /** `Character.toUpperCase` on ASCII letters; every other character is left alone. */
  function UpperChar(c: char): char {
    if 'a' <= c <= 'z' then (c as int - 32) as char else c
  }

  /** `String.toLowerCase` */
  function Lower(s: string): (r: string)
    ensures |r| == |s|
    ensures forall i :: 0 <= i < |s| ==> r[i] == LowerChar(s[i])
  {
    seq(|s|, i requires 0 <= i < |s| => LowerChar(s[i]))
  }

  /** `String.toUpperCase` */
  function Upper(s: string): (r: string)
    ensures |r| == |s|
    ensures forall i :: 0 <= i < |s| ==> r[i] == UpperChar(s[i])
  {
    seq(|s|, i requires 0 <= i < |s| => UpperChar(s[i]))
  }

  /** `Character.isWhitespace`: the separators other than no-break spaces, and the listed controls. */
  predicate IsJavaWhitespace(c: char) {
    c == ' ' || ('\t' <= c <= '\r') || ('\U{1C}' <= c <= '\U{1F}')
    || c == '\U{1680}' || ('\U{2000}' <= c <= '\U{2006}') || ('\U{2008}' <= c <= '\U{200A}')
    || c == '\U{2028}' || c == '\U{2029}' || c == '\U{205F}' || c == '\U{3000}'
  }

  /** `String.isBlank` */
  predicate IsBlank(s: string) {
    forall i :: 0 <= i < |s| ==> IsJavaWhitespace(s[i])
  }

  function TrimStart(s: string): (r: string)
    ensures |r| <= |s| && r == s[|s| - |r|..]
    ensures r == [] || r[0] > ' '
    ensures forall i :: 0 <= i < |s| - |r| ==> s[i] <= ' '
  {
    if |s| > 0 && s[0] <= ' ' then TrimStart(s[1..]) else s
  }

  function TrimEnd(s: string): (r: string)
    ensures |r| <= |s| && r == s[..|r|]
    ensures r == [] || r[|r| - 1] > ' '
    ensures forall i :: |r| <= i < |s| ==> s[i] <= ' '
  {
    if |s| > 0 && s[|s| - 1] <= ' ' then TrimEnd(s[..|s| - 1]) else s
  }

  /** `String.trim`: drops every leading and trailing character not above U+0020. */
  function Trim(s: string): (r: string)
    ensures |r| <= |s|
    ensures r == [] || (r[0] > ' ' && r[|r| - 1] > ' ')
  {
    TrimEnd(TrimStart(s))
  }

  /** `s.trim().isEmpty()` */
  predicate IsTrimEmpty(s: string) {
    Trim(s) == []
  }

  /** A string trims to nothing exactly when none of its characters lies above U+0020. */
  lemma {:induction false} TrimEmptyIff(s: string)
    ensures IsTrimEmpty(s) <==> forall i :: 0 <= i < |s| ==> s[i] <= ' '
  {
    var t := TrimStart(s);
    if t == [] {
      assert Trim(s) == [];
    } else {
      assert t[0] > ' ';
      assert s[|s| - |t|] > ' ';
      assert Trim(s) != [];
    }
  }

  /** Trimming leaves alone a string that starts and ends above U+0020. */
  lemma TrimNoop(s: string)
    requires |s| > 0 && s[0] > ' ' && s[|s| - 1] > ' '
    ensures Trim(s) == s
  {
    assert TrimStart(s) == s;
  }

  /** Every character of `s` is one that `toLowerCase` leaves alone. */
  predicate IsLowerCase(s: string) {
    forall i :: 0 <= i < |s| ==> LowerChar(s[i]) == s[i]
  }

  /** Lowercasing yields a lowercase string, and changes nothing in one. */
  lemma LowerCaseFixed(s: string)
    ensures IsLowerCase(Lower(s))
    ensures IsLowerCase(s) ==> Lower(s) == s
  {
  }

  predicate StartsWith(s: string, prefix: string) {
    |prefix| <= |s| && s[..|prefix|] == prefix
  }

  predicate EndsWith(s: string, suffix: string) {
    |suffix| <= |s| && s[|s| - |suffix|..] == suffix
  }

  /** `q` occurs in `s` starting at index `i`. */
  predicate MatchAt(s: string, q: string, i: int) {
    0 <= i && i + |q| <= |s| && s[i..i + |q|] == q
  }

  /** `String.contains` */
  predicate Contains(s: string, q: string) {
    exists i | 0 <= i <= |s| - |q| :: MatchAt(s, q, i)
  }

  /** `s[i + k..i + |q|] == q[k..]`, compared character by character. */
  predicate SameFrom(s: string, q: string, i: nat, k: nat)
    requires i + |q| <= |s| && k <= |q|
    decreases |q| - k
  {
    k == |q| || (s[i + k] == q[k] && SameFrom(s, q, i, k + 1))
  }

  /** The character-by-character comparison agrees with comparing the slices. */
  lemma {:induction false} SameFromMatch(s: string, q: string, i: nat, k: nat)
    requires i + |q| <= |s| && k <= |q|
    ensures SameFrom(s, q, i, k) <==> s[i + k..i + |q|] == q[k..]
    decreases |q| - k
  {
    if k < |q| {
      SameFromMatch(s, q, i, k + 1);
      assert s[i + k..i + |q|] == [s[i + k]] + s[i + k + 1..i + |q|];
      assert q[k..] == [q[k]] + q[k + 1..];
    }
  }

  /** `String.indexOf(q, from)`: the first occurrence at or after `from`, or -1. */
  function IndexOf(s: string, q: string, from: nat): (r: int)
    ensures r == -1 || (from <= r && MatchAt(s, q, r))
    decreases |s| - from
  {
    if from + |q| > |s| then -1
    else if SameFrom(s, q, from, 0) then SameFromMatch(s, q, from, 0); from
    else IndexOf(s, q, from + 1)
  }

  /** `indexOf` finds the first occurrence: there is none between `from` and the result. */
  lemma {:induction false} IndexOfFirst(s: string, q: string, from: nat, i: int)
    requires from <= i && MatchAt(s, q, i)
    ensures var r := IndexOf(s, q, from); r != -1 && r <= i
    decreases |s| - from
  {
    if from + |q| <= |s| && !SameFrom(s, q, from, 0) {
      SameFromMatch(s, q, from, 0);
      IndexOfFirst(s, q, from + 1, i);
    }
  }

  /** `String.indexOf(char)` */
  function FirstIndexOf(s: string, c: char): (r: int)
    ensures -1 <= r < |s|
    ensures r >= 0 ==> s[r] == c
  {
    if |s| == 0 then -1
    else if s[0] == c then 0
    else var k := FirstIndexOf(s[1..], c); if k < 0 then -1 else k + 1
  }

  /** `indexOf(char)` reports the first occurrence: `c` does not occur before it (nor at all on -1). */
  lemma {:induction false} FirstIndexOfFirst(s: string, c: char)
    ensures var r := FirstIndexOf(s, c);
      forall i :: 0 <= i < |s| && (r == -1 || i < r) ==> s[i] != c
    decreases |s|
  {
    if |s| > 0 && s[0] != c {
      FirstIndexOfFirst(s[1..], c);
      assert forall i :: 1 <= i < |s| ==> s[i] == s[1..][i - 1];
    }
  }

  /** `String.lastIndexOf(char)` */
  function LastIndexOf(s: string, c: char): (r: int)
    ensures -1 <= r < |s|
    ensures r >= 0 ==> s[r] == c
  {
    if |s| == 0 then -1
    else if s[|s| - 1] == c then |s| - 1
    else LastIndexOf(s[..|s| - 1], c)
  }

  /** `lastIndexOf(char)` reports the last occurrence: `c` does not occur after it (nor at all on -1). */
  lemma {:induction false} LastIndexOfLast(s: string, c: char)
    ensures var r := LastIndexOf(s, c); forall i :: r < i < |s| ==> s[i] != c
    decreases |s|
  {
    if |s| > 0 && s[|s| - 1] != c {
      LastIndexOfLast(s[..|s| - 1], c);
      assert forall i :: 0 <= i < |s| - 1 ==> s[i] == s[..|s| - 1][i];
    }
  }

  /**
   * `String.split` on a one-character separator, keeping every piece (Java drops
   * trailing empty pieces; every caller here discards empty pieces anyway).
   */
  function Split(s: string, sep: char): (r: seq<string>)
    ensures |r| >= 1
    ensures forall k :: 0 <= k < |r| ==> sep !in r[k]
    decreases |s|
  {
    var i := FirstIndexOf(s, sep);
    FirstIndexOfBefore(s, sep);
    if i < 0 then [s]
    else
      var rest := Split(s[i + 1..], sep);
      PrependFree(s[..i], rest, sep);
      [s[..i]] + rest
  }

  /** The text before the first separator holds none (all of it, when there is no separator). */
  lemma FirstIndexOfBefore(s: string, c: char)
    ensures var r := FirstIndexOf(s, c); c !in (if r < 0 then s else s[..r])
  {
    var r := FirstIndexOf(s, c);
    FirstIndexOfFirst(s, c);
    var before := if r < 0 then s else s[..r];
    forall i | 0 <= i < |before| ensures before[i] != c {
      assert before[i] == s[i];
    }
  }

  /** A separator-free piece in front of separator-free pieces leaves them all free of it. */
  lemma PrependFree(x: string, rest: seq<string>, sep: char)
    requires sep !in x
    requires forall k :: 0 <= k < |rest| ==> sep !in rest[k]
    ensures forall k :: 0 <= k < |[x] + rest| ==> sep !in ([x] + rest)[k]
  {
    forall k | 0 <= k < |[x] + rest| ensures sep !in ([x] + rest)[k] {
      if k > 0 {
        assert ([x] + rest)[k] == rest[k - 1];
      }
    }
  }

  /** `String.join` on a one-character separator. */
  function Join(xs: seq<string>, sep: char): string
    decreases |xs|
  {
    if |xs| == 0 then "" else if |xs| == 1 then xs[0] else xs[0] + [sep] + Join(xs[1..], sep)
  }

  /** Splitting a join restores the pieces, as long as no piece holds the separator. */
  lemma {:induction false} SplitJoin(xs: seq<string>, sep: char)
    requires |xs| >= 1
    requires forall k :: 0 <= k < |xs| ==> sep !in xs[k]
    ensures Split(Join(xs, sep), sep) == xs
    decreases |xs|
  {
    if |xs| == 1 {
      FirstIndexOfFirst(xs[0], sep);
      assert FirstIndexOf(xs[0], sep) == -1;
    } else {
      var s := Join(xs, sep);
      assert s == xs[0] + [sep] + Join(xs[1..], sep);
      assert s[|xs[0]|] == sep;
      assert FirstIndexOf(s, sep) == |xs[0]| by {
        FirstIndexOfFirst(s, sep);
        forall i | 0 <= i < |xs[0]| ensures s[i] != sep {
          assert s[i] == xs[0][i];
        }
      }
      assert s[..|xs[0]|] == xs[0];
      assert s[|xs[0]| + 1..] == Join(xs[1..], sep);
      SplitJoin(xs[1..], sep);
    }
  }

  /** `String.replace(pattern, "")`: removes every occurrence, scanning left to right. */
  function RemoveAll(s: string, pattern: string): (r: string)
    requires |pattern| > 0
    ensures |r| <= |s|
    decreases |s|
  {
    if |s| < |pattern| then s
    else if s[..|pattern|] == pattern then RemoveAll(s[|pattern|..], pattern)
    else [s[0]] + RemoveAll(s[1..], pattern)
  }

  /** Every character `RemoveAll` keeps comes from its input. */
  lemma {:induction false} RemoveAllKeeps(s: string, pattern: string)
    requires |pattern| > 0
    ensures forall i :: 0 <= i < |RemoveAll(s, pattern)| ==> RemoveAll(s, pattern)[i] in s
    decreases |s|
  {
    if |s| >= |pattern| {
      if s[..|pattern|] == pattern {
        RemoveAllKeeps(s[|pattern|..], pattern);
        forall i | 0 <= i < |RemoveAll(s, pattern)| ensures RemoveAll(s, pattern)[i] in s {
          assert RemoveAll(s, pattern)[i] in s[|pattern|..];
        }
      } else {
        RemoveAllKeeps(s[1..], pattern);
        forall i | 0 <= i < |RemoveAll(s, pattern)| ensures RemoveAll(s, pattern)[i] in s {
          if i > 0 {
            assert RemoveAll(s, pattern)[i] == RemoveAll(s[1..], pattern)[i - 1];
            assert RemoveAll(s[1..], pattern)[i - 1] in s[1..];
          }
        }
      }
    }
  }

  /** Removing a unit from a run of digits followed by that unit leaves the digits. */
  lemma {:induction false} RemoveUnit(digits: string, unit: string)
    requires AllDigits(digits) && |unit| > 0 && !IsDigit(unit[0])
    ensures RemoveAll(digits + unit, unit) == digits
    decreases |digits|
  {
    var s := digits + unit;
    if |digits| == 0 {
      assert s == unit;
      assert s[|unit|..] == [];
    } else {
      assert s[0] == digits[0];
      assert s[..|unit|] != unit by { assert s[..|unit|][0] == digits[0]; }
      assert s[1..] == digits[1..] + unit;
      RemoveUnit(digits[1..], unit);
      assert [digits[0]] + digits[1..] == digits;
    }
  }

  predicate IsDigit(c: char) { '0' <= c <= '9' }

  predicate AllDigits(s: string) {
    forall i :: 0 <= i < |s| ==> IsDigit(s[i])
  }

  /** The value of a string of decimal digits. */
  function DigitsValue(s: string): nat
    requires AllDigits(s)
  {
    if |s| == 0 then 0 else DigitsValue(s[..|s| - 1]) * 10 + (s[|s| - 1] as int - '0' as int)
  }

  /** The decimal rendering of a natural number, as `Long.toString` writes it. */
  function Decimal(n: nat): (r: string)
    ensures |r| >= 1 && AllDigits(r)
  {
    if n < 10 then [(n + '0' as int) as char] else Decimal(n / 10) + [((n % 10) + '0' as int) as char]
  }

  /** Reading back a rendered number gives the number. */
  lemma {:induction false} DecimalValue(n: nat)
    ensures DigitsValue(Decimal(n)) == n
  {
    if n >= 10 {
      var d := Decimal(n);
      assert d[..|d| - 1] == Decimal(n / 10);
      DecimalValue(n / 10);
    }
  }

  const LONG_MIN: int := -0x8000_0000_0000_0000
  const LONG_MAX: int := 0x7FFF_FFFF_FFFF_FFFF

  /** An optional sign followed by one or more decimal digits, and its value. */
  function SignedInteger(s: string): (r: Option<int>)
    ensures r.Some? ==> |s| >= 1
  {
    if |s| == 0 then None
    else
      var body := if s[0] == '-' || s[0] == '+' then s[1..] else s;
      if |body| == 0 || !AllDigits(body) then None
      else if s[0] == '-' then Some(0 - DigitsValue(body) as int)
      else Some(DigitsValue(body))
  }

  /** A plain run of digits reads as its value. */
  lemma DigitsParse(s: string)
    requires |s| > 0 && AllDigits(s)
    ensures SignedInteger(s) == Some(DigitsValue(s) as int)
  {
    assert IsDigit(s[0]);
  }

  /** `Long.parseLong` on ASCII input: None stands for a NumberFormatException. */
  function ParseLong(s: string): (r: Option<int>)
    ensures r.Some? ==> LONG_MIN <= r.value <= LONG_MAX
    ensures r.Some? ==> |s| >= 1 && var body := if s[0] == '-' || s[0] == '+' then s[1..] else s;
      |body| >= 1 && AllDigits(body)
    ensures r.Some? && r.value < 0 ==> s[0] == '-'
  {
    var v := SignedInteger(s);
    if v.Some? && LONG_MIN <= v.value <= LONG_MAX then v else None
  }

  /**
   * Reading back the decimal rendering of a number in the 64-bit range gives the
   * number, with or without a minus sign in front; one past the range fails.
   */
  lemma ParseLongDecimal(n: nat)
    ensures n <= LONG_MAX ==> ParseLong(Decimal(n)) == Some(n)
    ensures n <= -LONG_MIN ==> ParseLong("-" + Decimal(n)) == Some(-(n as int))
    ensures n > LONG_MAX ==> ParseLong(Decimal(n)) == None
  {
    var d := Decimal(n);
    DecimalValue(n);
    DigitsParse(d);
    assert ("-" + d)[1..] == d;
  }

  /**
   * `Double.parseDouble` restricted to whole numbers: surrounding characters up to
   * U+0020 are ignored, then an optional sign and decimal digits.
   */
  function ParseWholeDouble(s: string): Option<int> {
    SignedInteger(Trim(s))
  }

  /** A string with no digit at all never parses as a number. */
  lemma NoDigitNoNumber(s: string)
    requires forall i :: 0 <= i < |s| ==> !IsDigit(s[i])
    ensures SignedInteger(s) == None
  {
    if |s| > 0 {
      var body := if s[0] == '-' || s[0] == '+' then s[1..] else s;
      if |body| > 0 {
        assert !IsDigit(body[0]);
      }
    }
  }

  const INT_MIN: int := -0x8000_0000
  const INT_MAX: int := 0x7FFF_FFFF

  function HexDigit(d: nat): char
    requires d < 16
  {
    if d < 10 then (d + '0' as int) as char else (d - 10 + 'a' as int) as char
  }

  function HexDigitValue(c: char): nat {
    if '0' <= c <= '9' then c as int - '0' as int
    else if 'a' <= c <= 'f' then c as int - 'a' as int + 10
    else 0
  }

  /** A natural number in lowercase hexadecimal, without leading zeros. */
  function Hex(n: nat): (r: string)
    ensures |r| >= 1
  {
    if n < 16 then [HexDigit(n)] else Hex(n / 16) + [HexDigit(n % 16)]
  }

  /** The value of a string of hexadecimal digits. */
  function HexValue(s: string): nat {
    if |s| == 0 then 0 else HexValue(s[..|s| - 1]) * 16 + HexDigitValue(s[|s| - 1])
  }

  lemma {:induction false} HexRoundTrip(n: nat)
    ensures HexValue(Hex(n)) == n
  {
    if n >= 16 {
      var h := Hex(n);
      assert h[..|h| - 1] == Hex(n / 16);
      HexRoundTrip(n / 16);
    }
  }

  /** A number below 16 to the power `k` takes at most `k` hexadecimal digits. */
  lemma {:induction false} HexShort(n: nat, k: nat)
    requires 1 <= k && n < Pow16(k)
    ensures |Hex(n)| <= k
  {
    if n >= 16 {
      assert k >= 2;
      assert n / 16 < Pow16(k - 1);
      HexShort(n / 16, k - 1);
    }
  }

  function Pow16(k: nat): nat {
    if k == 0 then 1 else 16 * Pow16(k - 1)
  }

  /**
   * `Integer.toHexString`: the 32-bit two's-complement pattern of `h`, read as an
   * unsigned number, in lowercase hexadecimal.
   */
  function ToHexString(h: int): (r: string)
    ensures 1 <= |r| <= 8
  {
    assert Pow16(8) == 0x1_0000_0000;
    HexShort(h % 0x1_0000_0000, 8);
    Hex(h % 0x1_0000_0000)
  }

  /** The unsigned reading of a 32-bit value. */
  lemma UnsignedPattern(a: int)
    requires INT_MIN <= a <= INT_MAX
    ensures a % 0x1_0000_0000 == if a >= 0 then a else a + 0x1_0000_0000
  {
  }

  /** Different `int` values never share a hexadecimal rendering. */
  lemma ToHexStringInjective(a: int, b: int)
    requires INT_MIN <= a <= INT_MAX && INT_MIN <= b <= INT_MAX
    requires ToHexString(a) == ToHexString(b)
    ensures a == b
  {
    var x, y := a % 0x1_0000_0000, b % 0x1_0000_0000;
    HexRoundTrip(x);
    HexRoundTrip(y);
    assert x == y;
    UnsignedPattern(a);
    UnsignedPattern(b);
  }
}
