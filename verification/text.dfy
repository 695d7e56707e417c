/** The Python `str` builtins the system relies on: `isspace`, `strip`,
    `split` on one separator character, `join`, ASCII `lower`, `isdigit`,
    `str(int)` and `int(str)`. Strings are sequences of code points. */
module Text {
  import opened Wrappers

  /** `str.isspace` for one code point: the characters CPython treats as
      whitespace (bidirectional class WS, B or S, or category Zs). */
  predicate IsSpace(c: char) {
    || c == ' '
    || ('\t' <= c <= '\r')
    || ('\U{1c}' <= c <= '\U{1f}')
    || c == '\U{85}'
    || c == '\U{a0}'
    || c == '\U{1680}'
    || ('\U{2000}' <= c <= '\U{200a}')
    || c == '\U{2028}'
    || c == '\U{2029}'
    || c == '\U{202f}'
    || c == '\U{205f}'
    || c == '\U{3000}'
  }

  predicate AllSpace(s: string) {
    forall i :: 0 <= i < |s| ==> IsSpace(s[i])
  }

  /** Neither end of `s` is whitespace. */
  predicate IsStripped(s: string) {
    |s| == 0 || (!IsSpace(s[0]) && !IsSpace(s[|s| - 1]))
  }

  /** The length of the whitespace run `s` begins with. */
  function Margin(s: string): (n: nat)
    ensures n <= |s|
    ensures forall i :: 0 <= i < n ==> IsSpace(s[i])
    ensures n < |s| ==> !IsSpace(s[n])
    decreases |s|
  {
    if |s| > 0 && IsSpace(s[0]) then 1 + Margin(s[1..]) else 0
  }

  /** Where the whitespace run `s` ends with starts. */
  function TailStart(s: string): (n: nat)
    ensures n <= |s|
    ensures forall i :: n <= i < |s| ==> IsSpace(s[i])
    ensures n > 0 ==> !IsSpace(s[n - 1])
    decreases |s|
  {
    if |s| > 0 && IsSpace(s[|s| - 1]) then TailStart(s[..|s| - 1]) else |s|
  }

  /** `str.strip()`: `s` without its leading and trailing whitespace (all of
      it when `s` is blank). */
  function Strip(s: string): (r: string)
    ensures IsStripped(r) && |r| <= |s|
  {
    var a := Margin(s);
    var b := TailStart(s);
    if b <= a then "" else s[a..b]
  }

  /** Stripping keeps the infix of `s` that starts after its leading
      whitespace (`Margin` says that all of that is whitespace). */
  lemma StripIsInfix(s: string)
    ensures Margin(s) + |Strip(s)| <= |s|
    ensures Strip(s) == s[Margin(s)..Margin(s) + |Strip(s)|]
  {
    var a := Margin(s);
    var b := TailStart(s);
    if a < b {
      assert Strip(s) == s[a..b];
    } else {
      assert Strip(s) == "";
    }
  }

  /** Only whitespace follows what stripping keeps. */
  lemma StripDropsOnlySpace(s: string)
    ensures forall k :: Margin(s) + |Strip(s)| <= k < |s| ==> IsSpace(s[k])
  {
    if TailStart(s) <= Margin(s) {
      BlankMargin(s);
    }
  }

  /** When the trailing whitespace starts no later than the leading run
      ends, the string is blank. */
  lemma BlankMargin(s: string)
    requires TailStart(s) <= Margin(s)
    ensures Margin(s) == |s| && AllSpace(s)
  {
  }

  /** Stripping changes nothing exactly when there is nothing to strip. */
  lemma StripFixesStripped(s: string)
    ensures Strip(s) == s <==> IsStripped(s)
  {
    if IsStripped(s) && |s| > 0 {
      assert Margin(s) == 0;
      assert TailStart(s) == |s|;
      assert s[0..|s|] == s;
    }
  }

  /** Stripping removes a whitespace prefix put in front of a stripped string. */
  lemma StripSpacePrefix(pad: string, x: string)
    requires AllSpace(pad) && IsStripped(x)
    ensures Strip(pad + x) == x
  {
    var s := pad + x;
    if |x| == 0 {
      assert s == pad;
      assert Margin(s) == |s|;
    } else {
      assert s[|pad|] == x[0];
      assert Margin(s) == |pad|;
      assert s[|s| - 1] == x[|x| - 1];
      assert TailStart(s) == |s|;
      assert s[|pad|..|s|] == x;
    }
  }

  /** Stripping removes whitespace put on both sides of a non-empty stripped
      string. */
  lemma StripSpaceAround(before: string, x: string, after: string)
    requires AllSpace(before) && AllSpace(after) && IsStripped(x) && x != ""
    ensures Strip(before + x + after) == x
  {
    var s := before + x + after;
    var m := |before|;
    var e := |before| + |x|;
    assert s[m] == x[0];
    assert s[e - 1] == x[|x| - 1];
    assert forall i :: 0 <= i < m ==> s[i] == before[i];
    assert forall i :: e <= i < |s| ==> s[i] == after[i - e];
    assert Margin(s) == m;
    assert TailStart(s) == e;
    assert s[m..e] == x;
  }

  /** Position of the first `c` in `s`, or `|s|` when there is none. */
  function IndexOf(s: string, c: char): (k: nat)
    ensures k <= |s|
    ensures forall i :: 0 <= i < k ==> s[i] != c
    ensures k < |s| ==> s[k] == c
    decreases |s|
  {
    if |s| == 0 then 0 else if s[0] == c then 0 else 1 + IndexOf(s[1..], c)
  }

  /** `s.split(c)` (one-character separator): every maximal run between
      separators, so there is always at least one piece. */
  function Split(s: string, c: char): (r: seq<string>)
    ensures |r| >= 1
    ensures forall k :: 0 <= k < |r| ==> c !in r[k]
    decreases |s|
  {
    if |s| == 0 then [""]
    else if s[0] == c then [""] + Split(s[1..], c)
    else
      var rest := Split(s[1..], c);
      [[s[0]] + rest[0]] + rest[1..]
  }

  /** `sep.join(xs)`. */
  function Join(xs: seq<string>, sep: string): string
    decreases |xs|
  {
    if |xs| == 0 then ""
    else if |xs| == 1 then xs[0]
    else xs[0] + sep + Join(xs[1..], sep)
  }

  /** Joining the pieces of a split with the separator restores the string. */
  lemma {:induction false} JoinSplit(s: string, c: char)
    ensures Join(Split(s, c), [c]) == s
    decreases |s|
  {
    if |s| == 0 {
    } else if s[0] == c {
      JoinSplit(s[1..], c);
      assert s == [c] + s[1..];
    } else {
      JoinSplit(s[1..], c);
      var rest := Split(s[1..], c);
      if |rest| == 1 {
        assert s == [s[0]] + rest[0];
      } else {
        assert Join(rest, [c]) == rest[0] + [c] + Join(rest[1..], [c]);
        assert s == [s[0]] + s[1..];
      }
    }
  }

  /** A separator-free prefix followed by the separator makes exactly one piece. */
  lemma {:induction false} SplitAfterPiece(a: string, b: string, c: char)
    requires c !in a
    ensures Split(a + [c] + b, c) == [a] + Split(b, c)
    decreases |a|
  {
    if |a| == 0 {
      assert a + [c] + b == [c] + b;
    } else {
      SplitAfterPiece(a[1..], b, c);
      var s := a + [c] + b;
      assert s[0] == a[0] && s[1..] == a[1..] + [c] + b;
      assert a == [a[0]] + a[1..];
    }
  }

  /** A separator-free string is a single piece. */
  lemma {:induction false} SplitNoSeparator(a: string, c: char)
    requires c !in a
    ensures Split(a, c) == [a]
    decreases |a|
  {
    if |a| > 0 {
      SplitNoSeparator(a[1..], c);
      assert a == [a[0]] + a[1..];
    }
  }

  /** Splitting a join of separator-free pieces gives the pieces back. */
  lemma {:induction false} SplitJoin(xs: seq<string>, c: char)
    requires |xs| >= 1
    requires forall k :: 0 <= k < |xs| ==> c !in xs[k]
    ensures Split(Join(xs, [c]), c) == xs
    decreases |xs|
  {
    if |xs| == 1 {
      SplitNoSeparator(xs[0], c);
    } else {
      SplitJoin(xs[1..], c);
      SplitAfterPiece(xs[0], Join(xs[1..], [c]), c);
      assert [xs[0]] + xs[1..] == xs;
    }
  }

  /** Lower-cases ASCII letters. Non-ASCII case mapping is not modelled. */
  function LowerChar(c: char): char {
    if 'A' <= c <= 'Z' then (c as int + 32) as char else c
  }

  /** `str.lower()` restricted to ASCII letters. */
  function Lower(s: string): (r: string)
    ensures |r| == |s|
    ensures forall i :: 0 <= i < |s| ==> r[i] == LowerChar(s[i])
  {
    seq(|s|, i requires 0 <= i < |s| => LowerChar(s[i]))
  }

  predicate IsLower(s: string) {
    forall i :: 0 <= i < |s| ==> !('A' <= s[i] <= 'Z')
  }

  lemma LowerIsLower(s: string)
    ensures IsLower(Lower(s))
    ensures Lower(Lower(s)) == Lower(s)
  {
  }

  predicate IsDigit(c: char) {
    '0' <= c <= '9'
  }

  /** `str.isdigit()` for ASCII digits: non-empty and all digits. */
  predicate IsDigits(s: string) {
    |s| > 0 && forall i :: 0 <= i < |s| ==> IsDigit(s[i])
  }

  function DigitChar(d: nat): (c: char)
    requires d < 10
    ensures IsDigit(c)
  {
    (('0' as int) + d) as char
  }

  function DigitValue(c: char): nat
    requires IsDigit(c)
  {
    (c as int) - ('0' as int)
  }

  /** Decimal digits of a natural number, most significant first. */
  function NatToString(n: nat): (s: string)
    ensures IsDigits(s)
    decreases n
  {
    if n < 10 then [DigitChar(n)] else NatToString(n / 10) + [DigitChar(n % 10)]
  }

  /** `str(n)` for an `int`. */
  function IntToString(n: int): string {
    if n < 0 then "-" + NatToString(-n) else NatToString(n)
  }

  /** The value of a decimal digit string. */
  function DigitsValue(s: string): nat
    requires forall i :: 0 <= i < |s| ==> IsDigit(s[i])
    decreases |s|
  {
    if |s| == 0 then 0 else DigitsValue(s[..|s| - 1]) * 10 + DigitValue(s[|s| - 1])
  }

  /** The body of an integer literal that `int()` accepts: digits, with
      single underscores allowed between digits. */
  predicate IsDigitGroups(s: string) {
    && |s| > 0
    && IsDigit(s[0]) && IsDigit(s[|s| - 1])
    && (forall i :: 0 <= i < |s| ==> IsDigit(s[i]) || s[i] == '_')
    && (forall i :: 0 <= i < |s| - 1 ==> !(s[i] == '_' && s[i + 1] == '_'))
  }

  /** `s` with every underscore removed. */
  function WithoutUnderscores(s: string): string
    decreases |s|
  {
    if |s| == 0 then ""
    else if s[0] == '_' then WithoutUnderscores(s[1..])
    else [s[0]] + WithoutUnderscores(s[1..])
  }

  lemma {:induction false} WithoutUnderscoresDigits(s: string)
    requires forall i :: 0 <= i < |s| ==> IsDigit(s[i]) || s[i] == '_'
    ensures forall i :: 0 <= i < |WithoutUnderscores(s)| ==> IsDigit(WithoutUnderscores(s)[i])
    decreases |s|
  {
    if |s| > 0 {
      WithoutUnderscoresDigits(s[1..]);
    }
  }

  lemma {:induction false} WithoutUnderscoresOfDigits(s: string)
    requires forall i :: 0 <= i < |s| ==> IsDigit(s[i])
    ensures WithoutUnderscores(s) == s
    decreases |s|
  {
    if |s| > 0 {
      WithoutUnderscoresOfDigits(s[1..]);
      assert s == [s[0]] + s[1..];
    }
  }

  /** `int(s)` in base 10: surrounding whitespace is ignored, one optional
      sign, then digit groups; anything else raises `ValueError`, modelled
      as `None`. Non-ASCII decimal digits are not modelled. */
  function ParseInt(s: string): Option<int> {
    var t := Strip(s);
    var negative := |t| > 0 && t[0] == '-';
    var body := if |t| > 0 && (t[0] == '-' || t[0] == '+') then t[1..] else t;
    if !IsDigitGroups(body) then None
    else
      WithoutUnderscoresDigits(body);
      var magnitude: int := DigitsValue(WithoutUnderscores(body));
      var value: int := if negative then -magnitude else magnitude;
      Some(value)
  }

  /** Blank text is not an integer. */
  lemma ParseIntRejectsBlank(s: string)
    requires AllSpace(s)
    ensures ParseInt(s) == None
  {
    assert Margin(s) == |s|;
  }

  lemma {:induction false} DigitsValueOfNat(n: nat)
    ensures DigitsValue(NatToString(n)) == n
    decreases n
  {
    if n >= 10 {
      DigitsValueOfNat(n / 10);
      var s := NatToString(n);
      assert s[..|s| - 1] == NatToString(n / 10);
    }
  }

  /** A sign (or none) followed by decimal digits is already stripped. */
  lemma SignedDigitsStripped(sign: string, digits: string)
    requires sign == "" || sign == "-"
    requires IsDigits(digits)
    ensures Strip(sign + digits) == sign + digits
  {
    var s := sign + digits;
    assert IsStripped(s) by {
      assert s[|s| - 1] == digits[|digits| - 1] && IsDigit(digits[|digits| - 1]);
      if sign == "" {
        assert s[0] == digits[0] && IsDigit(digits[0]);
      } else {
        assert s[0] == '-';
      }
    }
    StripFixesStripped(s);
  }

  /** Text that is the decimal form of some integer parses as that
      integer. */
  lemma DecimalTextParses(s: string)
    ensures forall n :: s == IntToString(n) ==> ParseInt(s) == Some(n)
  {
    forall n | s == IntToString(n)
      ensures ParseInt(s) == Some(n)
    {
      ParseIntOfIntToString(n);
    }
  }

  /** `int(str(n)) == n`: the decimal rendering of an integer parses back to it. */
  lemma ParseIntOfIntToString(n: int)
    ensures ParseInt(IntToString(n)) == Some(n)
  {
    var m: nat := if n < 0 then -n else n;
    var digits := NatToString(m);
    var sign := if n < 0 then "-" else "";
    var s := IntToString(n);
    assert s == sign + digits;
    SignedDigitsStripped(sign, digits);
    var body := if |s| > 0 && (s[0] == '-' || s[0] == '+') then s[1..] else s;
    assert body == digits;
    assert IsDigitGroups(body);
    WithoutUnderscoresOfDigits(digits);
    DigitsValueOfNat(m);
  }
}
