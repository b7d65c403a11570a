/** The pieces of Python's text handling that several components rely on:
    `str.isspace`, `str.strip`, `str(int)`, `int(str)` and `str.split`. */
module PyText {

  datatype Option<+T> = None | Some(value: T)

  /** Exactly the characters for which `str.isspace` holds, which are also
      the ones the regular-expression class `\s` matches in a text pattern. */
  predicate IsSpace(c: char) {
    var n := c as int;
    || 0x09 <= n <= 0x0D || 0x1C <= n <= 0x20 || n == 0x85 || n == 0xA0
    || n == 0x1680 || 0x2000 <= n <= 0x200A || n == 0x2028 || n == 0x2029
    || n == 0x202F || n == 0x205F || n == 0x3000
  }

  predicate IsDigit(c: char) {
    '0' <= c <= '9'
  }

  predicate AllDigits(s: string) {
    forall i | 0 <= i < |s| :: IsDigit(s[i])
  }

  predicate Ascii(s: string) {
    forall i | 0 <= i < |s| :: s[i] as int < 128
  }

  predicate Free(s: string, c: char) {
    forall i | 0 <= i < |s| :: s[i] != c
  }

  /** The first `n` characters, or all there are. */
  function Prefix(s: string, n: nat): string {
    if |s| > n then s[..n] else s
  }

  function StripLeft(s: string): string {
    if s != "" && IsSpace(s[0]) then StripLeft(s[1..]) else s
  }

  function StripRight(s: string): string {
    if s != "" && IsSpace(s[|s| - 1]) then StripRight(s[..|s| - 1]) else s
  }

  function Strip(s: string): string {
    StripRight(StripLeft(s))
  }

  lemma StripNothing(s: string)
    requires s != "" && !IsSpace(s[0]) && !IsSpace(s[|s| - 1])
    ensures Strip(s) == s
  {
  }

  // ── printing and reading whole numbers ──

  function Digit(d: nat): char
    requires d < 10
  {
    (48 + d) as char
  }

  function NatToString(n: nat): string {
    if n < 10 then [Digit(n)] else NatToString(n / 10) + [Digit(n % 10)]
  }

  function IntToString(i: int): string {
    if i < 0 then "-" + NatToString(-i) else NatToString(i)
  }

  /** The number a run of decimal digits denotes. */
  function DigitsValue(s: string): nat
    requires AllDigits(s)
  {
    if s == "" then 0 else 10 * DigitsValue(s[..|s| - 1]) + (s[|s| - 1] as int - 48)
  }

  lemma {:induction false} NatToStringReads(n: nat)
    ensures NatToString(n) != "" && AllDigits(NatToString(n))
    ensures DigitsValue(NatToString(n)) == n
  {
    if n >= 10 {
      NatToStringReads(n / 10);
      assert NatToString(n)[..|NatToString(n)| - 1] == NatToString(n / 10);
    }
  }

  lemma NatToStringInjective(m: nat, n: nat)
    requires NatToString(m) == NatToString(n)
    ensures m == n
  {
    NatToStringReads(m);
    NatToStringReads(n);
  }

  lemma IntToStringInjective(i: int, j: int)
    requires IntToString(i) == IntToString(j)
    ensures i == j
  {
    var ni, nj := if i < 0 then -i else i, if j < 0 then -j else j;
    NatToStringReads(ni);
    NatToStringReads(nj);
    assert IntToString(i)[0] == '-' <==> i < 0;
    assert IntToString(j)[0] == '-' <==> j < 0;
    if i < 0 {
      assert NatToString(-i) == IntToString(i)[1..] == NatToString(-j);
      NatToStringInjective(-i, -j);
    } else {
      NatToStringInjective(i, j);
    }
  }

  /** Printed numbers use digits and a minus sign only. */
  lemma IntToStringFree(i: int, c: char)
    requires !IsDigit(c) && c != '-'
    ensures Free(IntToString(i), c)
  {
    NatToStringReads(if i < 0 then -i else i);
  }

  /** A whole number in text: surrounding blanks, one optional sign, and digits
      that single underscores may separate. */
  function ParseInt(s: string): Option<int> {
    var t := Strip(s);
    if t != "" && (t[0] == '+' || t[0] == '-') then
      match ParseDigits(t[1..])
      case None => None
      case Some(n) => Some(if t[0] == '-' then -n else n)
    else
      ParseDigits(t)
  }

  function ParseDigits(t: string): Option<int> {
    if t == "" || !IsDigit(t[0]) || !IsDigit(t[|t| - 1]) then None
    else if exists i | 0 <= i < |t| :: !IsDigit(t[i]) && t[i] != '_' then None
    else if exists i | 0 <= i < |t| - 1 :: t[i] == '_' && t[i + 1] == '_' then None
    else Some(DigitsValue(WithoutUnderscores(t)))
  }

  function WithoutUnderscores(t: string): (r: string)
    ensures (forall i | 0 <= i < |t| :: IsDigit(t[i]) || t[i] == '_') ==> AllDigits(r)
    ensures AllDigits(t) ==> r == t
  {
    if t == "" then ""
    else (if t[0] == '_' then [] else [t[0]]) + WithoutUnderscores(t[1..])
  }

  /** Reading back a printed number. */
  lemma ParsePrintedNat(n: nat)
    ensures ParseInt(NatToString(n)) == Some(n)
  {
    var s := NatToString(n);
    NatToStringReads(n);
    assert IsDigit(s[0]) && IsDigit(s[|s| - 1]);
    StripNothing(s);
  }

  predicate Blanks(s: string) {
    forall i | 0 <= i < |s| :: IsSpace(s[i])
  }

  lemma {:induction false} LeftStripped(a: string, t: string)
    requires Blanks(a) && t != "" && !IsSpace(t[0])
    ensures StripLeft(a + t) == t
  {
    hide IsSpace;
    if a == "" {
      assert a + t == t;
    } else {
      assert (a + t)[1..] == a[1..] + t;
      LeftStripped(a[1..], t);
    }
  }

  lemma {:induction false} RightStripped(t: string, b: string)
    requires Blanks(b) && t != "" && !IsSpace(t[|t| - 1])
    ensures StripRight(t + b) == t
  {
    hide IsSpace;
    if b == "" {
      assert t + b == t;
    } else {
      assert (t + b)[..|t + b| - 1] == t + b[..|b| - 1];
      RightStripped(t, b[..|b| - 1]);
    }
  }

  lemma BlanksStripped(a: string, t: string, b: string)
    requires Blanks(a) && Blanks(b) && t != "" && !IsSpace(t[0]) && !IsSpace(t[|t| - 1])
    ensures Strip(a + (t + b)) == t
  {
    LeftStripped(a, t + b);
    RightStripped(t, b);
    hide IsSpace, StripLeft, StripRight;
  }

  /** What reads as a whole number: digits, behind an optional sign and between
      any blanks. */
  lemma ParseAround(a: string, sign: string, digits: string, b: string, n: int)
    requires Blanks(a) && Blanks(b) && (sign == "" || sign == "+" || sign == "-")
    requires digits != "" && IsDigit(digits[0]) && IsDigit(digits[|digits| - 1]) && ParseDigits(digits) == Some(n)
    ensures ParseInt(a + (sign + digits + b)) == Some(if sign == "-" then -n else n)
  {
    var t := sign + digits;
    assert t[|t| - 1] == digits[|digits| - 1] && t[0] == if sign == "" then digits[0] else sign[0];
    BlanksStripped(a, t, b);
    hide ParseInt, ParseDigits, Strip, Blanks, IsSpace, IsDigit;
    SignedReads(a + (t + b), sign, digits, n);
  }

  lemma SignedReads(s: string, sign: string, digits: string, n: int)
    requires (sign == "" || sign == "+" || sign == "-") && digits != "" && IsDigit(digits[0])
    requires Strip(s) == sign + digits && ParseDigits(digits) == Some(n)
    ensures ParseInt(s) == Some(if sign == "-" then -n else n)
  {
    hide Strip, ParseDigits;
    if sign == "" {
      assert sign + digits == digits;
    } else {
      assert (sign + digits)[0] == sign[0] && (sign + digits)[1..] == digits;
    }
  }

  /** A single underscore may stand between two groups of digits. */
  lemma ParseGroups(x: string, y: string)
    requires x != "" && AllDigits(x) && AllDigits(y)
    ensures ParseDigits(x) == Some(DigitsValue(x))
    ensures y != "" ==> ParseDigits(x + "_" + y) == Some(DigitsValue(x + y))
  {
    hide WithoutUnderscores, DigitsValue;
    if y != "" {
      TwoGroups(x, y);
      Joined(x, y);
      hide IsDigit;
    }
  }

  lemma TwoGroups(x: string, y: string)
    requires x != "" && y != "" && AllDigits(x) && AllDigits(y)
    ensures var t := x + "_" + y;
            && IsDigit(t[0]) && IsDigit(t[|t| - 1]) && (forall i | 0 <= i < |t| :: IsDigit(t[i]) || t[i] == '_')
            && forall i | 0 <= i < |t| - 1 :: t[i] != '_' || t[i + 1] != '_'
  {
    var t := x + "_" + y;
    assert forall i | 0 <= i < |t| :: t[i] == if i < |x| then x[i] else if i == |x| then '_' else y[i - |x| - 1];
  }

  lemma {:induction false} Joined(x: string, y: string)
    requires AllDigits(x) && AllDigits(y)
    ensures WithoutUnderscores(x + "_" + y) == x + y
  {
    if x == "" {
      assert (x + "_" + y)[1..] == y && x + y == y;
    } else {
      assert (x + "_" + y)[1..] == x[1..] + "_" + y;
      assert x + y == [x[0]] + (x[1..] + y);
      Joined(x[1..], y);
    }
  }

  /** And what does not: anything else than a sign, digits and underscores. */
  lemma ParseRefuses(s: string, i: nat)
    requires i < |Strip(s)| && !IsDigit(Strip(s)[i]) && Strip(s)[i] != '_'
    requires i > 0 || (Strip(s)[0] != '+' && Strip(s)[0] != '-')
    ensures ParseInt(s) == None
  {
    var t := Strip(s);
    if t[0] == '+' || t[0] == '-' {
      assert t[1..][i - 1] == t[i];
    }
    hide Strip;
  }

  // ── splitting ──

  /** The pieces of `s` between separators of one character. */
  function Split(s: string, sep: char): (parts: seq<string>)
    ensures parts != []
  {
    if s == "" then [""]
    else
      var rest := Split(s[1..], sep);
      if s[0] == sep then [""] + rest else [[s[0]] + rest[0]] + rest[1..]
  }

  lemma {:induction false} SplitNoSeparator(s: string, sep: char)
    requires Free(s, sep)
    ensures Split(s, sep) == [s]
  {
    if s != "" {
      SplitNoSeparator(s[1..], sep);
      assert [s[0]] + s[1..] == s;
    }
  }

  lemma {:induction false} SplitFirst(a: string, sep: char, rest: string)
    requires Free(a, sep)
    ensures Split(a + [sep] + rest, sep) == [a] + Split(rest, sep)
  {
    var s := a + [sep] + rest;
    if a == "" {
      assert s[1..] == rest;
    } else {
      SplitFirst(a[1..], sep, rest);
      assert s[1..] == a[1..] + [sep] + rest;
      assert [a[0]] + a[1..] == a;
    }
  }

  /** Position of the first `c`, or the length when there is none. */
  function IndexOf(s: string, c: char): (i: nat)
    ensures i <= |s|
    ensures Free(s[..i], c)
    ensures i < |s| ==> s[i] == c
  {
    if s == "" || s[0] == c then 0
    else
      var j := IndexOf(s[1..], c);
      assert s[..1 + j] == [s[0]] + s[1..][..j];
      1 + j
  }

  lemma {:induction false} IndexOfFirst(a: string, c: char, rest: string)
    requires Free(a, c)
    ensures IndexOf(a + [c] + rest, c) == |a|
  {
    if a != "" {
      IndexOfFirst(a[1..], c, rest);
      assert (a + [c] + rest)[1..] == a[1..] + [c] + rest;
    }
  }

  predicate StartsWith(s: string, prefix: string) {
    |prefix| <= |s| && s[..|prefix|] == prefix
  }
}
