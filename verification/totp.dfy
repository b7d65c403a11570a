/** Time-based one-time passwords (RFC 6238) over HOTP (RFC 4226): six
    digits, thirty-second steps. HMAC-SHA1 of the eight-byte counter is a
    parameter that yields twenty bytes. */
module Totp {
  import opened PyText

  const DIGITS := 6
  const PERIOD := 30
  const MODULUS := 1_000_000
  const COUNTER_LIMIT := 0x1_0000_0000_0000_0000

  type Byte = b: int | 0 <= b < 256
  type Digest = d: seq<Byte> | |d| == 20 witness [0, 0, 0, 0, 0, 0, 0, 0, 0, 0, 0, 0, 0, 0, 0, 0, 0, 0, 0, 0]
  type Mac = (string, nat) -> Digest

  // ── one code ──

  /** Four bytes as one number, the most significant first. */
  function BigEndian(four: seq<Byte>): (n: nat)
    requires |four| == 4
    ensures n < 0x1_0000_0000
  {
    var a: int, b: int, c: int, d: int := four[0], four[1], four[2], four[3];
    a * 0x100_0000 + b * 0x1_0000 + c * 0x100 + d
  }

  /** The low four bits of the last byte say where the four code bytes start. */
  function Offset(digest: Digest): (offset: nat)
    ensures offset < 16
  {
    digest[|digest| - 1] % 16
  }

  function TruncatedCode(digest: Digest): nat {
    var offset := Offset(digest);
    BigEndian(digest[offset..offset + 4]) % 0x8000_0000
  }

  /** Unsigned text with zeros in front, up to a width. */
  function ZeroFill(text: string, width: nat): string
    decreases width - |text|
  {
    if |text| >= width then text else ZeroFill("0" + text, width)
  }

  function CodeOf(digest: Digest): string {
    ZeroFill(NatToString(TruncatedCode(digest) % MODULUS), DIGITS)
  }

  /** None where packing the counter into eight bytes raises. */
  function Hotp(mac: Mac, secret: string, counter: int): Option<string> {
    if 0 <= counter < COUNTER_LIMIT then Some(CodeOf(mac(secret, counter))) else None
  }

  function StepAt(time: real): int {
    (time / PERIOD as real).Floor
  }

  function NowCode(mac: Mac, secret: string, time: real): Option<string> {
    Hotp(mac, secret, StepAt(time))
  }

  // ── verification ──

  predicate Matches(mac: Mac, secret: string, code: string, step: int) {
    Hotp(mac, secret, step) == Some(code)
  }

  predicate MatchesWithin(mac: Mac, secret: string, code: string, from: int, to: int) {
    exists step | from <= step <= to :: Matches(mac, secret, code, step)
  }

  /** What counts as a digit of a typed code: the ten of ASCII, and whatever
      `others` says of characters beyond it. */
  predicate CountsAsDigit(others: char -> bool, c: char) {
    IsDigit(c) || (c as int >= 128 && others(c))
  }

  predicate LooksNumeric(others: char -> bool, typed: string) {
    typed != "" && forall i | 0 <= i < |typed| :: CountsAsDigit(others, typed[i])
  }

  /** The steps `from` to `last` in turn. None stands for an exception: of a
      counter out of range, or of comparing with text outside ASCII. */
  function Scan(mac: Mac, secret: string, typed: string, from: int, last: int): Option<bool>
    decreases last - from
  {
    if from > last then Some(false)
    else
      match Hotp(mac, secret, from)
      case None => None
      case Some(candidate) =>
        if !AllDigits(typed) then None
        else if candidate == typed then Some(true)
        else Scan(mac, secret, typed, from + 1, last)
  }

  function Answer(mac: Mac, others: char -> bool, secret: string, code: string, window: int, time: real): Option<bool> {
    var typed := Strip(code);
    if !LooksNumeric(others, typed) then Some(false)
    else Scan(mac, secret, typed, StepAt(time) - window, StepAt(time) + window)
  }

  lemma EmptyIsNoCode(others: char -> bool)
    ensures !LooksNumeric(others, Strip(""))
  {
  }

  method Verify(mac: Mac, others: char -> bool, secret: string, code: string, window: int, time: real)
    returns (result: Option<bool>)
    ensures result == Answer(mac, others, secret, code, window, time)
  {
    EmptyIsNoCode(others);
    hide Hotp, Strip, StepAt, LooksNumeric, AllDigits;
    var typed := Strip(code);
    if code == "" || !LooksNumeric(others, typed) {
      return Some(false);
    }
    var t := StepAt(time);
    var drift := -window;
    while drift < window + 1
      invariant drift == -window || drift <= window + 1
      invariant Scan(mac, secret, typed, t - window, t + window) == Scan(mac, secret, typed, t + drift, t + window)
      decreases window + 1 - drift
    {
      var candidate := Hotp(mac, secret, t + drift);
      if candidate.None? || !AllDigits(typed) {
        return None;
      }
      if candidate.value == typed {
        return Some(true);
      }
      drift := drift + 1;
    }
    return Some(false);
  }

  // ── guarantees ──

  /** The four code bytes lie inside the digest, at its bytes 0 to 18. */
  lemma CodeBytesInsideDigest(digest: Digest)
    ensures Offset(digest) + 4 <= 19 < |digest|
    ensures TruncatedCode(digest) < 0x8000_0000
    ensures exists sign | 0 <= sign <= 1 ::
              BigEndian(digest[Offset(digest)..Offset(digest) + 4]) == sign * 0x8000_0000 + TruncatedCode(digest)
  {
    var word := BigEndian(digest[Offset(digest)..Offset(digest) + 4]);
    var sign := word / 0x8000_0000;
    assert 0 <= sign <= 1 && word == sign * 0x8000_0000 + TruncatedCode(digest);
  }

  /** The low four bits of the last byte say where the code starts; it is the
      four bytes from there, the most significant first, but for its top bit. */
  lemma TruncationExact(digest: Digest)
    ensures var o := digest[19] as int % 16;
            var a, b, c, d := digest[o] as int, digest[o + 1] as int, digest[o + 2] as int, digest[o + 3] as int;
            TruncatedCode(digest) == a % 128 * 0x100_0000 + b * 0x1_0000 + c * 0x100 + d
  {
    var o := digest[19] as int % 16;
    var a, b, c, d := digest[o] as int, digest[o + 1] as int, digest[o + 2] as int, digest[o + 3] as int;
    assert digest[o..o + 4] == [digest[o], digest[o + 1], digest[o + 2], digest[o + 3]];
    var low := b * 0x1_0000 + c * 0x100 + d;
    assert 0 <= low < 0x100_0000;
    assert a == a / 128 * 128 + a % 128;
    assert BigEndian(digest[o..o + 4]) == a / 128 * 0x8000_0000 + (a % 128 * 0x100_0000 + low);
  }

  /** The example of section 5.4 of RFC 4226. */
  lemma PublishedExample(digest: Digest)
    requires digest == [0x1f, 0x86, 0x98, 0x69, 0x0e, 0x02, 0xca, 0x16, 0x61, 0x85,
                        0x50, 0xef, 0x7f, 0x19, 0xda, 0x8e, 0x94, 0x5b, 0x55, 0x5a]
    ensures CodeOf(digest) == "872921"
  {
    TruncationExact(digest);
    assert TruncatedCode(digest) == 1_357_872_921;
    assert NatToString(8) == "8" && NatToString(87) == "87" && NatToString(872) == "872";
    assert NatToString(8729) == "8729" && NatToString(87292) == "87292" && NatToString(872921) == "872921";
  }

  /** A code is six decimal digits that read as the truncated value modulo a
      million. */
  lemma CodeIsSixDigits(digest: Digest)
    ensures |CodeOf(digest)| == 6 && AllDigits(CodeOf(digest))
    ensures DigitsValue(CodeOf(digest)) == TruncatedCode(digest) % 1_000_000
  {
    var n := TruncatedCode(digest) % MODULUS;
    NatToStringReads(n);
    DigitCount(n, DIGITS, MODULUS);
    ZeroFillReads(NatToString(n), DIGITS);
  }

  lemma {:induction false} DigitCount(n: nat, width: nat, bound: nat)
    requires 0 < width && n < bound && bound == PowerOfTen(width)
    ensures |NatToString(n)| <= width
  {
    if n >= 10 {
      DigitCount(n / 10, width - 1, bound / 10);
    }
  }

  function PowerOfTen(k: nat): (p: nat)
    ensures p > 0
    ensures k > 0 ==> p % 10 == 0 && p / 10 == PowerOfTen(k - 1)
  {
    if k == 0 then 1 else 10 * PowerOfTen(k - 1)
  }

  lemma {:induction false} ZeroFillReads(text: string, width: nat)
    requires AllDigits(text) && |text| <= width
    ensures |ZeroFill(text, width)| == width && AllDigits(ZeroFill(text, width))
    ensures DigitsValue(ZeroFill(text, width)) == DigitsValue(text)
    decreases width - |text|
  {
    if |text| < width {
      LeadingZero(text);
      ZeroFillReads("0" + text, width);
    }
  }

  lemma {:induction false} LeadingZero(text: string)
    requires AllDigits(text)
    ensures AllDigits("0" + text) && DigitsValue("0" + text) == DigitsValue(text)
  {
    if text != "" {
      LeadingZero(text[..|text| - 1]);
      assert ("0" + text)[..|text|] == "0" + text[..|text| - 1];
    }
  }

  /** An ASCII code is accepted exactly when it is that of a step scanned
      before any counter is out of range; a missing one is refused only when
      all counters were in range. */
  lemma {:induction false} ScanExact(mac: Mac, secret: string, typed: string, from: int, last: int)
    requires AllDigits(typed)
    ensures var r := Scan(mac, secret, typed, from, last);
            && (r == Some(true) <==>
                from >= 0 && exists step | from <= step <= last :: Matches(mac, secret, typed, step))
            && (r == Some(false) <==>
                (from > last || (from >= 0 && last < COUNTER_LIMIT)) && !MatchesWithin(mac, secret, typed, from, last))
    decreases last - from
  {
    if from <= last && 0 <= from < COUNTER_LIMIT {
      ScanExact(mac, secret, typed, from + 1, last);
      assert Matches(mac, secret, typed, from) <==> Hotp(mac, secret, from).value == typed;
    }
    hide CodeOf;
  }

  /** What `Verify` answers. */
  lemma AnswerExact(mac: Mac, others: char -> bool, secret: string, code: string, window: int,
                    time: real)
    ensures var typed, step := Strip(code), StepAt(time);
            var r := Answer(mac, others, secret, code, window, time);
            var numeric := typed != "" && forall i | 0 <= i < |typed| ::
                             '0' <= typed[i] <= '9' || (typed[i] as int >= 128 && others(typed[i]));
            && (r == Some(true) <==>
                typed != "" && AllDigits(typed) && step >= window
                && MatchesWithin(mac, secret, typed, step - window, step + window))
            && (!numeric || window < 0 ==> r == Some(false))
            && (numeric && !AllDigits(typed) && window >= 0 ==> r == None)
            && (typed != "" && AllDigits(typed) && 0 <= step - window && step + window < 0x1_0000_0000_0000_0000 ==>
                  r == Some(MatchesWithin(mac, secret, typed, step - window, step + window)))
            && (numeric && window >= 0 > step - window ==> r == None)
  {
    var typed, step := Strip(code), StepAt(time);
    if AllDigits(typed) {
      ScanExact(mac, secret, typed, step - window, step + window);
      assert forall i | 0 <= i < |typed| :: CountsAsDigit(others, typed[i]);
    }
    hide Strip, StepAt, Matches, CountsAsDigit;
  }

  /** A code made at one instant is accepted at every instant within `window`
      periods of it, if and only if no counter of the window is negative. */
  lemma FreshCodeAccepted(mac: Mac, others: char -> bool, secret: string, made: real, checked: real,
                          window: nat)
    requires made - (30 * window) as real <= checked <= made + (30 * window) as real
    requires 0 <= StepAt(made) < 0x1_0000_0000_0000_0000
    ensures Answer(mac, others, secret, NowCode(mac, secret, made).value, window, checked)
         == if (checked / 30.0).Floor >= window then Some(true) else None
  {
    var code := NowCode(mac, secret, made).value;
    CodeIsSixDigits(mac(secret, StepAt(made)));
    StripNothing(code);
    assert Matches(mac, secret, code, StepAt(made));
    AnswerExact(mac, others, secret, code, window, checked);
    assert forall i | 0 <= i < |code| :: CountsAsDigit(others, code[i]);
    hide Strip, StepAt, Hotp, Answer, CountsAsDigit;
  }

  /** Nothing else is: a match is the code of an instant a whole number of
      periods, at most `window` of them, away. */
  lemma OnlyNearbyCodes(mac: Mac, secret: string, code: string, window: int, checked: real)
    requires window >= 0
    ensures MatchesWithin(mac, secret, code, StepAt(checked) - window, StepAt(checked) + window) <==>
            exists drift | -window <= drift <= window ::
              NowCode(mac, secret, checked + (30 * drift) as real) == Some(code)
  {
    forall drift: int
      ensures StepAt(checked + (30 * drift) as real) == StepAt(checked) + drift
    {
      assert (checked + (30 * drift) as real) / 30.0 == checked / 30.0 + drift as real;
    }
    if MatchesWithin(mac, secret, code, StepAt(checked) - window, StepAt(checked) + window) {
      var step :| StepAt(checked) - window <= step <= StepAt(checked) + window && Matches(mac, secret, code, step);
      var drift := step - StepAt(checked);
      assert NowCode(mac, secret, checked + (30 * drift) as real) == Some(code);
    }
    if exists drift | -window <= drift <= window ::
        NowCode(mac, secret, checked + (30 * drift) as real) == Some(code) {
      var drift :| -window <= drift <= window && NowCode(mac, secret, checked + (30 * drift) as real) == Some(code);
      assert Matches(mac, secret, code, StepAt(checked) + drift);
    }
  }
}
