/** The signature scheme both halves of the order protocol use: the header
    `t=<epoch>,n=<nonce>,v1=<mac>` over the text `<t>.<n>.<body>`, a clock
    window, and a bounded memory of the nonces already accepted.

    Bodies are `json.dumps` output, which is ASCII, so text stands for its
    bytes. The MAC is a parameter: nothing is assumed of it but that it prints
    as hexadecimal digits, except where a lemma names the collision it would
    take. */
module Signing {
  import opened Arithmetic
  import opened PyText

  const MAX_CLOCK_SKEW_SECONDS := 60
  const MAX_NONCES := 10_000

  predicate IsHex(c: char) {
    IsDigit(c) || 'a' <= c <= 'f'
  }

  predicate HexDigits(s: string) {
    s != "" && forall i | 0 <= i < |s| :: IsHex(s[i])
  }

  type HexText = s: string | HexDigits(s) witness "0"
  type Mac = (string, string) -> HexText

  /** The text that is signed. */
  function Material(ts: string, nonce: string, body: string): string {
    ts + "." + nonce + "." + body
  }

  function SignBody(mac: Mac, secret: string, body: string, now: nat, nonce: string): string {
    var ts := NatToString(now);
    "t=" + ts + ",n=" + nonce + ",v1=" + mac(secret, Material(ts, nonce, body))
  }

  // ── reading the header ──

  /** The parts that hold an equals sign, cut at the first one into key and
      value; a later key overwrites an earlier one. */
  function FieldsOf(parts: seq<string>): map<string, string> {
    if parts == [] then map[]
    else
      var last := parts[|parts| - 1];
      var cut := IndexOf(last, '=');
      var fields := FieldsOf(parts[..|parts| - 1]);
      if cut == |last| then fields else fields[last[..cut] := last[cut + 1..]]
  }

  function ParseHeader(header: string): map<string, string> {
    FieldsOf(Split(header, ','))
  }

  /** A field of the header; a missing one counts as empty. */
  function Get(fields: map<string, string>, key: string): string {
    if key in fields then fields[key] else ""
  }

  predicate WithinSkew(now: int, ts: int) {
    -MAX_CLOCK_SKEW_SECONDS <= now - ts <= MAX_CLOCK_SKEW_SECONDS
  }

  /** What the memory of nonces becomes when `nonce` is accepted. */
  function Remember(seen: set<string>, nonce: string): set<string> {
    if |seen + {nonce}| > MAX_NONCES then {nonce} else seen + {nonce}
  }

  predicate Accepts(mac: Mac, secret: string, body: string, header: string, now: int, seen: set<string>) {
    var fields := ParseHeader(header);
    var ts, nonce, sig := Get(fields, "t"), Get(fields, "n"), Get(fields, "v1");
    && ts != "" && nonce != "" && sig != ""
    && ParseInt(ts).Some?
    && WithinSkew(now, ParseInt(ts).value)
    && nonce !in seen
    && sig == mac(secret, Material(ts, nonce, body))
  }

  /** A MAC with characters outside ASCII is not compared: that raises. */
  predicate Raises(header: string, now: int, seen: set<string>) {
    var fields := ParseHeader(header);
    var ts, nonce, sig := Get(fields, "t"), Get(fields, "n"), Get(fields, "v1");
    && ts != "" && nonce != "" && !Ascii(sig)
    && ParseInt(ts).Some?
    && WithinSkew(now, ParseInt(ts).value)
    && nonce !in seen
  }

  datatype Verdict = Accepted | Refused | Raised

  function Judged(mac: Mac, secret: string, body: string, header: string, now: int, seen: set<string>): Verdict {
    if Accepts(mac, secret, body, header, now, seen) then Accepted
    else if Raises(header, now, seen) then Raised
    else Refused
  }

  function NonceOf(header: string): string {
    Get(ParseHeader(header), "n")
  }

  lemma EmptyHeaderParses()
    ensures ParseHeader("") == map[]
  {
    assert Split("", ',') == [""];
    assert FieldsOf([""]) == map[];
  }

  lemma HexIsAscii(s: string)
    requires HexDigits(s)
    ensures Ascii(s) && Free(s, ',')
  {
  }

  /** One process's `seen_nonces`: the set the server keeps for agents'
      results, and the one each agent keeps for the server's answers. */
  class NonceMemory {
    var seen: set<string>

    constructor ()
      ensures seen == {}
    {
      seen := {};
    }

    method VerifyBody(mac: Mac, secret: string, body: string, header: string, now: int) returns (verdict: Verdict)
      requires |seen| <= MAX_NONCES
      modifies this
      ensures verdict.Accepted? <==> Accepts(mac, secret, body, header, now, old(seen))
      ensures verdict.Raised? <==> Raises(header, now, old(seen))
      ensures seen == if verdict.Accepted? then Remember(old(seen), NonceOf(header)) else old(seen)
      ensures |seen| <= MAX_NONCES
    {
      EmptyHeaderParses();
      assert Ascii("");
      hide ParseHeader, ParseInt, Ascii, Material;
      if header == "" {
        return Refused;
      }
      var parts := ParseHeader(header);
      var ts, nonce, sig := Get(parts, "t"), Get(parts, "n"), Get(parts, "v1");
      if !(ts != "" && nonce != "" && sig != "") {
        return Refused;
      }
      var tsInt := ParseInt(ts);
      if tsInt.None? {
        return Refused;
      }
      var skew := now - tsInt.value;
      if (if skew < 0 then -skew else skew) > MAX_CLOCK_SKEW_SECONDS {
        return Refused;
      }
      if nonce in seen {
        return Refused;
      }
      var expected := mac(secret, Material(ts, nonce, body));
      HexIsAscii(expected);
      if !Ascii(sig) {
        return Raised;
      }
      if expected != sig {
        return Refused;
      }
      assert Accepts(mac, secret, body, header, now, seen) && !Raises(header, now, seen);
      hide Accepts, Raises, Get;
      seen := seen + {nonce};
      if |seen| > MAX_NONCES {
        seen := {};
        seen := seen + {nonce};
      }
      return Accepted;
    }
  }

  // ── what the scheme guarantees ──

  predicate PlainField(s: string) {
    s != "" && Free(s, ',') && Free(s, '.')
  }

  /** A printed header splits into exactly its three fields. */
  lemma HeaderRoundTrip(ts: string, nonce: string, sig: string)
    requires Free(ts, ',') && Free(nonce, ',') && Free(sig, ',')
    ensures ParseHeader("t=" + ts + ",n=" + nonce + ",v1=" + sig)
         == map["t" := ts, "n" := nonce, "v1" := sig]
  {
    var a, b, c := "t=" + ts, "n=" + nonce, "v1=" + sig;
    var header := "t=" + ts + ",n=" + nonce + ",v1=" + sig;
    assert header == a + [','] + (b + [','] + c);
    SplitFirst(a, ',', b + [','] + c);
    SplitFirst(b, ',', c);
    SplitNoSeparator(c, ',');
    assert Split(header, ',') == [a, b, c];
    FieldsOfThree(ts, nonce, sig);
  }

  lemma FieldsOfThree(ts: string, nonce: string, sig: string)
    ensures FieldsOf(["t=" + ts, "n=" + nonce, "v1=" + sig])
         == map["t" := ts, "n" := nonce, "v1" := sig]
  {
    var a, b, c := "t" + "=" + ts, "n" + "=" + nonce, "v1" + "=" + sig;
    FieldsStep([], "t", ts);
    FieldsStep([a], "n", nonce);
    FieldsStep([a, b], "v1", sig);
    assert [] + [a] == [a] && [a] + [b] == [a, b] && [a, b] + [c] == [a, b, c];
    assert a == "t=" + ts && b == "n=" + nonce && c == "v1=" + sig;
  }

  lemma FieldsStep(parts: seq<string>, key: string, value: string)
    requires Free(key, '=')
    ensures FieldsOf(parts + [key + "=" + value]) == FieldsOf(parts)[key := value]
  {
    FieldCut(key, value);
    assert (parts + [key + "=" + value])[..|parts|] == parts;
  }

  lemma FieldCut(key: string, value: string)
    requires Free(key, '=')
    ensures IndexOf(key + "=" + value, '=') == |key|
    ensures (key + "=" + value)[..|key|] == key
    ensures (key + "=" + value)[|key| + 1..] == value
  {
    assert key + "=" + value == key + ['='] + value;
    IndexOfFirst(key, '=', value);
  }

  /** The header `SignBody` prints is accepted, by whoever holds the same
      secret, exactly while the clock is within a minute of its timestamp
      and its nonce is not remembered. */
  lemma SignedHeaderAccepted(mac: Mac, secret: string, body: string, signedAt: nat, nonce: string,
                             now: int, seen: set<string>)
    requires nonce != "" && Free(nonce, ',')
    ensures var ts, header := NatToString(signedAt), SignBody(mac, secret, body, signedAt, nonce);
            && header == "t=" + ts + ",n=" + nonce + ",v1=" + mac(secret, ts + "." + nonce + "." + body)
            && NonceOf(header) == nonce
            && (Accepts(mac, secret, body, header, now, seen) <==> -60 <= now - signedAt <= 60 && nonce !in seen)
  {
    var ts := NatToString(signedAt);
    NatToStringReads(signedAt);
    ParsePrintedNat(signedAt);
    HexIsAscii(mac(secret, Material(ts, nonce, body)));
    HeaderRoundTrip(ts, nonce, mac(secret, Material(ts, nonce, body)));
  }

  /** A header that passes every other test, but whose MAC has characters outside
      ASCII, makes the comparison raise. */
  lemma ForeignMacRaises(mac: Mac, secret: string, body: string, signedAt: nat, nonce: string, sig: string,
                         now: int, seen: set<string>)
    requires nonce != "" && Free(nonce, ',') && Free(sig, ',') && exists i | 0 <= i < |sig| :: sig[i] as int >= 128
    ensures Judged(mac, secret, body, "t=" + NatToString(signedAt) + ",n=" + nonce + ",v1=" + sig, now, seen)
         == if -60 <= now - signedAt <= 60 && nonce !in seen then Raised else Refused
  {
    var ts := NatToString(signedAt);
    NatToStringReads(signedAt);
    ParsePrintedNat(signedAt);
    HexIsAscii(mac(secret, Material(ts, nonce, body)));
    HeaderRoundTrip(ts, nonce, sig);
    hide ParseHeader, ParseInt, HexDigits;
  }

  /** Whatever was remembered, a nonce just accepted is refused on the very
      next call, even when that acceptance emptied the memory. */
  lemma RefusedOnNextCall(mac: Mac, secret: string, body: string, header: string,
                          first: int, second: int, seen: set<string>)
    requires Accepts(mac, secret, body, header, first, seen)
    ensures !Accepts(mac, secret, body, header, second, Remember(seen, NonceOf(header)))
  {
  }

  /** The signed text determines its three parts. */
  lemma MaterialInjective(t1: string, n1: string, b1: string, t2: string, n2: string, b2: string)
    requires Free(t1, '.') && Free(n1, '.') && Free(t2, '.') && Free(n2, '.')
    requires Material(t1, n1, b1) == Material(t2, n2, b2)
    ensures t1 == t2 && n1 == n2 && b1 == b2
  {
    assert Material(t1, n1, b1) == t1 + "." + (n1 + "." + b1);
    assert Material(t2, n2, b2) == t2 + "." + (n2 + "." + b2);
    CutAtDot(t1, n1 + "." + b1, t2, n2 + "." + b2);
    CutAtDot(n1, b1, n2, b2);
  }

  lemma CutAtDot(a1: string, r1: string, a2: string, r2: string)
    requires Free(a1, '.') && Free(a2, '.')
    requires a1 + "." + r1 == a2 + "." + r2
    ensures a1 == a2 && r1 == r2
  {
    IndexOfFirst(a1, '.', r1);
    IndexOfFirst(a2, '.', r2);
    var whole := a1 + "." + r1;
    assert whole == a1 + ['.'] + r1 == a2 + ['.'] + r2;
    assert a1 == whole[..|a1|] && a2 == whole[..|a2|];
    assert r1 == whole[|a1| + 1..] && r2 == whole[|a2| + 1..];
  }

  /** An accepted header that was signed for one body vouches for no other:
      accepting it with a different body takes two different texts with the
      same MAC. */
  lemma TamperedBodyNeedsCollision(mac: Mac, secret: string, body: string, other: string, signedAt: nat,
                                   nonce: string, now: int, seen: set<string>)
    requires PlainField(nonce)
    requires other != body
    requires Accepts(mac, secret, other, SignBody(mac, secret, body, signedAt, nonce), now, seen)
    ensures exists x: string, y: string :: x != y && mac(secret, x) == mac(secret, y)
  {
    var ts := NatToString(signedAt);
    NatToStringReads(signedAt);
    HexIsAscii(mac(secret, Material(ts, nonce, body)));
    HeaderRoundTrip(ts, nonce, mac(secret, Material(ts, nonce, body)));
    var x, y := Material(ts, nonce, body), Material(ts, nonce, other);
    if x == y {
      MaterialInjective(ts, nonce, body, ts, nonce, other);
    }
    assert x != y && mac(secret, x) == mac(secret, y);
  }

  // ── how long a nonce stays remembered ──

  /** The memory after a run of acceptances. */
  function Memory(accepted: seq<string>): set<string> {
    if accepted == [] then {}
    else Remember(Memory(accepted[..|accepted| - 1]), accepted[|accepted| - 1])
  }

  /** A run the verifier can produce: each nonce was unseen when accepted. */
  predicate Acceptable(accepted: seq<string>) {
    accepted == [] ||
    (Acceptable(accepted[..|accepted| - 1])
     && accepted[|accepted| - 1] !in Memory(accepted[..|accepted| - 1]))
  }

  /** Where the current memory begins: the acceptance that would make it
      hold more than 10,000 nonces starts a new one. */
  function EpochStart(count: nat): (start: nat)
    ensures start <= count <= start + MAX_NONCES
    ensures count > 0 ==> start < count
  {
    if count == 0 then 0
    else if count - 1 - EpochStart(count - 1) == MAX_NONCES then count - 1
    else EpochStart(count - 1)
  }

  /** The acceptances since the memory was last emptied. */
  function CurrentEpoch(accepted: seq<string>): seq<string> {
    accepted[EpochStart(|accepted|)..]
  }

  predicate Distinct(s: seq<string>) {
    forall i, j | 0 <= i < j < |s| :: s[i] != s[j]
  }

  function Elements(s: seq<string>): (r: set<string>)
    ensures forall x :: x in r <==> x in s
  {
    set x | x in s
  }

  /** The memory is exactly the nonces accepted in the current epoch, which
      are pairwise different. */
  lemma {:induction false} MemoryIsEpoch(accepted: seq<string>)
    requires Acceptable(accepted)
    ensures Memory(accepted) == Elements(CurrentEpoch(accepted))
    ensures |Memory(accepted)| == |CurrentEpoch(accepted)|
    ensures Distinct(CurrentEpoch(accepted))
  {
    hide CurrentEpoch, Elements;
    if accepted == [] {
      EmptyEpoch();
    } else {
      var before, last := accepted[..|accepted| - 1], accepted[|accepted| - 1];
      assert accepted == before + [last];
      MemoryIsEpoch(before);
      EpochAppend(before, last);
      assert Memory(accepted) == Remember(Memory(before), last) && last !in Memory(before);
      hide Memory, Acceptable, Remember, Distinct;
      RememberEpoch(CurrentEpoch(before), last);
    }
  }

  lemma RememberEpoch(epoch: seq<string>, last: string)
    requires |Elements(epoch)| == |epoch| <= MAX_NONCES && last !in Elements(epoch) && Distinct(epoch)
    ensures var after := if |epoch| == MAX_NONCES then [last] else epoch + [last];
            Remember(Elements(epoch), last) == Elements(after) && |Elements(after)| == |after| && Distinct(after)
  {
    ElementsAppend(epoch, last);
    ElementsAppend([], last);
    assert [] + [last] == [last];
    assert |Elements(epoch) + {last}| == |epoch| + 1;
    hide Elements;
  }

  lemma EmptyEpoch()
    ensures CurrentEpoch([]) == [] && Elements([]) == {}
  {
  }

  lemma EpochAppend(before: seq<string>, last: string)
    ensures |CurrentEpoch(before)| <= MAX_NONCES
    ensures CurrentEpoch(before + [last])
         == if |CurrentEpoch(before)| == MAX_NONCES then [last] else CurrentEpoch(before) + [last]
  {
    var n := |before|;
    assert EpochStart(n + 1) == if n - EpochStart(n) == MAX_NONCES then n else EpochStart(n);
  }

  lemma ElementsAppend(s: seq<string>, last: string)
    ensures Elements(s + [last]) == Elements(s) + {last}
  {
  }

  /** Acceptances 1 to 10,000 share one memory, 10,001 to 20,000 the next,
      and so on. */
  lemma {:induction false} EpochsAreBlocks(count: nat)
    requires count > 0
    ensures EpochStart(count) == (count - 1) / 10_000 * 10_000
  {
    if count > 1 {
      EpochsAreBlocks(count - 1);
      BlockStep(count - 2, MAX_NONCES);
    }
  }

  lemma BlockStep(m: nat, block: nat)
    requires block > 0
    ensures (m + 1) / block * block == if m - m / block * block == block - 1 then m + 1 else m / block * block
  {
    var q, r := m / block, m % block;
    assert m == block * q + r;
    if r == block - 1 {
      QuotientIs(m + 1, block, q + 1, 0);
    } else {
      QuotientIs(m + 1, block, q, r + 1);
    }
  }

  /** Exactly the nonces accepted in the current epoch are refused: a nonce
      accepted in an earlier one would be accepted again. */
  lemma RefusedIffInCurrentEpoch(accepted: seq<string>, nonce: string)
    requires Acceptable(accepted)
    ensures Acceptable(accepted + [nonce]) <==> nonce !in CurrentEpoch(accepted)
  {
    MemoryIsEpoch(accepted);
    assert (accepted + [nonce])[..|accepted|] == accepted;
  }

  lemma {:induction false} FirstEpoch(count: nat)
    requires count <= MAX_NONCES
    ensures EpochStart(count) == 0
  {
    if count > 0 {
      FirstEpoch(count - 1);
    }
  }

  /** Up to 10,000 acceptances, no nonce is ever accepted twice. */
  lemma NoRepeatWithinFirstEpoch(accepted: seq<string>)
    requires Acceptable(accepted) && |accepted| <= 10_000
    ensures Distinct(accepted)
  {
    MemoryIsEpoch(accepted);
    FirstEpoch(|accepted|);
    assert CurrentEpoch(accepted) == accepted;
  }

  /** Why the bound is needed: with the memory full, one more acceptance
      makes every nonce it held acceptable again. */
  lemma FullMemoryForgets(seen: set<string>, held: string, next: string)
    requires |seen| == 10_000 && held in seen && next !in seen
    ensures held !in Remember(seen, next)
  {
    assert |seen + {next}| == MAX_NONCES + 1;
  }
}
