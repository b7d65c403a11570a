/** Keeping credentials out of the access log: the value of every sensitive
    query parameter is replaced, leftmost first and as long as it reaches. */
module LogRedaction {
  import opened PyText

  const MARK: string := "[REDACTED]"

  // ── the pattern ──

  /** Case-insensitive equality with a lower-case letter or a sign, as the
      regular-expression engine has it: Unicode folds further characters into
      `s`, `k` and `i`. */
  predicate Folds(c: char, lower: char) {
    || c == lower
    || ('a' <= lower <= 'z' && c as int == lower as int - 32)
    || (lower == 's' && c == '\U{017F}')
    || (lower == 'k' && c == '\U{212A}')
    || (lower == 'i' && (c == '\U{0130}' || c == '\U{0131}'))
  }

  predicate FoldsAll(s: string, word: string) {
    |s| == |word| && forall i | 0 <= i < |s| :: Folds(s[i], word[i])
  }

  const KEYS: seq<string> :=
    ["token=", "access_token=", "apikey=", "api_key=", "api-key=", "password=", "secret="]

  predicate IsKey(s: string) {
    exists k | 0 <= k < |KEYS| :: FoldsAll(s, KEYS[k])
  }

  predicate Opens(c: char) {
    c == '?' || c == '&'
  }

  /** What a value may consist of. */
  predicate ValueChar(c: char) {
    c != '&' && c != '"' && c != '\'' && !IsSpace(c)
  }

  /** Length of the sensitive key `s` starts with, opener and `=` included;
      zero when it starts with none. */
  function KeyLength(s: string): (n: nat)
    ensures n <= |s|
    ensures n > 0 ==> n > 1 && Opens(s[0]) && IsKey(s[1..n])
  {
    if s == "" || !Opens(s[0]) then 0 else LongestKey(s[1..], |KEYS|)
  }

  /** One plus the length of the key among the last `k` that `s` starts with. */
  function LongestKey(s: string, k: nat): (n: nat)
    requires k <= |KEYS|
    ensures n <= |s| + 1
    ensures n > 0 ==> n > 1 && IsKey(s[..n - 1])
  {
    if k == 0 then 0
    else
      var key := KEYS[|KEYS| - k];
      if |key| <= |s| && FoldsAll(s[..|key|], key) then |key| + 1 else LongestKey(s, k - 1)
  }

  /** How far a value reaches: the greedy run of value characters. */
  function ValueLength(s: string): (n: nat)
    ensures n <= |s|
    ensures forall i | 0 <= i < n :: ValueChar(s[i])
    ensures n < |s| ==> !ValueChar(s[n])
  {
    if s == "" || !ValueChar(s[0]) then 0 else 1 + ValueLength(s[1..])
  }

  /** `s` starts with a sensitive parameter that has a value. */
  predicate Matches(s: string) {
    KeyLength(s) > 0 && ValueLength(s[KeyLength(s)..]) > 0
  }

  function MatchEnd(s: string): (end: nat)
    requires Matches(s)
    ensures KeyLength(s) < end <= |s|
  {
    KeyLength(s) + ValueLength(s[KeyLength(s)..])
  }

  /** Every sensitive value replaced by the mark, from left to right. */
  function Scrub(s: string): string {
    if s == "" then ""
    else if Matches(s) then s[..KeyLength(s)] + MARK + Scrub(s[MatchEnd(s)..])
    else [s[0]] + Scrub(s[1..])
  }

  // ── log records ──

  datatype Arg = Text(text: string) | Other(id: int)
  datatype Args = Tuple(items: seq<Arg>) | Dict(entries: map<string, Arg>) | NoArgs

  function ScrubArg(a: Arg): Arg {
    match a
    case Text(t) => Text(Scrub(t))
    case Other(_) => a
  }

  function ScrubArgs(args: Args): Args {
    match args
    case Tuple(items) => Tuple(seq(|items|, i requires 0 <= i < |items| => ScrubArg(items[i])))
    case Dict(entries) => Dict(map key | key in entries :: ScrubArg(entries[key]))
    case NoArgs => args
  }

  /** What is text is scrubbed, whatever else a record carries stays. */
  predicate Scrubbed(before: Arg, after: Arg) {
    if before.Text? then after.Text? && after.text == Scrub(before.text) else after == before
  }

  class LogRecord {
    var msg: Arg
    var args: Args

    constructor (msg: Arg, args: Args)
      ensures this.msg == msg && this.args == args
    {
      this.msg, this.args := msg, args;
    }

    /** The logging filter: rewrites the record and always lets it pass. */
    method Filter() returns (pass: bool)
      modifies this
      ensures pass
      ensures msg == ScrubArg(old(msg)) && args == ScrubArgs(old(args))
      ensures Scrubbed(old(msg), msg)
      ensures old(args).Tuple? ==>
                && args.Tuple? && |args.items| == |old(args).items|
                && forall i | 0 <= i < |args.items| :: Scrubbed(old(args).items[i], args.items[i])
      ensures old(args).Dict? ==>
                && args.Dict? && args.entries.Keys == old(args).entries.Keys
                && forall key | key in args.entries :: Scrubbed(old(args).entries[key], args.entries[key])
      ensures old(args).NoArgs? ==> args.NoArgs?
    {
      if msg.Text? {
        msg := Text(Scrub(msg.text));
      }
      if args.Tuple? {
        var items: seq<Arg> := [];
        for i := 0 to |args.items|
          invariant args == old(args)
          invariant items == ScrubArgs(Tuple(args.items[..i])).items
        {
          items := items + [if args.items[i].Text? then Text(Scrub(args.items[i].text)) else args.items[i]];
        }
        assert args.items[..|args.items|] == args.items;
        args := Tuple(items);
      } else if args.Dict? {
        args := Dict(map key | key in args.entries ::
          if args.entries[key].Text? then Text(Scrub(args.entries[key].text)) else args.entries[key]);
      }
      pass := true;
    }
  }

  // ── keys ──

  predicate NoOpener(s: string) {
    forall i | 0 <= i < |s| :: !Opens(s[i])
  }

  /** `s` starts with an opener and a key of `n - 1` characters. */
  predicate KeyAt(s: string, n: nat) {
    1 < n <= |s| && Opens(s[0]) && IsKey(s[1..n])
  }

  /** What the words of the pattern look like. */
  predicate KeyWord(w: string) {
    && |w| > 0 && w[|w| - 1] == '='
    && forall i | 0 <= i < |w| - 1 :: w[i] == '_' || w[i] == '-' || 'a' <= w[i] <= 'z'
  }

  lemma AllKeyWords(k: nat)
    requires k < |KEYS|
    ensures KeyWord(KEYS[k])
  {
    assert KeyWord("token=") && KeyWord("access_token=") && KeyWord("apikey=");
    assert KeyWord("api_key=") && KeyWord("api-key=") && KeyWord("password=") && KeyWord("secret=");
    hide KeyWord;
  }

  lemma FoldedShape(s: string, w: string, i: nat)
    requires KeyWord(w) && FoldsAll(s, w) && i < |s|
    ensures s[i] == '=' <==> i == |s| - 1
    ensures !Opens(s[i]) && ValueChar(s[i])
  {
    assert Folds(s[i], w[i]);
  }

  /** A key ends at its only `=` and contains no opener. */
  lemma KeyShape(s: string, n: nat, i: nat)
    requires KeyAt(s, n) && 0 < i < n
    ensures s[i] == '=' <==> i == n - 1
    ensures !Opens(s[i]) && ValueChar(s[i])
  {
    var k :| 0 <= k < |KEYS| && FoldsAll(s[1..n], KEYS[k]);
    AllKeyWords(k);
    var word := KEYS[k];
    hide *;
    FoldedShape(s[1..n], word, i - 1);
  }

  lemma {:induction false} LongestKeyFinds(s: string, k: nat, j: nat)
    requires k <= |KEYS| && |KEYS| - k <= j < |KEYS|
    requires |KEYS[j]| <= |s| && FoldsAll(s[..|KEYS[j]|], KEYS[j])
    ensures LongestKey(s, k) > 0
  {
    if j > |KEYS| - k {
      LongestKeyFinds(s, k - 1, j);
    }
  }

  /** A text starts with at most one key, and `KeyLength` finds it. */
  lemma KeyLengthExact(s: string, n: nat)
    ensures KeyAt(s, n) <==> n > 0 && KeyLength(s) == n
  {
    if KeyAt(s, n) {
      var k :| 0 <= k < |KEYS| && FoldsAll(s[1..n], KEYS[k]);
      assert s[1..][..|KEYS[k]|] == s[1..n];
      LongestKeyFinds(s[1..], |KEYS|, k);
      var m := KeyLength(s);
      assert KeyAt(s, m);
      KeyShape(s, n, if m < n then m - 1 else n - 1);
      KeyShape(s, m, if n < m then n - 1 else m - 1);
    }
  }

  lemma KeyLengthLocal(s: string, t: string, n: nat)
    requires n > 0 && KeyLength(s) == n && n <= |t| && s[..n] == t[..n]
    ensures KeyLength(t) == n
  {
    KeyLengthExact(s, n);
    KeyLengthExact(t, n);
    assert s[1..n] == s[..n][1..] == t[..n][1..] == t[1..n];
    assert s[0] == s[..n][0] == t[..n][0] == t[0];
  }

  lemma ValueLengthIs(s: string, n: nat)
    requires n <= |s| && (forall i | 0 <= i < n :: ValueChar(s[i])) && (n < |s| ==> !ValueChar(s[n]))
    ensures ValueLength(s) == n
  {
    assert forall i | 0 <= i < n :: ValueChar(s[i]);
  }

  /** The seven sensitive parameters, and no others. */
  predicate Sensitive(name: string) {
    || name == "token" || name == "access_token" || name == "apikey" || name == "api_key" || name == "api-key"
    || name == "password" || name == "secret"
  }

  /** A letter in either case, or what Unicode folds into it, or the same sign. */
  predicate Spells(c: char, lower: char) {
    || c == lower || ('a' <= lower <= 'z' && c as int == lower as int - 32)
    || (lower == 's' && c == '\U{017F}') || (lower == 'k' && c == '\U{212A}')
    || (lower == 'i' && (c == '\U{0130}' || c == '\U{0131}'))
  }

  lemma SensitiveIsKey(name: string)
    requires Sensitive(name)
    ensures exists k | 0 <= k < |KEYS| :: KEYS[k] == name + "="
  {
    assert KEYS[0] == "token" + "=" && KEYS[1] == "access_token" + "=" && KEYS[2] == "apikey" + "=";
    assert KEYS[3] == "api_key" + "=" && KEYS[4] == "api-key" + "=" && KEYS[5] == "password" + "=";
    assert KEYS[6] == "secret" + "=";
  }

  /** Where the scrubber finds a key, there is one of these names and an equals
      sign, capitals and their foldings aside. */
  lemma KeysAreSensitive(s: string, n: nat)
    requires KeyAt(s, n)
    ensures exists name :: Sensitive(name) && FoldsAll(s[1..n], name + "=")
  {
    assert KEYS[0] == "token" + "=" && KEYS[1] == "access_token" + "=" && KEYS[2] == "apikey" + "=";
    assert KEYS[3] == "api_key" + "=" && KEYS[4] == "api-key" + "=" && KEYS[5] == "password" + "=";
    assert KEYS[6] == "secret" + "=";
    assert Sensitive("token") && Sensitive("access_token") && Sensitive("apikey") && Sensitive("api_key");
    assert Sensitive("api-key") && Sensitive("password") && Sensitive("secret");
    hide FoldsAll, Sensitive;
  }

  /** A query parameter of one of these names, however its letters are cased, with
      a value: what stands between the equals sign and the next ampersand, quote
      or blank is replaced, and nothing else. */
  lemma ParameterRedacted(opener: char, key: string, name: string, value: string, rest: string)
    requires (opener == '?' || opener == '&') && Sensitive(name) && |key| == |name|
    requires forall i | 0 <= i < |key| :: Spells(key[i], name[i])
    requires value != "" && forall i | 0 <= i < |value| ::
               value[i] != '&' && value[i] != '"' && value[i] != '\'' && !IsSpace(value[i])
    requires rest == "" || rest[0] == '&' || rest[0] == '"' || rest[0] == '\'' || IsSpace(rest[0])
    ensures Scrub([opener] + key + "=" + value + rest) == [opener] + key + "=" + "[REDACTED]" + Scrub(rest)
  {
    var front, tail := [opener] + key + "=", value + rest;
    ParameterIsKey(opener, key, name, tail);
    KeyLengthExact(front + tail, |front|);
    ValueLengthIs(tail, |value|);
    hide KeyLength, ValueLength, KeyAt, ValueChar, IsSpace, Sensitive;
    Slices(front, value, rest);
    MatchAt(front + tail, |front|, |value|);
    hide Matches, MatchEnd;
    ScrubReplaces(front + tail);
  }

  lemma Slices(front: string, value: string, rest: string)
    ensures var s := front + (value + rest);
            s == front + value + rest && s[..|front|] == front && s[|front|..] == value + rest
    ensures (front + (value + rest))[|front| + |value|..] == rest
  {
  }

  lemma MatchAt(s: string, k: nat, m: nat)
    requires 0 < k <= |s| && KeyLength(s) == k && 0 < m <= |s| - k && ValueLength(s[k..]) == m
    ensures Matches(s) && MatchEnd(s) == k + m
  {
    hide KeyLength, ValueLength;
  }

  lemma ParameterIsKey(opener: char, key: string, name: string, rest: string)
    requires (opener == '?' || opener == '&') && Sensitive(name) && |key| == |name|
    requires forall i | 0 <= i < |key| :: Spells(key[i], name[i])
    ensures KeyAt([opener] + key + "=" + rest, |key| + 2)
  {
    var s, word := [opener] + key + "=" + rest, name + "=";
    SensitiveIsKey(name);
    var k :| 0 <= k < |KEYS| && KEYS[k] == word;
    assert s[1..|key| + 2] == key + "=";
    assert FoldsAll(key + "=", KEYS[k]);
  }

  // ── the output, read as an input ──

  lemma KeyHasNoOpener(s: string, n: nat)
    requires KeyAt(s, n)
    ensures NoOpener(s[1..n])
  {
    forall i | 0 <= i < n - 1
      ensures !Opens(s[1..n][i])
    {
      KeyShape(s, n, i + 1);
    }
  }

  lemma ScrubReplaces(s: string)
    requires Matches(s)
    ensures Scrub(s) == s[..KeyLength(s)] + "[REDACTED]" + Scrub(s[MatchEnd(s)..])
  {
    hide KeyLength, ValueLength, MatchEnd;
  }

  lemma ScrubCopies(s: string)
    requires s != "" && !Matches(s)
    ensures Scrub(s) == [s[0]] + Scrub(s[1..])
  {
    hide KeyLength, ValueLength;
  }

  lemma {:induction false} PlainPrefix(s: string, n: nat)
    requires n <= |s| && NoOpener(s[..n])
    ensures Scrub(s) == s[..n] + Scrub(s[n..])
  {
    hide KeyLength, ValueLength, ValueChar, IsKey;
    if n > 0 {
      assert !Opens(s[..n][0]);
      assert s[1..][..n - 1] == s[..n][1..];
      PlainPrefix(s[1..], n - 1);
      assert s[1..][n - 1..] == s[n..];
    } else {
      assert s[0..] == s;
    }
  }

  lemma {:induction false} PlainPrefixBack(s: string, n: nat)
    requires n <= |Scrub(s)| && NoOpener(Scrub(s)[..n])
    ensures n <= |s| && s[..n] == Scrub(s)[..n]
  {
    hide KeyLength, ValueLength, ValueChar, IsKey;
    if n > 0 {
      FirstCharKept(s);
      assert !Opens(Scrub(s)[..n][0]);
      assert !Matches(s);
      ScrubCopies(s);
      hide Scrub, Matches;
      assert Scrub(s)[..n][1..] == Scrub(s[1..])[..n - 1];
      PlainPrefixBack(s[1..], n - 1);
    }
  }

  lemma FirstCharKept(s: string)
    ensures Scrub(s) == "" <==> s == ""
    ensures s != "" ==> Scrub(s)[0] == s[0]
  {
    hide KeyLength, ValueLength;
  }

  lemma MarkIsValue()
    ensures |MARK| == 10 && NoOpener(MARK) && forall i | 0 <= i < |MARK| :: ValueChar(MARK[i])
  {
  }

  /** Where the input starts with a parameter to redact, the output starts
      with the same parameter and the mark as its whole value. */
  lemma HeadRedacted(s: string)
    requires Matches(s)
    ensures var k, out := KeyLength(s), Scrub(s);
            && KeyLength(out) == k && ValueLength(out[k..]) == |MARK|
            && out[..k] == s[..k] && out[k..k + |MARK|] == MARK
            && out[k + |MARK|..] == Scrub(s[MatchEnd(s)..])
  {
    hide KeyLength, ValueLength, ValueChar, IsKey;
    var k := KeyLength(s);
    var rest, out := s[MatchEnd(s)..], Scrub(s);
    ScrubReplaces(s);
    FirstCharKept(rest);
    hide Scrub, MatchEnd;
    assert out[..k] == s[..k];
    KeyLengthLocal(s, out, k);
    MarkIsValue();
    assert out[k..] == MARK + Scrub(rest);
    ValueLengthIs(out[k..], |MARK|);
  }

  /** Elsewhere the output starts with nothing to redact either. */
  lemma HeadCopied(s: string)
    requires s != "" && !Matches(s)
    ensures var out := Scrub(s);
            && out == [s[0]] + Scrub(s[1..])
            && !Matches(out)
  {
    ScrubCopies(s);
    hide KeyLength, ValueLength, ValueChar, IsKey, Scrub, NoOpener;
    var out := Scrub(s);
    var n := KeyLength(out);
    if n > 0 {
      KeyLengthExact(out, n);
      KeyHasNoOpener(out, n);
      assert Scrub(s[1..])[..n - 1] == out[1..n];
      CopiedKey(s, n);
    }
  }

  lemma CopiedKey(s: string, n: nat)
    requires s != "" && !Matches(s)
    requires Scrub(s) == [s[0]] + Scrub(s[1..])
    requires 0 < n && KeyLength(Scrub(s)) == n && NoOpener(Scrub(s[1..])[..n - 1])
    ensures ValueLength(Scrub(s)[n..]) == 0
  {
    hide KeyLength, ValueLength, ValueChar, IsKey, Scrub;
    var out := Scrub(s);
    PlainPrefixBack(s[1..], n - 1);
    CopiedPrefix(s, out, n);
    KeyLengthLocal(out, s, n);
    assert ValueLength(s[n..]) == 0;
    FirstCharKept(s[n..]);
  }

  lemma CopiedPrefix(s: string, out: string, n: nat)
    requires s != "" && 0 < n <= |s|
    requires out == [s[0]] + Scrub(s[1..])
    requires NoOpener(s[1..][..n - 1])
    ensures n <= |out| && s[..n] == out[..n] && out[n..] == Scrub(s[n..])
  {
    hide Scrub;
    PlainPrefix(s[1..], n - 1);
    assert s[1..][n - 1..] == s[n..];
    assert out == [s[0]] + s[1..][..n - 1] + Scrub(s[n..]);
    assert s[..n] == [s[0]] + s[1..][..n - 1];
  }

  // ── guarantees ──

  /** Scrubbing twice is scrubbing once. */
  lemma {:induction false} ScrubIdempotent(s: string)
    ensures Scrub(Scrub(s)) == Scrub(s)
  {
    if s != "" {
      var out := Scrub(s);
      if Matches(s) {
        var k := KeyLength(s);
        HeadRedacted(s);
        ScrubIdempotent(s[MatchEnd(s)..]);
        assert out == out[..k] + MARK + out[k + |MARK|..];
      } else {
        HeadCopied(s);
        ScrubIdempotent(s[1..]);
        assert out[1..] == Scrub(s[1..]);
      }
    }
  }

  lemma ScrubEmpty()
    ensures Scrub("") == ""
  {
  }

  /** Nothing sensitive survives: after any key, anywhere in the output, the
      value is empty or exactly the mark. */
  lemma {:induction false} ScrubComplete(s: string, i: nat)
    requires i < |Scrub(s)| && KeyLength(Scrub(s)[i..]) > 0
    ensures var tail := Scrub(s)[i..];
            var value := tail[KeyLength(tail)..][..ValueLength(tail[KeyLength(tail)..])];
            value == "" || value == MARK
  {
    hide KeyLength, ValueLength, ValueChar, IsKey, KeyAt, Scrub;
    ScrubEmpty();
    var out := Scrub(s);
    if Matches(s) {
      var k := KeyLength(s);
      HeadRedacted(s);
      MarkIsValue();
      KeyLengthExact(out, k);
      KeyHasNoOpener(out, k);
      assert forall m | 0 < m < k :: out[m] == out[1..k][m - 1];
      assert forall m | k <= m < k + |MARK| :: out[m] == out[k..k + |MARK|][m - k];
      assert Opens(out[i..][0]);
      if i == 0 {
        assert out[0..] == out;
      } else {
        assert out[i..] == out[k + |MARK|..][i - k - |MARK|..];
        ScrubComplete(s[MatchEnd(s)..], i - k - |MARK|);
      }
    } else {
      HeadCopied(s);
      if i == 0 {
        assert out[0..] == out;
      } else {
        assert out[i..] == Scrub(s[1..])[i - 1..];
        ScrubComplete(s[1..], i - 1);
      }
    }
  }

  // ── what is kept ──

  /** Character `j` belongs to the value of the key at `i`: only value
      characters lie between. */
  predicate InValueOf(s: string, i: nat, j: nat)
    requires i <= j < |s|
  {
    var k := KeyLength(s[i..]);
    k > 0 && i + k <= j && forall m | i + k <= m <= j :: ValueChar(s[m])
  }

  /** Character `j` belongs to the value of some sensitive parameter. */
  predicate InValue(s: string, j: nat)
    requires j < |s|
  {
    exists i | 0 <= i <= j :: InValueOf(s, i, j)
  }

  /** The text from position `j` on, without any sensitive value. */
  function Kept(s: string, j: nat := 0): string
    requires j <= |s|
    decreases |s| - j
  {
    if j == |s| then ""
    else (if InValue(s, j) then "" else [s[j]]) + Kept(s, j + 1)
  }

  /** `s` and its tail from `d` agree on which later characters are values. */
  predicate SameFrom(s: string, d: nat)
    requires d <= |s|
  {
    forall m | 0 <= m < |s| - d :: InValue(s, d + m) == InValue(s[d..], m)
  }

  lemma {:induction false} KeptTail(s: string, d: nat, m: nat)
    requires d + m <= |s| && SameFrom(s, d)
    ensures Kept(s, d + m) == Kept(s[d..], m)
    decreases |s| - m
  {
    hide InValue, SameFrom;
    if d + m < |s| {
      KeptTail(s, d, m + 1);
      SameHere(s, d, m);
    }
  }

  lemma SameHere(s: string, d: nat, m: nat)
    requires d + m < |s| && SameFrom(s, d)
    ensures s[d..][m] == s[d + m] && InValue(s, d + m) == InValue(s[d..], m)
  {
    hide InValue;
  }

  lemma InValueShift(s: string, d: nat, i: nat, j: nat)
    requires d <= i <= j < |s|
    ensures InValueOf(s, i, j) == InValueOf(s[d..], i - d, j - d)
  {
    assert s[d..][i - d..] == s[i..];
    var k := KeyLength(s[i..]);
    assert forall m | i + k <= m <= j :: s[m] == s[d..][m - d];
    if InValueOf(s[d..], i - d, j - d) {
      forall m | i + k <= m <= j
        ensures ValueChar(s[m])
      {
        assert ValueChar(s[d..][m - d]);
      }
    }
  }

  /** If no key before `d` has a value reaching `d`, the tail from `d` can be
      read on its own. */
  lemma TailAlone(s: string, d: nat)
    requires d <= |s|
    requires forall i, j | 0 <= i < d <= j < |s| :: !InValueOf(s, i, j)
    ensures SameFrom(s, d)
  {
    hide InValueOf;
    forall m | 0 <= m < |s| - d
      ensures InValue(s, d + m) == InValue(s[d..], m)
    {
      if InValue(s, d + m) {
        var i :| 0 <= i <= d + m && InValueOf(s, i, d + m);
        InValueShift(s, d, i, d + m);
      }
      if InValue(s[d..], m) {
        var i :| 0 <= i <= m && InValueOf(s[d..], i, m);
        InValueShift(s, d, d + i, d + m);
        assert InValueOf(s, d + i, d + m);
      }
    }
  }

  /** A key never runs over a character no key and no value contains. */
  lemma StoppedBy(s: string, i: nat, d: nat, j: nat)
    requires i < d <= j < |s| && !ValueChar(s[d])
    ensures !InValueOf(s, i, j)
  {
    var k := KeyLength(s[i..]);
    if k > 0 && d < i + k {
      KeyLengthExact(s[i..], k);
      KeyShape(s[i..], k, d - i);
    }
  }

  lemma KeyNotInValue(s: string, k: nat, j: nat)
    requires k > 0 && KeyLength(s) == k && j < k
    ensures !InValue(s, j)
  {
    hide KeyLength;
    KeyLengthExact(s, k);
    assert s[0..] == s;
    forall i | 0 <= i <= j
      ensures !InValueOf(s, i, j)
    {
      if i > 0 {
        KeyShape(s, k, i);
      }
    }
  }

  lemma ValueInValue(s: string, j: nat)
    requires Matches(s) && KeyLength(s) <= j < MatchEnd(s)
    ensures InValue(s, j)
  {
    hide KeyLength, ValueLength;
    var k := KeyLength(s);
    assert s[0..] == s;
    assert forall m | k <= m <= j :: s[m] == s[k..][m - k];
    assert InValueOf(s, 0, j);
  }

  lemma AfterValueAlone(s: string)
    requires Matches(s)
    ensures SameFrom(s, MatchEnd(s))
  {
    hide KeyLength, ValueLength;
    var d := MatchEnd(s);
    forall i, j | 0 <= i < d <= j < |s|
      ensures !InValueOf(s, i, j)
    {
      assert s[d] == s[KeyLength(s)..][d - KeyLength(s)];
      StoppedBy(s, i, d, j);
    }
    TailAlone(s, d);
  }

  lemma KeptParameter(s: string)
    requires Matches(s)
    ensures Kept(s) == s[..KeyLength(s)] + Kept(s[MatchEnd(s)..])
  {
    hide KeyLength, ValueLength, InValue, Kept, SameFrom;
    var k, d := KeyLength(s), MatchEnd(s);
    AfterValueAlone(s);
    KeptTail(s, d, 0);
    forall j | 0 <= j < k
      ensures !InValue(s, j)
    {
      KeyNotInValue(s, k, j);
    }
    forall j | k <= j < d
      ensures InValue(s, j)
    {
      ValueInValue(s, j);
    }
    KeptSkips(s, k, d);
    KeptCopies(s, 0, k);
    assert s[0..k] == s[..k];
  }

  lemma {:induction false} KeptSkips(s: string, j: nat, d: nat)
    requires j <= d <= |s| && forall m | j <= m < d :: InValue(s, m)
    ensures Kept(s, j) == Kept(s, d)
    decreases d - j
  {
    hide InValue;
    if j < d {
      KeptSkips(s, j + 1, d);
    }
  }

  lemma {:induction false} KeptCopies(s: string, j: nat, d: nat)
    requires j <= d <= |s| && forall m | j <= m < d :: !InValue(s, m)
    ensures Kept(s, j) == s[j..d] + Kept(s, d)
    decreases d - j
  {
    hide InValue, Kept;
    if j < d {
      KeptStep(s, j);
      KeptCopies(s, j + 1, d);
      assert s[j..d] == [s[j]] + s[j + 1..d];
    }
  }

  lemma KeptStep(s: string, j: nat)
    requires j < |s| && !InValue(s, j)
    ensures Kept(s, j) == [s[j]] + Kept(s, j + 1)
  {
    hide InValue;
  }

  lemma KeptPlain(s: string)
    requires s != "" && !Matches(s)
    ensures Kept(s) == [s[0]] + Kept(s[1..])
  {
    assert s[0..] == s;
    forall i, j | 0 <= i < 1 <= j < |s|
      ensures !InValueOf(s, i, j)
    {
      var k := KeyLength(s);
      if k > 0 && k <= j {
        assert s[k] == s[k..][0];
        assert !ValueChar(s[k]);
      }
    }
    assert !InValueOf(s, 0, 0);
    TailAlone(s, 1);
    KeptTail(s, 1, 0);
  }

  /** Everything outside sensitive values is copied unchanged. */
  lemma {:induction false} ScrubKeepsTheRest(s: string)
    ensures Kept(Scrub(s)) == Kept(s)
  {
    if s != "" {
      if Matches(s) {
        var k := KeyLength(s);
        HeadRedacted(s);
        KeptParameter(s);
        KeptParameter(Scrub(s));
        ScrubKeepsTheRest(s[MatchEnd(s)..]);
      } else {
        HeadCopied(s);
        KeptPlain(s);
        KeptPlain(Scrub(s));
        assert Scrub(s)[1..] == Scrub(s[1..]);
        ScrubKeepsTheRest(s[1..]);
      }
    }
  }
}
