/** Evaluating the text of a Sigma condition: quantifiers and selection names
    are replaced by truth values in the text, which is then tokenized and
    parsed. The regular expressions are spelled out as scanners. */
module SigmaCondition {
  import opened PyText
  import opened SigmaParser

  /** Which selections of a rule matched the event. */
  type Results = map<string, bool>

  // ── characters ──

  predicate IsLetter(c: char) {
    'a' <= c <= 'z' || 'A' <= c <= 'Z'
  }

  predicate StartsIdent(c: char) {
    IsLetter(c) || c == '_'
  }

  /** ASCII letters, digits and the underscore. The word boundaries of the patterns also treat other
      alphabets as words; that never changes a result, since the tokenizer
      refuses every character outside this set but blanks and parentheses. */
  predicate InIdent(c: char) {
    StartsIdent(c) || IsDigit(c)
  }

  /** Those and the star; ignoring case lets in four more letters. */
  predicate InPattern(c: char) {
    InIdent(c) || c == '*' || c == '\U{130}' || c == '\U{131}' || c == '\U{17F}' || c == '\U{212A}'
  }

  function LowerChar(c: char): char {
    if 'A' <= c <= 'Z' then (c as int + 32) as char else c
  }

  /** `s` starts with the lower-case `word`, in any case. */
  predicate HasWord(s: string, word: string) {
    |word| <= |s| && forall i | 0 <= i < |word| :: LowerChar(s[i]) == word[i]
  }

  predicate EqualsWord(s: string, word: string) {
    |s| == |word| && HasWord(s, word)
  }

  function SpaceRun(s: string): (n: nat)
    ensures n <= |s|
  {
    if s != "" && IsSpace(s[0]) then 1 + SpaceRun(s[1..]) else 0
  }

  function PatternRun(s: string): (n: nat)
    ensures n <= |s|
    ensures n < |s| ==> !InPattern(s[n])
  {
    if s != "" && InPattern(s[0]) then 1 + PatternRun(s[1..]) else 0
  }

  /** Length of the identifier characters `s` starts with. */
  function IdentTail(s: string): (n: nat)
    ensures n <= |s|
    ensures n < |s| ==> !InIdent(s[n])
    ensures forall i | 0 <= i < n :: InIdent(s[i])
  {
    if s != "" && InIdent(s[0]) then 1 + IdentTail(s[1..]) else 0
  }

  /** Length of the identifier `s` starts with, zero if none. */
  function IdentRun(s: string): (n: nat)
    ensures n <= |s|
    ensures n > 0 ==> StartsIdent(s[0])
    ensures 0 < n < |s| ==> !InIdent(s[n])
    ensures forall i | 0 <= i < n :: InIdent(s[i])
  {
    if s != "" && StartsIdent(s[0]) then IdentTail(s) else 0
  }

  predicate IsKeyword(word: string) {
    || EqualsWord(word, "and") || EqualsWord(word, "or") || EqualsWord(word, "not")
    || EqualsWord(word, "true") || EqualsWord(word, "false")
  }

  // ── quantifiers ──

  function StripStars(pattern: string): string {
    if pattern != "" && pattern[|pattern| - 1] == '*' then StripStars(pattern[..|pattern| - 1]) else pattern
  }

  /** The selections a quantifier ranges over. */
  function Ranged(pattern: string, r: Results): set<string> {
    if pattern == "them" || pattern == "*" then r.Keys
    else set k | k in r && StartsWith(k, StripStars(pattern))
  }

  function Quantified(all: bool, pattern: string, r: Results): bool {
    var range := Ranged(pattern, r);
    if range == {} then false
    else if all then forall k | k in range :: r[k]
    else exists k | k in range :: r[k]
  }

  datatype QuantMatch = QuantMatch(all: bool, pattern: string, length: nat)

  /** A quantifier at the start of `s`: all or 1, blanks, of, blanks and a
      pattern. `inWord` says that a word character precedes. */
  function MatchQuant(inWord: bool, s: string): (m: Option<QuantMatch>)
    ensures m.Some? ==> !inWord && 0 < m.value.length <= |s|
    ensures m.Some? && m.value.length < |s| ==> !InPattern(s[m.value.length])
  {
    if inWord then None
    else if HasWord(s, "all") then QuantifierAfter(true, s, 3)
    else if HasWord(s, "1") then QuantifierAfter(false, s, 1)
    else None
  }

  function QuantifierAfter(all: bool, s: string, head: nat): (m: Option<QuantMatch>)
    requires head <= |s|
    ensures m.Some? ==> head < m.value.length <= |s|
    ensures m.Some? && m.value.length < |s| ==> !InPattern(s[m.value.length])
  {
    match MatchOf(s[head..])
    case None => None
    case Some((pattern, n)) => Some(QuantMatch(all, pattern, head + n))
  }

  /** The part of a quantifier after all or 1. */
  function MatchOf(s: string): (m: Option<(string, nat)>)
    ensures m.Some? ==> 0 < m.value.1 <= |s|
    ensures m.Some? && m.value.1 < |s| ==> !InPattern(s[m.value.1])
  {
    var a := SpaceRun(s);
    if a == 0 || !HasWord(s[a..], "of") then None
    else
      var rest := s[a + 2..];
      var b := SpaceRun(rest);
      var p := PatternRun(rest[b..]);
      if b == 0 || p == 0 then None else Some((rest[b..b + p], a + 2 + b + p))
  }

  function TruthWord(b: bool): string {
    if b then "True" else "False"
  }

  /** The quantifiers replaced by their truth values, from left to right. */
  function SubstituteQuantifiers(inWord: bool, s: string, r: Results): string
    decreases |s|
  {
    if s == "" then ""
    else
      match MatchQuant(inWord, s)
      case Some(m) =>
        TruthWord(Quantified(m.all, m.pattern, r))
        + SubstituteQuantifiers(InIdent(s[m.length - 1]), s[m.length..], r)
      case None => [s[0]] + SubstituteQuantifiers(InIdent(s[0]), s[1..], r)
  }

  // ── names ──

  const UNKNOWN: string := "__UNKNOWN__"

  function Named(name: string, r: Results): string {
    if IsKeyword(name) then name
    else if name in r then TruthWord(r[name])
    else UNKNOWN
  }

  /** The identifiers replaced, from left to right. */
  function SubstituteNames(s: string, r: Results): string {
    if s == "" then ""
    else
      var n := IdentRun(s);
      if n > 0 then Named(s[..n], r) + SubstituteNames(s[n..], r)
      else [s[0]] + SubstituteNames(s[1..], r)
  }

  predicate Contains(s: string, part: string) {
    exists i | 0 <= i <= |s| :: StartsWith(s[i..], part)
  }

  // ── tokens ──

  /** `s` starts with `word`, and with no longer one. */
  predicate HasWholeWord(inWord: bool, s: string, word: string) {
    !inWord && HasWord(s, word) && (|word| < |s| ==> !InIdent(s[|word|]))
  }

  /** The token pattern at the start of `s`, with the length it covers. */
  function MatchToken(inWord: bool, s: string): (m: Option<(Token, nat)>)
    ensures m.Some? ==> 0 < m.value.1 <= |s|
  {
    if StartsWith(s, "(") then Some((LParen, 1))
    else if StartsWith(s, ")") then Some((RParen, 1))
    else if HasWholeWord(inWord, s, "and") then Some((AndT, 3))
    else if HasWholeWord(inWord, s, "or") then Some((OrT, 2))
    else if HasWholeWord(inWord, s, "not") then Some((NotT, 3))
    else if HasWord(s, "true") then Some((Truth(true), 4))
    else if HasWord(s, "false") then Some((Truth(false), 5))
    else None
  }

  function Prepend(t: Token, rest: Option<seq<Token>>): Option<seq<Token>> {
    match rest
    case None => None
    case Some(ts) => Some([t] + ts)
  }

  /** The tokens of `s`; None where a character starts none. */
  function Tokenize(inWord: bool, s: string): Option<seq<Token>>
    decreases |s|
  {
    if s == "" then Some([])
    else if IsSpace(s[0]) then Tokenize(false, s[1..])
    else
      match MatchToken(inWord, s)
      case None => None
      case Some((t, n)) => Prepend(t, Tokenize(InIdent(s[n - 1]), s[n..]))
  }

  function PutBefore(ts: seq<Token>, rest: Option<seq<Token>>): Option<seq<Token>> {
    match rest
    case None => None
    case Some(us) => Some(ts + us)
  }

  /** Whether a word character precedes position `pos`. */
  predicate InWordAt(s: string, pos: nat)
    requires pos <= |s|
  {
    pos > 0 && InIdent(s[pos - 1])
  }

  method TokenizeCondition(expr: string) returns (result: Option<seq<Token>>)
    ensures result == Tokenize(false, expr)
  {
    hide MatchToken, InIdent;
    var tokens: seq<Token> := [];
    var pos := 0;
    assert expr[0..] == expr;
    PutNothingBefore(Tokenize(false, expr));
    while pos < |expr|
      invariant 0 <= pos <= |expr|
      invariant Tokenize(false, expr) == PutBefore(tokens, Tokenize(InWordAt(expr, pos), expr[pos..]))
    {
      if IsSpace(expr[pos]) {
        SpaceStep(expr, pos);
        pos := pos + 1;
        continue;
      }
      var found := MatchToken(InWordAt(expr, pos), expr[pos..]);
      if found.None? {
        return None;
      }
      var (t, n) := found.value;
      PutBeforePrepended(tokens, t, Tokenize(InWordAt(expr, pos + n), expr[pos + n..]));
      tokens := tokens + [t];
      pos := pos + n;
    }
    assert expr[pos..] == "" && tokens + [] == tokens;
    return Some(tokens);
  }

  lemma SpaceStep(expr: string, pos: nat)
    requires pos < |expr| && IsSpace(expr[pos])
    ensures Tokenize(InWordAt(expr, pos), expr[pos..]) == Tokenize(InWordAt(expr, pos + 1), expr[pos + 1..])
  {
    hide MatchToken;
    assert expr[pos..][1..] == expr[pos + 1..];
  }

  lemma PutNothingBefore(rest: Option<seq<Token>>)
    ensures PutBefore([], rest) == rest
  {
    assert rest.Some? ==> [] + rest.value == rest.value;
  }

  lemma PutBeforePrepended(ts: seq<Token>, t: Token, rest: Option<seq<Token>>)
    ensures PutBefore(ts, Prepend(t, rest)) == PutBefore(ts + [t], rest)
  {
    assert rest.Some? ==> ts + ([t] + rest.value) == ts + [t] + rest.value;
  }

  // ── the whole condition ──

  function EvalExpression(expr: string): Option<bool> {
    match Tokenize(false, expr)
    case None => None
    case Some(ts) => EvalTokens(ts)
  }

  function Evaluate(condition: string, r: Results): bool {
    var text := SubstituteNames(SubstituteQuantifiers(false, Strip(condition), r), r);
    !Contains(text, UNKNOWN) && EvalExpression(text) == Some(true)
  }

  method EvaluateCondition(condition: string, r: Results) returns (result: bool)
    ensures result == Evaluate(condition, r)
  {
    var cond := Strip(condition);
    cond := SubstituteQuantifiers(false, cond, r);
    var substituted := SubstituteNames(cond, r);
    if Contains(substituted, UNKNOWN) {
      return false;
    }
    var tokens := TokenizeCondition(substituted);
    if tokens.None? {
      return false;
    }
    var value := EvalTokenList(tokens.value);
    return value == Some(true);
  }

  /** A rule matches when its condition holds of the selections' results; a
      selection whose evaluation raised (None) counts as not matching. */
  method RuleMatches(condition: string, selections: seq<(string, Option<bool>)>) returns (result: bool)
    ensures result == Evaluate(condition, ResultsOf(selections))
  {
    var results: Results := map[];
    for i := 0 to |selections|
      invariant results == ResultsOf(selections[..i])
    {
      var (name, outcome) := selections[i];
      assert selections[..i + 1][..i] == selections[..i];
      results := results[name := outcome == Some(true)];
    }
    assert selections[..|selections|] == selections;
    result := EvaluateCondition(condition, results);
  }

  function ResultsOf(selections: seq<(string, Option<bool>)>): Results {
    if selections == [] then map[]
    else
      var (name, outcome) := selections[|selections| - 1];
      ResultsOf(selections[..|selections| - 1])[name := outcome == Some(true)]
  }

  /** A selection counts as matching when its last evaluation did; one that raised
      did not. */
  lemma {:induction false} ResultsExact(selections: seq<(string, Option<bool>)>, name: string)
    ensures name in ResultsOf(selections) <==> exists i | 0 <= i < |selections| :: selections[i].0 == name
    ensures name in ResultsOf(selections) ==>
              exists i | 0 <= i < |selections| ::
                && selections[i].0 == name && (forall j | i < j < |selections| :: selections[j].0 != name)
                && (ResultsOf(selections)[name] <==> selections[i].1 == Some(true))
  {
    if selections != [] {
      var n := |selections| - 1;
      var front := selections[..n];
      ResultsExact(front, name);
      assert selections == front + [selections[n]];
      if selections[n].0 == name {
        assert ResultsOf(selections)[name] <==> selections[n].1 == Some(true);
      } else if name in ResultsOf(front) {
        var i :| 0 <= i < n && front[i].0 == name && (forall j | i < j < n :: front[j].0 != name)
                 && (ResultsOf(front)[name] <==> front[i].1 == Some(true));
        assert selections[i].0 == name && forall j | i < j < |selections| :: selections[j].0 != name;
      }
    }
  }
}
