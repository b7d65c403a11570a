/** What evaluating a condition's text means. The text is cut once into
    lexemes, in a way that does not depend on any truth value; replacing,
    tokenizing and parsing then come to reading those lexemes as tokens. */
module SigmaText {
  import opened PyText
  import opened SigmaParser
  import opened SigmaCondition

  datatype Lexeme = Word(text: string) | Quant(all: bool, pattern: string) | Char(c: char)

  /** Quantifiers, identifiers and other characters, from left to right. */
  function Lexemes(inWord: bool, s: string): seq<Lexeme>
    decreases |s|
  {
    if s == "" then []
    else
      match MatchQuant(inWord, s)
      case Some(m) => [Quant(m.all, m.pattern)] + Lexemes(InIdent(s[m.length - 1]), s[m.length..])
      case None =>
        var n := IdentRun(s);
        if n > 0 then [Word(s[..n])] + Lexemes(true, s[n..])
        else [Char(s[0])] + Lexemes(InIdent(s[0]), s[1..])
  }

  /** One lexeme as the token it stands for: no token for a blank, None for
      what the evaluator refuses. */
  function TokenOf(l: Lexeme, r: Results): Option<seq<Token>> {
    match l
    case Quant(all, pattern) => Some([Truth(Quantified(all, pattern, r))])
    case Word(w) =>
      if EqualsWord(w, "and") then Some([AndT])
      else if EqualsWord(w, "or") then Some([OrT])
      else if EqualsWord(w, "not") then Some([NotT])
      else if EqualsWord(w, "true") then Some([Truth(true)])
      else if EqualsWord(w, "false") then Some([Truth(false)])
      else if w in r then Some([Truth(r[w])])
      else None
    case Char(c) =>
      if IsSpace(c) then Some([]) else if c == '(' then Some([LParen]) else if c == ')' then Some([RParen]) else None
  }

  function Read(ls: seq<Lexeme>, r: Results): Option<seq<Token>> {
    if ls == [] then Some([])
    else
      match TokenOf(ls[0], r)
      case None => None
      case Some(ts) => PutBefore(ts, Read(ls[1..], r))
  }

  // ── lexemes of the text after each replacement ──

  /** Identifiers and other characters only. */
  function Plain(s: string): seq<Lexeme> {
    if s == "" then []
    else
      var n := IdentRun(s);
      if n > 0 then [Word(s[..n])] + Plain(s[n..]) else [Char(s[0])] + Plain(s[1..])
  }

  /** A quantifier as the truth word it is replaced by. */
  function Resolved(l: Lexeme, r: Results): Lexeme {
    match l
    case Quant(all, pattern) => Word(TruthWord(Quantified(all, pattern, r)))
    case _ => l
  }

  function Resolve(ls: seq<Lexeme>, r: Results): seq<Lexeme> {
    if ls == [] then [] else [Resolved(ls[0], r)] + Resolve(ls[1..], r)
  }

  /** An identifier at the start of a text is the same identifier wherever
      the text goes on with another kind of character. */
  lemma RunOfWord(w: string, rest: string)
    requires w != "" && StartsIdent(w[0]) && forall i | 0 <= i < |w| :: InIdent(w[i])
    requires rest == "" || !InIdent(rest[0])
    ensures IdentRun(w + rest) == |w|
    ensures Plain(w + rest) == [Word(w)] + Plain(rest)
  {
    assert (w + rest)[..|w|] == w && (w + rest)[|w|..] == rest;
  }

  /** A character that is in no identifier is in no quantifier's beginning. */
  lemma NoQuantHere(inWord: bool, s: string)
    requires s != "" && !InIdent(s[0])
    ensures MatchQuant(inWord, s) == None
  {
    assert LowerChar(s[0]) != "all"[0] && LowerChar(s[0]) != "1"[0];
  }

  lemma HeadKept(inWord: bool, s: string, r: Results)
    requires s == "" || !InIdent(s[0])
    ensures var t := SubstituteQuantifiers(inWord, s, r);
            (s == "" <==> t == "") && (t != "" ==> t[0] == s[0])
  {
    if s != "" {
      NoQuantHere(inWord, s);
    }
  }

  /** Inside an identifier nothing is replaced. */
  lemma {:induction false} TailKept(s: string, n: nat, r: Results)
    requires n <= |s| && forall i | 0 <= i < n :: InIdent(s[i])
    ensures SubstituteQuantifiers(true, s, r) == s[..n] + SubstituteQuantifiers(true, s[n..], r)
  {
    hide SubstituteQuantifiers, InIdent;
    if n > 0 {
      OneKept(true, s, r);
      TailKept(s[1..], n - 1, r);
      assert s[..n] == [s[0]] + s[1..][..n - 1];
      assert s[1..][n - 1..] == s[n..];
    } else {
      assert s[0..] == s;
    }
  }

  /** Where no quantifier starts, one character is copied. */
  lemma OneKept(inWord: bool, s: string, r: Results)
    requires s != "" && InIdent(s[0]) && (inWord || MatchQuant(inWord, s) == None)
    ensures SubstituteQuantifiers(inWord, s, r) == [s[0]] + SubstituteQuantifiers(true, s[1..], r)
  {
    hide InIdent, HasWord, QuantifierAfter;
  }

  lemma WordKept(inWord: bool, s: string, r: Results)
    requires IdentRun(s) > 0 && MatchQuant(inWord, s) == None
    ensures var n := IdentRun(s);
            SubstituteQuantifiers(inWord, s, r) == s[..n] + SubstituteQuantifiers(true, s[n..], r)
  {
    hide *;
    OneKept(inWord, s, r);
    TailKept(s[1..], IdentRun(s) - 1, r);
  }

  /** Replacing quantifiers in the text replaces their lexemes. */
  lemma {:induction false} PlainAfterQuantifiers(inWord: bool, s: string, r: Results)
    ensures Plain(SubstituteQuantifiers(inWord, s, r)) == Resolve(Lexemes(inWord, s), r)
    decreases |s|
  {
    hide MatchQuant, IdentRun, Plain, Quantified, InIdent;
    if s == "" {
      PlainEmpty();
    } else {
      match MatchQuant(inWord, s)
      case Some(m) =>
        var after := InIdent(s[m.length - 1]);
        PlainAfterQuantifiers(after, s[m.length..], r);
        QuantifierLexeme(m, after, s[m.length..], r);
      case None =>
        var n := IdentRun(s);
        if n > 0 {
          PlainAfterQuantifiers(true, s[n..], r);
          WordLexeme(inWord, s, r);
        } else {
          PlainAfterQuantifiers(InIdent(s[0]), s[1..], r);
          CharLexeme(inWord, s, r);
        }
    }
  }

  lemma PlainEmpty()
    ensures Plain("") == []
  {
  }

  lemma QuantifierLexeme(m: QuantMatch, inWord: bool, rest: string, r: Results)
    requires rest == "" || !InPattern(rest[0])
    ensures var w, out := TruthWord(Quantified(m.all, m.pattern, r)), SubstituteQuantifiers(inWord, rest, r);
            Plain(w + out) == [Word(w)] + Plain(out)
  {
    hide MatchQuant, Quantified;
    HeadKept(inWord, rest, r);
    RunOfWord(TruthWord(Quantified(m.all, m.pattern, r)), SubstituteQuantifiers(inWord, rest, r));
  }

  lemma WordLexeme(inWord: bool, s: string, r: Results)
    requires IdentRun(s) > 0 && MatchQuant(inWord, s) == None
    ensures Plain(SubstituteQuantifiers(inWord, s, r))
         == [Word(s[..IdentRun(s)])] + Plain(SubstituteQuantifiers(true, s[IdentRun(s)..], r))
  {
    hide MatchQuant, SubstituteQuantifiers, Plain, IdentTail;
    var n := IdentRun(s);
    WordKept(inWord, s, r);
    HeadKept(true, s[n..], r);
    RunOfWord(s[..n], SubstituteQuantifiers(true, s[n..], r));
  }

  lemma CharLexeme(inWord: bool, s: string, r: Results)
    requires s != "" && IdentRun(s) == 0 && MatchQuant(inWord, s) == None
    ensures Plain(SubstituteQuantifiers(inWord, s, r))
         == [Char(s[0])] + Plain(SubstituteQuantifiers(InIdent(s[0]), s[1..], r))
  {
    hide MatchQuant;
    var out, rest := SubstituteQuantifiers(inWord, s, r), SubstituteQuantifiers(InIdent(s[0]), s[1..], r);
    assert out == [s[0]] + rest;
    assert out[0] == s[0] && out[1..] == rest;
    hide *;
  }

  // ── reading the final text ──

  /** The text the lexemes become once names are replaced. */
  function Render(ls: seq<Lexeme>, r: Results): string
    requires forall l | l in ls :: !l.Quant?
  {
    if ls == [] then ""
    else (if ls[0].Word? then Named(ls[0].text, r) else [ls[0].c]) + Render(ls[1..], r)
  }

  /** Identifiers are whole, other characters start none, and two identifiers
      never touch. */
  predicate WellCut(ls: seq<Lexeme>) {
    ls == [] ||
    (WellCut(ls[1..]) &&
     match ls[0]
     case Quant(_, _) => false
     case Word(_) => |ls| > 1 ==> ls[1].Char? && !InIdent(ls[1].c)
     case Char(c) => !StartsIdent(c))
  }

  lemma {:induction false} PlainWellCut(s: string)
    ensures WellCut(Plain(s))
    ensures s == "" ==> Plain(s) == []
    ensures s != "" ==> Plain(s) != [] && (!InIdent(s[0]) ==> Plain(s)[0] == Char(s[0]))
  {
    hide IdentTail;
    if s != "" {
      var n := IdentRun(s);
      PlainWellCut(if n > 0 then s[n..] else s[1..]);
    }
  }

  lemma {:induction false} NamesRender(s: string, r: Results)
    ensures (forall l | l in Plain(s) :: !l.Quant?)
    ensures SubstituteNames(s, r) == Render(Plain(s), r)
  {
    if s != "" {
      var n := IdentRun(s);
      NamesRender(if n > 0 then s[n..] else s[1..], r);
    }
  }

  predicate AllKnown(ls: seq<Lexeme>, r: Results) {
    forall l | l in ls :: l.Word? ==> IsKeyword(l.text) || l.text in r
  }

  /** A name the rule does not define leaves the marker in the text, and
      nothing else does. */
  lemma {:induction false} UnknownMarked(ls: seq<Lexeme>, r: Results)
    requires WellCut(ls)
    ensures forall l | l in ls :: !l.Quant?
    ensures AllKnown(ls, r) ==> Free(Render(ls, r), '_')
    ensures !AllKnown(ls, r) ==> Contains(Render(ls, r), UNKNOWN)
  {
    if ls != [] {
      UnknownMarked(ls[1..], r);
      assert ls == [ls[0]] + ls[1..];
      var head := if ls[0].Word? then Named(ls[0].text, r) else [ls[0].c];
      var tail := Render(ls[1..], r);
      if ls[0].Word? && (IsKeyword(ls[0].text) || ls[0].text in r) {
        NamedFree(ls[0].text, r);
      }
      if !AllKnown(ls[1..], r) {
        var i :| 0 <= i <= |tail| && StartsWith(tail[i..], UNKNOWN);
        assert (head + tail)[|head| + i..] == tail[i..];
      } else if !AllKnown(ls, r) {
        assert (head + tail)[0..][..|UNKNOWN|] == UNKNOWN;
      }
    }
  }

  lemma NamedFree(name: string, r: Results)
    requires IsKeyword(name) || name in r
    ensures Free(Named(name, r), '_')
  {
    if IsKeyword(name) {
      forall i | 0 <= i < |name|
        ensures name[i] != '_'
      {
        assert LowerChar(name[i]) != '_';
      }
    }
  }

  function KeywordToken(w: string): Option<Token> {
    if EqualsWord(w, "and") then Some(AndT)
    else if EqualsWord(w, "or") then Some(OrT)
    else if EqualsWord(w, "not") then Some(NotT)
    else if EqualsWord(w, "true") then Some(Truth(true))
    else if EqualsWord(w, "false") then Some(Truth(false))
    else None
  }

  lemma HasWordPrefix(w: string, rest: string, word: string)
    requires |word| == |w|
    ensures HasWord(w + rest, word) == HasWord(w, word)
  {
    assert forall i | 0 <= i < |w| :: (w + rest)[i] == w[i];
    if HasWord(w + rest, word) {
      forall i | 0 <= i < |word|
        ensures LowerChar(w[i]) == word[i]
      {
        assert LowerChar((w + rest)[i]) == word[i];
      }
    }
  }

  /** A keyword that ends a word is matched as that keyword. */
  lemma MatchKeyword(w: string, rest: string)
    requires KeywordToken(w).Some?
    requires rest == "" || !InIdent(rest[0])
    ensures MatchToken(false, w + rest) == Some((KeywordToken(w).value, |w|))
    ensures StartsIdent(w[0]) && InIdent(w[|w| - 1]) && !IsSpace(w[0])
  {
    var s := w + rest;
    assert s[0] == w[0];
    if EqualsWord(w, "and") {
      HasWordPrefix(w, rest, "and");
    } else if EqualsWord(w, "or") {
      HasWordPrefix(w, rest, "or");
    } else if EqualsWord(w, "not") {
      HasWordPrefix(w, rest, "not");
    } else if EqualsWord(w, "true") {
      HasWordPrefix(w, rest, "true");
    } else {
      HasWordPrefix(w, rest, "false");
    }
    hide HasWord, InIdent, IsSpace;
  }

  /** A character that is no letter, blank or parenthesis starts no token. */
  lemma NoTokenHere(inWord: bool, s: string)
    requires s != "" && !StartsIdent(s[0])
    ensures MatchToken(inWord, s)
         == if s[0] == '(' then Some((LParen, 1)) else if s[0] == ')' then Some((RParen, 1)) else None
  {
    assert s[..1] == [s[0]];
    hide HasWord;
  }

  /** Tokenizing the final text reads its lexemes one by one. */
  lemma {:induction false} TokenizeReads(inWord: bool, ls: seq<Lexeme>, r: Results)
    requires WellCut(ls) && AllKnown(ls, r) && (forall l | l in ls :: !l.Quant?)
    requires ls != [] && ls[0].Word? ==> !inWord
    ensures Tokenize(inWord, Render(ls, r)) == Read(ls, r)
    decreases |ls|
  {
    if ls != [] {
      var rest := Render(ls[1..], r);
      match ls[0]
      case Char(c) =>
        TokenizeReads(false, ls[1..], r);
        ReadChar(inWord, c, rest, Read(ls[1..], r), r);
      case Word(w) =>
        TokenizeReads(true, ls[1..], r);
        ReadWord(w, rest, Read(ls[1..], r), r);
    }
  }

  lemma ReadChar(inWord: bool, c: char, rest: string, tokens: Option<seq<Token>>, r: Results)
    requires !StartsIdent(c)
    requires Tokenize(false, rest) == tokens
    ensures Tokenize(inWord, [c] + rest)
         == match TokenOf(Char(c), r) case None => None case Some(ts) => PutBefore(ts, tokens)
  {
    var s := [c] + rest;
    assert s[1..] == rest;
    NoTokenHere(inWord, s);
    PutNothingBefore(tokens);
    hide MatchToken, IsSpace;
  }

  lemma ReadWord(w: string, rest: string, tokens: Option<seq<Token>>, r: Results)
    requires IsKeyword(w) || w in r
    requires rest == "" || !InIdent(rest[0])
    requires Tokenize(true, rest) == tokens
    ensures Tokenize(false, Named(w, r) + rest)
         == match TokenOf(Word(w), r) case None => None case Some(ts) => PutBefore(ts, tokens)
  {
    var n := Named(w, r);
    assert IsKeyword(w) <==> KeywordToken(w).Some?;
    assert KeywordToken(n).Some?;
    assert TokenOf(Word(w), r) == Some([KeywordToken(n).value]);
    MatchKeyword(n, rest);
    var s := n + rest;
    assert s[|n|..] == rest && s[|n| - 1] == n[|n| - 1] && s[0] == n[0];
    hide MatchToken, KeywordToken, IsSpace, InIdent, HasWord;
  }

  // ── the meaning of a condition's text ──

  /** The tokens a condition stands for, given the selections' results; None
      when the text cannot be read. */
  function TokensOfText(condition: string, r: Results): Option<seq<Token>> {
    Read(Lexemes(false, Strip(condition)), r)
  }

  lemma TokenResolved(l: Lexeme, r: Results)
    ensures TokenOf(Resolved(l, r), r) == TokenOf(l, r)
  {
    hide Quantified;
  }

  lemma {:induction false} ReadResolved(ls: seq<Lexeme>, r: Results)
    ensures Read(Resolve(ls, r), r) == Read(ls, r)
  {
    hide TokenOf, Resolved, PutBefore;
    if ls != [] {
      ReadResolved(ls[1..], r);
      TokenResolved(ls[0], r);
      assert Resolve(ls, r)[1..] == Resolve(ls[1..], r);
    }
  }

  lemma {:induction false} UnknownUnread(ls: seq<Lexeme>, r: Results)
    requires !AllKnown(ls, r)
    ensures Read(ls, r) == None
  {
    var l :| l in ls && l.Word? && !IsKeyword(l.text) && l.text !in r;
    if l == ls[0] {
    } else {
      assert l in ls[1..];
      UnknownUnread(ls[1..], r);
    }
  }

  /** A condition holds exactly when its text can be read as tokens and the
      tokens evaluate to true. */
  lemma EvaluateReads(condition: string, r: Results)
    ensures Evaluate(condition, r) <==>
            TokensOfText(condition, r).Some? && EvalTokens(TokensOfText(condition, r).value) == Some(true)
  {
    var s := Strip(condition);
    var ls, q := Lexemes(false, s), SubstituteQuantifiers(false, s, r);
    PlainAfterQuantifiers(false, s, r);
    PlainWellCut(q);
    NamesRender(q, r);
    UnknownMarked(Plain(q), r);
    ReadResolved(ls, r);
    if AllKnown(Plain(q), r) {
      TokenizeReads(false, Plain(q), r);
      NoMarker(SubstituteNames(q, r));
    } else {
      UnknownUnread(Plain(q), r);
    }
    hide Lexemes, Plain, Read, SubstituteQuantifiers, SubstituteNames, EvalTokens, Tokenize, Strip, AllKnown, WellCut;
  }

  lemma NoMarker(s: string)
    requires Free(s, '_')
    ensures !Contains(s, UNKNOWN)
  {
    forall i | 0 <= i <= |s|
      ensures !StartsWith(s[i..], UNKNOWN)
    {
      assert |UNKNOWN| <= |s[i..]| ==> s[i..][..|UNKNOWN|][0] == s[i] != UNKNOWN[0];
    }
  }
}
