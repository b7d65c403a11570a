/** Conditions as trees over selection names and quantifiers: what they mean,
    how they are printed, and that evaluating the printed text yields the
    meaning. Then, for every text, how truth values may influence it. */
module SigmaTrees {
  import opened PyText
  import opened SigmaParser
  import opened SigmaCondition
  import opened SigmaText

  datatype Atom = Name(name: string) | Quantifier(all: bool, pattern: string)

  type Condition = Tree<Atom>

  // ── meaning ──

  predicate ValidName(n: string) {
    n != "" && StartsIdent(n[0]) && (forall i | 0 <= i < |n| :: InIdent(n[i])) && !IsKeyword(n)
  }

  predicate ValidPattern(p: string) {
    p != "" && forall i | 0 <= i < |p| :: PatternChar(p[i])
  }

  /** ASCII letters, digits, the underscore and the star, and the four characters
      that ignoring case makes equal to letters. */
  predicate PatternChar(c: char) {
    || 'a' <= c <= 'z' || 'A' <= c <= 'Z' || '0' <= c <= '9' || c == '_' || c == '*'
    || c == '\U{0130}' || c == '\U{0131}' || c == '\U{017F}' || c == '\U{212A}'
  }

  lemma PatternChars(p: string)
    requires ValidPattern(p)
    ensures p != "" && forall i | 0 <= i < |p| :: InPattern(p[i])
  {
  }

  /** A condition over selections the rule defines. */
  predicate Valid(t: Condition, r: Results) {
    match t
    case Leaf(Name(n)) => ValidName(n) && n in r
    case Leaf(Quantifier(_, p)) => ValidPattern(p)
    case Paren(x) => Valid(x, r)
    case Not(x) => Valid(x, r)
    case And(x, y) => Valid(x, r) && Valid(y, r)
    case Or(x, y) => Valid(x, r) && Valid(y, r)
  }

  /** The pattern is its first `n` characters and stars. */
  predicate StemAt(pattern: string, n: nat) {
    n <= |pattern| && (forall i | n <= i < |pattern| :: pattern[i] == '*') && (n > 0 ==> pattern[n - 1] != '*')
  }

  /** Which selections a quantifier speaks of: all of them, or those whose names
      start with the pattern but for its stars. */
  predicate Covers(pattern: string, name: string) {
    pattern == "them" || exists n: nat | n <= |pattern| :: StemAt(pattern, n) && pattern[..n] <= name
  }

  predicate Meaning(t: Condition, r: Results)
    requires Valid(t, r)
  {
    match t
    case Leaf(Name(n)) => r[n]
    case Leaf(Quantifier(true, p)) =>
      (exists k | k in r :: Covers(p, k)) && forall k | k in r && Covers(p, k) :: r[k]
    case Leaf(Quantifier(false, p)) => exists k | k in r :: Covers(p, k) && r[k]
    case Paren(x) => Meaning(x, r)
    case Not(x) => !Meaning(x, r)
    case And(x, y) => Meaning(x, r) && Meaning(y, r)
    case Or(x, y) => Meaning(x, r) || Meaning(y, r)
  }

  lemma {:induction false} StarsStripped(pattern: string, n: nat)
    requires StemAt(pattern, n)
    ensures StripStars(pattern) == pattern[..n]
  {
    if n < |pattern| {
      StarsStripped(pattern[..|pattern| - 1], n);
      assert pattern[..|pattern| - 1][..n] == pattern[..n];
    } else {
      assert pattern[..n] == pattern;
    }
  }

  lemma {:induction false} HasStem(pattern: string) returns (n: nat)
    ensures StemAt(pattern, n)
  {
    n := |pattern|;
    if pattern != "" && pattern[n - 1] == '*' {
      n := HasStem(pattern[..n - 1]);
    }
  }

  lemma RangedCovers(pattern: string, r: Results, name: string)
    ensures name in Ranged(pattern, r) <==> name in r && Covers(pattern, name)
  {
    var n := HasStem(pattern);
    StarsStripped(pattern, n);
    assert forall m: nat | m <= |pattern| && StemAt(pattern, m) :: m == n;
    assert pattern[..n] <= name <==> StartsWith(name, pattern[..n]);
    assert pattern == "*" ==> n == 0;
    hide StripStars;
  }

  lemma QuantifiedMeans(all: bool, pattern: string, r: Results)
    ensures Quantified(all, pattern, r) <==>
            if all then (exists k | k in r :: Covers(pattern, k)) && forall k | k in r && Covers(pattern, k) :: r[k]
            else exists k | k in r :: Covers(pattern, k) && r[k]
  {
    forall name
      ensures name in Ranged(pattern, r) <==> name in r && Covers(pattern, name)
    {
      RangedCovers(pattern, r, name);
    }
    hide Ranged, Covers;
  }

  // ── text ──

  function Print(t: Condition): string {
    match t
    case Leaf(Name(n)) => n
    case Leaf(Quantifier(all, p)) => (if all then "all of " else "1 of ") + p
    case Paren(x) => "(" + Print(x) + ")"
    case Not(x) => "not " + Print(x)
    case And(x, y) => Print(x) + " and " + Print(y)
    case Or(x, y) => Print(x) + " or " + Print(y)
  }

  /** Brackets wherever the grammar needs them and the tree has none. */
  function AsOr(t: Condition): (u: Condition)
    ensures OrLevel(u)
    decreases t, 2
  {
    match t
    case Or(x, y) => Or(AsOr(x), AsAnd(y))
    case _ => AsAnd(t)
  }

  function AsAnd(t: Condition): (u: Condition)
    ensures AndLevel(u)
    decreases t, 1
  {
    match t
    case And(x, y) => And(AsAnd(x), AsNot(y))
    case _ => AsNot(t)
  }

  function AsNot(t: Condition): (u: Condition)
    ensures NotLevel(u)
    decreases t, 0
  {
    match t
    case Leaf(_) => t
    case Paren(x) => Paren(AsOr(x))
    case Not(x) => Not(AsNot(x))
    case And(x, y) => Paren(And(AsAnd(x), AsNot(y)))
    case Or(x, y) => Paren(Or(AsOr(x), AsAnd(y)))
  }

  lemma {:induction false} BracketsKeepMeaning(t: Condition, r: Results)
    requires Valid(t, r)
    ensures Valid(AsOr(t), r) && Meaning(AsOr(t), r) == Meaning(t, r)
    ensures Valid(AsAnd(t), r) && Meaning(AsAnd(t), r) == Meaning(t, r)
    ensures Valid(AsNot(t), r) && Meaning(AsNot(t), r) == Meaning(t, r)
  {
    assert !t.And? ==> AsAnd(t) == AsNot(t);
    assert !t.Or? ==> AsOr(t) == AsAnd(t);
    match t
    case Leaf(_) =>
      assert AsNot(t) == t;
    case Paren(x) =>
      BracketsKeepMeaning(x, r);
      assert AsNot(t) == Paren(AsOr(x));
    case Not(x) =>
      BracketsKeepMeaning(x, r);
      assert AsNot(t) == Not(AsNot(x));
    case And(x, y) =>
      BracketsKeepMeaning(x, r);
      BracketsKeepMeaning(y, r);
      assert AsNot(t) == Paren(And(AsAnd(x), AsNot(y)));
    case Or(x, y) =>
      BracketsKeepMeaning(x, r);
      BracketsKeepMeaning(y, r);
      assert AsNot(t) == Paren(Or(AsOr(x), AsAnd(y)));
  }

  // ── the lexemes of printed text ──

  function Spelled(t: Condition): seq<Lexeme> {
    match t
    case Leaf(Name(n)) => [Word(n)]
    case Leaf(Quantifier(all, p)) => [Quant(all, p)]
    case Paren(x) => [Char('(')] + Spelled(x) + [Char(')')]
    case Not(x) => [Word("not"), Char(' ')] + Spelled(x)
    case And(x, y) => Spelled(x) + [Char(' '), Word("and"), Char(' ')] + Spelled(y)
    case Or(x, y) => Spelled(x) + [Char(' '), Word("or"), Char(' ')] + Spelled(y)
  }

  /** What may follow a printed condition. */
  predicate Follows(rest: string) {
    rest == "" || rest[0] == ')' || StartsWith(rest, " and ") || StartsWith(rest, " or ")
  }

  lemma FollowsEndsWords(rest: string)
    requires Follows(rest) && rest != ""
    ensures !InPattern(rest[0])
    ensures MatchOf(rest) == None
  {
    if rest[0] == ')' {
      assert SpaceRun(rest) == 0;
    } else {
      var word := if StartsWith(rest, " and ") then " and " else " or ";
      assert forall i | 0 <= i < |word| :: rest[i] == rest[..|word|][i] == word[i];
      assert SpaceRun(rest[1..]) == 0;
      assert SpaceRun(rest) == 1;
      assert LowerChar(rest[1..][0]) != "of"[0] || LowerChar(rest[1..][1]) != "of"[1];
    }
  }

  lemma FlagFree(inWord: bool, rest: string)
    requires rest == "" || !InIdent(rest[0])
    ensures Lexemes(inWord, rest) == Lexemes(false, rest)
  {
    if rest != "" {
      NoQuantHere(inWord, rest);
      NoQuantHere(false, rest);
    }
    hide MatchQuant;
  }

  lemma CharLexed(inWord: bool, c: char, rest: string)
    requires !InIdent(c)
    ensures Lexemes(inWord, [c] + rest) == [Char(c)] + Lexemes(false, rest)
  {
    var s := [c] + rest;
    NoQuantHere(inWord, s);
    assert s[1..] == rest && s[0] == c;
    hide MatchQuant, IdentRun;
  }

  lemma WordLexed(w: string, rest: string)
    requires w != "" && StartsIdent(w[0]) && forall i | 0 <= i < |w| :: InIdent(w[i])
    requires rest == "" || !InIdent(rest[0])
    requires MatchQuant(false, w + rest) == None
    ensures Lexemes(false, w + rest) == [Word(w)] + Lexemes(false, rest)
  {
    RunOfWord(w, rest);
    FlagFree(true, rest);
    assert (w + rest)[..|w|] == w && (w + rest)[|w|..] == rest;
    hide MatchQuant, IdentRun;
  }

  /** A selection name is no quantifier, even when it is called "all". */
  lemma NameIsNoQuantifier(n: string, rest: string)
    requires ValidName(n) && Follows(rest)
    ensures MatchQuant(false, n + rest) == None
  {
    var s := n + rest;
    assert s[0] == n[0];
    assert LowerChar(s[0]) != "1"[0];
    if |n| < 3 {
      if rest != "" {
        FollowsEndsWords(rest);
        assert s[|n|] == rest[0];
        assert LowerChar(s[|n|]) != "all"[|n|];
      }
    } else if |n| == 3 {
      assert s[3..] == rest;
      if rest != "" {
        FollowsEndsWords(rest);
      }
    } else {
      assert s[3..][0] == n[3];
      assert SpaceRun(s[3..]) == 0;
    }
    hide MatchOf;
  }

  lemma KeywordIsNoQuantifier(w: string, rest: string)
    requires w == "not" || w == "and" || w == "or"
    ensures MatchQuant(false, w + rest) == None
  {
    var s := w + rest;
    assert s[0] == w[0] && s[1] == w[1];
    assert LowerChar(s[0]) != "1"[0];
    assert LowerChar(s[0]) != "all"[0] || LowerChar(s[1]) != "all"[1];
  }

  lemma {:induction false} PatternRunIs(s: string, n: nat)
    requires n <= |s| && (forall i | 0 <= i < n :: InPattern(s[i])) && (n < |s| ==> !InPattern(s[n]))
    ensures PatternRun(s) == n
  {
    if n > 0 {
      PatternRunIs(s[1..], n - 1);
    }
  }

  lemma OfPattern(p: string, rest: string)
    requires ValidPattern(p) && (rest == "" || !InPattern(rest[0]))
    ensures MatchOf(" of " + p + rest) == Some((p, 4 + |p|))
  {
    var s := " of " + p + rest;
    PatternRunIs(p + rest, |p|);
    assert s[4..] == p + rest && s[4] == p[0] && s[4..4 + |p|] == p;
    hide InPattern, PatternRun, ValidPattern, MatchOf;
    MatchOfAt(s, |p|);
  }

  lemma MatchOfAt(s: string, n: nat)
    requires |s| > 4 && s[0] == ' ' && s[1] == 'o' && s[2] == 'f' && s[3] == ' ' && InPattern(s[4])
    requires n > 0 && PatternRun(s[4..]) == n
    ensures MatchOf(s) == Some((s[4..4 + n], 4 + n))
  {
    hide PatternRun;
    OneSpace(s);
    OneSpace(s[3..]);
    assert HasWord(s[1..], "of");
    hide InPattern, SpaceRun, HasWord;
    assert s[1..][2..] == s[3..] && s[3..][1..] == s[4..];
    assert s[3..][1..1 + n] == s[4..4 + n];
  }

  lemma OneSpace(s: string)
    requires |s| > 1 && s[0] == ' ' && (s[1] == 'o' || InPattern(s[1]))
    ensures SpaceRun(s) == 1
  {
    assert SpaceRun(s[1..]) == 0;
  }

  lemma QuantifierMatched(all: bool, p: string, tail: string)
    requires MatchOf(tail) == Some((p, 4 + |p|))
    ensures var head := if all then "all" else "1";
            MatchQuant(false, head + tail) == Some(QuantMatch(all, p, |head| + 4 + |p|))
  {
    hide MatchOf;
    var head := if all then "all" else "1";
    var s := head + tail;
    assert s[|head|..] == tail;
    if !all {
      assert s[0] == '1';
      assert !HasWord(s, "all");
    }
  }

  lemma QuantifierLexed(all: bool, p: string, rest: string)
    requires ValidPattern(p) && (rest == "" || !InPattern(rest[0]))
    ensures Lexemes(false, Print(Leaf(Quantifier(all, p))) + rest) == [Quant(all, p)] + Lexemes(false, rest)
  {
    hide Lexemes, MatchQuant, MatchOf;
    var head, tail := if all then "all" else "1", " of " + p + rest;
    OfPattern(p, rest);
    QuantifierMatched(all, p, tail);
    assert Print(Leaf(Quantifier(all, p))) + rest == head + tail;
    QuantLexed(head + tail, QuantMatch(all, p, |head| + 4 + |p|), rest);
  }

  lemma QuantLexed(s: string, m: QuantMatch, rest: string)
    requires MatchQuant(false, s) == Some(m) && s[m.length..] == rest
    ensures Lexemes(false, s) == [Quant(m.all, m.pattern)] + Lexemes(false, rest)
  {
    FlagFree(InIdent(s[m.length - 1]), rest);
    hide MatchQuant;
  }

  /** A connective with its blanks, followed by `rest`. */
  function Spaced(w: string, rest: string): string {
    [' '] + (w + ([' '] + rest))
  }

  lemma SpacedLexed(w: string, rest: string)
    requires w == "and" || w == "or"
    ensures Lexemes(false, Spaced(w, rest)) == [Char(' '), Word(w), Char(' ')] + Lexemes(false, rest)
  {
    hide Lexemes, MatchQuant, MatchOf;
    var tail := [' '] + rest;
    KeywordIsNoQuantifier(w, tail);
    CharLexed(false, ' ', w + tail);
    WordLexed(w, tail);
    CharLexed(false, ' ', rest);
  }

  lemma SpacedFollows(w: string, rest: string)
    requires w == "and" || w == "or"
    ensures Follows(Spaced(w, rest))
  {
    var s := Spaced(w, rest);
    var front := [' '] + w + [' '];
    assert s == front + rest;
    assert s[..|front|] == front;
  }

  lemma ParenLexed(x: Condition, rest: string)
    requires Lexemes(false, Print(x) + ([')'] + rest)) == Spelled(x) + Lexemes(false, [')'] + rest)
    ensures Lexemes(false, Print(Paren(x)) + rest) == Spelled(Paren(x)) + Lexemes(false, rest)
  {
    hide Lexemes, MatchQuant, MatchOf;
    CharLexed(false, '(', Print(x) + ([')'] + rest));
    CharLexed(false, ')', rest);
    assert Print(Paren(x)) + rest == ['('] + (Print(x) + ([')'] + rest));
    hide Lexemes;
  }

  lemma NotLexed(x: Condition, rest: string)
    requires Lexemes(false, Print(x) + rest) == Spelled(x) + Lexemes(false, rest)
    ensures Lexemes(false, Print(Not(x)) + rest) == Spelled(Not(x)) + Lexemes(false, rest)
  {
    hide Lexemes, MatchQuant, MatchOf;
    var tail := [' '] + (Print(x) + rest);
    KeywordIsNoQuantifier("not", tail);
    WordLexed("not", tail);
    CharLexed(false, ' ', Print(x) + rest);
    assert Print(Not(x)) + rest == "not" + tail;
  }

  lemma BinaryLexed(x: Condition, y: Condition, w: string, rest: string)
    requires w == "and" || w == "or"
    requires var tail := Spaced(w, Print(y) + rest);
             Lexemes(false, Print(x) + tail) == Spelled(x) + Lexemes(false, tail)
    requires Lexemes(false, Print(y) + rest) == Spelled(y) + Lexemes(false, rest)
    ensures Lexemes(false, Print(x) + Spaced(w, Print(y) + rest))
         == Spelled(x) + [Char(' '), Word(w), Char(' ')] + Spelled(y) + Lexemes(false, rest)
  {
    hide *;
    SpacedLexed(w, Print(y) + rest);
  }

  /** Printed text is cut into exactly the lexemes of its tree. */
  lemma {:induction false} PrintedLexemes(t: Condition, r: Results, rest: string)
    requires Valid(t, r) && Follows(rest)
    ensures Lexemes(false, Print(t) + rest) == Spelled(t) + Lexemes(false, rest)
  {
    hide Lexemes, MatchQuant, Spaced;
    match t
    case Leaf(Name(n)) =>
      NameIsNoQuantifier(n, rest);
      if rest != "" {
        FollowsEndsWords(rest);
      }
      WordLexed(n, rest);
    case Leaf(Quantifier(all, p)) =>
      if rest != "" {
        FollowsEndsWords(rest);
      }
      QuantifierLexed(all, p, rest);
    case Paren(x) =>
      PrintedLexemes(x, r, [')'] + rest);
      ParenLexed(x, rest);
    case Not(x) =>
      PrintedLexemes(x, r, rest);
      NotLexed(x, rest);
    case And(x, y) =>
      PrintedLexemes(y, r, rest);
      SpacedFollows("and", Print(y) + rest);
      PrintedLexemes(x, r, Spaced("and", Print(y) + rest));
      BinaryLexed(x, y, "and", rest);
      SpacedIs(Print(x), "and", Print(y), rest);
    case Or(x, y) =>
      PrintedLexemes(y, r, rest);
      SpacedFollows("or", Print(y) + rest);
      PrintedLexemes(x, r, Spaced("or", Print(y) + rest));
      BinaryLexed(x, y, "or", rest);
      SpacedIs(Print(x), "or", Print(y), rest);
  }

  lemma SpacedIs(x: string, w: string, y: string, rest: string)
    ensures w == "and" ==> x + " and " + y + rest == x + Spaced(w, y + rest)
    ensures w == "or" ==> x + " or " + y + rest == x + Spaced(w, y + rest)
  {
  }

  // ── printing and evaluating ──

  /** The tree with every atom replaced by its truth value. */
  function Ground(t: Condition, r: Results): (g: Tree<bool>)
    requires Valid(t, r)
    ensures Denote(g) == Meaning(t, r)
    ensures NotLevel(g) == NotLevel(t) && AndLevel(g) == AndLevel(t) && OrLevel(g) == OrLevel(t)
  {
    match t
    case Leaf(Name(n)) => Leaf(r[n])
    case Leaf(Quantifier(all, p)) =>
      QuantifiedMeans(all, p, r);
      Leaf(Quantified(all, p, r))
    case Paren(x) => Paren(Ground(x, r))
    case Not(x) => Not(Ground(x, r))
    case And(x, y) => And(Ground(x, r), Ground(y, r))
    case Or(x, y) => Or(Ground(x, r), Ground(y, r))
  }

  lemma {:induction false} ReadAppend(a: seq<Lexeme>, b: seq<Lexeme>, r: Results)
    requires Read(a, r).Some?
    ensures Read(a + b, r) == PutBefore(Read(a, r).value, Read(b, r))
  {
    if a == [] {
      assert a + b == b;
      PutNothingBefore(Read(b, r));
    } else {
      assert (a + b)[0] == a[0] && (a + b)[1..] == a[1..] + b;
      ReadAppend(a[1..], b, r);
      PutBeforeTwice(TokenOf(a[0], r).value, Read(a[1..], r).value, Read(b, r));
      hide TokenOf;
    }
  }

  lemma PutBeforeTwice(x: seq<Token>, y: seq<Token>, rest: Option<seq<Token>>)
    ensures PutBefore(x, PutBefore(y, rest)) == PutBefore(x + y, rest)
  {
    assert rest.Some? ==> x + (y + rest.value) == x + y + rest.value;
  }

  lemma ReadOne(l: Lexeme, r: Results)
    ensures Read([l], r) == TokenOf(l, r)
  {
    assert [l][1..] == [];
    assert TokenOf(l, r).Some? ==> TokenOf(l, r).value + [] == TokenOf(l, r).value;
    hide TokenOf;
  }

  lemma ConnectivesRead(r: Results)
    ensures Read([Word("not"), Char(' ')], r) == Some([NotT])
    ensures Read([Char(' '), Word("and"), Char(' ')], r) == Some([AndT])
    ensures Read([Char(' '), Word("or"), Char(' ')], r) == Some([OrT])
    ensures Read([Char('(')], r) == Some([LParen]) && Read([Char(')')], r) == Some([RParen])
  {
    hide Read;
    WordTokens(r);
    BlankAround(Word("not"), NotT, r);
    BlankAround(Word("and"), AndT, r);
    BlankAround(Word("or"), OrT, r);
    ReadOne(Char('('), r);
    ReadOne(Char(')'), r);
  }

  lemma WordTokens(r: Results)
    ensures TokenOf(Word("and"), r) == Some([AndT])
    ensures TokenOf(Word("or"), r) == Some([OrT])
    ensures TokenOf(Word("not"), r) == Some([NotT])
  {
    assert EqualsWord("and", "and") && EqualsWord("or", "or") && EqualsWord("not", "not");
    assert !EqualsWord("not", "and") by {
      assert LowerChar("not"[0]) != "and"[0];
    }
  }

  lemma BlankAround(l: Lexeme, t: Token, r: Results)
    requires TokenOf(l, r) == Some([t])
    ensures Read([l, Char(' ')], r) == Some([t])
    ensures Read([Char(' '), l, Char(' ')], r) == Some([t])
  {
    var space := Char(' ');
    assert TokenOf(space, r) == Some([]);
    ReadOne(space, r);
    assert [l, space][1..] == [space] && [space, l, space][1..] == [l, space];
    assert [t] + [] == [t] && [] + [t] == [t];
    hide TokenOf;
  }

  lemma ReadParts(a: seq<Lexeme>, b: seq<Lexeme>, x: seq<Token>, y: seq<Token>, r: Results)
    requires Read(a, r) == Some(x) && Read(b, r) == Some(y)
    ensures Read(a + b, r) == Some(x + y)
  {
    ReadAppend(a, b, r);
  }

  /** The lexemes of a tree read as its tokens. */
  lemma {:induction false} SpelledReads(t: Condition, r: Results)
    requires Valid(t, r)
    ensures Read(Spelled(t), r) == Some(Tokens(Ground(t, r)))
  {
    hide Read, Quantified;
    ConnectivesRead(r);
    match t
    case Leaf(Name(n)) => ReadOne(Word(n), r);
    case Leaf(Quantifier(all, p)) => ReadOne(Quant(all, p), r);
    case Paren(x) =>
      SpelledReads(x, r);
      ReadParts([Char('(')], Spelled(x), [LParen], Tokens(Ground(x, r)), r);
      ReadParts([Char('(')] + Spelled(x), [Char(')')], [LParen] + Tokens(Ground(x, r)), [RParen], r);
    case Not(x) =>
      SpelledReads(x, r);
      ReadParts([Word("not"), Char(' ')], Spelled(x), [NotT], Tokens(Ground(x, r)), r);
    case And(x, y) =>
      SpelledReads(x, r);
      SpelledReads(y, r);
      SpelledBinary(x, y, "and", AndT, r);
    case Or(x, y) =>
      SpelledReads(x, r);
      SpelledReads(y, r);
      SpelledBinary(x, y, "or", OrT, r);
  }

  lemma SpelledBinary(x: Condition, y: Condition, w: string, op: Token, r: Results)
    requires Valid(x, r) && Valid(y, r)
    requires Read(Spelled(x), r) == Some(Tokens(Ground(x, r)))
    requires Read(Spelled(y), r) == Some(Tokens(Ground(y, r)))
    requires Read([Char(' '), Word(w), Char(' ')], r) == Some([op])
    ensures Read(Spelled(x) + [Char(' '), Word(w), Char(' ')] + Spelled(y), r)
         == Some(Tokens(Ground(x, r)) + [op] + Tokens(Ground(y, r)))
  {
    hide *;
    var mid := [Char(' '), Word(w), Char(' ')];
    ReadParts(Spelled(x), mid, Tokens(Ground(x, r)), [op], r);
    ReadParts(Spelled(x) + mid, Spelled(y), Tokens(Ground(x, r)) + [op], Tokens(Ground(y, r)), r);
  }

  /** No blank at either end. */
  predicate Trimmed(s: string) {
    s != "" && !IsSpace(s[0]) && !IsSpace(s[|s| - 1])
  }

  lemma TrimmedJoin(a: string, mid: string, b: string)
    requires Trimmed(a) && Trimmed(b)
    ensures Trimmed(a + mid + b) && Trimmed(a + b)
  {
    hide IsSpace;
    var s, t := a + mid + b, a + b;
    assert s[0] == a[0] == t[0];
    assert s[|s| - 1] == b[|b| - 1] == t[|t| - 1];
  }

  lemma TrimmedWords()
    ensures Trimmed("(") && Trimmed(")") && Trimmed("not") && Trimmed("all") && Trimmed("1")
  {
  }

  lemma TrimmedName(n: string)
    requires n != "" && forall i | 0 <= i < |n| :: InPattern(n[i])
    ensures Trimmed(n)
  {
    assert InPattern(n[0]) && InPattern(n[|n| - 1]);
  }

  lemma {:induction false} PrintedEnds(t: Condition, r: Results)
    requires Valid(t, r)
    ensures Trimmed(Print(t))
  {
    hide IsKeyword, IsSpace, Trimmed, InIdent, InPattern;
    TrimmedWords();
    match t
    case Leaf(Name(n)) =>
      assert forall i | 0 <= i < |n| :: InIdent(n[i]);
      IdentTrimmed(n);
    case Leaf(Quantifier(all, p)) =>
      PatternChars(p);
      TrimmedName(p);
      TrimmedJoin(if all then "all" else "1", " of ", p);
      assert Print(t) == (if all then "all" else "1") + " of " + p;
    case Paren(x) =>
      PrintedEnds(x, r);
      TrimmedJoin("(", Print(x), ")");
    case Not(x) =>
      PrintedEnds(x, r);
      TrimmedJoin("not", " ", Print(x));
      assert Print(t) == "not" + " " + Print(x);
    case And(x, y) =>
      PrintedEnds(x, r);
      PrintedEnds(y, r);
      TrimmedJoin(Print(x), " and ", Print(y));
    case Or(x, y) =>
      PrintedEnds(x, r);
      PrintedEnds(y, r);
      TrimmedJoin(Print(x), " or ", Print(y));
  }

  lemma IdentTrimmed(n: string)
    requires n != "" && forall i | 0 <= i < |n| :: InIdent(n[i])
    ensures Trimmed(n)
  {
    assert InIdent(n[0]) && InIdent(n[|n| - 1]);
  }

  lemma PrintedTokens(t: Condition, r: Results)
    requires Valid(t, r)
    ensures TokensOfText(Print(t), r) == Some(Tokens(Ground(t, r)))
  {
    hide Read, Lexemes, Valid, Print, Strip, Ground, Spelled;
    PrintedEnds(t, r);
    StripNothing(Print(t));
    hide Trimmed;
    PrintedLexemes(t, r, "");
    assert Print(t) + "" == Print(t);
    NothingLexed();
    assert Spelled(t) + [] == Spelled(t);
    SpelledReads(t, r);
  }

  lemma NothingLexed()
    ensures Lexemes(false, "") == []
  {
  }

  /** Evaluating a printed condition yields its meaning. */
  lemma PrintedEvaluates(t: Condition, r: Results)
    requires Valid(t, r) && OrLevel(t)
    ensures Evaluate(Print(t), r) == Meaning(t, r)
  {
    PrintedTokens(t, r);
    EvaluateReads(Print(t), r);
    TreeEvaluates(Ground(t, r));
    hide *;
  }

  /** The condition over all selections: all of them hold, and there is one; or
      one of them holds. */
  lemma ThemEvaluates(pattern: string, r: Results)
    requires pattern == "them" || pattern == "*"
    ensures Evaluate("all of " + pattern, r) <==> r != map[] && forall k | k in r :: r[k]
    ensures Evaluate("1 of " + pattern, r) <==> exists k | k in r :: r[k]
  {
    assert StemAt("*", 0);
    QuantifierPrinted(pattern, r);
    assert r != map[] ==> exists k :: k in r;
    assert pattern == "*" ==> forall k | k in r :: pattern[..0] <= k;
    hide Evaluate;
  }

  /** Over a word and any stars: the same of the selections whose names start
      with that word. */
  lemma PrefixEvaluates(word: string, stars: string, r: Results)
    requires (forall i | 0 <= i < |word| :: InIdent(word[i])) && (forall i | 0 <= i < |stars| :: stars[i] == '*')
    requires word + stars != "" && word + stars != "them"
    ensures Evaluate("all of " + (word + stars), r) <==>
            (exists k | k in r :: word <= k) && forall k | k in r && word <= k :: r[k]
    ensures Evaluate("1 of " + (word + stars), r) <==> exists k | k in r :: word <= k && r[k]
  {
    var pattern := word + stars;
    assert StemAt(pattern, |word|) && pattern[..|word|] == word;
    assert forall n: nat | n <= |pattern| && StemAt(pattern, n) :: n == |word|;
    QuantifierPrinted(pattern, r);
    hide Evaluate, StemAt, InIdent;
    assert forall k :: Covers(pattern, k) <==> word <= k;
  }

  lemma QuantifierPrinted(pattern: string, r: Results)
    requires ValidPattern(pattern)
    ensures Evaluate("all of " + pattern, r) <==>
            (exists k | k in r :: Covers(pattern, k)) && forall k | k in r && Covers(pattern, k) :: r[k]
    ensures Evaluate("1 of " + pattern, r) <==> exists k | k in r :: Covers(pattern, k) && r[k]
  {
    hide Evaluate, Covers, InPattern;
    var every: Condition, one: Condition := Leaf(Quantifier(true, pattern)), Leaf(Quantifier(false, pattern));
    assert NotLevel(every) && AndLevel(every) && NotLevel(one) && AndLevel(one);
    PrintedEvaluates(every, r);
    PrintedEvaluates(one, r);
  }

  // Spelling.

  /** The lower-case word with any of its letters in capitals. */
  predicate Respells(w: string, word: string) {
    |w| == |word|
    && forall i | 0 <= i < |w| :: w[i] == word[i] || ('a' <= word[i] <= 'z' && w[i] as int == word[i] as int - 32)
  }

  predicate Blank(s: string) {
    s != "" && forall i | 0 <= i < |s| :: IsSpace(s[i])
  }

  lemma RespeltWord(w: string, rest: string, word: string)
    requires Respells(w, word) && forall i | 0 <= i < |word| :: !('A' <= word[i] <= 'Z')
    ensures HasWord(w + rest, word) && (EqualsWord(w, word))
  {
  }

  lemma {:induction false} BlankRun(b: string, rest: string)
    requires (forall i | 0 <= i < |b| :: IsSpace(b[i])) && rest != "" && !IsSpace(rest[0])
    ensures SpaceRun(b + rest) == |b|
  {
    hide IsSpace;
    if b == "" {
      assert b + rest == rest;
    } else {
      assert (b + rest)[1..] == b[1..] + rest;
      BlankRun(b[1..], rest);
    }
  }

  function OfPart(b1: string, of: string, b2: string, pattern: string): string {
    b1 + (of + (b2 + pattern))
  }

  lemma RespeltOf(b1: string, of: string, b2: string, pattern: string)
    requires Blank(b1) && Blank(b2) && Respells(of, "of") && ValidPattern(pattern)
    ensures MatchOf(OfPart(b1, of, b2, pattern)) == Some((pattern, |OfPart(b1, of, b2, pattern)|))
  {
    var s, rest := b1 + (of + (b2 + pattern)), b2 + pattern;
    BlankRun(b1, of + rest);
    BlankRun(b2, pattern);
    RespeltWord(of, rest, "of");
    PatternRunIs(pattern, |pattern|);
    hide SpaceRun, PatternRun, IsSpace, InPattern, HasWord, Respells;
    assert s[|b1|..] == of + rest;
    assert s[|b1| + 2..] == rest;
    assert rest[|b2|..] == pattern;
    assert rest[|b2|..|b2| + |pattern|] == pattern;
  }

  lemma HeadMatched(all: bool, head: string, tail: string, pattern: string)
    requires Respells(head, if all then "all" else "1") && MatchOf(tail) == Some((pattern, |tail|))
    ensures MatchQuant(false, head + tail) == Some(QuantMatch(all, pattern, |head| + |tail|))
  {
    var s := head + tail;
    RespeltHead(all, head, tail);
    hide MatchOf, HasWord, Respells;
    assert s[|head|..] == tail;
  }

  lemma RespeltHead(all: bool, head: string, tail: string)
    requires Respells(head, if all then "all" else "1")
    ensures |head| == (if all then 3 else 1)
    ensures if all then HasWord(head + tail, "all") else HasWord(head + tail, "1") && !HasWord(head + tail, "all")
  {
    if all {
      RespeltWord(head, tail, "all");
    } else {
      RespeltWord(head, tail, "1");
      assert head[0] == "1"[0] && LowerChar((head + tail)[0]) != "all"[0];
    }
  }

  lemma LoneQuantifier(s: string, m: QuantMatch)
    requires MatchQuant(false, s) == Some(m) && m.length == |s|
    ensures Lexemes(false, s) == [Quant(m.all, m.pattern)]
  {
    hide MatchQuant;
    assert s[|s|..] == "";
  }

  function Spelt(head: string, b1: string, of: string, b2: string, pattern: string): string {
    head + OfPart(b1, of, b2, pattern)
  }

  lemma SpeltEnds(head: string, b1: string, of: string, b2: string, pattern: string)
    requires (Respells(head, "all") || Respells(head, "1")) && ValidPattern(pattern)
    ensures Strip(Spelt(head, b1, of, b2, pattern)) == Spelt(head, b1, of, b2, pattern)
  {
    var s := Spelt(head, b1, of, b2, pattern);
    assert s[0] == head[0] && s[|s| - 1] == pattern[|pattern| - 1];
    StripNothing(s);
  }

  lemma QuantifierAlone(all: bool, head: string, b1: string, of: string, b2: string, pattern: string)
    requires Respells(head, if all then "all" else "1") && Respells(of, "of") && Blank(b1) && Blank(b2)
    requires ValidPattern(pattern)
    ensures Lexemes(false, Strip(Spelt(head, b1, of, b2, pattern))) == [Quant(all, pattern)]
  {
    SpeltEnds(head, b1, of, b2, pattern);
    RespeltOf(b1, of, b2, pattern);
    hide MatchQuant, MatchOf, Lexemes, Strip, Respells, Blank, ValidPattern, OfPart;
    var tail := OfPart(b1, of, b2, pattern);
    HeadMatched(all, head, tail, pattern);
    LoneQuantifier(head + tail, QuantMatch(all, pattern, |head| + |tail|));
  }

  /** Neither capitals nor the number and kind of blanks matter to a quantifier. */
  lemma QuantifierSpelling(all: bool, head: string, b1: string, of: string, b2: string, pattern: string, r: Results)
    requires Respells(head, if all then "all" else "1") && Respells(of, "of") && Blank(b1) && Blank(b2)
    requires ValidPattern(pattern)
    ensures Evaluate(Spelt(head, b1, of, b2, pattern), r)
         == Evaluate(Spelt(if all then "all" else "1", " ", "of", " ", pattern), r)
  {
    var word := if all then "all" else "1";
    assert Respells(word, word) && Respells("of", "of") && Blank(" ");
    QuantifierAlone(all, head, b1, of, b2, pattern);
    QuantifierAlone(all, word, " ", "of", " ", pattern);
    EvaluateReads(Spelt(head, b1, of, b2, pattern), r);
    EvaluateReads(Spelt(word, " ", "of", " ", pattern), r);
    hide Evaluate, Lexemes, Strip, Respells, Blank, ValidPattern, Spelt, Read, OfPart;
  }

  /** Capitals do not matter to the other keywords. */
  lemma KeywordSpelling(w: string, word: string, r: Results)
    requires word == "and" || word == "or" || word == "not" || word == "true" || word == "false"
    requires Respells(w, word)
    ensures TokenOf(Word(w), r)
         == Some([if word == "and" then AndT else if word == "or" then OrT else if word == "not" then NotT
                  else Truth(word == "true")])
  {
    assert LowerChar(w[0]) == word[0] && LowerChar(w[1]) == word[1];
  }

  /** So any tree can be written down: bracketed where the grammar needs it,
      printed and evaluated, it yields its meaning. */
  lemma EveryTreeEvaluates(t: Condition, r: Results)
    requires Valid(t, r)
    ensures Evaluate(Print(AsOr(t)), r) == Meaning(t, r)
  {
    BracketsKeepMeaning(t, r);
    PrintedEvaluates(AsOr(t), r);
  }

  // ── every text ──

  /** A text holds exactly when its tokens are those of a true tree, which is
      then the only one; everything else evaluates to false. */
  lemma EvaluateIff(condition: string, r: Results)
    ensures Evaluate(condition, r) <==>
            exists t :: OrLevel(t) && TokensOfText(condition, r) == Some(Tokens(t)) && Denote(t)
  {
    EvaluateReads(condition, r);
    var tokens := TokensOfText(condition, r);
    if tokens.Some? {
      EvalTokensIff(tokens.value, true);
    }
    hide *;
  }

  /** The same selections, with nothing turned from matching to not. */
  predicate Raised(r1: Results, r2: Results) {
    r1.Keys == r2.Keys && forall k | k in r1 :: r1[k] ==> r2[k]
  }

  predicate SameShapeOption(a: Option<seq<Token>>, b: Option<seq<Token>>) {
    match (a, b)
    case (None, None) => true
    case (Some(ts), Some(us)) => SameShape(ts, us)
    case _ => false
  }

  lemma {:induction false} ReadSameShape(ls: seq<Lexeme>, r1: Results, r2: Results)
    requires r1.Keys == r2.Keys
    ensures SameShapeOption(Read(ls, r1), Read(ls, r2))
    ensures Read(ls, r1).Some? && Raised(r1, r2) ==> Below(Read(ls, r1).value, Read(ls, r2).value)
  {
    if ls != [] {
      ReadSameShape(ls[1..], r1, r2);
      hide TokenOf, Raised;
      if Read(ls, r1).Some? {
        ShapeJoin(TokenOf(ls[0], r1).value, TokenOf(ls[0], r2).value, Read(ls[1..], r1).value, Read(ls[1..], r2).value);
      }
    }
  }

  lemma QuantifiedMonotone(all: bool, pattern: string, r1: Results, r2: Results)
    requires Raised(r1, r2)
    ensures Quantified(all, pattern, r1) ==> Quantified(all, pattern, r2)
  {
    assert Ranged(pattern, r1) == Ranged(pattern, r2);
    hide Ranged;
  }

  lemma ShapeJoin(a: seq<Token>, b: seq<Token>, x: seq<Token>, y: seq<Token>)
    requires SameShape(a, b) && SameShape(x, y)
    ensures SameShape(a + x, b + y)
    ensures Below(a, b) && Below(x, y) ==> Below(a + x, b + y)
  {
  }

  /** Whether a condition can be read and parsed, and as a tree of which
      shape, does not depend on which selections matched. */
  lemma ShapeIndependent(condition: string, r1: Results, r2: Results)
    requires r1.Keys == r2.Keys
    ensures SameShapeOption(TokensOfText(condition, r1), TokensOfText(condition, r2))
    ensures TokensOfText(condition, r1).Some? ==>
              (EvalTokens(TokensOfText(condition, r1).value).Some?
               <==> EvalTokens(TokensOfText(condition, r2).value).Some?)
  {
    hide Read, Lexemes, Strip, EvalTokens;
    ReadSameShape(Lexemes(false, Strip(condition)), r1, r2);
    var a, b := TokensOfText(condition, r1), TokensOfText(condition, r2);
    if a.Some? {
      if EvalTokens(a.value).Some? {
        ShapeDecides(a.value, b.value);
      }
      if EvalTokens(b.value).Some? {
        ShapeDecides(b.value, a.value);
      }
    }
  }

  lemma ShapeDecides(ts: seq<Token>, us: seq<Token>)
    requires SameShape(ts, us) && EvalTokens(ts).Some?
    ensures EvalTokens(us).Some?
  {
    ShapeSteers(ts, us, 0);
  }

  /** No `not` anywhere in the condition. */
  predicate NegationFree(condition: string) {
    forall l | l in Lexemes(false, Strip(condition)) :: l.Word? ==> !EqualsWord(l.text, "not")
  }

  lemma {:induction false} NoNotRead(ls: seq<Lexeme>, r: Results)
    requires forall l | l in ls :: l.Word? ==> !EqualsWord(l.text, "not")
    requires Read(ls, r).Some?
    ensures NotT !in Read(ls, r).value
  {
    if ls != [] {
      NoNotRead(ls[1..], r);
      assert ls[0] in ls;
    }
    hide EqualsWord, Quantified;
  }

  /** A condition without `not` is monotone: one more matching selection never
      turns a match into a miss. */
  lemma ConditionMonotone(condition: string, r1: Results, r2: Results)
    requires Raised(r1, r2) && NegationFree(condition)
    ensures Evaluate(condition, r1) ==> Evaluate(condition, r2)
  {
    var ls := Lexemes(false, Strip(condition));
    EvaluateReads(condition, r1);
    EvaluateReads(condition, r2);
    ReadSameShape(ls, r1, r2);
    if Evaluate(condition, r1) {
      NoNotRead(ls, r2);
      EvalMonotone(TokensOfText(condition, r1).value, TokensOfText(condition, r2).value);
    }
    hide Evaluate, EvalTokens, Read, Lexemes, Strip;
  }
}
