/** The condition grammar of Sigma rules: tokens, parse trees, and the
    recursive-descent evaluator. The evaluator computes a truth value as it
    goes; the specification builds the tree and takes its denotation. */
module SigmaParser {
  import opened PyText

  /** The fixed token set; `Truth` is the word true or false. */
  datatype Token = LParen | RParen | AndT | OrT | NotT | Truth(value: bool)

  datatype Tree<+A> =
    | Leaf(atom: A)
    | Paren(inner: Tree<A>)
    | Not(operand: Tree<A>)
    | And(left: Tree<A>, right: Tree<A>)
    | Or(left: Tree<A>, right: Tree<A>)

  // ── the grammar ──

  /** `not` binds tighter than `and`, which binds tighter than `or`; both
      associate to the left. */
  predicate NotLevel<A>(t: Tree<A>)
    decreases t, 0
  {
    match t
    case Leaf(_) => true
    case Paren(x) => OrLevel(x)
    case Not(x) => NotLevel(x)
    case _ => false
  }

  predicate AndLevel<A>(t: Tree<A>)
    decreases t, 1
  {
    match t
    case And(l, r) => AndLevel(l) && NotLevel(r)
    case _ => NotLevel(t)
  }

  predicate OrLevel<A>(t: Tree<A>)
    decreases t, 2
  {
    match t
    case Or(l, r) => OrLevel(l) && AndLevel(r)
    case _ => AndLevel(t)
  }

  function Tokens(t: Tree<bool>): (ts: seq<Token>)
    ensures ts != []
  {
    match t
    case Leaf(b) => [Truth(b)]
    case Paren(x) => [LParen] + Tokens(x) + [RParen]
    case Not(x) => [NotT] + Tokens(x)
    case And(l, r) => Tokens(l) + [AndT] + Tokens(r)
    case Or(l, r) => Tokens(l) + [OrT] + Tokens(r)
  }

  function Denote(t: Tree<bool>): bool {
    match t
    case Leaf(b) => b
    case Paren(x) => Denote(x)
    case Not(x) => !Denote(x)
    case And(l, r) => Denote(l) && Denote(r)
    case Or(l, r) => Denote(l) || Denote(r)
  }

  // ── the parser, building trees ──

  /** A tree and the position after it; None is a syntax error. */
  type Built = Option<(Tree<bool>, nat)>

  function BuildOr(ts: seq<Token>, i: nat): (b: Built)
    requires i <= |ts|
    ensures b.Some? ==> i < b.value.1 <= |ts|
    decreases |ts| - i, 4
  {
    match BuildAnd(ts, i)
    case None => None
    case Some((t, j)) => OrLoop(ts, t, j)
  }

  function OrLoop(ts: seq<Token>, t: Tree<bool>, i: nat): (b: Built)
    requires i <= |ts|
    ensures b.Some? ==> i <= b.value.1 <= |ts|
    decreases |ts| - i, 3
  {
    if i < |ts| && ts[i] == OrT then
      match BuildAnd(ts, i + 1)
      case None => None
      case Some((r, j)) => OrLoop(ts, Or(t, r), j)
    else Some((t, i))
  }

  function BuildAnd(ts: seq<Token>, i: nat): (b: Built)
    requires i <= |ts|
    ensures b.Some? ==> i < b.value.1 <= |ts|
    decreases |ts| - i, 2
  {
    match BuildNot(ts, i)
    case None => None
    case Some((t, j)) => AndLoop(ts, t, j)
  }

  function AndLoop(ts: seq<Token>, t: Tree<bool>, i: nat): (b: Built)
    requires i <= |ts|
    ensures b.Some? ==> i <= b.value.1 <= |ts|
    decreases |ts| - i, 1
  {
    if i < |ts| && ts[i] == AndT then
      match BuildNot(ts, i + 1)
      case None => None
      case Some((r, j)) => AndLoop(ts, And(t, r), j)
    else Some((t, i))
  }

  function BuildNot(ts: seq<Token>, i: nat): (b: Built)
    requires i <= |ts|
    ensures b.Some? ==> i < b.value.1 <= |ts|
    decreases |ts| - i, 1
  {
    if i < |ts| && ts[i] == NotT then
      match BuildNot(ts, i + 1)
      case None => None
      case Some((t, j)) => Some((Not(t), j))
    else BuildAtom(ts, i)
  }

  function BuildAtom(ts: seq<Token>, i: nat): (b: Built)
    requires i <= |ts|
    ensures b.Some? ==> i < b.value.1 <= |ts|
    decreases |ts| - i, 0
  {
    if i == |ts| then None
    else if ts[i] == LParen then
      match BuildOr(ts, i + 1)
      case None => None
      case Some((t, j)) => if j == |ts| || ts[j] != RParen then None else Some((Paren(t), j + 1))
    else if ts[i].Truth? then Some((Leaf(ts[i].value), i + 1))
    else None
  }

  /** What the evaluator returns where the builder returns `b`. */
  function Valued(b: Built): Option<(bool, nat)> {
    match b
    case None => None
    case Some((t, j)) => Some((Denote(t), j))
  }

  // ── the evaluator itself ──

  method ParseOr(ts: seq<Token>, start: nat) returns (result: Option<(bool, nat)>)
    requires start <= |ts|
    ensures result == Valued(BuildOr(ts, start))
    decreases |ts| - start, 3
  {
    var first := ParseAnd(ts, start);
    if first.None? {
      return None;
    }
    var (value, i) := first.value;
    ghost var tree := BuildAnd(ts, start).value.0;
    while i < |ts| && ts[i] == OrT
      invariant start < i <= |ts|
      invariant BuildOr(ts, start) == OrLoop(ts, tree, i)
      invariant value == Denote(tree)
    {
      var right := ParseAnd(ts, i + 1);
      if right.None? {
        return None;
      }
      tree := Or(tree, BuildAnd(ts, i + 1).value.0);
      value := value || right.value.0;
      i := right.value.1;
    }
    return Some((value, i));
  }

  method ParseAnd(ts: seq<Token>, start: nat) returns (result: Option<(bool, nat)>)
    requires start <= |ts|
    ensures result == Valued(BuildAnd(ts, start))
    decreases |ts| - start, 2
  {
    var first := ParseNot(ts, start);
    if first.None? {
      return None;
    }
    var (value, i) := first.value;
    ghost var tree := BuildNot(ts, start).value.0;
    while i < |ts| && ts[i] == AndT
      invariant start < i <= |ts|
      invariant BuildAnd(ts, start) == AndLoop(ts, tree, i)
      invariant value == Denote(tree)
    {
      var right := ParseNot(ts, i + 1);
      if right.None? {
        return None;
      }
      tree := And(tree, BuildNot(ts, i + 1).value.0);
      value := value && right.value.0;
      i := right.value.1;
    }
    return Some((value, i));
  }

  method ParseNot(ts: seq<Token>, start: nat) returns (result: Option<(bool, nat)>)
    requires start <= |ts|
    ensures result == Valued(BuildNot(ts, start))
    decreases |ts| - start, 1
  {
    if start < |ts| && ts[start] == NotT {
      var operand := ParseNot(ts, start + 1);
      if operand.None? {
        return None;
      }
      return Some((!operand.value.0, operand.value.1));
    }
    result := ParseAtom(ts, start);
  }

  method ParseAtom(ts: seq<Token>, start: nat) returns (result: Option<(bool, nat)>)
    requires start <= |ts|
    ensures result == Valued(BuildAtom(ts, start))
    decreases |ts| - start, 0
  {
    if start >= |ts| {
      return None;
    }
    match ts[start]
    case LParen =>
      var inner := ParseOr(ts, start + 1);
      if inner.None? || inner.value.1 >= |ts| || ts[inner.value.1] != RParen {
        return None;
      }
      return Some((inner.value.0, inner.value.1 + 1));
    case Truth(b) =>
      return Some((b, start + 1));
    case _ =>
      return None;
  }

  /** The value of a complete token list; None is a syntax error. */
  function EvalTokens(ts: seq<Token>): Option<bool> {
    if ts == [] then None
    else
      match BuildOr(ts, 0)
      case None => None
      case Some((t, j)) => if j == |ts| then Some(Denote(t)) else None
  }

  method EvalTokenList(ts: seq<Token>) returns (result: Option<bool>)
    ensures result == EvalTokens(ts)
  {
    if ts == [] {
      return None;
    }
    var parsed := ParseOr(ts, 0);
    if parsed.None? || parsed.value.1 != |ts| {
      return None;
    }
    return Some(parsed.value.0);
  }

  // ── soundness: what is built reads back as what was consumed ──

  predicate Spans(ts: seq<Token>, i: nat, j: nat, t: Tree<bool>) {
    i <= j <= |ts| && ts[i..j] == Tokens(t)
  }

  predicate Stops(ts: seq<Token>, j: nat, op: Token) {
    j < |ts| ==> ts[j] != op
  }

  lemma SpansJoin(ts: seq<Token>, start: nat, i: nat, j: nat, t: Tree<bool>, r: Tree<bool>)
    requires i < |ts| && Spans(ts, start, i, t) && Spans(ts, i + 1, j, r)
    ensures ts[start..j] == Tokens(t) + [ts[i]] + Tokens(r)
  {
    hide Tokens;
    assert ts[start..j] == ts[start..i] + [ts[i]] + ts[i + 1..j];
  }

  lemma BuildOrSound(ts: seq<Token>, i: nat)
    requires i <= |ts| && BuildOr(ts, i).Some?
    ensures var (t, j) := BuildOr(ts, i).value;
            OrLevel(t) && Spans(ts, i, j, t) && Stops(ts, j, OrT) && Stops(ts, j, AndT)
    decreases |ts| - i, 4
  {
    BuildAndSound(ts, i);
    var (t, j) := BuildAnd(ts, i).value;
    OrLoopSound(ts, i, t, j);
  }

  lemma {:induction false} OrLoopSound(ts: seq<Token>, start: nat, t: Tree<bool>, i: nat)
    requires OrLevel(t) && Spans(ts, start, i, t) && start < i && Stops(ts, i, AndT)
    requires OrLoop(ts, t, i).Some?
    ensures var (u, j) := OrLoop(ts, t, i).value;
            OrLevel(u) && Spans(ts, start, j, u) && Stops(ts, j, OrT) && Stops(ts, j, AndT)
    decreases |ts| - i, 3
  {
    if i < |ts| && ts[i] == OrT {
      BuildAndSound(ts, i + 1);
      var (r, j) := BuildAnd(ts, i + 1).value;
      SpansJoin(ts, start, i, j, t, r);
      OrLoopSound(ts, start, Or(t, r), j);
    }
  }

  lemma BuildAndSound(ts: seq<Token>, i: nat)
    requires i <= |ts| && BuildAnd(ts, i).Some?
    ensures var (t, j) := BuildAnd(ts, i).value; AndLevel(t) && Spans(ts, i, j, t) && Stops(ts, j, AndT)
    decreases |ts| - i, 2
  {
    BuildNotSound(ts, i);
    var (t, j) := BuildNot(ts, i).value;
    AndLoopSound(ts, i, t, j);
  }

  lemma {:induction false} AndLoopSound(ts: seq<Token>, start: nat, t: Tree<bool>, i: nat)
    requires AndLevel(t) && Spans(ts, start, i, t) && start < i
    requires AndLoop(ts, t, i).Some?
    ensures var (u, j) := AndLoop(ts, t, i).value; AndLevel(u) && Spans(ts, start, j, u) && Stops(ts, j, AndT)
    decreases |ts| - i, 1
  {
    if i < |ts| && ts[i] == AndT {
      BuildNotSound(ts, i + 1);
      var (r, j) := BuildNot(ts, i + 1).value;
      SpansJoin(ts, start, i, j, t, r);
      AndLoopSound(ts, start, And(t, r), j);
    }
  }

  lemma {:induction false} BuildNotSound(ts: seq<Token>, i: nat)
    requires i <= |ts| && BuildNot(ts, i).Some?
    ensures var (t, j) := BuildNot(ts, i).value; NotLevel(t) && Spans(ts, i, j, t)
    decreases |ts| - i, 1
  {
    if i < |ts| && ts[i] == NotT {
      BuildNotSound(ts, i + 1);
      var (t, j) := BuildNot(ts, i + 1).value;
      assert ts[i..j] == [ts[i]] + ts[i + 1..j];
    } else if ts[i] == LParen {
      BuildOrSound(ts, i + 1);
      var (t, j) := BuildOr(ts, i + 1).value;
      assert ts[i..j + 1] == [ts[i]] + ts[i + 1..j] + [ts[j]];
    }
  }

  // ── completeness: every tree's tokens are built back into it ──

  lemma SpanSplit(ts: seq<Token>, i: nat, j: nat, l: Tree<bool>, op: Token, r: Tree<bool>)
    requires i <= j <= |ts| && ts[i..j] == Tokens(l) + [op] + Tokens(r)
    ensures var k := i + |Tokens(l)|;
            k < j && Spans(ts, i, k, l) && ts[k] == op && Spans(ts, k + 1, j, r)
  {
    hide Tokens;
    PartSplit(ts, i, j, Tokens(l), op, Tokens(r));
  }

  lemma PartSplit<T>(ts: seq<T>, i: nat, j: nat, a: seq<T>, op: T, b: seq<T>)
    requires i <= j <= |ts| && ts[i..j] == a + [op] + b
    ensures var k := i + |a|; k < j && ts[i..k] == a && ts[k] == op && ts[k + 1..j] == b
  {
    var k, part := i + |a|, ts[i..j];
    assert part[..|a|] == a && part[|a| + 1..] == b;
    assert ts[i..k] == part[..|a|];
    assert ts[k] == part[|a|];
    assert ts[k + 1..j] == part[|a| + 1..];
  }

  lemma {:induction false} BuildsOr(ts: seq<Token>, i: nat, j: nat, t: Tree<bool>)
    requires OrLevel(t) && Spans(ts, i, j, t) && Stops(ts, j, AndT)
    ensures BuildOr(ts, i) == OrLoop(ts, t, j)
    decreases t, 2
  {
    if t.Or? {
      SpanSplit(ts, i, j, t.left, OrT, t.right);
      var k := i + |Tokens(t.left)|;
      BuildsOr(ts, i, k, t.left);
      BuildsAnd(ts, k + 1, j, t.right);
    } else {
      BuildsAnd(ts, i, j, t);
    }
  }

  lemma {:induction false} BuildsAnd(ts: seq<Token>, i: nat, j: nat, t: Tree<bool>)
    requires AndLevel(t) && Spans(ts, i, j, t)
    ensures BuildAnd(ts, i) == AndLoop(ts, t, j)
    decreases t, 1
  {
    if t.And? {
      SpanSplit(ts, i, j, t.left, AndT, t.right);
      var k := i + |Tokens(t.left)|;
      BuildsAnd(ts, i, k, t.left);
      BuildsNot(ts, k + 1, j, t.right);
    } else {
      BuildsNot(ts, i, j, t);
    }
  }

  lemma {:induction false} BuildsNot(ts: seq<Token>, i: nat, j: nat, t: Tree<bool>)
    requires NotLevel(t) && Spans(ts, i, j, t)
    ensures BuildNot(ts, i) == Some((t, j))
    decreases t, 0
  {
    hide BuildAnd, BuildOr, AndLevel, AndLoop;
    match t
    case Leaf(b) =>
      assert ts[i] == ts[i..j][0];
    case Not(x) =>
      PartSplit(ts, i, j, [], NotT, Tokens(x));
      BuildsNot(ts, i + 1, j, x);
    case Paren(x) =>
      assert ts[i..j] == [] + [LParen] + (Tokens(x) + [RParen]);
      PartSplit(ts, i, j, [], LParen, Tokens(x) + [RParen]);
      PartSplit(ts, i + 1, j, Tokens(x), RParen, []);
      BuildsOr(ts, i + 1, j - 1, x);
  }

  // ── what is accepted, and as what ──

  /** The token lists with a value are exactly those of the grammar's trees,
      and the value is the tree's denotation. */
  lemma EvalTokensIff(ts: seq<Token>, b: bool)
    ensures EvalTokens(ts) == Some(b) <==> exists t :: OrLevel(t) && Tokens(t) == ts && Denote(t) == b
  {
    if EvalTokens(ts) == Some(b) {
      BuildOrSound(ts, 0);
      var (t, j) := BuildOr(ts, 0).value;
      assert ts[0..|ts|] == ts;
      assert OrLevel(t) && Tokens(t) == ts && Denote(t) == b;
    }
    if t :| OrLevel(t) && Tokens(t) == ts && Denote(t) == b {
      TreeEvaluates(t);
    }
  }

  lemma TreeEvaluates(t: Tree<bool>)
    requires OrLevel(t)
    ensures BuildOr(Tokens(t), 0) == Some((t, |Tokens(t)|))
    ensures EvalTokens(Tokens(t)) == Some(Denote(t))
  {
    var ts := Tokens(t);
    assert ts[0..|ts|] == ts;
    BuildsOr(ts, 0, |ts|, t);
  }

  /** No token list is the reading of two trees. */
  lemma TreeUnique(t: Tree<bool>, u: Tree<bool>)
    requires OrLevel(t) && OrLevel(u) && Tokens(t) == Tokens(u)
    ensures t == u
  {
    TreeEvaluates(t);
    TreeEvaluates(u);
  }

  // ── truth values do not steer the parser ──

  /** Equal except for the truth values. */
  predicate SameShape(ts: seq<Token>, us: seq<Token>) {
    |ts| == |us| && forall i | 0 <= i < |ts| :: ts[i] == us[i] || (ts[i].Truth? && us[i].Truth?)
  }

  /** `t` with the truth values of `us`, a token list of its shape. */
  function Fill(t: Tree<bool>, us: seq<Token>): (u: Tree<bool>)
    requires SameShape(Tokens(t), us)
    ensures Tokens(u) == us
    ensures NotLevel(u) == NotLevel(t) && AndLevel(u) == AndLevel(t) && OrLevel(u) == OrLevel(t)
  {
    match t
    case Leaf(_) => Leaf(us[0].value)
    case Paren(x) =>
      assert Tokens(t)[1..|us| - 1] == Tokens(x);
      assert us == [LParen] + us[1..|us| - 1] + [RParen];
      Paren(Fill(x, us[1..|us| - 1]))
    case Not(x) =>
      assert Tokens(t)[1..] == Tokens(x);
      assert us == [NotT] + us[1..];
      Not(Fill(x, us[1..]))
    case And(l, r) =>
      FillParts(Tokens(l), AndT, Tokens(r), us);
      And(Fill(l, us[..|Tokens(l)|]), Fill(r, us[|Tokens(l)| + 1..]))
    case Or(l, r) =>
      FillParts(Tokens(l), OrT, Tokens(r), us);
      Or(Fill(l, us[..|Tokens(l)|]), Fill(r, us[|Tokens(l)| + 1..]))
  }

  lemma FillParts(a: seq<Token>, op: Token, b: seq<Token>, us: seq<Token>)
    requires SameShape(a + [op] + b, us) && !op.Truth?
    ensures var n := |a|;
            && SameShape(a, us[..n]) && SameShape(b, us[n + 1..])
            && us == us[..n] + [op] + us[n + 1..]
  {
    var whole, n := a + [op] + b, |a|;
    assert whole[n] == op;
    assert forall i | 0 <= i < n :: whole[i] == a[i];
    assert forall i | 0 <= i < |b| :: whole[n + 1 + i] == b[i];
  }

  /** Where the parser reads a tree, it reads the same tree with the other
      list's truth values from any list of the same shape. */
  lemma ShapeSteers(ts: seq<Token>, us: seq<Token>, i: nat)
    requires SameShape(ts, us) && i <= |ts| && BuildOr(ts, i).Some?
    ensures var (t, j) := BuildOr(ts, i).value;
            && SameShape(Tokens(t), us[i..j])
            && BuildOr(us, i) == Some((Fill(t, us[i..j]), j))
  {
    BuildOrSound(ts, i);
    var (t, j) := BuildOr(ts, i).value;
    BuildsOr(us, i, j, Fill(t, us[i..j]));
  }

  lemma AndSteered(ts: seq<Token>, us: seq<Token>, i: nat)
    requires SameShape(ts, us) && i <= |ts| && BuildAnd(ts, i).Some?
    ensures Consumed(BuildAnd(us, i)) == Consumed(BuildAnd(ts, i))
  {
    BuildAndSound(ts, i);
    var (t, j) := BuildAnd(ts, i).value;
    BuildsAnd(us, i, j, Fill(t, us[i..j]));
  }

  lemma NotSteered(ts: seq<Token>, us: seq<Token>, i: nat)
    requires SameShape(ts, us) && i <= |ts| && BuildNot(ts, i).Some?
    ensures Consumed(BuildNot(us, i)) == Consumed(BuildNot(ts, i))
  {
    BuildNotSound(ts, i);
    var (t, j) := BuildNot(ts, i).value;
    BuildsNot(us, i, j, Fill(t, us[i..j]));
  }

  /** Where reading stopped; None on a syntax error. */
  function Consumed(b: Built): Option<nat> {
    match b
    case None => None
    case Some((_, j)) => Some(j)
  }

  /** Each parse function succeeds on both of two token lists of one shape, and
      reads as far, or fails on both. */
  lemma EachConsumesAlike(ts: seq<Token>, us: seq<Token>, i: nat)
    requires SameShape(ts, us) && i <= |ts|
    ensures Consumed(BuildOr(ts, i)) == Consumed(BuildOr(us, i))
    ensures Consumed(BuildAnd(ts, i)) == Consumed(BuildAnd(us, i))
    ensures Consumed(BuildNot(ts, i)) == Consumed(BuildNot(us, i))
    ensures Consumed(BuildAtom(ts, i)) == Consumed(BuildAtom(us, i))
  {
    hide BuildOr, BuildAnd, Fill;
    if BuildOr(ts, i).Some? {
      ShapeSteers(ts, us, i);
    } else if BuildOr(us, i).Some? {
      ShapeSteers(us, ts, i);
    }
    if BuildAnd(ts, i).Some? {
      AndSteered(ts, us, i);
    } else if BuildAnd(us, i).Some? {
      AndSteered(us, ts, i);
    }
    if BuildNot(ts, i).Some? {
      NotSteered(ts, us, i);
    } else if BuildNot(us, i).Some? {
      NotSteered(us, ts, i);
    }
  }

  /** Pointwise: nothing true in `ts` is false in `us`. */
  predicate Below(ts: seq<Token>, us: seq<Token>) {
    SameShape(ts, us) && forall i | 0 <= i < |ts| :: ts[i] == Truth(true) ==> us[i] == Truth(true)
  }

  lemma {:induction false} FillMonotone(t: Tree<bool>, us: seq<Token>)
    requires Below(Tokens(t), us) && NotT !in us
    ensures Denote(t) ==> Denote(Fill(t, us))
  {
    hide Below, SameShape;
    match t
    case Leaf(b) =>
      BelowLeaf(b, us);
    case Paren(x) =>
      BelowParen(x, us);
      FillMonotone(x, us[1..|us| - 1]);
    case Not(x) =>
      BelowNot(x, us);
    case And(l, r) =>
      BelowParts(Tokens(l), AndT, Tokens(r), us);
      FillMonotone(l, us[..|Tokens(l)|]);
      FillMonotone(r, us[|Tokens(l)| + 1..]);
    case Or(l, r) =>
      BelowParts(Tokens(l), OrT, Tokens(r), us);
      FillMonotone(l, us[..|Tokens(l)|]);
      FillMonotone(r, us[|Tokens(l)| + 1..]);
  }

  lemma BelowLeaf(b: bool, us: seq<Token>)
    requires Below([Truth(b)], us)
    ensures |us| == 1 && us[0].Truth? && (b ==> us[0].value)
  {
    assert [Truth(b)][0] == Truth(b);
  }

  lemma BelowParen(x: Tree<bool>, us: seq<Token>)
    requires Below(Tokens(Paren(x)), us)
    ensures |us| >= 2 && Below(Tokens(x), us[1..|us| - 1])
  {
    var whole := Tokens(Paren(x));
    assert forall i | 0 <= i < |us| - 2 :: Tokens(x)[i] == whole[i + 1];
  }

  lemma BelowNot(x: Tree<bool>, us: seq<Token>)
    requires Below(Tokens(Not(x)), us)
    ensures NotT in us
  {
    assert Tokens(Not(x))[0] == NotT;
    assert us[0] in us;
  }

  lemma BelowParts(a: seq<Token>, op: Token, b: seq<Token>, us: seq<Token>)
    requires Below(a + [op] + b, us) && !op.Truth?
    ensures |us| == |a| + 1 + |b| && Below(a, us[..|a|]) && Below(b, us[|a| + 1..])
  {
    var whole, n := a + [op] + b, |a|;
    FillParts(a, op, b, us);
    assert forall i | 0 <= i < n :: whole[i] == a[i];
    assert forall i | 0 <= i < |b| :: whole[n + 1 + i] == b[i];
  }

  /** Without `not`, making truth values true never makes the value false. */
  lemma EvalMonotone(ts: seq<Token>, us: seq<Token>)
    requires Below(ts, us) && NotT !in us
    ensures EvalTokens(ts) == Some(true) ==> EvalTokens(us) == Some(true)
  {
    if EvalTokens(ts) == Some(true) {
      ShapeSteers(ts, us, 0);
      BuildOrSound(ts, 0);
      var (t, j) := BuildOr(ts, 0).value;
      assert ts[0..|ts|] == ts && us[0..|us|] == us;
      FillMonotone(t, us);
    }
  }
}
