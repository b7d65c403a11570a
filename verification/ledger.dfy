/** The agent's hash-chained action ledger: `record` appends a row whose
    hash covers the previous row's, and `verify` walks the chain.

    The hash is a parameter. Nothing is assumed of it: where a guarantee
    rests on collision resistance, the lemma says which collision breaking
    it would take. */
module HashChain {
  import opened PyText

  type Hash = string -> string

  /** The previous hash of the first row: 64 zeros. */
  function Genesis(): string {
    seq(64, i => '0')
  }

  const MAX_OUTPUT := 2048

  /** A row of the `actions` table without its autoincrement id. `output`
      is the one nullable column. */
  datatype Row = Row(ts: int, action: string, target: string, success: int, output: Option<string>,
                     signature: string, prevHash: string, rowHash: string)

  /** What `record` is given. */
  datatype Entry = Entry(action: string, target: string, success: bool, output: string, signature: string)

  datatype Finding = BrokenChain(index: nat) | Tampered(index: nat)

  /** An f-string prints SQL NULL, which Python reads as None, as "None". */
  function Shown(output: Option<string>): string {
    match output
    case None => "None"
    case Some(text) => text
  }

  function Truncate(output: string): string {
    Prefix(output, MAX_OUTPUT)
  }

  function Join(left: string, right: string): string {
    left + "|" + right
  }

  /** The text that is hashed: seven fields joined by bars. */
  function Encode(ts: int, action: string, target: string, success: int, output: string,
                  signature: string, prevHash: string): string {
    Join(IntToString(ts), Join(action, Join(target, Join(IntToString(success),
      Join(Join(output, signature), prevHash)))))
  }

  function Material(row: Row): string {
    Encode(row.ts, row.action, row.target, row.success, Shown(row.output), row.signature, row.prevHash)
  }

  function TipHash(rows: seq<Row>): string {
    if rows == [] then Genesis() else rows[|rows| - 1].rowHash
  }

  /** The row `record` inserts: the hash covers the whole output, the stored
      column only its first 2048 characters. */
  function NewRow(h: Hash, rows: seq<Row>, e: Entry, ts: int): Row {
    var prev := TipHash(rows);
    var success := if e.success then 1 else 0;
    Row(ts, e.action, e.target, success, Some(Truncate(e.output)), e.signature, prev,
        h(Encode(ts, e.action, e.target, success, e.output, e.signature, prev)))
  }

  /** What the chain promises of the row at position `i`. */
  predicate Chained(rows: seq<Row>, i: nat)
    requires i < |rows|
  {
    rows[i].prevHash == TipHash(rows[..i])
  }

  predicate Sealed(h: Hash, row: Row) {
    h(Material(row)) == row.rowHash
  }

  /** An intact table: every row is sealed and names the hash the row before
      it ends in. */
  predicate Accepted(h: Hash, rows: seq<Row>) {
    rows == [] ||
    var n := |rows| - 1;
    Accepted(h, rows[..n]) && Chained(rows, n) && Sealed(h, rows[n])
  }

  /** The complaints about one row, given the hash the row before it ends in. */
  function Complaints(h: Hash, prev: string, row: Row, index: nat): seq<Finding> {
    (if row.prevHash != prev then [BrokenChain(index)] else [])
    + (if h(Material(row)) != row.rowHash then [Tampered(index)] else [])
  }

  function Findings(h: Hash, rows: seq<Row>): seq<Finding> {
    if rows == [] then []
    else
      var n := |rows| - 1;
      Findings(h, rows[..n]) + Complaints(h, TipHash(rows[..n]), rows[n], n)
  }

  class Ledger {
    var rows: seq<Row>
    const hash: Hash

    constructor (hash: Hash)
      ensures rows == [] && this.hash == hash
    {
      this.hash := hash;
      rows := [];
    }

    method Record(e: Entry, ts: int) returns (rowHash: string)
      modifies this
      ensures rows == old(rows) + [NewRow(hash, old(rows), e, ts)]
      ensures rowHash == TipHash(rows)
      ensures var row := rows[|rows| - 1];
              && row.ts == ts && row.action == e.action && row.target == e.target && row.signature == e.signature
              && row.success == (if e.success then 1 else 0)
              && row.output == Some(if |e.output| > 2048 then e.output[..2048] else e.output)
              && row.prevHash == (if old(rows) == [] then Genesis() else old(rows)[|old(rows)| - 1].rowHash)
    {
      var prev := TipHash(rows);
      var success := if e.success then 1 else 0;
      var material := Encode(ts, e.action, e.target, success, e.output, e.signature, prev);
      rowHash := hash(material);
      rows := rows + [Row(ts, e.action, e.target, success, Some(Truncate(e.output)), e.signature, prev, rowHash)];
    }

    /** The walk of `--verify-ledger`: exit code 0 or 3, and a finding for
        each line it prints. */
    method Verify() returns (code: int, findings: seq<Finding>)
      ensures findings == Findings(hash, rows)
      ensures code == if findings == [] then 0 else 3
    {
      hide Material, TipHash, Findings;
      var prev := Genesis();
      var ok := true;
      findings := [];
      WalkStart(hash, rows);
      for k := 0 to |rows|
        invariant prev == TipHash(rows[..k])
        invariant findings == Findings(hash, rows[..k])
        invariant ok <==> findings == []
      {
        var row := rows[k];
        WalkStep(hash, rows, k);
        if row.prevHash != prev {
          findings := findings + [BrokenChain(k)];
          ok := false;
        }
        var recomputed := hash(Material(row));
        if recomputed != row.rowHash {
          findings := findings + [Tampered(k)];
          ok := false;
        }
        prev := row.rowHash;
      }
      assert rows[..|rows|] == rows;
      code := if ok then 0 else 3;
    }
  }

  lemma WalkStart(h: Hash, rows: seq<Row>)
    ensures TipHash(rows[..0]) == Genesis() && Findings(h, rows[..0]) == []
  {
  }

  lemma WalkStep(h: Hash, rows: seq<Row>, k: nat)
    requires k < |rows|
    ensures TipHash(rows[..k + 1]) == rows[k].rowHash
    ensures Findings(h, rows[..k + 1]) == Findings(h, rows[..k]) + Complaints(h, TipHash(rows[..k]), rows[k], k)
  {
    hide Complaints;
    assert rows[..k + 1][..k] == rows[..k];
  }

  /** The walk complains of exactly the rows that are out of place or whose
      contents no longer hash to their seal. */
  lemma {:induction false} FindingsExact(h: Hash, rows: seq<Row>, i: nat)
    ensures BrokenChain(i) in Findings(h, rows) <==>
            i < |rows| && rows[i].prevHash != if i == 0 then Genesis() else rows[i - 1].rowHash
    ensures Tampered(i) in Findings(h, rows) <==> i < |rows| && !Sealed(h, rows[i])
  {
    hide Complaints, Material, TipHash, Sealed;
    if rows != [] {
      var n := |rows| - 1;
      FindingsExact(h, rows[..n], i);
      ComplaintsExact(h, TipHash(rows[..n]), rows[n], n, i);
      TipBefore(rows, n);
    }
  }

  lemma TipBefore(rows: seq<Row>, n: nat)
    requires n < |rows|
    ensures TipHash(rows[..n]) == if n == 0 then Genesis() else rows[n - 1].rowHash
  {
  }

  lemma ComplaintsExact(h: Hash, prev: string, row: Row, n: nat, i: nat)
    ensures BrokenChain(i) in Complaints(h, prev, row, n) <==> i == n && row.prevHash != prev
    ensures Tampered(i) in Complaints(h, prev, row, n) <==> i == n && !Sealed(h, row)
  {
    hide Material;
  }

  /** So it is silent, and returns 0, exactly on intact tables. */
  lemma {:induction false} SilentIffAccepted(h: Hash, rows: seq<Row>)
    ensures Findings(h, rows) == [] <==> Accepted(h, rows)
  {
    hide Material;
    if rows != [] {
      SilentIffAccepted(h, rows[..|rows| - 1]);
    }
  }

  // ── the encoding ──

  /** No bar in the text fields the agent copies from an order. */
  predicate Unbarred(row: Row) {
    Free(row.action, '|') && Free(row.target, '|') && Free(row.signature, '|')
  }

  /** Hashes are printed without bars (in fact in hexadecimal). */
  ghost predicate BarFree(h: Hash) {
    forall x: string :: Free(h(x), '|')
  }

  /** The rows agree in everything but, possibly, NULL against "None". */
  predicate SameRow(r: Row, s: Row) {
    r.(output := Some(Shown(r.output))) == s.(output := Some(Shown(s.output)))
  }

  lemma FirstField(a: string, r: string, b: string, s: string)
    requires Free(a, '|') && Free(b, '|')
    requires Join(a, r) == Join(b, s)
    ensures a == b && r == s
  {
    IndexOfFirst(a, '|', r);
    IndexOfFirst(b, '|', s);
    var whole := Join(a, r);
    assert whole == a + ['|'] + r == b + ['|'] + s;
    assert a == whole[..|a|] && b == whole[..|b|];
    assert r == whole[|a| + 1..] && s == whole[|b| + 1..];
  }

  lemma LastField(r: string, a: string, s: string, b: string)
    requires Free(a, '|') && Free(b, '|')
    requires Join(r, a) == Join(s, b)
    ensures a == b && r == s
  {
    var whole := Join(r, a);
    assert whole[|r|] == '|' && whole[|s|] == '|';
    assert forall i | |r| < i < |whole| :: whole[i] == a[i - |r| - 1];
    assert forall i | |s| < i < |whole| :: whole[i] == b[i - |s| - 1];
    assert |r| == |s|;
    assert r == whole[..|r|] && s == whole[..|s|];
    assert a == whole[|r| + 1..] && b == whole[|s| + 1..];
  }

  /** Peeling fields off both ends: the output in the middle may contain
      bars and is still recovered. */
  lemma EncodingInjective(r: Row, s: Row)
    requires Unbarred(r) && Unbarred(s) && Free(r.prevHash, '|') && Free(s.prevHash, '|')
    requires Material(r) == Material(s)
    ensures SameRow(r.(rowHash := ""), s.(rowHash := ""))
  {
    var r5, s5 := Join(Shown(r.output), r.signature), Join(Shown(s.output), s.signature);
    var r4, s4 := Join(r5, r.prevHash), Join(s5, s.prevHash);
    var r3, s3 := Join(IntToString(r.success), r4), Join(IntToString(s.success), s4);
    var r2, s2 := Join(r.target, r3), Join(s.target, s3);
    IntToStringFree(r.ts, '|');
    IntToStringFree(s.ts, '|');
    IntToStringFree(r.success, '|');
    IntToStringFree(s.success, '|');
    FirstField(IntToString(r.ts), Join(r.action, r2), IntToString(s.ts), Join(s.action, s2));
    FirstField(r.action, r2, s.action, s2);
    FirstField(r.target, r3, s.target, s3);
    FirstField(IntToString(r.success), r4, IntToString(s.success), s4);
    LastField(r5, r.prevHash, s5, s.prevHash);
    LastField(Shown(r.output), r.signature, Shown(s.output), s.signature);
    IntToStringInjective(r.ts, s.ts);
    IntToStringInjective(r.success, s.success);
  }

  /** The hashed text of a row, and the text behind the first row. */
  lemma MaterialExact(row: Row)
    ensures Material(row)
         == IntToString(row.ts) + "|" + row.action + "|" + row.target + "|" + IntToString(row.success) + "|"
            + (if row.output == None then "None" else row.output.value) + "|" + row.signature + "|" + row.prevHash
    ensures |Genesis()| == 64 && forall i | 0 <= i < 64 :: Genesis()[i] == '0'
  {
    var ts, ok, out := IntToString(row.ts), IntToString(row.success), Shown(row.output);
    Regroup(ts, row.action, Join(row.target, Join(ok, Join(Join(out, row.signature), row.prevHash))));
    Regroup(Join(ts, row.action), row.target, Join(ok, Join(Join(out, row.signature), row.prevHash)));
    Regroup(Join(Join(ts, row.action), row.target), ok, Join(Join(out, row.signature), row.prevHash));
    Regroup(Join(Join(Join(ts, row.action), row.target), ok), Join(out, row.signature), row.prevHash);
    Regroup(Join(Join(Join(ts, row.action), row.target), ok), out, row.signature);
  }

  lemma Regroup(a: string, b: string, c: string)
    ensures Join(a, Join(b, c)) == Join(Join(a, b), c)
  {
    assert a + "|" + (b + "|" + c) == a + "|" + b + "|" + c;
  }

  // ── when the text determines the row ──

  /** No bar in any of the four texts: what the encoding needs of a row alone,
      whatever the row it is compared with. */
  predicate NoBar(row: Row) {
    Unbarred(row) && Free(Shown(row.output), '|')
  }

  /** How many bars a text holds. */
  function Bars(s: string): nat {
    if s == "" then 0 else (if s[0] == '|' then 1 else 0) + Bars(s[1..])
  }

  lemma {:induction false} BarsJoin(left: string, right: string)
    ensures Bars(Join(left, right)) == Bars(left) + 1 + Bars(right)
  {
    if left == "" {
      assert Join(left, right)[1..] == right;
    } else {
      assert Join(left, right)[1..] == Join(left[1..], right);
      BarsJoin(left[1..], right);
    }
  }

  lemma {:induction false} FreeMeansNoBars(s: string)
    ensures Free(s, '|') <==> Bars(s) == 0
  {
    if s != "" {
      FreeMeansNoBars(s[1..]);
      assert s == [s[0]] + s[1..];
    }
  }

  lemma BarsOfMaterial(row: Row)
    ensures Bars(Material(row)) == 6 + Bars(row.action) + Bars(row.target) + Bars(Shown(row.output))
                                     + Bars(row.signature) + Bars(row.prevHash)
  {
    hide Bars, Join, Shown;
    var ts, ok := IntToString(row.ts), IntToString(row.success);
    var r5 := Join(Shown(row.output), row.signature);
    var r4 := Join(r5, row.prevHash);
    var r3 := Join(ok, r4);
    var r2 := Join(row.target, r3);
    IntToStringFree(row.ts, '|');
    IntToStringFree(row.success, '|');
    FreeMeansNoBars(ts);
    FreeMeansNoBars(ok);
    BarsJoin(Shown(row.output), row.signature);
    BarsJoin(r5, row.prevHash);
    BarsJoin(ok, r4);
    BarsJoin(row.target, r3);
    BarsJoin(row.action, r2);
    BarsJoin(ts, Join(row.action, r2));
  }

  /** A text of six bars leaves none for any field of any row. */
  lemma NoBarIsShared(r: Row, s: Row)
    requires NoBar(r) && Free(r.prevHash, '|') && Material(r) == Material(s)
    ensures NoBar(s) && Free(s.prevHash, '|')
  {
    BarsOfMaterial(r);
    BarsOfMaterial(s);
    hide Bars, Material, Free, Shown;
    FreeMeansNoBars(r.action);
    FreeMeansNoBars(r.target);
    FreeMeansNoBars(Shown(r.output));
    FreeMeansNoBars(r.signature);
    FreeMeansNoBars(r.prevHash);
    FreeMeansNoBars(s.action);
    FreeMeansNoBars(s.target);
    FreeMeansNoBars(Shown(s.output));
    FreeMeansNoBars(s.signature);
    FreeMeansNoBars(s.prevHash);
  }

  /** The row with one barred field cut at its first bar and the piece moved
      into the field beside it. */
  function Rival(row: Row): Row
    requires !NoBar(row)
  {
    var a, t, o, g := row.action, row.target, Shown(row.output), row.signature;
    if !Free(a, '|') then row.(action := Head(a), target := Join(Tail(a), t))
    else if !Free(t, '|') then row.(action := Join(a, Head(t)), target := Tail(t))
    else if !Free(o, '|') then row.(output := Some(Head(o)), signature := Join(Tail(o), g))
    else row.(output := Some(Join(o, Head(g))), signature := Tail(g))
  }

  function Head(s: string): (r: string)
    requires !Free(s, '|')
    ensures |r| < |s|
  {
    s[..IndexOf(s, '|')]
  }

  function Tail(s: string): (r: string)
    requires !Free(s, '|')
    ensures |r| < |s|
  {
    s[IndexOf(s, '|') + 1..]
  }

  lemma CutJoins(s: string)
    requires !Free(s, '|')
    ensures Join(Head(s), Tail(s)) == s
  {
    var c := IndexOf(s, '|');
    assert s == s[..c] + [s[c]] + s[c + 1..];
  }

  lemma JoinAssociates(a: string, b: string, c: string)
    ensures Join(Join(a, b), c) == Join(a, Join(b, c))
  {
  }

  /** It is a different row with the same text to hash. */
  lemma RivalIsAmbiguous(row: Row)
    requires !NoBar(row)
    ensures var s := Rival(row);
            && Material(s) == Material(row) && !SameRow(row, s)
            && s.prevHash == row.prevHash && s.rowHash == row.rowHash
  {
    hide Head, Tail, Free, Join;
    var a, t, o, g := row.action, row.target, Shown(row.output), row.signature;
    var rest := Join(IntToString(row.success), Join(Join(o, g), row.prevHash));
    if !Free(a, '|') {
      CutJoins(a);
      JoinAssociates(Head(a), Tail(a), Join(t, rest));
      JoinAssociates(Tail(a), t, rest);
    } else if !Free(t, '|') {
      CutJoins(t);
      JoinAssociates(a, Head(t), Join(Tail(t), rest));
      JoinAssociates(Head(t), Tail(t), rest);
    } else if !Free(o, '|') {
      CutJoins(o);
      JoinAssociates(Head(o), Tail(o), g);
    } else {
      CutJoins(g);
      JoinAssociates(o, Head(g), Tail(g));
    }
  }

  /** A row's text determines it if and only if none of its four texts holds a
      bar. */
  lemma TextDeterminesRowIff(row: Row)
    requires Free(row.prevHash, '|')
    ensures NoBar(row) <==>
            forall s: Row | s.rowHash == row.rowHash && Free(s.prevHash, '|') && Material(s) == Material(row) ::
              SameRow(row, s)
  {
    hide Material, SameRow, NoBar;
    if NoBar(row) {
      forall s: Row | s.rowHash == row.rowHash && Free(s.prevHash, '|') && Material(s) == Material(row)
        ensures SameRow(row, s)
      {
        SameTextSameRow(row, s);
      }
    } else {
      RivalIsAmbiguous(row);
      assert Material(Rival(row)) == Material(row);
    }
  }

  /** Texts compared either way: one row without bars at all, or two whose bars
      are in their outputs only. */
  predicate Comparable(r: Row, s: Row) {
    NoBar(r) || (Unbarred(r) && Unbarred(s))
  }

  lemma SameTextSameRow(r: Row, s: Row)
    requires Comparable(r, s) && Free(r.prevHash, '|') && Free(s.prevHash, '|')
    requires Material(r) == Material(s) && r.rowHash == s.rowHash
    ensures SameRow(r, s)
  {
    hide Material;
    if NoBar(r) {
      NoBarIsShared(r, s);
    }
    EncodingInjective(r, s);
  }

  // ── the chain ──

  function Texts(rows: seq<Row>): set<string> {
    set row | row in rows :: Material(row)
  }

  /** What it would take to forge history behind an unchanged tip: two of
      the hashed texts with one hash, or one hashing to the genesis value. */
  ghost predicate Forged(h: Hash, texts: set<string>) {
    || (exists x, y | x in texts && y in texts :: x != y && h(x) == h(y))
    || (exists x | x in texts :: h(x) == Genesis())
  }

  predicate SameRows(t: seq<Row>, u: seq<Row>) {
    |t| == |u| && forall i | 0 <= i < |t| :: SameRow(t[i], u[i])
  }

  predicate AllUnbarred(rows: seq<Row>) {
    forall i | 0 <= i < |rows| :: Unbarred(rows[i])
  }

  predicate NoBars(rows: seq<Row>) {
    forall i | 0 <= i < |rows| :: NoBar(rows[i])
  }

  /** Either one table is free of bars, or both have them in outputs only. */
  predicate TablesComparable(t: seq<Row>, u: seq<Row>) {
    NoBars(t) || (AllUnbarred(t) && AllUnbarred(u))
  }

  /** Tamper evidence: two accepted tables with the same last hash are the
      same table, row by row, unless the hash itself has been broken. */
  lemma {:induction false} TipDeterminesHistory(h: Hash, t: seq<Row>, u: seq<Row>)
    requires BarFree(h) && Accepted(h, t) && Accepted(h, u)
    requires TablesComparable(t, u)
    requires TipHash(t) == TipHash(u)
    ensures SameRows(t, u) || Forged(h, Texts(t) + Texts(u))
  {
    hide Accepted, Material, SameRow, Forged, Texts, Unbarred;
    if t == [] || u == [] {
      if t != [] {
        LastRow(h, t);
        GenesisForged(h, Texts(t) + Texts(u), Material(t[|t| - 1]));
      } else if u != [] {
        LastRow(h, u);
        GenesisForged(h, Texts(t) + Texts(u), Material(u[|u| - 1]));
      }
    } else {
      var m, n := |t| - 1, |u| - 1;
      LastRow(h, t);
      LastRow(h, u);
      if Material(t[m]) == Material(u[n]) {
        TipFree(h, t[..m]);
        TipFree(h, u[..n]);
        SealedAlike(h, t[m], u[n]);
        TipDeterminesHistory(h, t[..m], u[..n]);
        if !SameRows(t[..m], u[..n]) {
          PrefixTexts(t, m);
          PrefixTexts(u, n);
          ForgedGrows(h, Texts(t[..m]) + Texts(u[..n]), Texts(t) + Texts(u));
        }
      } else {
        CollisionForged(h, Texts(t) + Texts(u), Material(t[m]), Material(u[n]));
      }
    }
  }

  lemma TipFree(h: Hash, rows: seq<Row>)
    requires BarFree(h) && Accepted(h, rows)
    ensures Free(TipHash(rows), '|')
  {
    hide Material;
  }

  lemma SealedAlike(h: Hash, r: Row, s: Row)
    requires Comparable(r, s) && Free(r.prevHash, '|') && Free(s.prevHash, '|')
    requires Sealed(h, r) && Sealed(h, s)
    requires Material(r) == Material(s)
    ensures SameRow(r, s) && r.prevHash == s.prevHash
  {
    SameTextSameRow(r, s);
  }

  lemma GenesisForged(h: Hash, texts: set<string>, x: string)
    requires x in texts && h(x) == Genesis()
    ensures Forged(h, texts)
  {
  }

  lemma CollisionForged(h: Hash, texts: set<string>, x: string, y: string)
    requires x in texts && y in texts && x != y && h(x) == h(y)
    ensures Forged(h, texts)
  {
  }

  lemma ForgedGrows(h: Hash, texts: set<string>, more: set<string>)
    requires Forged(h, texts) && texts <= more
    ensures Forged(h, more)
  {
  }

  lemma PrefixTexts(rows: seq<Row>, n: nat)
    requires n <= |rows|
    ensures Texts(rows[..n]) <= Texts(rows)
  {
    hide Material;
  }

  lemma LastRow(h: Hash, rows: seq<Row>)
    requires rows != [] && Accepted(h, rows)
    ensures var n := |rows| - 1;
            && Accepted(h, rows[..n]) && rows[n].prevHash == TipHash(rows[..n])
            && Sealed(h, rows[n]) && h(Material(rows[n])) == TipHash(rows)
            && Material(rows[n]) in Texts(rows)
  {
    hide Material;
  }

  lemma {:induction false} SwapAccepted(h: Hash, t: seq<Row>, i: nat, s: Row)
    requires Accepted(h, t) && i < |t|
    requires Material(s) == Material(t[i]) && s.prevHash == t[i].prevHash && s.rowHash == t[i].rowHash
    ensures Accepted(h, t[i := s]) && TipHash(t[i := s]) == TipHash(t)
  {
    hide Material, Accepted;
    var n := |t| - 1;
    var u := t[i := s];
    AcceptedStep(h, t);
    AcceptedStep(h, u);
    if i < n {
      assert u[..n] == t[..n][i := s];
      SwapAccepted(h, t[..n], i, s);
    } else {
      assert u[..n] == t[..n];
    }
  }

  lemma AcceptedStep(h: Hash, rows: seq<Row>)
    requires rows != []
    ensures var n := |rows| - 1;
            Accepted(h, rows) <==>
            Accepted(h, rows[..n]) && rows[n].prevHash == TipHash(rows[..n]) && h(Material(rows[n])) == rows[n].rowHash
  {
    hide Material;
  }

  lemma SameTexts(t: seq<Row>, i: nat, s: Row)
    requires i < |t| && Material(s) == Material(t[i])
    ensures Texts(t[i := s]) == Texts(t)
  {
    hide Material;
    var u := t[i := s];
    forall x
      ensures x in Texts(u) <==> x in Texts(t)
    {
      if x in Texts(t) {
        var k :| 0 <= k < |t| && Material(t[k]) == x;
        assert u[k] in u && Material(u[k]) == x;
      }
      if x in Texts(u) {
        var k :| 0 <= k < |u| && Material(u[k]) == x;
        assert t[k] in t && Material(t[k]) == x;
      }
    }
  }

  /** Wherever a row of an accepted table holds a bar, another table with the
      same texts and the same last hash is accepted, whatever the hash. */
  lemma BarIsAmbiguous(h: Hash, t: seq<Row>, i: nat)
    requires Accepted(h, t) && i < |t| && !NoBar(t[i])
    ensures var u := t[i := Rival(t[i])];
            Accepted(h, u) && TipHash(u) == TipHash(t) && Texts(u) == Texts(t) && !SameRows(t, u)
  {
    hide Accepted, NoBar, SameRow, Texts, Rival, Material, TipHash;
    RivalIsAmbiguous(t[i]);
    SwapAccepted(h, t, i, Rival(t[i]));
    SameTexts(t, i, Rival(t[i]));
    assert !SameRow(t[i], t[i := Rival(t[i])][i]);
  }

  /** An accepted table is the only one with its last hash. */
  ghost predicate Unrivalled(h: Hash, t: seq<Row>) {
    forall u | Accepted(h, u) && TipHash(u) == TipHash(t) :: SameRows(t, u) || Forged(h, Texts(t) + Texts(u))
  }

  /** Exactly when the last hash determines the table, rivals of any kind
      included: no text of any row holds a bar (or the table's own texts have
      already broken the hash). */
  lemma TipDeterminesHistoryIff(h: Hash, t: seq<Row>)
    requires BarFree(h) && Accepted(h, t)
    ensures Unrivalled(h, t) <==> NoBars(t) || Forged(h, Texts(t))
  {
    hide Accepted, Forged, NoBar, SameRow, Texts, BarFree;
    if NoBars(t) {
      forall u | Accepted(h, u) && TipHash(u) == TipHash(t)
        ensures SameRows(t, u) || Forged(h, Texts(t) + Texts(u))
      {
        TipDeterminesHistory(h, t, u);
      }
    } else if Forged(h, Texts(t)) {
      forall u: seq<Row>
        ensures Forged(h, Texts(t) + Texts(u))
      {
        ForgedGrows(h, Texts(t), Texts(t) + Texts(u));
      }
    } else {
      var i :| 0 <= i < |t| && !NoBar(t[i]);
      BarIsAmbiguous(h, t, i);
      var u := t[i := Rival(t[i])];
      assert Texts(t) + Texts(u) == Texts(t);
    }
  }

  /** NULL and "None", the two outputs that print alike, exchanged. */
  function Reprinted(row: Row): (s: Row)
    requires Shown(row.output) == "None"
    ensures s != row && Material(s) == Material(row) && s.prevHash == row.prevHash && s.rowHash == row.rowHash
  {
    row.(output := if row.output.None? then Some("None") else None)
  }

  ghost predicate Unique(h: Hash, t: seq<Row>) {
    forall u | Accepted(h, u) && TipHash(u) == TipHash(t) :: t == u || Forged(h, Texts(t) + Texts(u))
  }

  predicate NoNone(t: seq<Row>) {
    forall i | 0 <= i < |t| :: Shown(t[i].output) != "None"
  }

  /** And for tables to be equal outright, no output may print as None
      either. */
  lemma TipDeterminesTableIff(h: Hash, t: seq<Row>)
    requires BarFree(h) && Accepted(h, t)
    ensures Unique(h, t) <==> (NoBars(t) && NoNone(t)) || Forged(h, Texts(t))
  {
    hide Accepted, Forged, NoBar, SameRow, Texts, BarFree, Shown, Unique, Rival, TipHash;
    if Forged(h, Texts(t)) {
      ForgedIsUnique(h, t);
    } else if !NoBars(t) {
      var i :| 0 <= i < |t| && !NoBar(t[i]);
      BarIsAmbiguous(h, t, i);
      SameAsItself(t);
      NotUnique(h, t, t[i := Rival(t[i])]);
    } else if !NoNone(t) {
      var i :| 0 <= i < |t| && Shown(t[i].output) == "None";
      var s := Reprinted(t[i]);
      SwapAccepted(h, t, i, s);
      SameTexts(t, i, s);
      assert t[i := s][i] != t[i];
      NotUnique(h, t, t[i := s]);
    } else {
      PlainIsUnique(h, t);
    }
  }

  lemma ForgedIsUnique(h: Hash, t: seq<Row>)
    ensures Forged(h, Texts(t)) ==> Unique(h, t)
  {
    hide Accepted, Forged, Texts;
    if Forged(h, Texts(t)) {
      forall u: seq<Row>
        ensures Forged(h, Texts(t) + Texts(u))
      {
        ForgedGrows(h, Texts(t), Texts(t) + Texts(u));
      }
    }
  }

  lemma NotUnique(h: Hash, t: seq<Row>, u: seq<Row>)
    requires Accepted(h, u) && TipHash(u) == TipHash(t) && Texts(u) == Texts(t) && u != t && !Forged(h, Texts(t))
    ensures !Unique(h, t)
  {
    hide Accepted, Forged, Texts, TipHash;
    assert Texts(t) + Texts(u) == Texts(t);
  }

  lemma PlainIsUnique(h: Hash, t: seq<Row>)
    requires BarFree(h) && Accepted(h, t) && NoBars(t) && NoNone(t)
    ensures Unique(h, t)
  {
    hide Accepted, Forged, NoBar, SameRow, Texts, BarFree, Shown, TipHash;
    forall u | Accepted(h, u) && TipHash(u) == TipHash(t)
      ensures t == u || Forged(h, Texts(t) + Texts(u))
    {
      TipDeterminesHistory(h, t, u);
      if SameRows(t, u) {
        SamePlainRows(t, u);
      }
    }
  }

  lemma SameAsItself(t: seq<Row>)
    ensures SameRows(t, t)
  {
  }

  lemma SamePlainRows(t: seq<Row>, u: seq<Row>)
    requires SameRows(t, u) && NoNone(t)
    ensures t == u
  {
    forall i | 0 <= i < |t|
      ensures t[i] == u[i]
    {
      assert SameRow(t[i], u[i]);
      assert Shown(t[i].output) == Shown(u[i].output);
    }
  }

  /** For tables without NULL outputs, "the same" means equal. */
  lemma SameRowsAreEqual(t: seq<Row>, u: seq<Row>)
    requires SameRows(t, u)
    requires forall i | 0 <= i < |t| :: t[i].output.Some?
    requires forall i | 0 <= i < |u| :: u[i].output.Some?
    ensures t == u
  {
    forall i | 0 <= i < |t|
      ensures t[i] == u[i]
    {
      assert SameRow(t[i], u[i]);
    }
  }

  /** NULL and "None" print alike, so the chain cannot tell them apart. */
  lemma NullOutputIsAmbiguous(h: Hash, row: Row)
    requires row.prevHash == Genesis() && Sealed(h, row) && row.output == Some("None")
    ensures Accepted(h, [row]) && Accepted(h, [row.(output := None)])
    ensures TipHash([row]) == TipHash([row.(output := None)])
  {
    var other := row.(output := None);
    assert Material(other) == Material(row);
    assert [row][..0] == [] && [other][..0] == [];
    assert Accepted(h, []);
  }

  // ── tables built by `record` alone ──

  datatype Call = Call(entry: Entry, ts: int)

  function Recorded(h: Hash, calls: seq<Call>): seq<Row> {
    if calls == [] then []
    else
      var rows := Recorded(h, calls[..|calls| - 1]);
      var last := calls[|calls| - 1];
      rows + [NewRow(h, rows, last.entry, last.ts)]
  }

  /** The table after some more entries, all recorded at one time. */
  function Written(h: Hash, rows: seq<Row>, entries: seq<Entry>, now: int): seq<Row> {
    if entries == [] then rows
    else
      var before := Written(h, rows, entries[..|entries| - 1], now);
      before + [NewRow(h, before, entries[|entries| - 1], now)]
  }

  lemma WrittenNothing(h: Hash, rows: seq<Row>, now: int)
    ensures Written(h, rows, [], now) == rows
  {
  }

  lemma WrittenOneMore(h: Hash, rows: seq<Row>, entries: seq<Entry>, e: Entry, now: int)
    ensures Written(h, rows, entries + [e], now)
         == Written(h, rows, entries, now) + [NewRow(h, Written(h, rows, entries, now), e, now)]
  {
    hide NewRow;
    assert (entries + [e])[..|entries|] == entries;
  }

  lemma {:induction false} WrittenTwice(h: Hash, rows: seq<Row>, a: seq<Entry>, b: seq<Entry>, now: int)
    ensures Written(h, Written(h, rows, a, now), b, now) == Written(h, rows, a + b, now)
  {
    hide NewRow;
    if b == [] {
      assert a + b == a;
    } else {
      var n := |b| - 1;
      WrittenTwice(h, rows, a, b[..n], now);
      assert (a + b)[..|a + b| - 1] == a + b[..n];
    }
  }

  function CallsOf(entries: seq<Entry>, now: int): (r: seq<Call>)
    ensures |r| == |entries| && forall i | 0 <= i < |r| :: r[i] == Call(entries[i], now)
  {
    seq(|entries|, i requires 0 <= i < |entries| => Call(entries[i], now))
  }

  lemma {:induction false} WrittenIsRecorded(h: Hash, calls: seq<Call>, entries: seq<Entry>, now: int)
    ensures Written(h, Recorded(h, calls), entries, now) == Recorded(h, calls + CallsOf(entries, now))
  {
    hide NewRow;
    if entries == [] {
      assert calls + CallsOf(entries, now) == calls;
    } else {
      var n := |entries| - 1;
      WrittenIsRecorded(h, calls, entries[..n], now);
      var all := calls + CallsOf(entries, now);
      assert all[..|all| - 1] == calls + CallsOf(entries[..n], now);
    }
  }

  /** A recorded row passes the walk exactly when its output was not cut;
      a cut one passes only if the hash collides on the two texts. */
  lemma RecordedRowSealed(h: Hash, rows: seq<Row>, c: Call)
    ensures |c.entry.output| <= 2048 ==> Sealed(h, NewRow(h, rows, c.entry, c.ts))
    ensures |c.entry.output| > 2048 && Sealed(h, NewRow(h, rows, c.entry, c.ts)) ==>
              exists x: string, y: string :: x != y && h(x) == h(y)
  {
    var e, row := c.entry, NewRow(h, rows, c.entry, c.ts);
    var full := Encode(c.ts, e.action, e.target, row.success, e.output, e.signature, row.prevHash);
    if |e.output| > MAX_OUTPUT {
      assert |Material(row)| < |full|;
      assert Material(row) != full;
      if Sealed(h, row) {
        assert h(Material(row)) == h(full);
      }
    }
  }

  ghost predicate Injective(h: Hash) {
    !exists x: string, y: string :: x != y && h(x) == h(y)
  }

  predicate NoneCut(calls: seq<Call>) {
    forall i | 0 <= i < |calls| :: |calls[i].entry.output| <= 2048
  }

  /** The ledger an agent writes is accepted by its own walk if and only if
      no recorded output was longer than 2048 characters (a longer one is
      reported as tampering unless the hash collides). */
  lemma {:induction false} RecordedAcceptedIff(h: Hash, calls: seq<Call>)
    requires Injective(h)
    ensures Accepted(h, Recorded(h, calls)) <==> NoneCut(calls)
  {
    hide Accepted, NewRow, Sealed, NoneCut;
    NoneCutSteps(calls);
    if calls != [] {
      var n := |calls| - 1;
      RecordedAcceptedIff(h, calls[..n]);
      RecordedRowSealed(h, Recorded(h, calls[..n]), calls[n]);
      AcceptedRecord(h, Recorded(h, calls[..n]), calls[n]);
    } else {
      AcceptedEmpty(h);
    }
  }

  lemma AcceptedEmpty(h: Hash)
    ensures Accepted(h, [])
  {
  }

  lemma NoneCutSteps(calls: seq<Call>)
    ensures NoneCut([])
    ensures calls != [] ==>
              (NoneCut(calls) <==> NoneCut(calls[..|calls| - 1]) && |calls[|calls| - 1].entry.output| <= 2048)
  {
  }

  lemma AcceptedRecord(h: Hash, rows: seq<Row>, c: Call)
    ensures var row := NewRow(h, rows, c.entry, c.ts);
            Accepted(h, rows + [row]) <==> Accepted(h, rows) && Sealed(h, row)
  {
    hide Sealed, Encode;
    var row := NewRow(h, rows, c.entry, c.ts);
    assert (rows + [row])[..|rows|] == rows;
  }
}
