// The editor's operations on a text in two parts, before and behind the cursor.

module EditorLaws {
  import opened Editor

  /** The text l + r with the cursor between. */
  function At(l: seq<Byte>, r: seq<Byte>): Doc {
    Doc(l + r, |l|)
  }

  ghost predicate OneLine(s: seq<Byte>) { NEWLINE !in s }

  ghost predicate AllBlank(s: seq<Byte>) { forall i :: 0 <= i < |s| ==> s[i] in {32, 9, 10} }

  ghost predicate NoBlank(s: seq<Byte>) { forall i :: 0 <= i < |s| ==> s[i] !in {32, 9, 10} }

  /** Nothing, or something that ends with a newline. */
  ghost predicate WholeLines(s: seq<Byte>) { s == [] || s[|s| - 1] == NEWLINE }

  /** Nothing, or something that starts with a newline. */
  ghost predicate LinesBehind(s: seq<Byte>) { s == [] || s[0] == NEWLINE }

  // ---- inserting and deleting ----------------------------------------------------

  /** A byte goes before the cursor while there are fewer than 4095, a block if
      the text stays within 4096; otherwise nothing happens. */
  lemma Inserts(l: seq<Byte>, r: seq<Byte>, c: Byte, s: seq<Byte>)
    requires |l + r| <= 4096
    ensures InsertChar(At(l, r), c) == if |l + r| < 4095 then At(l + [c], r) else At(l, r)
    ensures InsertBlock(At(l, r), s) == if |l + r + s| <= 4096 then At(l + s, r) else At(l, r)
  {
    var d := At(l, r);
    assert d.text[..d.cursor] == l && d.text[d.cursor..] == r;
  }

  /** Backspace takes the byte before the cursor, delete the one behind it. */
  lemma Deletes(l: seq<Byte>, c: Byte, r: seq<Byte>)
    requires |l + r| < 4096
    ensures Backspace(At(l + [c], r)) == At(l, r) && Backspace(At([], r)) == At([], r)
    ensures DeleteUnder(At(l, [c] + r)) == At(l, r) && DeleteUnder(At(l, [])) == At(l, [])
  {
    assert (l + [c] + r)[..|l|] == l && (l + [c] + r)[|l| + 1..] == r;
    assert l + ([c] + r) == l + [c] + r;
  }

  /** A kill forward takes what is left of the line or, if that is nothing, the
      newline behind it; a kill backward takes what is before the cursor in its
      line. */
  lemma Kills(b: seq<Byte>, a: seq<Byte>, l: seq<Byte>, r: seq<Byte>)
    requires |l + a + b| <= 4096 && OneLine(a) && LinesBehind(b)
    ensures KillForward(At(l, a + b)) == At(l, if a == [] && b != [] then b[1..] else b)
    ensures WholeLines(l) && |l + a + r| <= 4096 ==> KillBackward(At(l + a, r)) == At(l, r)
  {
    KillsForward(b, a, l);
    if WholeLines(l) && |l + a + r| <= 4096 { KillsBackward(l, a, r); }
  }

  lemma KillsForward(b: seq<Byte>, a: seq<Byte>, l: seq<Byte>)
    requires |l + a + b| <= 4096 && OneLine(a) && LinesBehind(b)
    ensures KillForward(At(l, a + b)) == At(l, if a == [] && b != [] then b[1..] else b)
  {
    hide LineEnd;
    var t := l + (a + b);
    LineEndIs(l, a, b);
    assert t[..|l|] == l && t[|l| + |a|..] == b;
    if a == [] && b != [] { assert t[|l| + 1..] == b[1..]; }
  }

  lemma KillsBackward(l: seq<Byte>, a: seq<Byte>, r: seq<Byte>)
    requires |l + a + r| <= 4096 && OneLine(a) && WholeLines(l)
    ensures KillBackward(At(l + a, r)) == At(l, r)
  {
    hide LineStart;
    var t := l + a + r;
    LineStartIs(l, a, r);
    assert t[..|l|] == l && t[|l| + |a|..] == r;
  }

  lemma LineEndIs(l: seq<Byte>, a: seq<Byte>, b: seq<Byte>)
    requires OneLine(a) && LinesBehind(b)
    ensures LineEnd(l + (a + b), |l|) == |l| + |a|
  {
    var t := l + (a + b);
    assert forall i :: |l| <= i < |l| + |a| ==> t[i] == a[i - |l|];
    SameLineEnd(t, |l|, |l| + |a|);
  }

  lemma LineStartIs(l: seq<Byte>, a: seq<Byte>, r: seq<Byte>)
    requires OneLine(a) && WholeLines(l)
    ensures LineStart(l + a + r, |l| + |a|) == |l|
  {
    var t := l + a + r;
    assert forall i :: |l| <= i < |l| + |a| ==> t[i] == a[i - |l|];
    SameLineStart(t, |l|, |l| + |a|);
  }

  // ---- words ---------------------------------------------------------------------

  /** A word movement to the left passes blanks and then the word before them, to
      the right the rest of a word and then the blanks behind it. */
  lemma WordMoves(b: seq<Byte>, w: seq<Byte>, s: seq<Byte>, r: seq<Byte>)
    requires |b + w + s + r| <= 4096 && NoBlank(w) && AllBlank(s)
    ensures (b == [] || (w != [] && b[|b| - 1] in {32, 9, 10})) ==> WordLeft(At(b + w + s, r)) == At(b, w + s + r)
    ensures (r == [] || (s != [] && r[0] !in {32, 9, 10})) ==> WordRight(At(b, w + s + r)) == At(b + w + s, r)
  {
    if b == [] || (w != [] && b[|b| - 1] in {32, 9, 10}) { MovesLeft(b, w, s, r); }
    if r == [] || (s != [] && r[0] !in {32, 9, 10}) { MovesRight(b, w, s, r); }
  }

  lemma MovesLeft(b: seq<Byte>, w: seq<Byte>, s: seq<Byte>, r: seq<Byte>)
    requires |b + w + s + r| <= 4096 && NoBlank(w) && AllBlank(s)
    requires b == [] || (w != [] && b[|b| - 1] in {32, 9, 10})
    ensures WordLeft(At(b + w + s, r)) == At(b, w + s + r)
  {
    hide Back, NoBlank, AllBlank;
    var t := b + w + s + r;
    var k := |b + w|;
    WordShape(b, w, s, r);
    SameBack(t, k, k + |s|, true);
    SameBack(t, |b|, k, false);
  }

  lemma MovesRight(b: seq<Byte>, w: seq<Byte>, s: seq<Byte>, r: seq<Byte>)
    requires |b + w + s + r| <= 4096 && NoBlank(w) && AllBlank(s)
    requires r == [] || (s != [] && r[0] !in {32, 9, 10})
    ensures WordRight(At(b, w + s + r)) == At(b + w + s, r)
  {
    hide Forth, NoBlank, AllBlank;
    var t := b + w + s + r;
    var k := |b + w|;
    WordShape(b, w, s, r);
    SameForth(t, |b|, k, false);
    SameForth(t, k, k + |s|, true);
  }

  /** Which bytes of a text in four parts are blank. */
  lemma WordShape(b: seq<Byte>, w: seq<Byte>, s: seq<Byte>, r: seq<Byte>)
    requires NoBlank(w) && AllBlank(s)
    ensures var (t, k) := (b + w + s + r, |b + w|);
            && t == b + (w + s + r)
            && (forall i :: k <= i < k + |s| ==> Blank(t[i])) && (forall i :: |b| <= i < k ==> !Blank(t[i]))
            && (b != [] ==> t[|b| - 1] == b[|b| - 1]) && (r != [] ==> t[k + |s|] == r[0])
  {
    var t, k := b + w + s + r, |b + w|;
    assert forall i :: k <= i < k + |s| ==> t[i] == s[i - k];
    assert forall i :: |b| <= i < k ==> t[i] == w[i - |b|];
  }

  lemma {:induction false} SameBack(t: seq<Byte>, q: nat, p: nat, over: bool)
    requires q <= p <= |t| && (forall i :: q <= i < p ==> Blank(t[i]) == over) && (q == 0 || Blank(t[q - 1]) != over)
    ensures Back(t, p, over) == q
    decreases p
  {
    if q < p { SameBack(t, q, p - 1, over); }
  }

  lemma {:induction false} SameForth(t: seq<Byte>, p: nat, q: nat, over: bool)
    requires p <= q <= |t| && (forall i :: p <= i < q ==> Blank(t[i]) == over) && (q == |t| || Blank(t[q]) != over)
    ensures Forth(t, p, over) == q
    decreases q - p
  {
    if p < q { SameForth(t, p + 1, q, over); }
  }

  // ---- lines ---------------------------------------------------------------------

  /** Up goes to the same column of the line above, or to its end if it is
      shorter; in the first line nothing happens. */
  lemma MovesUp(p: seq<Byte>, a: seq<Byte>, b: seq<Byte>, r: seq<Byte>)
    requires |p + a + [NEWLINE] + b + r| <= 4096 && WholeLines(p) && OneLine(a) && OneLine(b)
    ensures Up(At(p + a + [NEWLINE] + b, r)) == Doc(p + a + [NEWLINE] + b + r, |p| + if |b| <= |a| then |b| else |a|)
    ensures Up(At(b, r)) == At(b, r)
  {
    hide LineStart;
    var l := p + a + [NEWLINE];
    LineStartIs(l, b, r);
    assert l + b + r == p + a + ([NEWLINE] + b + r);
    LineStartIs(p, a, [NEWLINE] + b + r);
    LineStartIs([], b, r);
    assert [] + b + r == b + r;
  }

  /** Down likewise; in the last line nothing happens. */
  lemma MovesDown(p: seq<Byte>, a: seq<Byte>, c: seq<Byte>, b: seq<Byte>, r: seq<Byte>)
    requires |p + a + c + [NEWLINE] + b + r| <= 4096 && WholeLines(p) && OneLine(a) && OneLine(c) && OneLine(b)
    requires LinesBehind(r)
    ensures var k := |p + a + c| + 1;
            Down(At(p + a, c + [NEWLINE] + b + r))
            == Doc(p + a + c + [NEWLINE] + b + r, k + if |a| <= |b| then |a| else |b|)
    ensures Down(At(p + a, c)) == At(p + a, c)
  {
    hide LineStart, LineEnd, OneLine, LinesBehind, WholeLines;
    var behind := [NEWLINE] + b + r;
    var t := p + a + c + [NEWLINE] + b + r;
    StartsLine(b, r);
    assert t == p + a + (c + behind);
    LineStartIs(p, a, c + behind);
    LineEndIs(p + a, c, behind);
    NextEnd(p + a + c, b, r, t);
    assert c + [NEWLINE] + b + r == c + behind;
    DownLast(p, a, c);
  }

  lemma NextEnd(l: seq<Byte>, b: seq<Byte>, r: seq<Byte>, t: seq<Byte>)
    requires OneLine(b) && LinesBehind(r) && t == l + [NEWLINE] + b + r
    ensures LineEnd(t, |l| + 1) == |l| + 1 + |b|
  {
    hide LineEnd;
    assert t == l + [NEWLINE] + (b + r);
    LineEndIs(l + [NEWLINE], b, r);
  }

  lemma StartsLine(b: seq<Byte>, r: seq<Byte>)
    ensures LinesBehind([NEWLINE] + b + r)
  {
  }

  lemma DownLast(p: seq<Byte>, a: seq<Byte>, c: seq<Byte>)
    requires |p + a + c| <= 4096 && OneLine(c)
    ensures Down(At(p + a, c)) == At(p + a, c)
  {
    hide LineStart, LineEnd, OneLine;
    LineEndIs(p + a, c, []);
    assert c + [] == c;
  }

  // ---- row and column ------------------------------------------------------------

  /** How often c occurs in s. */
  function Tally(s: seq<Byte>, c: Byte): nat {
    if s == [] then 0 else Tally(s[..|s| - 1], c) + if s[|s| - 1] == c then 1 else 0
  }

  /** The row is one more than the newlines before the position; the column one
      more than the bytes before it in its line, a tab counting as four. */
  lemma RowAndColumn(l: seq<Byte>, a: seq<Byte>, r: seq<Byte>)
    requires WholeLines(l) && OneLine(a)
    ensures Row(l + a + r, |l| + |a|) == 1 + Tally(l, NEWLINE)
    ensures Column(l + a + r, |l| + |a|) == 1 + |a| + 3 * Tally(a, 9)
  {
    var t := l + a + r;
    RowCounts(t, |l| + |a|);
    assert t[..|l| + |a|] == l + a;
    TallyNone(l, a, NEWLINE);
    ColumnCounts(l, a, r);
  }

  lemma {:induction false} TallyNone(l: seq<Byte>, a: seq<Byte>, c: Byte)
    requires c !in a
    ensures Tally(l + a, c) == Tally(l, c)
    decreases |a|
  {
    if a == [] {
      assert l + a == l;
    } else {
      var n := |a| - 1;
      assert a[n] in a;
      assert (l + a)[..|l| + n] == l + a[..n];
      TallyNone(l, a[..n], c);
    }
  }

  lemma {:induction false} RowCounts(t: seq<Byte>, p: nat)
    requires p <= |t|
    ensures Row(t, p) == 1 + Tally(t[..p], NEWLINE)
    decreases p
  {
    if p > 0 {
      RowCounts(t, p - 1);
      assert t[..p] == t[..p - 1] + [t[p - 1]];
      assert t[..p][..p - 1] == t[..p - 1];
    }
  }

  lemma {:induction false} ColumnCounts(l: seq<Byte>, a: seq<Byte>, r: seq<Byte>)
    requires WholeLines(l) && OneLine(a)
    ensures Column(l + a + r, |l| + |a|) == 1 + |a| + 3 * Tally(a, 9)
    decreases |a|
  {
    if a != [] {
      var n := |a| - 1;
      assert a == a[..n] + [a[n]];
      assert l + a + r == l + a[..n] + ([a[n]] + r);
      ColumnCounts(l, a[..n], [a[n]] + r);
      assert (l + a + r)[|l| + n] == a[n];
    }
  }
}
