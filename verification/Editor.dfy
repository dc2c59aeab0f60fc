// The editor's text buffer: a fixed array shifted in place, refining a text
// with a cursor, and its movements by word, line and screen.

module Editor {

  const MAX_EDITOR_BUF: nat := 4096
  const WINDOW: nat := 21

  type Byte = bv8

  const NEWLINE: Byte := 10

  datatype Doc = Doc(text: seq<Byte>, cursor: nat)

  predicate Blank(c: Byte) { c == 32 || c == 9 || c == NEWLINE }

  // ---- what the operations mean ------------------------------------------------

  predicate Sound(d: Doc) {
    d.cursor <= |d.text| <= MAX_EDITOR_BUF
  }

  function InsertChar(d: Doc, c: Byte): (e: Doc)
    requires Sound(d)
    ensures Sound(e)
  {
    if |d.text| >= MAX_EDITOR_BUF - 1 then d
    else Doc(d.text[..d.cursor] + [c] + d.text[d.cursor..], d.cursor + 1)
  }

  function InsertBlock(d: Doc, s: seq<Byte>): (e: Doc)
    requires Sound(d)
    ensures Sound(e)
  {
    if |d.text| + |s| > MAX_EDITOR_BUF then d
    else Doc(d.text[..d.cursor] + s + d.text[d.cursor..], d.cursor + |s|)
  }

  /** Removes the bytes from a to b. */
  function Cut(text: seq<Byte>, a: nat, b: nat): seq<Byte>
    requires a <= b <= |text|
  {
    text[..a] + text[b..]
  }

  function Backspace(d: Doc): (e: Doc)
    requires Sound(d)
    ensures Sound(e)
  {
    if d.cursor == 0 then d else Doc(Cut(d.text, d.cursor - 1, d.cursor), d.cursor - 1)
  }

  function DeleteUnder(d: Doc): (e: Doc)
    requires Sound(d)
    ensures Sound(e)
  {
    if d.cursor >= |d.text| then d else Doc(Cut(d.text, d.cursor, d.cursor + 1), d.cursor)
  }

  /** Where the line with position p starts. */
  function LineStart(text: seq<Byte>, p: nat): (s: nat)
    requires p <= |text|
    ensures s <= p && (forall i :: s <= i < p ==> text[i] != NEWLINE) && (s > 0 ==> text[s - 1] == NEWLINE)
  {
    if p == 0 || text[p - 1] == NEWLINE then p else LineStart(text, p - 1)
  }

  /** Where the line with position p ends. */
  function LineEnd(text: seq<Byte>, p: nat): (e: nat)
    requires p <= |text|
    ensures p <= e <= |text| && (forall i :: p <= i < e ==> text[i] != NEWLINE) && (e < |text| ==> text[e] == NEWLINE)
    decreases |text| - p
  {
    if p == |text| || text[p] == NEWLINE then p else LineEnd(text, p + 1)
  }

  function Least(a: nat, b: nat): nat { if a <= b then a else b }

  function Up(d: Doc): (e: Doc)
    requires Sound(d)
    ensures Sound(e) && e.text == d.text
  {
    var start := LineStart(d.text, d.cursor);
    if start == 0 then d
    else
      var above := LineStart(d.text, start - 1);
      d.(cursor := above + Least(d.cursor - start, start - 1 - above))
  }

  function Down(d: Doc): (e: Doc)
    requires Sound(d)
    ensures Sound(e) && e.text == d.text
  {
    var col := d.cursor - LineStart(d.text, d.cursor);
    var end := LineEnd(d.text, d.cursor);
    if end == |d.text| then d
    else d.(cursor := end + 1 + Least(col, LineEnd(d.text, end + 1) - (end + 1)))
  }

  /** From the cursor to the end of the line, or its newline if there is
      nothing else. */
  function KillForward(d: Doc): (e: Doc)
    requires Sound(d)
    ensures Sound(e)
  {
    var end := LineEnd(d.text, d.cursor);
    if end == d.cursor && end < |d.text| then d.(text := Cut(d.text, d.cursor, end + 1))
    else d.(text := Cut(d.text, d.cursor, end))
  }

  function KillBackward(d: Doc): (e: Doc)
    requires Sound(d)
    ensures Sound(e)
  {
    var start := LineStart(d.text, d.cursor);
    Doc(Cut(d.text, start, d.cursor), start)
  }

  /** Back over blanks (`over` true) or over other bytes. */
  function Back(text: seq<Byte>, p: nat, over: bool): (q: nat)
    requires p <= |text|
    ensures q <= p && (forall i :: q <= i < p ==> Blank(text[i]) == over) && (q > 0 ==> Blank(text[q - 1]) != over)
  {
    if p == 0 || Blank(text[p - 1]) != over then p else Back(text, p - 1, over)
  }

  function Forth(text: seq<Byte>, p: nat, over: bool): (q: nat)
    requires p <= |text|
    ensures p <= q <= |text| && (forall i :: p <= i < q ==> Blank(text[i]) == over)
        && (q < |text| ==> Blank(text[q]) != over)
    decreases |text| - p
  {
    if p == |text| || Blank(text[p]) != over then p else Forth(text, p + 1, over)
  }

  function WordLeft(d: Doc): (e: Doc)
    requires Sound(d)
    ensures Sound(e) && e.text == d.text
  {
    d.(cursor := Back(d.text, Back(d.text, d.cursor, true), false))
  }

  function WordRight(d: Doc): (e: Doc)
    requires Sound(d)
    ensures Sound(e) && e.text == d.text
  {
    d.(cursor := Forth(d.text, Forth(d.text, d.cursor, false), true))
  }

  function Row(text: seq<Byte>, p: nat): (r: nat)
    requires p <= |text|
    ensures r >= 1
  {
    if p == 0 then 1 else Row(text, p - 1) + if text[p - 1] == NEWLINE then 1 else 0
  }

  function Column(text: seq<Byte>, p: nat): (c: nat)
    requires p <= |text|
    ensures c >= 1
  {
    if p == 0 || text[p - 1] == NEWLINE then 1 else Column(text, p - 1) + if text[p - 1] == 9 then 4 else 1
  }

  // ---- what they undo ------------------------------------------------------------

  lemma BackspaceUndoesInsert(d: Doc, c: Byte)
    requires Sound(d)
    ensures Backspace(InsertChar(d, c)) == d <==> |d.text| < MAX_EDITOR_BUF - 1 || d.cursor == 0
  {
    var e := InsertChar(d, c);
    if |d.text| < MAX_EDITOR_BUF - 1 {
      assert Cut(e.text, d.cursor, d.cursor + 1) == d.text;
    }
  }

  /** Deleting as often as a block is long undoes inserting it. */
  lemma BlockIsCut(d: Doc, s: seq<Byte>)
    requires Sound(d) && |d.text| + |s| <= MAX_EDITOR_BUF
    ensures Cut(InsertBlock(d, s).text, d.cursor, InsertBlock(d, s).cursor) == d.text
  {
  }

  lemma {:induction false} SameLineStart(text: seq<Byte>, s: nat, p: nat)
    requires s <= p <= |text| && (s == 0 || text[s - 1] == NEWLINE) && forall i :: s <= i < p ==> text[i] != NEWLINE
    ensures LineStart(text, p) == s
  {
    if p > s { SameLineStart(text, s, p - 1); }
  }

  lemma {:induction false} SameLineEnd(text: seq<Byte>, p: nat, e: nat)
    requires p <= e <= |text| && (e == |text| || text[e] == NEWLINE) && forall i :: p <= i < e ==> text[i] != NEWLINE
    ensures LineEnd(text, p) == e
    decreases e - p
  {
    if p < e { SameLineEnd(text, p + 1, e); }
  }

  /** Up and then down is back where it was exactly if the upper line reaches
      the column. */
  lemma UpThenDown(d: Doc)
    requires Sound(d) && LineStart(d.text, d.cursor) > 0
    ensures var start := LineStart(d.text, d.cursor);
            Down(Up(d)) == d <==> d.cursor - start <= start - 1 - LineStart(d.text, start - 1)
  {
    hide LineStart, LineEnd;
    var start := LineStart(d.text, d.cursor);
    var above := LineStart(d.text, start - 1);
    var u := Up(d);
    SameLineStart(d.text, above, u.cursor);
    SameLineEnd(d.text, u.cursor, start - 1);
    assert LineEnd(d.text, start) >= d.cursor;
  }

  /** Down and then up, likewise. */
  lemma DownThenUp(d: Doc)
    requires Sound(d) && LineEnd(d.text, d.cursor) < |d.text|
    ensures var end := LineEnd(d.text, d.cursor);
            Up(Down(d)) == d <==> d.cursor - LineStart(d.text, d.cursor) <= LineEnd(d.text, end + 1) - (end + 1)
  {
    hide LineStart, LineEnd;
    var start := LineStart(d.text, d.cursor);
    var end := LineEnd(d.text, d.cursor);
    var w := Down(d);
    SameLineStart(d.text, end + 1, w.cursor);
    SameLineStart(d.text, start, end);
  }

  /** u is t with the bytes from c to len moved up by n. */
  ghost predicate Opened(t: seq<Byte>, u: seq<Byte>, c: nat, len: nat, n: nat) {
    && c <= len && len + n <= |t| == |u|
    && (forall j :: 0 <= j < c ==> u[j] == t[j])
    && (forall j :: c <= j < len ==> u[j + n] == t[j])
  }

  /** A gap of |s| at position c of the first len bytes, filled with s. */
  lemma Filled(t: seq<Byte>, u: seq<Byte>, w: seq<Byte>, c: nat, len: nat, s: seq<Byte>)
    requires c <= len <= |t| && |u| == |t| && len + |s| <= |t|
    requires Opened(t, u, c, len, |s|)
    requires w == u[..c] + s + u[c + |s|..]
    ensures w[..len + |s|] == t[..c] + s + t[c..len]
  {
    assert u[..c] == t[..c];
    forall i | 0 <= i < len - c ensures u[c + |s|..][i] == t[c..][i] {
      assert u[(c + i) + |s|] == t[c + i];
    }
    assert u[c + |s|..][..len - c] == t[c..len];
    assert w[..len + |s|] == u[..c] + s + u[c + |s|..][..len - c];
  }

  // ---- the editor object ---------------------------------------------------------

  class PulseEditor {
    const buffer: array<Byte>
    var bufLen: nat
    var cursor: nat
    var topLine: nat

    ghost predicate Valid()
      reads this, buffer
    {
      buffer.Length == MAX_EDITOR_BUF && cursor <= bufLen <= MAX_EDITOR_BUF
    }

    ghost function Value(): (d: Doc)
      requires Valid()
      reads this, buffer
      ensures Sound(d)
    {
      Doc(buffer[..bufLen], cursor)
    }

    constructor ()
      ensures Valid() && Value() == Doc([], 0) && topLine == 1 && fresh(buffer)
    {
      buffer := new Byte[MAX_EDITOR_BUF](_ => 0);
      bufLen, cursor, topLine := 0, 0, 1;
    }

    /** Moves the bytes from `from` on up by n. */
    method OpenGap(from: nat, n: nat)
      requires Valid() && from <= bufLen && bufLen + n <= MAX_EDITOR_BUF
      modifies buffer
      ensures Opened(old(buffer[..]), buffer[..], from, bufLen, n)
    {
      ghost var t := buffer[..];
      var i := bufLen;
      while i > from
        invariant from <= i <= bufLen
        invariant forall j :: 0 <= j < i ==> buffer[j] == t[j]
        invariant forall j :: i <= j < bufLen ==> buffer[j + n] == t[j]
      {
        i := i - 1;
        buffer[i + n] := buffer[i];
      }
    }

    method FillGap(at: nat, s: seq<Byte>)
      requires at + |s| <= buffer.Length
      modifies buffer
      ensures buffer[..] == old(buffer[..])[..at] + s + old(buffer[..])[at + |s|..]
    {
      forall k | 0 <= k < |s| { buffer[at + k] := s[k]; }
    }

    /** Opens a gap at the cursor and fills it. */
    method Put(s: seq<Byte>)
      requires Valid() && bufLen + |s| <= MAX_EDITOR_BUF
      modifies this`bufLen, this`cursor, buffer
      ensures Valid() && cursor == old(cursor) + |s| && bufLen == old(bufLen) + |s|
      ensures buffer[..bufLen] == old(buffer[..])[..old(cursor)] + s + old(buffer[..])[old(cursor)..old(bufLen)]
    {
      hide Opened;
      ghost var t := buffer[..];
      OpenGap(cursor, |s|);
      ghost var u := buffer[..];
      FillGap(cursor, s);
      Filled(t, u, buffer[..], cursor, bufLen, s);
      cursor := cursor + |s|;
      bufLen := bufLen + |s|;
    }

    /** Moves the bytes from `from` + n on down by n. */
    method CloseGap(from: nat, n: nat)
      requires Valid() && from + n <= bufLen
      modifies buffer
      ensures buffer[..bufLen - n] == Cut(old(buffer[..bufLen]), from, from + n)
    {
      var i := from;
      while i < bufLen - n
        invariant from <= i <= bufLen - n
        invariant forall j :: 0 <= j < from ==> buffer[j] == old(buffer[j])
        invariant forall j :: from <= j < i ==> buffer[j] == old(buffer[j + n])
        invariant forall j :: i <= j < bufLen ==> buffer[j] == old(buffer[j])
      {
        buffer[i] := buffer[i + n];
        i := i + 1;
      }
    }

    method Insert(c: Byte)
      requires Valid()
      modifies this, buffer
      ensures Valid() && Value() == InsertChar(old(Value()), c) && topLine == old(topLine)
    {
      if bufLen < MAX_EDITOR_BUF - 1 {
        assert Value().text[..cursor] == buffer[..][..cursor] && Value().text[cursor..] == buffer[..][cursor..bufLen];
        Put([c]);
      }
    }

    method InsertStr(s: seq<Byte>)
      requires Valid()
      modifies this, buffer
      ensures Valid() && Value() == InsertBlock(old(Value()), s) && topLine == old(topLine)
    {
      if bufLen + |s| <= MAX_EDITOR_BUF {
        assert Value().text[..cursor] == buffer[..][..cursor] && Value().text[cursor..] == buffer[..][cursor..bufLen];
        Put(s);
      }
    }

    method DeleteCharBackspace()
      requires Valid()
      modifies this, buffer
      ensures Valid() && Value() == Backspace(old(Value())) && topLine == old(topLine)
    {
      if cursor > 0 {
        CloseGap(cursor - 1, 1);
        cursor := cursor - 1;
        bufLen := bufLen - 1;
      }
    }

    method DeleteCharUnderCursor()
      requires Valid()
      modifies this, buffer
      ensures Valid() && Value() == DeleteUnder(old(Value())) && topLine == old(topLine)
    {
      if cursor < bufLen {
        CloseGap(cursor, 1);
        bufLen := bufLen - 1;
      }
    }

    /** The start of the line with position p. */
    method FindLineStart(p: nat) returns (s: nat)
      requires Valid() && p <= bufLen
      ensures s == LineStart(buffer[..bufLen], p)
    {
      s := p;
      while s > 0 && buffer[s - 1] != NEWLINE
        invariant s <= p && LineStart(buffer[..bufLen], s) == LineStart(buffer[..bufLen], p)
      {
        s := s - 1;
      }
    }

    method FindLineEnd(p: nat) returns (e: nat)
      requires Valid() && p <= bufLen
      ensures e == LineEnd(buffer[..bufLen], p)
    {
      e := p;
      while e < bufLen && buffer[e] != NEWLINE
        invariant p <= e <= bufLen && LineEnd(buffer[..bufLen], e) == LineEnd(buffer[..bufLen], p)
      {
        e := e + 1;
      }
    }

    method MoveCursorUp()
      requires Valid()
      modifies this`cursor
      ensures Valid() && Value() == Up(old(Value()))
    {
      var start := FindLineStart(cursor);
      if start > 0 {
        var above := FindLineStart(start - 1);
        cursor := above + Least(cursor - start, start - 1 - above);
      }
    }

    method MoveCursorDown()
      requires Valid()
      modifies this`cursor
      ensures Valid() && Value() == Down(old(Value()))
    {
      var start := FindLineStart(cursor);
      var end := FindLineEnd(cursor);
      if end < bufLen {
        var next := FindLineEnd(end + 1);
        cursor := end + 1 + Least(cursor - start, next - (end + 1));
      }
    }

    method MoveWordLeft()
      requires Valid()
      modifies this`cursor
      ensures Valid() && Value() == WordLeft(old(Value()))
    {
      ghost var text := buffer[..bufLen];
      ghost var stop := Back(text, cursor, true);
      var pos: nat := cursor;
      while pos > 0 && Blank(buffer[pos - 1])
        invariant pos <= bufLen && Back(text, pos, true) == stop && text == buffer[..bufLen]
      {
        pos := pos - 1;
      }
      while pos > 0 && !Blank(buffer[pos - 1])
        invariant pos <= bufLen && Back(text, pos, false) == Back(text, stop, false) && text == buffer[..bufLen]
      {
        pos := pos - 1;
      }
      cursor := pos;
    }

    method MoveWordRight()
      requires Valid()
      modifies this`cursor
      ensures Valid() && Value() == WordRight(old(Value()))
    {
      ghost var text := buffer[..bufLen];
      ghost var stop := Forth(text, cursor, false);
      var pos: nat := cursor;
      while pos < bufLen && !Blank(buffer[pos])
        invariant pos <= bufLen && Forth(text, pos, false) == stop && text == buffer[..bufLen]
      {
        pos := pos + 1;
      }
      while pos < bufLen && Blank(buffer[pos])
        invariant pos <= bufLen && Forth(text, pos, true) == Forth(text, stop, true) && text == buffer[..bufLen]
      {
        pos := pos + 1;
      }
      cursor := pos;
    }

    method KillLineForward()
      requires Valid()
      modifies this, buffer
      ensures Valid() && Value() == KillForward(old(Value())) && topLine == old(topLine)
    {
      var end := FindLineEnd(cursor);
      if end == cursor && end < bufLen { end := end + 1; }
      CloseGap(cursor, end - cursor);
      bufLen := bufLen - (end - cursor);
    }

    method KillLineBackward()
      requires Valid()
      modifies this, buffer
      ensures Valid() && Value() == KillBackward(old(Value())) && topLine == old(topLine)
    {
      var start := FindLineStart(cursor);
      CloseGap(start, cursor - start);
      bufLen := bufLen - (cursor - start);
      cursor := start;
    }

    method GetRowCol() returns (row: nat, col: nat)
      requires Valid()
      ensures row == Row(buffer[..bufLen], cursor) && col == Column(buffer[..bufLen], cursor)
    {
      row, col := 1, 1;
      for i := 0 to cursor
        invariant row == Row(buffer[..bufLen], i) && col == Column(buffer[..bufLen], i)
      {
        if buffer[i] == NEWLINE {
          row, col := row + 1, 1;
        } else if buffer[i] == 9 {
          col := col + 4;
        } else {
          col := col + 1;
        }
      }
    }

    /** Scrolls no further than needed to show the cursor's row. */
    method AdjustScroll() returns (moved: bool)
      requires Valid()
      modifies this`topLine
      ensures Valid() && moved == (topLine != old(topLine))
      ensures var row := Row(buffer[..bufLen], cursor);
              && 1 <= topLine <= row < topLine + WINDOW
              && (1 <= old(topLine) <= row < old(topLine) + WINDOW ==> !moved)
    {
      var row, _ := GetRowCol();
      var oldTop := topLine;
      if topLine == 0 { topLine := 1; }
      if row < topLine {
        topLine := row;
      } else if row >= topLine + WINDOW {
        topLine := row - WINDOW + 1;
      }
      moved := topLine != oldTop;
    }
  }
}
