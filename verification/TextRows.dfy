/** The text a frame of rows stands for: rows joined by newlines, positions in it,
    inserting rows into rows, and the lines of a file (textframe.c). */
module TextRows {
  import opened Blocks

  const LF: byte := 10
  const CR: byte := 13

  /** A C string: the bytes before its NUL. */
  type Row = seq<byte>

  ghost predicate Free(s: seq<byte>, b: byte) {
    forall i :: 0 <= i < |s| ==> s[i] != b
  }

  function Join(rows: seq<Row>): seq<byte> {
    if rows == [] then []
    else if |rows| == 1 then rows[0]
    else rows[0] + [LF] + Join(rows[1..])
  }

  ghost predicate InText(rows: seq<Row>, r: int, c: int) {
    0 <= r < |rows| && 0 <= c <= |rows[r]|
  }

  /** Where column c of row r is in the joined text. */
  ghost function Offset(rows: seq<Row>, r: nat, c: nat): nat
    requires InText(rows, r, c)
    decreases r
  {
    if r == 0 then c else |rows[0]| + 1 + Offset(rows[1..], r - 1, c)
  }

  ghost function Splice(s: seq<byte>, at: nat, ins: seq<byte>): seq<byte>
    requires at <= |s|
  {
    s[..at] + ins + s[at..]
  }

  /** A row's two ends around inserted rows. */
  ghost function Merged(left: Row, ins: seq<Row>, right: Row): (m: seq<Row>)
    requires ins != []
    ensures |m| == |ins|
  {
    if |ins| == 1 then [left + ins[0] + right]
    else [left + ins[0]] + ins[1..|ins| - 1] + [ins[|ins| - 1] + right]
  }

  ghost function Inserted(rows: seq<Row>, r: nat, c: nat, ins: seq<Row>): seq<Row>
    requires InText(rows, r, c) && ins != []
  {
    rows[..r] + Merged(rows[r][..c], ins, rows[r][c..]) + rows[r + 1..]
  }

  /** Just after the inserted rows. */
  ghost function EndCol(c: nat, ins: seq<Row>): nat
    requires ins != []
  {
    if |ins| == 1 then c + |ins[0]| else |ins[|ins| - 1]|
  }

  // ---- Inserting rows is splicing text ----

  lemma {:induction false} JoinTail(rows: seq<Row>, tail: seq<Row>)
    requires rows != []
    ensures Join(rows + tail) == if tail == [] then Join(rows) else Join(rows) + [LF] + Join(tail)
  {
    if tail == [] {
      assert rows + tail == rows;
    } else if |rows| > 1 {
      JoinTail(rows[1..], tail);
      assert (rows + tail)[1..] == rows[1..] + tail;
    } else {
      assert (rows + tail)[1..] == tail;
    }
  }

  lemma {:induction false} OffsetInJoin(rows: seq<Row>, r: nat, c: nat)
    requires InText(rows, r, c)
    ensures Offset(rows, r, c) <= |Join(rows)|
    decreases r
  {
    if r > 0 {
      OffsetInJoin(rows[1..], r - 1, c);
    }
  }

  lemma JoinMerged(left: Row, ins: seq<Row>, right: Row)
    requires ins != []
    ensures Join(Merged(left, ins, right)) == left + Join(ins) + right
  {
    hide Join;
    if |ins| == 1 {
      JoinOne(ins[0]);
      JoinOne(left + ins[0] + right);
      assert ins == [ins[0]];
    } else {
      var n := |ins| - 1;
      var mid := ins[1..n];
      assert ins == [ins[0]] + mid + [ins[n]];
      JoinEnds(left + ins[0], mid, ins[n] + right);
      JoinEnds(ins[0], mid, ins[n]);
      if mid == [] {
        Regroup(left, ins[0] + [LF], ins[n], right);
      } else {
        Regroup(left, ins[0] + [LF] + (Join(mid) + [LF]), ins[n], right);
        assert ins[0] + [LF] + (Join(mid) + [LF]) + ins[n] == ins[0] + [LF] + (Join(mid) + [LF] + ins[n]);
      }
    }
  }

  lemma Regroup(left: Row, a: seq<byte>, b: seq<byte>, right: Row)
    ensures (left + a) + (b + right) == left + (a + b) + right
  {
  }

  lemma JoinEnds(a: Row, mid: seq<Row>, b: Row)
    ensures Join([a] + mid + [b]) == a + [LF] + (if mid == [] then b else Join(mid) + [LF] + b)
  {
    var rows := [a] + mid + [b];
    assert rows[1..] == mid + [b];
    if mid != [] {
      JoinTail(mid, [b]);
    }
  }

  /** Inserting rows puts their joined text into the joined text, at the position's offset. */
  lemma {:induction false} InsertIsSplice(rows: seq<Row>, r: nat, c: nat, ins: seq<Row>)
    requires InText(rows, r, c) && ins != []
    ensures Offset(rows, r, c) <= |Join(rows)|
    ensures Join(Inserted(rows, r, c, ins)) == Splice(Join(rows), Offset(rows, r, c), Join(ins))
    decreases r
  {
    OffsetInJoin(rows, r, c);
    if r == 0 {
      InsertInFirst(rows, c, ins);
    } else {
      InsertIsSplice(rows[1..], r - 1, c, ins);
      InsertedTail(rows, r, c, ins);
      hide Join, Splice, Inserted;
      JoinOne(rows[0]);
      var rest := Inserted(rows[1..], r - 1, c, ins);
      JoinTail([rows[0]], rest);
      JoinTail([rows[0]], rows[1..]);
      assert [rows[0]] + rows[1..] == rows;
      SpliceAfter(rows[0] + [LF], Join(rows[1..]), Offset(rows[1..], r - 1, c), Join(ins));
    }
  }

  lemma InsertInFirst(rows: seq<Row>, c: nat, ins: seq<Row>)
    requires InText(rows, 0, c) && ins != []
    ensures c <= |Join(rows)| && Join(Inserted(rows, 0, c, ins)) == Splice(Join(rows), c, Join(ins))
  {
    hide Join, Merged;
    var left, right, tail := rows[0][..c], rows[0][c..], rows[1..];
    var m := Merged(left, ins, right);
    assert Inserted(rows, 0, c, ins) == m + tail && m != [] by { MergedLength(left, ins, right); }
    JoinMerged(left, ins, right);
    JoinTail(m, tail);
    assert rows == [rows[0]] + tail;
    JoinTail([rows[0]], tail);
    JoinOne(rows[0]);
    assert Join(m) == Splice(rows[0], c, Join(ins));
    if tail != [] {
      SpliceBefore(rows[0], c, Join(ins), [LF] + Join(tail));
      assert Join(m) + ([LF] + Join(tail)) == Join(m) + [LF] + Join(tail);
      assert rows[0] + ([LF] + Join(tail)) == rows[0] + [LF] + Join(tail);
    }
  }

  lemma MergedLength(left: Row, ins: seq<Row>, right: Row)
    requires ins != []
    ensures |Merged(left, ins, right)| == |ins|
  {
  }

  lemma JoinOne(row: Row)
    ensures Join([row]) == row
  {
  }

  lemma SpliceBefore(s: seq<byte>, at: nat, ins: seq<byte>, t: seq<byte>)
    requires at <= |s|
    ensures Splice(s, at, ins) + t == Splice(s + t, at, ins)
  {
    assert (s + t)[..at] == s[..at] && (s + t)[at..] == s[at..] + t;
  }

  lemma InsertedTail(rows: seq<Row>, r: nat, c: nat, ins: seq<Row>)
    requires InText(rows, r, c) && ins != [] && r > 0
    ensures Inserted(rows, r, c, ins) == [rows[0]] + Inserted(rows[1..], r - 1, c, ins)
    ensures Inserted(rows[1..], r - 1, c, ins) != []
  {
    assert rows[1..][r..] == rows[r + 1..];
    assert rows[..r] == [rows[0]] + rows[1..][..r - 1];
  }

  lemma SpliceAfter(head: seq<byte>, s: seq<byte>, at: nat, ins: seq<byte>)
    requires at <= |s|
    ensures head + Splice(s, at, ins) == Splice(head + s, |head| + at, ins)
  {
    assert (head + s)[..|head| + at] == head + s[..at];
    assert (head + s)[|head| + at..] == s[at..];
  }

  /** The position just after the inserted rows is the offset just after their text. */
  lemma {:induction false} CursorAfterInsert(rows: seq<Row>, r: nat, c: nat, ins: seq<Row>)
    requires InText(rows, r, c) && ins != []
    ensures InText(Inserted(rows, r, c, ins), r + |ins| - 1, EndCol(c, ins))
    ensures Offset(Inserted(rows, r, c, ins), r + |ins| - 1, EndCol(c, ins)) ==
            Offset(rows, r, c) + |Join(ins)|
    decreases r
  {
    hide Inserted, EndCol, Join;
    if r == 0 {
      CursorInFirst(rows, c, ins);
    } else {
      InsertedTail(rows, r, c, ins);
      CursorAfterInsert(rows[1..], r - 1, c, ins);
      var all, rest := Inserted(rows, r, c, ins), Inserted(rows[1..], r - 1, c, ins);
      assert all[1..] == rest && all[0] == rows[0];
    }
  }

  lemma CursorInFirst(rows: seq<Row>, c: nat, ins: seq<Row>)
    requires InText(rows, 0, c) && ins != []
    ensures InText(Inserted(rows, 0, c, ins), |ins| - 1, EndCol(c, ins))
    ensures Offset(Inserted(rows, 0, c, ins), |ins| - 1, EndCol(c, ins)) == c + |Join(ins)|
  {
    hide Join, Merged, Offset;
    var m, tail := Merged(rows[0][..c], ins, rows[0][c..]), rows[1..];
    assert Inserted(rows, 0, c, ins) == m + tail;
    CursorInMerged(rows[0][..c], ins, rows[0][c..], tail);
  }

  lemma CursorInMerged(left: Row, ins: seq<Row>, right: Row, tail: seq<Row>)
    requires ins != []
    ensures var all := Merged(left, ins, right) + tail;
      && InText(all, |ins| - 1, EndCol(|left|, ins))
      && Offset(all, |ins| - 1, EndCol(|left|, ins)) == |left| + |Join(ins)|
  {
    if |ins| == 1 {
      assert (Merged(left, ins, right) + tail)[0] == left + ins[0] + right;
    } else {
      CursorInLast(left, ins, right, tail);
    }
  }

  lemma CursorInLast(left: Row, ins: seq<Row>, right: Row, tail: seq<Row>)
    requires |ins| > 1
    ensures var all := Merged(left, ins, right) + tail; var n := |ins| - 1;
      && InText(all, n, |ins[n]|) && Offset(all, n, |ins[n]|) == |left| + |Join(ins)|
  {
    hide Join, Merged;
    var n := |ins| - 1;
    var all, rest, after := Merged(left, ins, right) + tail, ins[1..], [ins[n] + right] + tail;
    MergedShape(left, ins, right, tail);
    LastRowOffset(rest, after);
    JoinSplit(ins);
    assert all[1..] == rest[..n - 1] + after;
  }

  lemma MergedShape(left: Row, ins: seq<Row>, right: Row, tail: seq<Row>)
    requires |ins| > 1
    ensures var n := |ins| - 1;
      Merged(left, ins, right) + tail == [left + ins[0]] + (ins[1..][..n - 1] + ([ins[n] + right] + tail))
  {
    assert ins[1..][..|ins| - 2] == ins[1..|ins| - 1];
  }

  lemma JoinSplit(rows: seq<Row>)
    requires |rows| > 1
    ensures |Join(rows)| == |rows[0]| + 1 + |Join(rows[1..])|
  {
  }

  /** The end of the last of some rows, when that row goes on. */
  lemma {:induction false} LastRowOffset(ins: seq<Row>, tail: seq<Row>)
    requires ins != [] && tail != [] && |tail[0]| >= |ins[|ins| - 1]|
    ensures var all := ins[..|ins| - 1] + tail;
      && InText(all, |ins| - 1, |ins[|ins| - 1]|)
      && Offset(all, |ins| - 1, |ins[|ins| - 1]|) == |Join(ins)|
  {
    var n := |ins| - 1;
    if n == 0 {
      assert ins[..0] + tail == tail;
    } else {
      LastRowOffset(ins[1..], tail);
      var all := ins[..n] + tail;
      assert all[1..] == ins[1..][..n - 1] + tail && all[n] == tail[0] && all[0] == ins[0];
      assert ins[1..][n - 1] == ins[n];
    }
  }

  // ---- The lines of a file ----

  /** CRLF and CR become LF. */
  function Unix(s: seq<byte>): seq<byte> {
    if s == [] then []
    else if s[0] == CR then [LF] + Unix(if |s| > 1 && s[1] == LF then s[2..] else s[1..])
    else [s[0]] + Unix(s[1..])
  }

  function DropNul(s: seq<byte>): seq<byte> {
    if s == [] then [] else (if s[0] == 0 then [] else [s[0]]) + DropNul(s[1..])
  }

  function Split(s: seq<byte>): (rows: seq<Row>)
    ensures rows != []
  {
    if s == [] then [[]]
    else
      var rest := Split(s[1..]);
      if s[0] == LF then [[]] + rest else [[s[0]] + rest[0]] + rest[1..]
  }

  /** The lines of a file: ended by CR, LF or CRLF, NUL bytes left out. */
  function Lines(s: seq<byte>): (rows: seq<Row>)
    ensures rows != []
  {
    Split(DropNul(Unix(s)))
  }

  lemma {:induction false} UnixAppend(s: seq<byte>, b: byte)
    ensures Unix(s + [b]) == if b == LF && s != [] && s[|s| - 1] == CR then Unix(s)
                             else Unix(s) + [if b == CR then LF else b]
  {
    hide Unix;
    if s == [] {
      assert s + [b] == [b];
      UnixPair(b);
    } else if s == [CR] {
      UnixPair(b);
    } else {
      var k := if s[0] == CR && s[1] == LF then 2 else 1;
      assert (s + [b])[k..] == s[k..] + [b];
      UnixAppend(s[k..], b);
      UnixCons(s);
      UnixCons(s + [b]);
      if s == [CR, LF] {
        assert s[k..] == [];
      }
    }
  }

  lemma UnixCons(s: seq<byte>)
    requires s != []
    ensures Unix(s) == [if s[0] == CR then LF else s[0]] +
                       Unix(s[if s[0] == CR && |s| > 1 && s[1] == LF then 2 else 1..])
  {
  }

  lemma UnixPair(b: byte)
    ensures Unix([CR, b]) == if b == LF then [LF] else [LF, if b == CR then LF else b]
    ensures Unix([CR]) == [LF] && [CR] + [b] == [CR, b]
    ensures Unix([]) == [] && Unix([b]) == [if b == CR then LF else b]
  {
    assert [CR, b][1..] == [b] && [CR, b][2..] == [] && [b][1..] == [] && [CR][1..] == [];
    assert Unix([b]) == [if b == CR then LF else b];
  }

  lemma {:induction false} DropNulAppend(s: seq<byte>, b: byte)
    ensures DropNul(s + [b]) == DropNul(s) + (if b == 0 then [] else [b])
  {
    if s == [] {
      assert s + [b] == [b];
    } else {
      assert (s + [b])[1..] == s[1..] + [b];
      DropNulAppend(s[1..], b);
    }
  }

  /** A byte put before or after the text that rows are split from. */
  ghost function Before(b: byte, rows: seq<Row>): (r: seq<Row>)
    requires rows != []
    ensures r != []
  {
    if b == LF then [[]] + rows else [[b] + rows[0]] + rows[1..]
  }

  ghost function After(rows: seq<Row>, b: byte): (r: seq<Row>)
    requires rows != []
    ensures r != []
  {
    if b == LF then rows + [[]] else rows[..|rows| - 1] + [rows[|rows| - 1] + [b]]
  }

  lemma BeforeAfter(x: byte, rows: seq<Row>, b: byte)
    requires rows != []
    ensures After(Before(x, rows), b) == Before(x, After(rows, b))
  {
    if x == LF {
      LineBefore(rows, b);
    } else if b == LF {
      assert (rows + [[]])[1..] == rows[1..] + [[]];
    } else if |rows| == 1 {
      assert [x] + (rows[0] + [b]) == ([x] + rows[0]) + [b];
      assert After(rows, b) == [rows[0] + [b]];
    } else {
      BytesAround(x, rows, b);
    }
  }

  lemma LineBefore(rows: seq<Row>, b: byte)
    requires rows != []
    ensures After([[]] + rows, b) == [[]] + After(rows, b)
  {
    var n, all := |rows| - 1, [[]] + rows;
    if b == LF {
      assert all + [[]] == [[]] + (rows + [[]]);
    } else {
      assert all[..n + 1] == [[]] + rows[..n] && all[n + 1] == rows[n];
    }
  }

  lemma BytesAround(x: byte, rows: seq<Row>, b: byte)
    requires |rows| > 1 && x != LF && b != LF
    ensures After(Before(x, rows), b) == Before(x, After(rows, b))
  {
    var n, first := |rows| - 1, [[x] + rows[0]];
    assert Before(x, rows)[..n] == first + rows[1..n] && Before(x, rows)[n] == rows[n];
    assert After(rows, b)[1..] == rows[1..n] + [rows[n] + [b]] && After(rows, b)[0] == rows[0];
  }

  lemma {:induction false} SplitAppend(s: seq<byte>, b: byte)
    ensures Split(s + [b]) == After(Split(s), b)
  {
    hide After, Before, Split;
    if s == [] {
      assert s + [b] == [b];
      SplitOne(b);
    } else {
      assert (s + [b])[1..] == s[1..] + [b];
      SplitAppend(s[1..], b);
      SplitCons(s);
      SplitCons(s + [b]);
      BeforeAfter(s[0], Split(s[1..]), b);
    }
  }

  lemma SplitOne(b: byte)
    ensures Split([b]) == After(Split([]), b)
  {
    assert [b][1..] == [] && Split([]) == [[]];
    assert [b] + [] == [b] == [] + [b];
  }

  lemma SplitCons(s: seq<byte>)
    requires s != []
    ensures Split(s[1..]) != [] && Split(s) == Before(s[0], Split(s[1..]))
  {
  }

  /** One more byte of a file. */
  lemma LinesAppend(s: seq<byte>, b: byte)
    ensures var rows := Lines(s); var n := |rows| - 1;
      Lines(s + [b]) ==
        if b == CR || b == LF then
          if b == LF && s != [] && s[|s| - 1] == CR then rows else rows + [[]]
        else if b == 0 then rows
        else rows[..n] + [rows[n] + [b]]
  {
    UnixAppend(s, b);
    if !(b == LF && s != [] && s[|s| - 1] == CR) {
      var u: byte := if b == CR then LF else b;
      DropNulAppend(Unix(s), u);
      if u == 0 {
        assert DropNul(Unix(s)) + [] == DropNul(Unix(s));
      } else {
        SplitAppend(DropNul(Unix(s)), u);
      }
    }
  }

  // ---- Saving and loading ----

  ghost predicate Clean(row: Row) {
    Free(row, CR) && Free(row, LF)
  }

  lemma {:induction false} UnixIdentity(s: seq<byte>)
    requires Free(s, CR)
    ensures Unix(s) == s
  {
    if s != [] {
      UnixIdentity(s[1..]);
    }
  }

  lemma {:induction false} DropNulIdentity(s: seq<byte>)
    requires Free(s, 0)
    ensures DropNul(s) == s
  {
    if s != [] {
      DropNulIdentity(s[1..]);
    }
  }

  lemma {:induction false} SplitRow(row: Row, rest: seq<byte>)
    requires Free(row, LF)
    ensures Split(row) == [row] && Split(row + [LF] + rest) == [row] + Split(rest)
  {
    var s := row + [LF] + rest;
    SplitCons(s);
    if row == [] {
      assert s == [LF] + rest && s[1..] == rest;
    } else {
      SplitRow(row[1..], rest);
      SplitCons(row);
      hide Split;
      assert s[1..] == row[1..] + [LF] + rest && s[0] == row[0];
      assert [row[0]] + row[1..] == row;
    }
  }

  lemma {:induction false} SplitJoin(rows: seq<Row>)
    requires rows != [] && forall i :: 0 <= i < |rows| ==> Free(rows[i], LF)
    ensures Split(Join(rows)) == rows
  {
    if |rows| == 1 {
      SplitRow(rows[0], []);
    } else {
      SplitRow(rows[0], Join(rows[1..]));
      SplitJoin(rows[1..]);
    }
  }

  lemma {:induction false} JoinFree(rows: seq<Row>, b: byte)
    requires b != LF && forall i :: 0 <= i < |rows| ==> Free(rows[i], b)
    ensures Free(Join(rows), b)
  {
    if |rows| > 1 {
      JoinFree(rows[1..], b);
    }
  }

  lemma {:induction false} UnixNoCr(s: seq<byte>)
    ensures Free(Unix(s), CR)
  {
    if s != [] {
      if s[0] == CR {
        UnixNoCr(if |s| > 1 && s[1] == LF then s[2..] else s[1..]);
      } else {
        UnixNoCr(s[1..]);
      }
    }
  }

  lemma {:induction false} DropNulFree(s: seq<byte>, b: byte)
    requires Free(s, b)
    ensures Free(DropNul(s), b) && Free(DropNul(s), 0)
  {
    if s != [] {
      DropNulFree(s[1..], b);
    }
  }

  lemma {:induction false} SplitClean(s: seq<byte>)
    requires Free(s, CR) && Free(s, 0)
    ensures forall i :: 0 <= i < |Split(s)| ==> Clean(Split(s)[i]) && Free(Split(s)[i], 0)
  {
    if s != [] {
      SplitClean(s[1..]);
      var rest := Split(s[1..]);
      assert Clean(rest[0]);
    }
  }

  /** Lines hold no CR, LF or NUL. */
  lemma LinesClean(s: seq<byte>)
    ensures forall i :: 0 <= i < |Lines(s)| ==> Clean(Lines(s)[i]) && Free(Lines(s)[i], 0)
  {
    UnixNoCr(s);
    DropNulFree(Unix(s), CR);
    SplitClean(DropNul(Unix(s)));
  }

  /** Saved rows load back as they were if and only if there is a row and none holds a CR or LF. */
  lemma RoundTrip(rows: seq<Row>)
    requires forall i :: 0 <= i < |rows| ==> Free(rows[i], 0)
    ensures Lines(Join(rows)) == rows <==> rows != [] && forall i :: 0 <= i < |rows| ==> Clean(rows[i])
  {
    if rows != [] && forall i :: 0 <= i < |rows| ==> Clean(rows[i]) {
      JoinFree(rows, CR);
      JoinFree(rows, 0);
      UnixIdentity(Join(rows));
      DropNulIdentity(Join(rows));
      SplitJoin(rows);
    }
    LinesClean(Join(rows));
  }
}
