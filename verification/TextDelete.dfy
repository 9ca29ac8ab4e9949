/** textframe_delete (textframe.c:300-349): taking a stretch of text out of a frame. */
module TextDelete {
  import opened Blocks
  import opened TextRows
  import opened TextFrame

  // ---- the joined text around a row ----

  ghost function Pre(rows: seq<Row>): seq<byte> {
    if rows == [] then [] else Join(rows) + [LF]
  }

  ghost function Post(rows: seq<Row>): seq<byte> {
    if rows == [] then [] else [LF] + Join(rows)
  }

  lemma JoinFront(row: Row, tail: seq<Row>)
    ensures Join([row] + tail) == row + Post(tail)
  {
    hide Join;
    JoinOne(row);
    JoinTail([row], tail);
    if tail != [] {
      assert row + [LF] + Join(tail) == row + ([LF] + Join(tail));
    }
  }

  lemma JoinBack(head: seq<Row>, rest: seq<Row>)
    requires rest != []
    ensures Join(head + rest) == Pre(head) + Join(rest)
  {
    hide Join;
    if head == [] {
      assert head + rest == rest;
    } else {
      JoinTail(head, rest);
    }
  }

  lemma JoinAt(rows: seq<Row>, r: nat)
    requires r < |rows|
    ensures Join(rows) == Pre(rows[..r]) + rows[r] + Post(rows[r + 1..])
  {
    hide Join, Pre, Post;
    var head, tail := rows[..r], rows[r + 1..];
    RowAt(rows, r);
    JoinBack(head, [rows[r]] + tail);
    JoinFront(rows[r], tail);
    Assoc(Pre(head), rows[r], Post(tail));
  }

  lemma RowAt<T>(rows: seq<T>, r: nat)
    requires r < |rows|
    ensures rows == rows[..r] + ([rows[r]] + rows[r + 1..])
  {
  }

  lemma Assoc<T>(x: seq<T>, y: seq<T>, z: seq<T>)
    ensures x + (y + z) == x + y + z
  {
  }

  lemma {:induction false} OffsetIs(rows: seq<Row>, r: nat, c: nat)
    requires InText(rows, r, c)
    ensures Offset(rows, r, c) == |Pre(rows[..r])| + c
    decreases r
  {
    if r > 0 {
      OffsetIs(rows[1..], r - 1, c);
      var head := rows[..r];
      assert head[1..] == rows[1..][..r - 1];
    }
  }

  // ---- deleting ----

  /** The text without the bytes from one offset to another. */
  ghost function Cut(s: seq<byte>, from: nat, to: nat): seq<byte>
    requires from <= to <= |s|
  {
    s[..from] + s[to..]
  }

  /** What is kept of the end row, by its last deleted column. */
  function TailCol(row: Row, e: int): (t: nat)
    requires e >= -1
    ensures t <= |row|
  {
    if e + 1 < |row| then e + 1 else |row|
  }

  /** The last deleted column is the one asked for, or the next if that is the first byte of a
      character; so a deletion never ends inside a character. */
  lemma EndLands(row: Row, c: nat)
    requires c < |row|
    ensures var e := AdjustedCol(row, c, 1, 1);
      && OnBoundary(row, TailCol(row, e))
      && e == if row[c] >= 160 && OnBoundary(row, c) then c + 1 else c
  {
    var t := TailCol(row, AdjustedCol(row, c, 1, 1));
    assert c + 1 < |row| && High(row[c + 1]) ==> HighRun(row, c + 1) == 1 + HighRun(row, c);
    if c + 2 < |row| && High(row[c + 2]) {
      assert HighRun(row, c + 2) == 1 + HighRun(row, c + 1);
    }
  }

  /** The rows with everything from column s of row a up to column t of row b taken out. */
  ghost function Without(rows: seq<Row>, a: nat, s: nat, b: nat, t: nat): seq<Row>
    requires a <= b && InText(rows, a, s) && InText(rows, b, t)
  {
    rows[..a] + [rows[a][..s] + rows[b][t..]] + rows[b + 1..]
  }

  lemma WithoutIsCut(rows: seq<Row>, a: nat, s: nat, b: nat, t: nat)
    requires a <= b && InText(rows, a, s) && InText(rows, b, t) && (a < b || s <= t)
    ensures Offset(rows, a, s) <= Offset(rows, b, t) <= |Join(rows)|
    ensures Join(Without(rows, a, s, b, t)) == Cut(Join(rows), Offset(rows, a, s), Offset(rows, b, t))
  {
    hide Join, Offset, Pre, Post;
    var x, y, z := Pre(rows[..a]), Pre(rows[..b]), Post(rows[b + 1..]);
    OffsetIs(rows, a, s);
    OffsetIs(rows, b, t);
    JoinAt(rows, a);
    JoinAt(rows, b);
    PreGrows(rows, a, b);
    var left, right := rows[a][..s], rows[b][t..];
    Around(rows[..a], left + right, rows[b + 1..]);
    JoinAt(Without(rows, a, s, b, t), a);
    Heads(Join(rows), x, rows[a], Post(rows[a + 1..]), s);
    Tails(Join(rows), y, rows[b], z, t);
    Regroup(x, left, right, z);
  }

  lemma Around<T>(head: seq<T>, row: T, tail: seq<T>)
    ensures var all := head + [row] + tail;
      all[..|head|] == head && all[|head|] == row && all[|head| + 1..] == tail
  {
  }

  lemma Heads(w: seq<byte>, x: seq<byte>, row: Row, z: seq<byte>, s: nat)
    requires w == x + row + z && s <= |row|
    ensures |x| + s <= |w| && w[..|x| + s] == x + row[..s]
  {
  }

  lemma Tails(w: seq<byte>, x: seq<byte>, row: Row, z: seq<byte>, t: nat)
    requires w == x + row + z && t <= |row|
    ensures |x| + t <= |w| && w[|x| + t..] == row[t..] + z
  {
  }

  /** A later row starts behind the end of an earlier one. */
  lemma PreGrows(rows: seq<Row>, a: nat, b: nat)
    requires a <= b < |rows|
    ensures a < b ==> |Pre(rows[..a])| + |rows[a]| < |Pre(rows[..b])|
  {
    hide Join;
    if a < b {
      var head := rows[..b];
      JoinAt(head, a);
      assert head[..a] == rows[..a];
    }
  }

  /** The row that textframe_delete makes: the length of its tail is taken from row a, not
      from row b. */
  ghost function JoinedRow(rows: seq<Row>, a: nat, s: nat, b: nat, e: int): Row
    requires a < |rows| && b < |rows|
  {
    Sub(rows[a], 0, s) + Sub(rows[b], e + 1, |rows[a]| - e - 1)
  }

  ghost function Deleted(rows: seq<Row>, a: nat, s: nat, b: int, e: int): seq<Row>
    requires a <= b ==> b < |rows|
  {
    if a <= b then rows[..a] + [JoinedRow(rows, a, s, b, e)] + rows[b + 1..] else rows
  }

  lemma JoinedRowIs(rows: seq<Row>, a: nat, s: nat, b: nat, e: int)
    requires a < |rows| && b < |rows| && s <= |rows[a]| && e >= -1
    ensures var t := TailCol(rows[b], e); var row := JoinedRow(rows, a, s, b, e); var want := rows[a][..s] + rows[b][t..];
      && |row| <= |want|
      && (row == want <==> |rows[a]| >= |rows[b]| || t == |rows[b]|)
      && (row != want ==> |row| < |want|)
  {
  }

  lemma OneRowLess(rows: seq<Row>, a: nat, b: nat, x: Row, y: Row)
    requires a <= b < |rows|
    ensures |Join(rows[..a] + [x] + rows[b + 1..])| - |x| == |Join(rows[..a] + [y] + rows[b + 1..])| - |y|
  {
    hide Join;
    Around(rows[..a], x, rows[b + 1..]);
    Around(rows[..a], y, rows[b + 1..]);
    JoinAt(rows[..a] + [x] + rows[b + 1..], a);
    JoinAt(rows[..a] + [y] + rows[b + 1..], a);
  }

  /** Deleting is taking a stretch out of the joined text exactly if the start row is at least
      as long as the end row or nothing of the end row is left; within one row it always is. */
  lemma DeleteIsCut(rows: seq<Row>, a: nat, s: nat, b: nat, e: int)
    requires a <= b < |rows| && InText(rows, a, s) && e >= -1 && (a < b || s <= TailCol(rows[b], e))
    ensures var t := TailCol(rows[b], e);
      && Offset(rows, a, s) <= Offset(rows, b, t) <= |Join(rows)|
      && (Join(Deleted(rows, a, s, b, e)) == Cut(Join(rows), Offset(rows, a, s), Offset(rows, b, t)) <==>
          |rows[a]| >= |rows[b]| || t == |rows[b]|)
  {
    hide Join, Offset, Sub, JoinedRow;
    var t := TailCol(rows[b], e);
    WithoutIsCut(rows, a, s, b, t);
    JoinedRowIs(rows, a, s, b, e);
    OneRowLess(rows, a, b, JoinedRow(rows, a, s, b, e), rows[a][..s] + rows[b][t..]);
  }

  /** Deleting from the end of "a" to the start of "bcd" loses the last two letters. */
  lemma DeleteLoses()
    ensures Deleted([[97], [98, 99, 100]], 0, 1, 1, -1) == [[97, 98]]
  {
    var rows: seq<Row> := [[97], [98, 99, 100]];
    assert JoinedRow(rows, 0, 1, 1, -1) == [97, 98];
    assert rows[..0] == [] && rows[2..] == [];
  }

  /** textframe_delete: both ends are adjusted to characters; an end row past the text means
      the start of the last row. */
  method Delete(text: TextFrame, r1: int, c1: int, r2: int, c2: int) returns (res: TextFrame)
    requires text.Valid()
    ensures fresh(res) && fresh(res.data) && res.Valid()
    ensures var rows := text.Rows(); var a := AdjustedRow(|rows|, r1); var b := AdjustedRow(|rows|, r2);
      && a >= 0
      && (a >= |rows| ==> res.Rows() == rows)
      && (a < |rows| ==>
            (var s := AdjustedCol(rows[a], c1, 0, -1);
             && 0 <= s <= |rows[a]|
             && if 0 <= b < |rows| then
                  (var e := AdjustedCol(rows[b], c2, 1, 1); res.Rows() == Deleted(rows, a, s, b, e))
                else res.Rows() == Deleted(rows, a, s, |rows| - 1, -1)))
  {
    hide AdjustedCol, Deleted, Free;
    var rows := text.data[..text.maxrow];
    var a, s := AdjustRowCol(rows, r1, c1, 0, -1);
    var b, e := AdjustRowCol(rows, r2, c2, 1, 1);
    if a < |rows| {
      AdjustLands(rows[a], c1, -1);
    }
    if a < 0 { a := 0; }
    if s < 0 { s := 0; }
    if b >= |rows| {
      b, e := |rows| - 1, -1;
    }
    var lines := DeleteRows(rows, a, s, b, e);
    DeletedFree(rows, a, s, b, e);
    var data := new Row[|lines|](i requires 0 <= i < |lines| => lines[i]);
    assert data[..] == lines;
    res := new TextFrame.Of(data, 0, 0);
    res.capacity := res.maxrow;
  }

  lemma DeletedFree(rows: seq<Row>, a: nat, s: nat, b: int, e: int)
    requires b < |rows| && forall i :: 0 <= i < |rows| ==> Free(rows[i], 0)
    ensures forall i :: 0 <= i < |Deleted(rows, a, s, b, e)| ==> Free(Deleted(rows, a, s, b, e)[i], 0)
    ensures a > b ==> Deleted(rows, a, s, b, e) == rows
  {
    var d := Deleted(rows, a, s, b, e);
    if a <= b {
      hide Sub;
      SubFree(rows[a], 0, s);
      SubFree(rows[b], e + 1, |rows[a]| - e - 1);
      forall i | 0 <= i < |d| ensures Free(d[i], 0) {
        assert i < a ==> d[i] == rows[i];
        assert i > a ==> d[i] == rows[b + 1..][i - a - 1];
      }
    }
  }

  lemma SubFree(row: Row, start: int, len: int)
    requires Free(row, 0)
    ensures Free(Sub(row, start, len), 0)
  {
  }

  /** The loop over the rows. */
  method DeleteRows(rows: seq<Row>, a: nat, s: nat, b: int, e: int) returns (lines: seq<Row>)
    requires b < |rows|
    ensures lines == Deleted(rows, a, s, b, e)
  {
    hide JoinedRow;
    lines := [];
    var i := 0;
    while i < |rows|
      invariant 0 <= i <= |rows|
      invariant i <= a || a > b ==> lines == rows[..i]
      invariant i > a && a <= b ==> i > b && lines == rows[..a] + [JoinedRow(rows, a, s, b, e)] + rows[b + 1..i]
    {
      if a < i < b {
        i := i + 1;
        continue;
      }
      var line := rows[i];
      assert rows[..i + 1] == rows[..i] + [line];
      if i < a || i > b {
        var copy := Substr(line, 0, |line|);
        assert copy == line;
        assert i > b >= a ==> rows[b + 1..i + 1] == rows[b + 1..i] + [line];
        lines := lines + [copy];
      } else {
        var row := JoinRow(rows, a, s, b, e, |line|);
        lines := lines + [row];
        i := b;
      }
      i := i + 1;
    }
  }

  method JoinRow(rows: seq<Row>, a: nat, s: nat, b: nat, e: int, len: nat) returns (row: Row)
    requires a < |rows| && b < |rows| && len == |rows[a]|
    ensures row == JoinedRow(rows, a, s, b, e)
  {
    var left := Substr(rows[a], 0, s);
    var right := Substr(rows[b], e + 1, len - e - 1);
    row := Concat(left, right);
  }
}
