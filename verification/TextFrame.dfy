/** textframe.c: the editor's buffer of rows. A row is a C string, given by its bytes
    before the NUL; rows sit in an array that may be longer than the rows in use. */
module TextFrame {
  import opened Blocks
  import opened TextRows
  import opened Wrappers

  // ---- strcat and substr (textframe.c:14-62) ----

  ghost function Sub(src: Row, start: int, len: int): Row {
    if start < 0 then src
    else if start >= |src| || len <= 0 then []
    else if len > |src| - start then src[start..]
    else src[start..start + len]
  }

  method Substr(src: Row, start: int, len: int) returns (dst: Row)
    ensures dst == Sub(src, start, len)
  {
    if start < 0 {
      return src;
    }
    var n := len;
    if n > |src| - start {
      n := |src| - start;
    }
    if n < 0 {
      n := 0;
    }
    var buf := new byte[n + 1];
    for i := 0 to n
      invariant forall j :: 0 <= j < i ==> buf[j] == src[start + j]
    {
      buf[i] := src[start + i];
    }
    buf[n] := 0;
    dst := buf[..n];
  }

  method Strcat(s: Row, t: Row, len1: int, len2: int) returns (r: Row)
    requires len1 <= |s| && len2 <= |t|
    ensures r == s[..if len1 < 0 then 0 else len1] + t[..if len2 < 0 then 0 else len2]
  {
    var n, m := if len1 < 0 then 0 else len1, if len2 < 0 then 0 else len2;
    var buf := new byte[n + m + 1];
    for i := 0 to n
      invariant buf[..i] == s[..i]
    {
      buf[i] := s[i];
    }
    for i := 0 to m
      invariant buf[..n] == s[..n] && buf[n..n + i] == t[..i]
    {
      buf[n + i] := t[i];
    }
    buf[n + m] := 0;
    assert buf[..n + m] == buf[..n] + buf[n..n + m];
    r := buf[..n + m];
  }

  /** The two uses textframe_insert makes of them: a copy, and all of one row after another. */
  method Copy(src: Row, len: nat) returns (dst: Row)
    requires len <= |src|
    ensures dst == src[..len]
  {
    dst := Substr(src, 0, len);
  }

  method Concat(s: Row, t: Row) returns (r: Row)
    ensures r == s + t
  {
    r := Strcat(s, t, |s|, |t|);
  }

  // ---- Positions (textframe.c:99-129) ----

  predicate High(b: byte) {
    b >= 160
  }

  /** How many bytes of two-byte characters end at column c, one after the other. */
  function HighRun(row: Row, c: int): (n: nat)
    requires c < |row|
    ensures n <= c + 1 || n == 0
    decreases c + 1
  {
    if c < 0 || !High(row[c]) then 0 else 1 + HighRun(row, c - 1)
  }

  function Clamp(row: Row, c: int): (r: nat)
    ensures r <= |row|
  {
    if c > |row| then |row| else if c < 0 then 0 else c
  }

  /** Column c is not in the middle of a two-byte character. */
  ghost predicate OnBoundary(row: Row, c: nat) {
    c >= |row| || !High(row[c]) || HighRun(row, c) % 2 == 1
  }

  function AdjustedRow(maxrow: nat, r: int): int {
    if r >= maxrow && maxrow > 0 then maxrow - 1
    else if r >= maxrow || r < 0 then maxrow + 1
    else r
  }

  function AdjustedCol(row: Row, c: int, pos: nat, dir: int): int {
    var k := Clamp(row, c);
    if k < |row| && High(row[k]) && HighRun(row, k) % 2 == pos then k + dir else k
  }

  method AdjustRowCol(rows: seq<Row>, r: int, c: int, pos: nat, dir: int) returns (r': int, c': int)
    requires pos == 0 || pos == 1
    ensures r' == AdjustedRow(|rows|, r)
    ensures 0 <= r < |rows| ==> r' == r
    ensures r >= |rows| > 0 ==> r' == |rows| - 1
    ensures r < 0 || rows == [] ==> r' == |rows| + 1
    ensures c' == if 0 <= r' < |rows| then AdjustedCol(rows[r'], c, pos, dir) else c
  {
    r', c' := r, c;
    if r' >= |rows| { r' := |rows| - 1; }
    if r' < 0 { r' := |rows| + 1; }
    if 0 <= r' < |rows| {
      var row := rows[r'];
      if c' > |row| { c' := |row|; }
      if c' < 0 { c' := 0; }
      if c' < |row| && High(row[c']) {
        var i := c';
        while i >= 0 && High(row[i])
          invariant -1 <= i <= c' && HighRun(row, c') == c' - i + HighRun(row, i)
          decreases i + 1
        {
          i := i - 1;
        }
        if (c' - i) % 2 == pos {
          c' := c' + dir;
        }
      }
    }
  }

  /** How long the character at column i is: two bytes from 160 up make one. */
  function CharLen(row: Row, i: nat): nat
    requires i < |row|
  {
    if i + 1 < |row| && row[i] >= 160 && row[i + 1] >= 160 then 2 else 1
  }

  /** Going from character to character from column i on leads to column c. */
  ghost predicate Reaches(row: Row, i: nat, c: nat)
    requires c <= |row|
    decreases c - i
  {
    i == c || (i < c && Reaches(row, i + CharLen(row, i), c))
  }

  /** The columns between characters are those reached from the start of the row. */
  lemma BoundaryIsReached(row: Row, c: nat)
    requires c <= |row|
    ensures OnBoundary(row, c) <==> Reaches(row, 0, c)
  {
    ReachedFrom(row, 0, c);
  }

  lemma {:induction false} ReachedFrom(row: Row, i: nat, c: nat)
    requires i <= c <= |row| && OnBoundary(row, i)
    ensures OnBoundary(row, c) <==> Reaches(row, i, c)
    decreases c - i
  {
    if i < c {
      var n := CharLen(row, i);
      assert i + 1 < |row| && High(row[i + 1]) ==> HighRun(row, i + 1) == 1 + HighRun(row, i);
      if n == 2 && i + 2 < |row| {
        assert High(row[i + 2]) ==> HighRun(row, i + 2) == 1 + HighRun(row, i + 1);
      }
      if i + n <= c {
        ReachedFrom(row, i + n, c);
      }
    }
  }

  /** An adjusted position of a row is in the row and between characters. A column between
      characters is kept; one inside a character moves by one byte to the asked side; columns
      outside the row become its ends. */
  lemma AdjustLands(row: Row, c: int, dir: int)
    requires dir == 1 || dir == -1
    ensures var k := AdjustedCol(row, c, 0, dir);
      && 0 <= k <= |row| && OnBoundary(row, k)
      && Clamp(row, c) - 1 <= k <= Clamp(row, c) + 1
      && (OnBoundary(row, Clamp(row, c)) ==> k == Clamp(row, c))
      && (c <= 0 ==> k == 0) && (c >= |row| ==> k == |row|)
      && (0 <= c <= |row| ==> k == if OnBoundary(row, c) then c else c + dir)
  {
    var c0 := Clamp(row, c);
    if c0 < |row| && High(row[c0]) && HighRun(row, c0) % 2 == 0 {
      assert HighRun(row, c0) == 1 + HighRun(row, c0 - 1);
      if c0 + 1 < |row| {
        assert High(row[c0 + 1]) ==> HighRun(row, c0 + 1) == 1 + HighRun(row, c0);
      }
    }
  }

  lemma AdjustIn(row: Row, c: int, dir: int)
    requires dir == 1 || dir == -1
    ensures 0 <= AdjustedCol(row, c, 0, dir) <= |row|
  {
    AdjustLands(row, c, dir);
  }

  ghost function PutByte(row: Row, c: nat, ch: byte): Row
    requires c <= |row|
  {
    if ch == 0 then row[..c] else row[..c] + [ch] + row[c..]
  }

  lemma PutByteIs(row: Row, c: nat, ch: byte)
    requires c <= |row|
    ensures PutByte(row, c, ch) == row[..c] + if ch == 0 then [] else [ch] + row[c..]
  {
  }

  lemma PutByteFree(row: Row, c: nat, ch: byte)
    requires Free(row, 0) && c <= |row|
    ensures Free(PutByte(row, c, ch), 0)
  {
  }

  /** A copy of a row with a byte put in: the bytes after it move up one by one. */
  method WithByte(s: Row, c: nat, ch: byte) returns (r: Row)
    requires c <= |s|
    ensures r == PutByte(s, c, ch)
  {
    var len := |s|;
    var buf := new byte[len + 2](_ => 0);
    forall i | 0 <= i < len {
      buf[i] := s[i];
    }
    var i := len + 1;
    while i > c
      invariant c <= i <= len + 1
      invariant forall j :: 0 <= j < len && j < i ==> buf[j] == s[j]
      invariant forall j :: i < j <= len ==> buf[j] == s[j - 1]
    {
      buf[i] := buf[i - 1];
      i := i - 1;
    }
    buf[c] := ch;
    buf[len + 1] := 0;
    PutBytes(s, c, ch, buf[..len + 1]);
    r := if ch == 0 then buf[..c] else buf[..len + 1];
  }

  lemma PutBytes(s: Row, c: nat, ch: byte, buf: seq<byte>)
    requires c <= |s| && |buf| == |s| + 1 && buf[c] == ch
    requires (forall j :: 0 <= j < c ==> buf[j] == s[j]) && forall j :: c < j <= |s| ==> buf[j] == s[j - 1]
    ensures PutByte(s, c, ch) == if ch == 0 then buf[..c] else buf
  {
    assert buf == s[..c] + [ch] + s[c..];
  }

  class TextFrame {
    var data: array<Row>
    var row: int
    var col: int
    var cursorRow: int
    var cursorCol: int
    var maxrow: nat
    var capacity: nat

    /** The array is long enough for the rows in use and for the recorded capacity. */
    ghost predicate Valid()
      reads this, data
    {
      && maxrow <= data.Length && capacity <= data.Length
      && forall i :: 0 <= i < maxrow ==> Free(data[i], 0)
    }

    ghost function Rows(): seq<Row>
      requires maxrow <= data.Length
      reads this, data
    {
      data[..maxrow]
    }

    ghost predicate CursorIn()
      requires maxrow <= data.Length
      reads this, data
    {
      InText(Rows(), cursorRow, cursorCol)
    }

    /** LineEdit_set_str (textframe.c:534-553) on a frame that holds nothing yet. */
    constructor (str: Row)
      requires Free(str, 0)
      ensures Valid() && fresh(data) && Rows() == [str] && capacity == 1 && cursorRow == 0 && cursorCol == 0
    {
      data := new Row[1](_ => str);
      row, col, cursorRow, cursorCol, maxrow, capacity := 0, 0, 0, 0, 1, 1;
    }

    /** A frame around filled-in rows; its capacity field is left zero. */
    constructor Of(lines: array<Row>, atRow: int, atCol: int)
      ensures data == lines && maxrow == lines.Length && capacity == 0
      ensures cursorRow == atRow && cursorCol == atCol
    {
      data := lines;
      row, col, cursorRow, cursorCol, maxrow, capacity := 0, 0, atRow, atCol, lines.Length, 0;
    }

    /** textframe_write (textframe.c:180-217): what goes to the file. The writes are numbered,
        2i for row i and 2i+1 for the newline behind it; those in `fails` return an error, a
        failing write of a row after `part` bytes. A row that fails is reported; a newline
        that fails is not, and then two rows run together in the file. */
    method Save(canOpen: bool, fails: set<nat>, part: nat) returns (ok: bool, out: seq<byte>)
      requires Valid()
      modifies this`capacity
      ensures Valid() && capacity == if ok then maxrow else old(capacity)
      ensures ok <==> canOpen && forall i: nat :: i < maxrow ==> 2 * i !in fails
      ensures ok ==> (out == Join(Rows()) <==> NoneLost(Rows(), maxrow, fails))
      ensures !canOpen ==> out == []
      ensures canOpen && !ok ==> exists i :: BrokenOff(Rows(), fails, part, i, out)
    {
      out := [];
      if !canOpen {
        return false, out;
      }
      for i := 0 to maxrow
        invariant out == Saved(Rows(), i, fails) && forall j: nat :: j < i ==> 2 * j !in fails
      {
        if 2 * i in fails {
          out := out + data[i][..if part < |data[i]| then part else |data[i]|];
          assert BrokenOff(Rows(), fails, part, i, out);
          return false, out;
        }
        out := out + data[i];
        if i < maxrow - 1 && 2 * i + 1 !in fails {
          out := out + [LF];
        }
      }
      SavedAll(Rows(), maxrow, fails);
      WrittenAll(Rows());
      capacity := maxrow;
      ok := true;
    }

    /** putc_to_str (textframe.c:407-419): a byte into the cursor's row. A NUL byte ends the
        row there. */
    method PutChar(ch: byte)
      requires Valid() && CursorIn()
      modifies data
      ensures Valid() && Rows() == old(Rows())[cursorRow := PutByte(old(Rows())[cursorRow], cursorCol, ch)]
      ensures var line := old(Rows())[cursorRow];
        Rows()[cursorRow] == line[..cursorCol] + if ch == 0 then [] else [ch] + line[cursorCol..]
    {
      PutByteFree(data[cursorRow], cursorCol, ch);
      PutByteIs(data[cursorRow], cursorCol, ch);
      hide Free, PutByte;
      var line := WithByte(data[cursorRow], cursorCol, ch);
      data[cursorRow] := line;
    }

    /** move_to_next_char (textframe.c:438-449) */
    method MoveToNextChar()
      requires Valid() && 0 <= cursorRow < maxrow
      modifies this`cursorRow, this`cursorCol
      ensures CursorIn() && OnBoundary(Rows()[cursorRow], cursorCol)
      ensures var rows := Rows(); var r, c := old(cursorRow), old(cursorCol);
        if c < |rows[r]| then cursorRow == r && cursorCol == AdjustedCol(rows[r], c + 1, 0, 1)
        else if r + 1 < |rows| then cursorRow == r + 1 && cursorCol == 0
        else cursorRow == r && cursorCol == |rows[r]|
    {
      if cursorCol < |data[cursorRow]| {
        cursorCol := cursorCol + 1;
      } else if cursorRow + 1 < maxrow {
        cursorRow := cursorRow + 1;
        cursorCol := 0;
      }
      AdjustLands(data[cursorRow], cursorCol, 1);
      FirstColumn(data[cursorRow]);
      cursorRow, cursorCol := AdjustRowCol(data[..maxrow], cursorRow, cursorCol, 0, 1);
    }

    /** move_to_pos (textframe.c:515-527). Row -1 is the last row; any other negative row puts
        the cursor two past the last row. Every negative column is the end of the row: the
        comparison with the unsigned result of strlen takes it for a large number. */
    method MoveToPos(r: int, c: int)
      requires Valid()
      modifies this`cursorRow, this`cursorCol
      ensures maxrow > 0 && r >= -1 ==>
        && CursorIn() && OnBoundary(Rows()[cursorRow], cursorCol)
        && cursorRow == (if r == -1 || r >= maxrow then maxrow - 1 else r)
        && cursorCol == AdjustedCol(Rows()[cursorRow], if c < 0 then |Rows()[cursorRow]| else c, 0, 1)
      ensures maxrow == 0 || r < -1 ==> cursorRow == maxrow + 1
    {
      var r', c' := r, c;
      if r' == -1 || r' >= maxrow { r' := maxrow - 1; }
      if r' >= 0 && (c' < 0 || c' > |data[r']|) { c' := |data[r']|; }
      if r' >= 0 { AdjustLands(data[r'], c', 1); }
      cursorRow, cursorCol := AdjustRowCol(data[..maxrow], r', c', 0, 1);
    }

    /** new_line_to_editor (textframe.c:477-513): the cursor's row is broken in two, in an
        array that is made longer first when the recorded capacity does not allow for it. */
    method NewLine()
      requires Valid() && maxrow > 0 && cursorRow >= 0
      modifies this, data
      ensures Valid() && (data == old(data) || fresh(data))
      ensures var rows := old(Rows()); var r := if old(cursorRow) < |rows| then old(cursorRow) else |rows| - 1;
        var c := AdjustedCol(rows[r], old(cursorCol), 0, 1);
        && InText(rows, r, c) && Rows() == Inserted(rows, r, c, [[], []])
        && cursorRow == r + 1 && cursorCol == 0 && CursorIn()
    {
      hide Inserted, AdjustedCol, OnBoundary, AllFree;
      ghost var rows := Rows();
      assert AllFree(rows) by { RowsFree(); }
      var len := maxrow;
      cursorRow, cursorCol := AdjustRowCol(data[..maxrow], cursorRow, cursorCol, 0, 1);
      AdjustIn(data[cursorRow], old(cursorCol), 1);
      if len + 1 >= capacity {
        Lengthen(len);
      }
      BreakRow(len, cursorRow, cursorCol, rows);
      Broken(rows, cursorRow, cursorCol);
      AddRow(cursorRow + 1);
    }

    /** Counts the row that was made, and puts the cursor at its start. */
    method AddRow(r: nat)
      requires r <= maxrow < data.Length && capacity <= data.Length && AllFree(data[..maxrow + 1])
      modifies this`maxrow, this`cursorRow, this`cursorCol
      ensures Valid() && maxrow == old(maxrow) + 1 && cursorRow == r && cursorCol == 0 && CursorIn()
    {
      hide Free, AdjustedCol, OnBoundary;
      ghost var rows := data[..maxrow + 1];
      maxrow := maxrow + 1;
      assert forall i :: 0 <= i < maxrow ==> data[i] == rows[i];
      FirstColumn(data[r]);
      MoveToPos(r, 0);
    }

    lemma RowsFree()
      requires Valid()
      ensures AllFree(Rows())
    {
    }

    /** The state while a file is read: its lines so far, and the cursor at their end. */
    ghost predicate Loading(s: seq<byte>)
      reads this, data
    {
      && Valid() && maxrow > 0 && Rows() == Lines(s)
      && cursorRow == maxrow - 1 && cursorCol == |data[maxrow - 1]|
    }

    /** The body of textframe_read's loop over a byte of the file; s is what came before. */
    method LoadByte(b: byte, lastc: int, ghost s: seq<byte>)
      requires Loading(s) && lastc == (if s == [] then -1 else s[|s| - 1] as int)
      modifies this, data
      ensures Loading(s + [b]) && (data == old(data) || fresh(data))
    {
      hide Lines, Inserted, AdjustedCol, PutByte, OnBoundary, Free;
      LinesAppend(s, b);
      if b == CR || b == LF {
        if b == CR || (b == LF && lastc != 13) {
          EndColumn(data[cursorRow]);
          BreakAtEnd(Rows());
          NewLine();
        }
      } else {
        PutAtEnd(Rows(), b);
        PutChar(b);
        EndColumn(data[cursorRow]);
        MoveToNextChar();
      }
    }

    /** One piece of a file. */
    method LoadChunk(chunk: seq<byte>, last: int, ghost s: seq<byte>) returns (lastc: int)
      requires Loading(s) && last == (if s == [] then -1 else s[|s| - 1] as int)
      modifies this, data
      ensures Loading(s + chunk) && (data == old(data) || fresh(data))
      ensures var t := s + chunk; lastc == if t == [] then -1 else t[|t| - 1] as int
    {
      hide Loading;
      lastc := last;
      ghost var t := s;
      for i := 0 to |chunk|
        invariant t == s + chunk[..i] && Loading(t) && (data == old(data) || fresh(data))
        invariant lastc == if t == [] then -1 else t[|t| - 1] as int
      {
        LoadByte(chunk[i], lastc, t);
        t := t + [chunk[i]];
        lastc := chunk[i];
      }
      assert chunk[..|chunk|] == chunk;
    }

    /** textframe_read (textframe.c:131-178) of a file that arrives in these pieces: whatever
        the pieces, the rows are the lines of the file. */
    method Load(chunks: seq<seq<byte>>)
      requires forall k :: 0 <= k < |chunks| ==> 0 < |chunks[k]| <= 1024
      modifies this
      ensures Valid() && fresh(data) && Rows() == Lines(Flatten(chunks))
      ensures cursorRow == 0 && cursorCol == 0 && capacity == maxrow
    {
      hide Lines, Flatten, AdjustedCol, Free;
      data := new Row[1](_ => []);
      row, col, cursorRow, cursorCol, maxrow, capacity := 0, 0, 0, 0, 1, 1;
      LinesNone();
      assert Rows() == [[]];
      var lastc: int := -1;
      ghost var s: seq<byte> := [];
      for k := 0 to |chunks|
        invariant s == Flatten(chunks[..k]) && Loading(s) && fresh(data)
        invariant lastc == if s == [] then -1 else s[|s| - 1] as int
      {
        lastc := LoadChunk(chunks[k], lastc, s);
        s := s + chunks[k];
        FlattenNext(chunks, k);
      }
      assert chunks[..|chunks|] == chunks;
      FirstColumn(data[0]);
      MoveToPos(0, 0);
      capacity := maxrow;
    }

    /** A longer array with the same rows. */
    method Lengthen(len: nat)
      requires 0 < len == maxrow <= data.Length
      modifies this`data, this`capacity
      ensures fresh(data) && data.Length == capacity == len * 2 && data[..len] == old(data[..len])
    {
      var longer := new Row[len * 2](_ => []);
      forall i | 0 <= i < len {
        longer[i] := data[i];
      }
      data := longer;
      capacity := len * 2;
    }

    method BreakRow(len: nat, r: nat, c: nat, ghost rows: seq<Row>)
      requires len < data.Length && data[..len] == rows && InText(rows, r, c)
      modifies data
      ensures data[..len + 1] == rows[..r] + [rows[r][..c], rows[r][c..]] + rows[r + 1..]
    {
      var i := len;
      while i > r + 1
        invariant r + 1 <= i <= len
        invariant forall j :: 0 <= j < i ==> data[j] == rows[j]
        invariant forall j :: i < j <= len ==> data[j] == rows[j - 1]
      {
        data[i] := data[i - 1];
        i := i - 1;
      }
      var line := data[r];
      var rest := Copy(line[c..], |line| - c);
      data[r + 1] := rest;
      data[r] := line[..c];
      ghost var broken := rows[..r] + [rows[r][..c], rows[r][c..]] + rows[r + 1..];
      forall j | 0 <= j < len + 1
        ensures data[j] == broken[j]
      {
      }
    }
  }

  /** The file after k rows, where newlines can be lost. */
  ghost function Saved(rows: seq<Row>, k: nat, fails: set<nat>): seq<byte>
    requires k <= |rows|
  {
    if k == 0 then []
    else Saved(rows, k - 1, fails) + rows[k - 1] + (if k < |rows| && 2 * k - 1 !in fails then [LF] else [])
  }

  ghost predicate NoneLost(rows: seq<Row>, k: nat, fails: set<nat>) {
    forall i: nat :: i < k && i + 1 < |rows| ==> 2 * i + 1 !in fails
  }

  /** Row i could not be written: the file ends in the middle of it. */
  ghost predicate BrokenOff(rows: seq<Row>, fails: set<nat>, part: nat, i: nat, out: seq<byte>) {
    && i < |rows| && 2 * i in fails && (forall j: nat :: j < i ==> 2 * j !in fails)
    && out == Saved(rows, i, fails) + rows[i][..if part < |rows[i]| then part else |rows[i]|]
  }

  /** A lost newline makes the file shorter than it should be. */
  lemma {:induction false} SavedAll(rows: seq<Row>, k: nat, fails: set<nat>)
    requires k <= |rows|
    ensures |Saved(rows, k, fails)| <= |Written(rows, k)|
    ensures NoneLost(rows, k, fails) ==> Saved(rows, k, fails) == Written(rows, k)
    ensures !NoneLost(rows, k, fails) ==> |Saved(rows, k, fails)| < |Written(rows, k)|
  {
    hide Written;
    if k == 0 {
      assert Written(rows, 0) == [] by { WrittenNone(rows); }
    } else {
      SavedAll(rows, k - 1, fails);
      WrittenStep(rows, k - 1);
      assert NoneLost(rows, k, fails) <==> NoneLost(rows, k - 1, fails) && (k < |rows| ==> 2 * (k - 1) + 1 !in fails);
    }
  }

  lemma WrittenNone(rows: seq<Row>)
    ensures Written(rows, 0) == []
  {
  }

  /** The file after the first k rows were written. */
  ghost function Written(rows: seq<Row>, k: nat): seq<byte>
    requires k <= |rows|
  {
    if k == 0 then [] else Join(rows[..k]) + (if k < |rows| then [LF] else [])
  }

  lemma WrittenStep(rows: seq<Row>, k: nat)
    requires k < |rows|
    ensures Written(rows, k + 1) == Written(rows, k) + rows[k] + (if k + 1 < |rows| then [LF] else [])
  {
    hide Join;
    assert rows[..k + 1] == rows[..k] + [rows[k]];
    JoinOne(rows[k]);
    if k == 0 {
      assert rows[..1] == [rows[0]];
    } else {
      JoinTail(rows[..k], [rows[k]]);
    }
  }

  lemma WrittenAll(rows: seq<Row>)
    ensures Written(rows, |rows|) == Join(rows)
  {
    assert rows[..|rows|] == rows;
  }

  lemma FirstColumn(row: Row)
    ensures AdjustedCol(row, 0, 0, 1) == 0
  {
    if row != [] && High(row[0]) {
      assert HighRun(row, 0) == 1 + HighRun(row, -1);
    }
  }

  ghost predicate AllFree(rows: seq<Row>) {
    forall i :: 0 <= i < |rows| ==> Free(rows[i], 0)
  }

  function Flatten(chunks: seq<seq<byte>>): seq<byte> {
    if chunks == [] then [] else Flatten(chunks[..|chunks| - 1]) + chunks[|chunks| - 1]
  }

  lemma FlattenNext(chunks: seq<seq<byte>>, k: nat)
    requires k < |chunks|
    ensures Flatten(chunks[..k + 1]) == Flatten(chunks[..k]) + chunks[k]
  {
    assert chunks[..k + 1][..k] == chunks[..k];
  }

  lemma LinesNone()
    ensures Lines([]) == [[]] && Flatten([]) == [] && Free([], 0)
  {
  }

  lemma EndColumn(row: Row)
    ensures AdjustedCol(row, |row|, 0, 1) == |row|
  {
  }

  lemma BreakAtEnd(rows: seq<Row>)
    requires rows != []
    ensures var n := |rows| - 1; Inserted(rows, n, |rows[n]|, [[], []]) == rows + [[]]
  {
    var n := |rows| - 1;
    Broken(rows, n, |rows[n]|);
    assert rows[n][..|rows[n]|] == rows[n] && rows[n][|rows[n]|..] == [];
  }

  lemma PutAtEnd(rows: seq<Row>, b: byte)
    requires rows != []
    ensures var n := |rows| - 1;
      rows[n := PutByte(rows[n], |rows[n]|, b)] == if b == 0 then rows else rows[..n] + [rows[n] + [b]]
  {
    var row := rows[|rows| - 1];
    assert row[..|row|] == row && row[|row|..] == [];
    assert row + [b] + [] == row + [b];
  }

  lemma Broken(rows: seq<Row>, r: nat, c: nat)
    requires InText(rows, r, c)
    ensures Inserted(rows, r, c, [[], []]) == rows[..r] + [rows[r][..c], rows[r][c..]] + rows[r + 1..]
    ensures AllFree(rows) ==> AllFree(Inserted(rows, r, c, [[], []]))
  {
    var left, right, ins: seq<Row> := rows[r][..c], rows[r][c..], [[], []];
    assert left + ins[0] == left && ins[1] + right == right && ins[1..1] == [];
    assert Merged(left, ins, right) == [left, right];
    if AllFree(rows) {
      InsertedFree(rows, r, c, ins);
    }
  }

  /** Row i of rows with other rows inserted. */
  ghost function InsertedRow(rows: seq<Row>, r: nat, c: nat, ins: seq<Row>, i: nat): Row
    requires InText(rows, r, c) && ins != [] && i < |rows| + |ins| - 1
  {
    var n := |ins| - 1;
    if i < r then rows[i]
    else if i > r + n then rows[i - n]
    else if n == 0 then rows[r][..c] + ins[0] + rows[r][c..]
    else if i == r then rows[r][..c] + ins[0]
    else if i == r + n then ins[n] + rows[r][c..]
    else ins[i - r]
  }

  lemma MergedAt(left: Row, ins: seq<Row>, right: Row, j: nat)
    requires j < |ins|
    ensures Merged(left, ins, right)[j] ==
            if |ins| == 1 then left + ins[0] + right
            else if j == 0 then left + ins[0]
            else if j == |ins| - 1 then ins[j] + right
            else ins[j]
  {
  }

  lemma InsertedAt(rows: seq<Row>, r: nat, c: nat, ins: seq<Row>, i: nat)
    requires InText(rows, r, c) && ins != [] && i < |rows| + |ins| - 1
    ensures |Inserted(rows, r, c, ins)| == |rows| + |ins| - 1
    ensures Inserted(rows, r, c, ins)[i] == InsertedRow(rows, r, c, ins, i)
  {
    var left, right := rows[r][..c], rows[r][c..];
    MergedLength(left, ins, right);
    if r <= i < r + |ins| {
      MergedAt(left, ins, right, i - r);
    }
    hide Merged;
  }

  /** One round of textframe_insert's loop: the row, and the cursor's column if it is the
      row the cursor goes to. */
  method InsertRow(rows: seq<Row>, ins: seq<Row>, r: int, c: int, i: nat) returns (line: Row, cursor: Option<nat>)
    requires ins != [] && i < |rows| + |ins| - 1
    requires if 0 <= r < |rows| then InText(rows, r, c) else r > |rows| && |ins| == 1
    ensures line == if 0 <= r < |rows| then InsertedRow(rows, r, c, ins, i) else rows[i]
    ensures cursor == if 0 <= r < |rows| && i == r + |ins| - 1 then Some(EndCol(c, ins)) else None
  {
    var n := |ins| - 1;
    cursor := None;
    if i < r {
      line := Copy(rows[i], |rows[i]|);
    } else if r < i < r + n {
      line := Copy(ins[i - r], |ins[i - r]|);
    } else if i == r || i == r + n {
      var left := Copy(rows[r], c);
      var right := Copy(rows[r][c..], |rows[r]| - c);
      if |ins| == 1 {
        var start := Concat(left, ins[0]);
        line := Concat(start, right);
        cursor := Some(|start|);
      } else if i == r {
        line := Concat(left, ins[0]);
      } else {
        line := Concat(ins[n], right);
        cursor := Some(|ins[n]|);
      }
    } else {
      line := Copy(rows[i - n], |rows[i - n]|);
    }
  }

  lemma {:induction false} InsertedFree(rows: seq<Row>, r: nat, c: nat, ins: seq<Row>)
    requires InText(rows, r, c) && ins != []
    requires forall i :: 0 <= i < |rows| ==> Free(rows[i], 0)
    requires forall i :: 0 <= i < |ins| ==> Free(ins[i], 0)
    ensures forall i :: 0 <= i < |Inserted(rows, r, c, ins)| ==> Free(Inserted(rows, r, c, ins)[i], 0)
  {
    InsertedAt(rows, r, c, ins, 0);
    forall i: nat | i < |Inserted(rows, r, c, ins)|
      ensures Free(Inserted(rows, r, c, ins)[i], 0)
    {
      InsertedAt(rows, r, c, ins, i);
    }
  }

  /** textframe.c:352-405. The inserted text ends up at the adjusted position with the
      cursor just after it; a negative row, or a text without rows, is adjusted past the
      last row, and then nothing is inserted. */
  method Insert(text: TextFrame, ins: TextFrame, r: int, c: int) returns (res: TextFrame)
    requires text.Valid() && ins.Valid() && ins.maxrow > 0
    requires (r < 0 || text.maxrow == 0) ==> ins.maxrow == 1
    ensures fresh(res) && fresh(res.data) && res.Valid()
    ensures r < 0 || text.maxrow == 0 ==> res.Rows() == text.Rows()
    ensures r >= 0 && text.maxrow > 0 ==> PutIn(text.Rows(), r, c, ins.Rows(), res.Rows(), res.cursorRow, res.cursorCol)
  {
    hide Inserted, EndCol, AdjustedCol, Free, InsertedRow;
    var rows, inRows := text.data[..text.maxrow], ins.data[..ins.maxrow];
    var r', c' := AdjustRowCol(rows, r, c, 0, 1);
    if 0 <= r' < |rows| {
      AdjustLands(rows[r'], c, 1);
      InsertedFree(rows, r', c', inRows);
      InsertedAt(rows, r', c', inRows, 0);
    }
    var lines := new Row[|rows| + |inRows| - 1](_ => []);
    var at := (0, 0);
    for i := 0 to lines.Length
      invariant r' > |rows| ==> lines[..i] == rows[..i]
      invariant 0 <= r' < |rows| ==> |Inserted(rows, r', c', inRows)| == lines.Length
      invariant 0 <= r' < |rows| ==> lines[..i] == Inserted(rows, r', c', inRows)[..i]
      invariant at == if 0 <= r' && r' + |inRows| - 1 < i && r' < |rows|
                      then (r' + |inRows| - 1, EndCol(c', inRows)) else (0, 0)
    {
      if 0 <= r' < |rows| {
        InsertedAt(rows, r', c', inRows, i);
      }
      var line, cursor := InsertRow(rows, inRows, r', c', i);
      if cursor.Some? {
        at := (i, cursor.value);
      }
      lines[i] := line;
    }
    assert lines[..lines.Length] == lines[..];
    res := new TextFrame.Of(lines, at.0, at.1);
  }

  /** What textframe_insert makes of rows with ins put at row r, column c. */
  ghost predicate PutIn(rows: seq<Row>, r: nat, c: int, ins: seq<Row>, res: seq<Row>, atRow: int, atCol: int)
    requires rows != [] && ins != []
  {
    var r' := AdjustedRow(|rows|, r);
    var c' := AdjustedCol(rows[r'], c, 0, 1);
    && InText(rows, r', c') && res == Inserted(rows, r', c', ins)
    && atRow == r' + |ins| - 1 && atCol == EndCol(c', ins)
  }

  /** textframe_insert is a splice: the joined result is the joined text with the joined
      insertion at the adjusted position, which is between characters, and the cursor is
      just after what was inserted. */
  lemma InsertSplices(rows: seq<Row>, r: nat, c: int, ins: seq<Row>, res: seq<Row>, atRow: int, atCol: int)
    requires rows != [] && ins != [] && PutIn(rows, r, c, ins, res, atRow, atCol)
    ensures var r' := if r < |rows| then r else |rows| - 1; var c' := AdjustedCol(rows[r'], c, 0, 1);
      && InText(rows, r', c') && OnBoundary(rows[r'], c') && Offset(rows, r', c') <= |Join(rows)|
      && Join(res) == Splice(Join(rows), Offset(rows, r', c'), Join(ins))
      && InText(res, atRow, atCol) && Offset(res, atRow, atCol) == Offset(rows, r', c') + |Join(ins)|
  {
    var r' := if r < |rows| then r else |rows| - 1;
    AdjustLands(rows[r'], c, 1);
    var c' := AdjustedCol(rows[r'], c, 0, 1);
    InsertIsSplice(rows, r', c', ins);
    CursorAfterInsert(rows, r', c', ins);
  }

  /** Typing a character or a newline is a splice of that one byte. */
  lemma TypingSplices(rows: seq<Row>, r: nat, c: nat, ch: byte)
    requires InText(rows, r, c) && ch != 0
    ensures Offset(rows, r, c) <= |Join(rows)|
    ensures Join(rows[r := PutByte(rows[r], c, ch)]) == Splice(Join(rows), Offset(rows, r, c), [ch])
    ensures Join(Inserted(rows, r, c, [[], []])) == Splice(Join(rows), Offset(rows, r, c), [LF])
  {
    hide Join, Splice;
    assert rows[r := PutByte(rows[r], c, ch)] == Inserted(rows, r, c, [[ch]]);
    InsertIsSplice(rows, r, c, [[ch]]);
    JoinOne([ch]);
    InsertIsSplice(rows, r, c, [[], []]);
    EmptyRows();
  }

  lemma EmptyRows()
    ensures Join([[], []]) == [LF]
  {
    var rows: seq<Row> := [[], []];
    assert rows[1..] == [[]];
  }
}
