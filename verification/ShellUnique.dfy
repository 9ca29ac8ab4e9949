/** The shell grammar is unambiguous: from a given token on there is at most one command
    of each form that is followed by something that may follow it, and what stops the
    parser (sh.c:357-464) also rules out that there is one. */
module ShellUnique {
  import opened ShellGrammar

  // ---- What may follow each form ----

  predicate ExecStop(T: seq<Token>, n: nat) {
    n >= |T| || T[n].kind == '|' || PipeStop(T, n)
  }

  predicate PipeStop(T: seq<Token>, n: nat) {
    n >= |T| || T[n].kind == '&' || BackStop(T, n)
  }

  predicate BackStop(T: seq<Token>, n: nat) {
    n >= |T| || T[n].kind == ';' || LineStop(T, n)
  }

  predicate LineStop(T: seq<Token>, n: nat) {
    n >= |T| || T[n].kind == ')'
  }

  predicate NoRedir(T: seq<Token>, n: nat) {
    n >= |T| || !RedirKind(T[n].kind)
  }

  ghost predicate ExecTo(c: Cmd, T: seq<Token>, lo: nat, n: nat) {
    lo <= n <= |T| && IsExec(c, T, lo, n) && ExecStop(T, n)
  }

  ghost predicate PipeTo(c: Cmd, T: seq<Token>, lo: nat, n: nat) {
    lo <= n <= |T| && IsPipe(c, T, lo, n) && PipeStop(T, n)
  }

  ghost predicate LineTo(c: Cmd, T: seq<Token>, lo: nat, n: nat) {
    lo <= n <= |T| && IsLine(c, T, lo, n) && LineStop(T, n)
  }

  // ---- Simple commands ----

  lemma {:induction false} SimpleKinds(T: seq<Token>, lo: nat, hi: nat, i: nat, words: bool)
    requires lo <= i < hi <= |T| && Simple(T, lo, hi, words)
    ensures T[i].kind == 'a' || RedirKind(T[i].kind)
    ensures RedirKind(T[i].kind) ==> i + 1 < hi && T[i + 1].kind == 'a'
    decreases hi
  {
    if EndsInRedir(T, lo, hi) {
      if i < hi - 2 {
        SimpleKinds(T, lo, hi - 2, i, words);
      }
    } else if i < hi - 1 {
      SimpleKinds(T, lo, hi - 1, i, words);
      if i == hi - 2 {
        assert T[i].kind == 'a';
      }
    }
  }

  lemma {:induction false} RedirKinds(T: seq<Token>, lo: nat, hi: nat, i: nat)
    requires lo <= i < hi <= |T| && Simple(T, lo, hi, false)
    ensures (hi - lo) % 2 == 0 && (RedirKind(T[i].kind) <==> (i - lo) % 2 == 0)
    decreases hi
  {
    if i < hi - 2 {
      RedirKinds(T, lo, hi - 2, i);
    } else if lo < hi - 2 {
      RedirKinds(T, lo, hi - 2, lo);
    }
  }

  /** A simple command that may end at n and one over all tokens before m are the same. */
  lemma SimpleLongest(T: seq<Token>, lo: nat, n: nat, m: nat)
    requires lo <= n <= |T| && lo <= m <= |T| && Simple(T, lo, m, true) && ExecStop(T, n)
    ensures m <= n
  {
    if n < m {
      SimpleKinds(T, lo, m, n, true);
    }
  }

  lemma RedirsLongest(T: seq<Token>, lo: nat, n: nat, m: nat)
    requires lo <= n <= |T| && lo <= m <= |T| && Simple(T, lo, n, false) && Simple(T, lo, m, false)
    requires NoRedir(T, n)
    ensures m <= n
  {
    if n < m {
      RedirKinds(T, lo, m, n);
      if lo < n {
        RedirKinds(T, lo, n, lo);
      }
    }
  }

  lemma {:induction false} ArgsGrow(T: seq<Token>, lo: nat, n: nat, m: nat)
    requires lo <= n <= m <= |T| && Simple(T, lo, n, true) && Simple(T, lo, m, true)
    ensures |Args(T, lo, n)| <= |Args(T, lo, m)|
    decreases m
  {
    if n < m {
      if EndsInRedir(T, lo, m) {
        ArgsGrow(T, lo, n, m - 2);
      } else {
        ArgsGrow(T, lo, n, m - 1);
      }
    }
  }

  // ---- Uniqueness ----

  lemma SimpleUnique(c1: Cmd, c2: Cmd, T: seq<Token>, lo: nat, n1: nat, n2: nat)
    requires lo <= n1 <= |T| && lo <= n2 <= |T| && IsSimple(c1, T, lo, n1) && IsSimple(c2, T, lo, n2)
    requires ExecStop(T, n1) && ExecStop(T, n2)
    ensures n1 == n2 && c1 == c2
  {
    SimpleLongest(T, lo, n1, n2);
    SimpleLongest(T, lo, n2, n1);
  }

  /** An opening parenthesis starts a block, anything else a simple command. */
  lemma OpensBlock(c: Cmd, T: seq<Token>, lo: nat, n: nat)
    requires ExecTo(c, T, lo, n)
    ensures lo < |T| && T[lo].kind == '(' <==> !IsSimple(c, T, lo, n)
    ensures !IsSimple(c, T, lo, n) ==> exists i: nat, inner :: BlockAt(c, T, lo, n, i, inner)
  {
    assert IsExec(c, T, lo, n);
    if IsSimple(c, T, lo, n) {
      if lo < n {
        SimpleKinds(T, lo, n, lo, true);
      }
    } else {
      var i: nat, inner :| BlockAt(c, T, lo, n, i, inner);
    }
  }

  lemma {:induction false} ExecUnique(c1: Cmd, c2: Cmd, T: seq<Token>, lo: nat, n1: nat, n2: nat)
    requires ExecTo(c1, T, lo, n1) && ExecTo(c2, T, lo, n2)
    ensures n1 == n2 && c1 == c2
    decreases |T| - lo, 0
  {
    OpensBlock(c1, T, lo, n1);
    OpensBlock(c2, T, lo, n2);
    if IsSimple(c1, T, lo, n1) {
      SimpleUnique(c1, c2, T, lo, n1, n2);
    } else {
      var i1: nat, d1 :| BlockAt(c1, T, lo, n1, i1, d1);
      var i2: nat, d2 :| BlockAt(c2, T, lo, n2, i2, d2);
      LineUnique(d1, d2, T, lo + 1, i1, i2);
      RedirsLongest(T, i1 + 1, n1, n2);
      RedirsLongest(T, i1 + 1, n2, n1);
    }
  }

  /** Where the first command of a pipe ends. */
  ghost predicate PipeHead(c: Cmd, T: seq<Token>, lo: nat, n: nat, e: nat, d: Cmd)
    requires lo <= n <= |T|
  {
    && ExecTo(d, T, lo, e) && e <= n
    && if e == n then c == d
       else T[e].kind == '|' && c.Pipe? && c.left == d && IsPipe(c.right, T, e + 1, n)
  }

  lemma HeadOfPipe(c: Cmd, T: seq<Token>, lo: nat, n: nat) returns (e: nat, d: Cmd)
    requires PipeTo(c, T, lo, n)
    ensures PipeHead(c, T, lo, n, e, d)
  {
    assert IsPipe(c, T, lo, n);
    if IsExec(c, T, lo, n) {
      e, d := n, c;
    } else {
      e :| PipeAt(c, T, lo, n, e);
      d := c.left;
    }
  }

  lemma {:induction false} PipeUnique(c1: Cmd, c2: Cmd, T: seq<Token>, lo: nat, n1: nat, n2: nat)
    requires PipeTo(c1, T, lo, n1) && PipeTo(c2, T, lo, n2)
    ensures n1 == n2 && c1 == c2
    decreases |T| - lo, 1
  {
    var e1, d1 := HeadOfPipe(c1, T, lo, n1);
    var e2, d2 := HeadOfPipe(c2, T, lo, n2);
    ExecUnique(d1, d2, T, lo, e1, e2);
    if e1 < n1 && e2 < n2 {
      PipeUnique(c1.right, c2.right, T, e1 + 1, n1, n2);
    }
  }

  ghost function Backs(c: Cmd, n: nat): Cmd {
    if n == 0 then c else Back(Backs(c, n - 1))
  }

  ghost predicate Ampersands(T: seq<Token>, lo: nat, hi: nat)
    requires hi <= |T|
  {
    forall i :: lo <= i < hi ==> T[i].kind == '&'
  }

  /** A background command is a pipe and the ampersands after it. */
  lemma {:induction false} PipeOfBack(c: Cmd, T: seq<Token>, lo: nat, n: nat) returns (p: nat, d: Cmd)
    requires lo <= n <= |T| && IsBack(c, T, lo, n)
    ensures lo <= p <= n && IsPipe(d, T, lo, p) && Ampersands(T, p, n) && c == Backs(d, n - p)
    decreases n
  {
    if IsPipe(c, T, lo, n) {
      p, d := n, c;
    } else {
      p, d := PipeOfBack(c.cmd, T, lo, n - 1);
    }
  }

  lemma BackUnique(c1: Cmd, c2: Cmd, T: seq<Token>, lo: nat, n1: nat, n2: nat)
    requires lo <= n1 <= |T| && IsBack(c1, T, lo, n1) && BackStop(T, n1)
    requires lo <= n2 <= |T| && IsBack(c2, T, lo, n2) && BackStop(T, n2)
    ensures n1 == n2 && c1 == c2
    decreases |T| - lo, 2
  {
    var p1, d1 := PipeOfBack(c1, T, lo, n1);
    var p2, d2 := PipeOfBack(c2, T, lo, n2);
    PipeUnique(d1, d2, T, lo, p1, p2);
  }

  ghost predicate LineHead(c: Cmd, T: seq<Token>, lo: nat, n: nat, b: nat, d: Cmd)
    requires lo <= n <= |T|
  {
    && lo <= b <= n && IsBack(d, T, lo, b) && BackStop(T, b)
    && if b == n then c == d
       else T[b].kind == ';' && c.List? && c.left == d && IsLine(c.right, T, b + 1, n)
  }

  lemma HeadOfLine(c: Cmd, T: seq<Token>, lo: nat, n: nat) returns (b: nat, d: Cmd)
    requires LineTo(c, T, lo, n)
    ensures LineHead(c, T, lo, n, b, d)
  {
    assert IsLine(c, T, lo, n);
    if IsBack(c, T, lo, n) {
      b, d := n, c;
    } else {
      b :| ListAt(c, T, lo, n, b);
      d := c.left;
    }
  }

  /** At most one command line starts at a token and ends where a line may. */
  lemma {:induction false} LineUnique(c1: Cmd, c2: Cmd, T: seq<Token>, lo: nat, n1: nat, n2: nat)
    requires LineTo(c1, T, lo, n1) && LineTo(c2, T, lo, n2)
    ensures n1 == n2 && c1 == c2
    decreases |T| - lo, 3
  {
    var b1, d1 := HeadOfLine(c1, T, lo, n1);
    var b2, d2 := HeadOfLine(c2, T, lo, n2);
    BackUnique(d1, d2, T, lo, b1, b2);
    if b1 < n1 && b2 < n2 {
      LineUnique(c1.right, c2.right, T, b1 + 1, n1, n2);
    }
  }

  // ---- When there is no command ----

  ghost predicate NoExec(T: seq<Token>, lo: nat) {
    forall c, n: nat :: !ExecTo(c, T, lo, n)
  }

  ghost predicate NoPipe(T: seq<Token>, lo: nat) {
    forall c, n: nat :: !PipeTo(c, T, lo, n)
  }

  ghost predicate NoLine(T: seq<Token>, lo: nat) {
    forall c, n: nat :: !LineTo(c, T, lo, n)
  }

  /** "missing file for redirection", "syntax" and "too many args" in a simple command. */
  lemma SimplePanics(T: seq<Token>, lo: nat, n: nat)
    requires lo <= n <= |T| && Simple(T, lo, n, true) && (lo < |T| ==> T[lo].kind != '(')
    requires || (n < |T| && RedirKind(T[n].kind) && (n + 1 < |T| ==> T[n + 1].kind != 'a'))
             || (n < |T| && T[n].kind == '(')
             || |Args(T, lo, n)| >= MAXARGS
    ensures NoExec(T, lo)
  {
    forall c, m: nat
      ensures !ExecTo(c, T, lo, m)
    {
      if ExecTo(c, T, lo, m) {
        OpensBlock(c, T, lo, m);
        SimpleLongest(T, lo, m, n);
        ArgsGrow(T, lo, n, m);
        if n < m {
          SimpleKinds(T, lo, m, n, true);
        }
      }
    }
  }

  lemma BlockNoLine(T: seq<Token>, lo: nat)
    requires lo < |T| && T[lo].kind == '(' && NoLine(T, lo + 1)
    ensures NoExec(T, lo)
  {
    forall c, m: nat
      ensures !ExecTo(c, T, lo, m)
    {
      if ExecTo(c, T, lo, m) {
        OpensBlock(c, T, lo, m);
        var i: nat, inner :| BlockAt(c, T, lo, m, i, inner);
        assert LineTo(inner, T, lo + 1, i);
      }
    }
  }

  /** A line the parser found after '(': where it ends and what follows, if a block is there. */
  ghost predicate FoundLine(T: seq<Token>, lo: nat, i: nat, inner: Cmd) {
    && lo < |T| && T[lo].kind == '(' && lo < i <= |T| && IsLine(inner, T, lo + 1, i)
    && (NoLine(T, lo + 1) || LineStop(T, i))
  }

  /** Any block at lo has that line in it. */
  lemma SameBlock(T: seq<Token>, lo: nat, i: nat, inner: Cmd, c: Cmd, m: nat)
    requires FoundLine(T, lo, i, inner) && ExecTo(c, T, lo, m)
    ensures BlockAt(c, T, lo, m, i, inner)
  {
    OpensBlock(c, T, lo, m);
    var i', inner' :| BlockAt(c, T, lo, m, i', inner');
    assert LineTo(inner', T, lo + 1, i');
    LineUnique(inner, inner', T, lo + 1, i, i');
  }

  /** "syntax - missing )" and "missing file for redirection" after a block. */
  lemma BlockPanics(T: seq<Token>, lo: nat, i: nat, inner: Cmd, n: nat)
    requires FoundLine(T, lo, i, inner)
    requires || i >= |T| || T[i].kind != ')'
             || (&& i < n < |T| && Simple(T, i + 1, n, false) && RedirKind(T[n].kind)
                 && (n + 1 < |T| ==> T[n + 1].kind != 'a'))
    ensures NoExec(T, lo)
  {
    forall c, m: nat
      ensures !ExecTo(c, T, lo, m)
    {
      if ExecTo(c, T, lo, m) {
        SameBlock(T, lo, i, inner, c, m);
        RedirsLongest(T, i + 1, m, n);
        if n < m {
          SimpleKinds(T, i + 1, m, n, false);
        }
      }
    }
  }

  lemma BlockDone(T: seq<Token>, lo: nat, i: nat, inner: Cmd, n: nat)
    requires FoundLine(T, lo, i, inner) && i < n <= |T| && T[i].kind == ')'
    requires Simple(T, i + 1, n, false) && NoRedir(T, n)
    ensures IsExec(Wrapped(inner, T, i + 1, n), T, lo, n)
    ensures NoExec(T, lo) || ExecStop(T, n)
  {
    assert BlockAt(Wrapped(inner, T, i + 1, n), T, lo, n, i, inner);
    if c, m: nat :| ExecTo(c, T, lo, m) {
      SameBlock(T, lo, i, inner, c, m);
      RedirsLongest(T, i + 1, m, n);
      RedirsLongest(T, i + 1, n, m);
    }
  }

  ghost predicate FoundExec(T: seq<Token>, lo: nat, e: nat, d: Cmd) {
    lo <= e <= |T| && IsExec(d, T, lo, e) && (NoExec(T, lo) || ExecStop(T, e))
  }

  ghost predicate FoundPipe(T: seq<Token>, lo: nat, n: nat, c: Cmd) {
    lo <= n <= |T| && IsPipe(c, T, lo, n) && (NoPipe(T, lo) || PipeStop(T, n))
  }

  lemma PipeNoExec(T: seq<Token>, lo: nat)
    requires NoExec(T, lo)
    ensures NoPipe(T, lo)
  {
    if c, n: nat :| PipeTo(c, T, lo, n) {
      var e, d := HeadOfPipe(c, T, lo, n);
    }
  }

  /** Any pipe at lo has the command found there as its first. */
  lemma SameHead(T: seq<Token>, lo: nat, e: nat, d: Cmd, c: Cmd, n: nat)
    requires FoundExec(T, lo, e, d) && PipeTo(c, T, lo, n)
    ensures PipeHead(c, T, lo, n, e, d) && ExecStop(T, e)
  {
    var e', d' := HeadOfPipe(c, T, lo, n);
    ExecUnique(d, d', T, lo, e, e');
  }

  lemma PipeEnds(T: seq<Token>, lo: nat, e: nat, d: Cmd)
    requires FoundExec(T, lo, e, d) && (e < |T| ==> T[e].kind != '|')
    ensures FoundPipe(T, lo, e, d)
  {
    if c, n: nat :| PipeTo(c, T, lo, n) {
      SameHead(T, lo, e, d, c, n);
    }
  }

  lemma PipeBroken(T: seq<Token>, lo: nat, e: nat, d: Cmd)
    requires FoundExec(T, lo, e, d) && e < |T| && T[e].kind == '|' && NoPipe(T, e + 1)
    ensures NoPipe(T, lo)
  {
    if c, n: nat :| PipeTo(c, T, lo, n) {
      SameHead(T, lo, e, d, c, n);
      assert PipeTo(c.right, T, e + 1, n);
    }
  }

  lemma PipeJoined(T: seq<Token>, lo: nat, e: nat, d: Cmd, n: nat, r: Cmd)
    requires FoundExec(T, lo, e, d) && e < |T| && T[e].kind == '|' && FoundPipe(T, e + 1, n, r)
    ensures FoundPipe(T, lo, n, Pipe(d, r))
  {
    assert PipeAt(Pipe(d, r), T, lo, n, e);
    if c, m: nat :| PipeTo(c, T, lo, m) {
      SameHead(T, lo, e, d, c, m);
      assert PipeTo(c.right, T, e + 1, m);
    }
  }

  /** A pipe, all the ampersands after it, and the command they make of it. */
  ghost predicate FoundBack(T: seq<Token>, lo: nat, p: nat, d: Cmd, b: nat) {
    && FoundPipe(T, lo, p, d) && p <= b <= |T| && Ampersands(T, p, b)
    && (b < |T| ==> T[b].kind != '&')
  }

  lemma LineNoPipe(T: seq<Token>, lo: nat)
    requires NoPipe(T, lo)
    ensures NoLine(T, lo)
  {
    if c, n: nat :| LineTo(c, T, lo, n) {
      var b, d := HeadOfLine(c, T, lo, n);
      var p, e := PipeOfBack(d, T, lo, b);
      assert PipeTo(e, T, lo, p);
    }
  }

  lemma SameBack(T: seq<Token>, lo: nat, p: nat, d: Cmd, b: nat, c: Cmd, n: nat)
    requires FoundBack(T, lo, p, d, b) && LineTo(c, T, lo, n)
    ensures LineHead(c, T, lo, n, b, Backs(d, b - p))
  {
    var b', d' := HeadOfLine(c, T, lo, n);
    var p', e' := PipeOfBack(d', T, lo, b');
    assert PipeTo(e', T, lo, p');
    PipeUnique(d, e', T, lo, p, p');
    assert b' == b;
  }

  lemma {:induction false} BacksAre(T: seq<Token>, lo: nat, p: nat, d: Cmd, b: nat)
    requires lo <= p <= b <= |T| && IsPipe(d, T, lo, p) && Ampersands(T, p, b)
    ensures IsBack(Backs(d, b - p), T, lo, b)
    decreases b
  {
    if p < b {
      BacksAre(T, lo, p, d, b - 1);
    }
  }

  lemma LineEnds(T: seq<Token>, lo: nat, p: nat, d: Cmd, b: nat)
    requires FoundBack(T, lo, p, d, b) && (b < |T| ==> T[b].kind != ';')
    ensures IsLine(Backs(d, b - p), T, lo, b) && (NoLine(T, lo) || LineStop(T, b))
  {
    BacksAre(T, lo, p, d, b);
    if c, n: nat :| LineTo(c, T, lo, n) {
      SameBack(T, lo, p, d, b, c, n);
    }
  }

  lemma LineBroken(T: seq<Token>, lo: nat, p: nat, d: Cmd, b: nat)
    requires FoundBack(T, lo, p, d, b) && b < |T| && T[b].kind == ';' && NoLine(T, b + 1)
    ensures NoLine(T, lo)
  {
    if c, n: nat :| LineTo(c, T, lo, n) {
      SameBack(T, lo, p, d, b, c, n);
      assert LineTo(c.right, T, b + 1, n);
    }
  }

  lemma LineJoined(T: seq<Token>, lo: nat, p: nat, d: Cmd, b: nat, n: nat, r: Cmd)
    requires FoundBack(T, lo, p, d, b) && b < |T| && T[b].kind == ';'
    requires b < n <= |T| && IsLine(r, T, b + 1, n) && (NoLine(T, b + 1) || LineStop(T, n))
    ensures IsLine(List(Backs(d, b - p), r), T, lo, n) && (NoLine(T, lo) || LineStop(T, n))
  {
    BacksAre(T, lo, p, d, b);
    assert ListAt(List(Backs(d, b - p), r), T, lo, n, b);
    if c, m: nat :| LineTo(c, T, lo, m) {
      SameBack(T, lo, p, d, b, c, m);
      assert LineTo(c.right, T, b + 1, m);
    }
  }
}
