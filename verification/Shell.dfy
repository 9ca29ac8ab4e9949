/** sh.c:276-512: the shell's lexer, its recursive-descent parser and the in-place NUL
    termination of the words it found. Positions in the line stand for pointers. */
module Shell {
  import opened ShellGrammar
  import opened ShellText
  import opened ShellUnique

  /** A parsed command, or one of the parser's panics. */
  datatype Result = Ok(cmd: Cmd) | Panic

  /** The first character of a token of this kind; it tells all kinds but > and >> apart. */
  function Shows(kind: char): char {
    if kind == '+' then '>' else kind
  }

  lemma SkipAgain(line: string, s: nat)
    requires s <= |line|
    ensures Skip(line, Skip(line, s)) == Skip(line, s) && Tokens(line, Skip(line, s)) == Tokens(line, s)
    decreases |line| - s
  {
    if s < |line| && White(line[s]) {
      SkipAgain(line, s + 1);
    }
  }

  lemma SkipTokens(line: string, s: nat)
    requires s <= |line|
    ensures Tokens(line, Skip(line, s)) == Tokens(line, s)
  {
    SkipAgain(line, s);
  }

  datatype Redirection = Redirection(kind: char, file: Word)

  /** Redirections around a command, the first innermost. */
  function Apply(c: Cmd, rs: seq<Redirection>): Cmd {
    if rs == [] then c
    else Redirected(Apply(c, rs[..|rs| - 1]), rs[|rs| - 1].kind, rs[|rs| - 1].file)
  }

  ghost function RedirsOf(T: seq<Token>, lo: nat, hi: nat): seq<Redirection>
    requires hi <= |T|
    decreases hi
  {
    if lo >= hi then []
    else if EndsInRedir(T, lo, hi) then
      RedirsOf(T, lo, hi - 2) + [Redirection(T[hi - 2].kind, Word(T[hi - 1].q, T[hi - 1].eq))]
    else RedirsOf(T, lo, hi - 1)
  }

  lemma {:induction false} ApplyWraps(c: Cmd, T: seq<Token>, lo: nat, hi: nat)
    requires hi <= |T|
    ensures Apply(c, RedirsOf(T, lo, hi)) == Wrapped(c, T, lo, hi)
    decreases hi
  {
    if lo < hi {
      if EndsInRedir(T, lo, hi) {
        ApplyWraps(c, T, lo, hi - 2);
        var rs := RedirsOf(T, lo, hi);
        assert rs[..|rs| - 1] == RedirsOf(T, lo, hi - 2);
      } else {
        ApplyWraps(c, T, lo, hi - 1);
      }
    }
  }

  /** The files that redirections open, around any command. */
  ghost predicate OpenedBy(rs: seq<Redirection>, opens: seq<Open>) {
    forall c :: PartsOf(Apply(c, rs)) == Plus(PartsOf(c), Parts([], opens, ""))
  }

  lemma RedirsOpen(T: seq<Token>, lo: nat, hi: nat, words: bool)
    requires lo <= hi <= |T| && Simple(T, lo, hi, words) && Clear(T, lo)
    ensures OpenedBy(RedirsOf(T, lo, hi), PartsIn(T, lo, hi).opens)
  {
    forall c ensures PartsOf(Apply(c, RedirsOf(T, lo, hi))) == Plus(PartsOf(c), Parts([], PartsIn(T, lo, hi).opens, "")) {
      ApplyWraps(c, T, lo, hi);
      WrappedParts(c, T, lo, hi, words);
    }
  }

  class Parser {
    const line: string
    var s: nat
    ghost const T: seq<Token>   // all tokens of the line
    ghost var k: nat            // how many of them are behind s

    ghost predicate Valid()
      reads this
    {
      s <= |line| && k <= |T| && Tokens(line, s) == T[k..]
    }

    constructor (text: string)
      ensures Valid() && line == text && T == Tokens(text, 0) && s == 0 && k == 0
    {
      line, s := text, 0;
      T, k := Tokens(text, 0), 0;
    }

    method SkipWhite()
      requires Valid()
      modifies this`s
      ensures Valid() && s == Skip(line, old(s))
    {
      ghost var s0 := s;
      while s < |line| && White(line[s])
        invariant s0 <= s <= |line| && Skip(line, s) == Skip(line, s0)
      {
        s := s + 1;
      }
      SkipTokens(line, s0);
    }

    /** sh.c:322-331 */
    method Peek(toks: string) returns (b: bool)
      requires Valid() && forall c :: c in toks ==> Symbol(c)
      modifies this`s
      ensures Valid() && old(s) <= s && s == Skip(line, s)
      ensures b <==> k < |T| && Shows(T[k].kind) in toks
    {
      SkipWhite();
      SkipAgain(line, old(s));
      if s < |line| {
        assert T[k] == T[k..][0] == TokenAt(line, s);
        b := line[s] in toks;
      } else {
        assert T[k..] == [];
        b := false;
      }
    }

    method ScanWord()
      requires s <= |line|
      modifies this`s
      ensures s == WordEnd(line, old(s))
    {
      while s < |line| && !White(line[s]) && !Symbol(line[s])
        invariant old(s) <= s <= |line| && WordEnd(line, s) == WordEnd(line, old(s))
      {
        s := s + 1;
      }
    }

    /** sh.c:276-320 */
    method GetToken() returns (tok: char, q: nat, eq: nat)
      requires Valid()
      modifies this`s, this`k
      ensures Valid() && old(s) <= s
      ensures old(k) == |T| ==> tok as int == 0 && k == old(k)
      ensures old(k) < |T| ==> T[old(k)] == Token(tok, q, eq) && Kind(tok) && k == old(k) + 1 && old(s) < s
    {
      SkipWhite();
      SkipAgain(line, old(s));
      q, eq := s, s;
      if s == |line| {
        assert T[k..] == [];
        tok := 0 as char;
        return;
      }
      ghost var t := TokenAt(line, s);
      assert T[k] == T[k..][0] == t;
      assert T[k + 1..] == T[k..][1..] == Tokens(line, t.eq);
      tok := line[s];
      if tok == '|' || tok == '(' || tok == ')' || tok == ';' || tok == '&' || tok == '<' {
        s := s + 1;
      } else if tok == '>' {
        s := s + 1;
        if s < |line| && line[s] == '>' {
          tok := '+';
          s := s + 1;
        }
      } else {
        tok := 'a';
        ScanWord();
      }
      assert s == t.eq;
      eq := s;
      k := k + 1;
      SkipWhite();
    }

    /** sh.c:390-414. The redirections from here on, after those already found; when a file
        is missing, n is the redirection that lacks it. */
    method ParseRedirs(found: seq<Redirection>, ghost lo: nat, ghost words: bool)
      returns (ok: bool, rs: seq<Redirection>, ghost n: nat)
      requires Valid() && lo <= k && Simple(T, lo, k, words) && found == RedirsOf(T, lo, k)
      modifies this`s, this`k
      ensures Valid() && old(s) <= s && old(k) <= k
      ensures ok ==> n == k && Simple(T, lo, k, words) && rs == RedirsOf(T, lo, k) && NoRedir(T, k)
      ensures ok ==> Args(T, lo, k) == Args(T, lo, old(k))
      ensures ok && Clear(T, lo) ==> OpenedBy(rs, PartsIn(T, lo, k).opens)
      ensures !ok ==> && lo <= n < |T| && Simple(T, lo, n, words) && RedirKind(T[n].kind)
                      && (n + 1 < |T| ==> T[n + 1].kind != 'a')
    {
      hide Tokens, Simple, Args, RedirsOf, Skip, OpenedBy, PartsIn;
      rs := found;
      var more := Peek("<>");
      while more
        invariant Valid() && old(s) <= s && lo <= old(k) <= k && Simple(T, lo, k, words)
        invariant rs == RedirsOf(T, lo, k) && Args(T, lo, k) == Args(T, lo, old(k))
        invariant more <==> k < |T| && RedirKind(T[k].kind)
        decreases |line| - s
      {
        n := k;
        var tok, _, _ := GetToken();
        var w, q, eq := GetToken();
        if w != 'a' {
          ok := false;
          return;
        }
        SimpleRedir(T, lo, k, words);
        rs := rs + [Redirection(tok, Word(q, eq))];
        more := Peek("<>");
      }
      ok, n := true, k;
      if Clear(T, lo) {
        RedirsOpen(T, lo, k, words);
      }
    }

    /** sh.c:417-430. Called only where parseexec has seen the '(', so its first panic
        cannot happen. */
    method ParseBlock() returns (r: Result)
      requires Valid() && k < |T| && T[k].kind == '('
      modifies this`s, this`k
      ensures Valid() && old(s) <= s && old(k) <= k
      ensures r.Ok? ==> FoundExec(T, old(k), k, r.cmd)
      ensures r.Panic? ==> NoExec(T, old(k))
      decreases |line| - s, 0
    {
      hide Tokens, Skip, Simple, Args, RedirsOf, Wrapped, Apply, IsLine, IsExec, NoLine, NoExec;
      ghost var lo := k;
      var open := Peek("(");
      assert open;
      var _, _, _ := GetToken();
      r := ParseLine();
      if r.Panic? {
        BlockNoLine(T, lo);
        return;
      }
      ghost var i, inner := k, r.cmd;
      var close := Peek(")");
      if !close {
        BlockPanics(T, lo, i, inner, k);
        r := Panic;
        return;
      }
      var _, _, _ := GetToken();
      SimpleNone(T, i + 1, false);
      ghost var n;
      var ok, rs;
      ok, rs, n := ParseRedirs([], i + 1, false);
      if ok {
        BlockDone(T, lo, i, inner, k);
        ApplyWraps(inner, T, i + 1, k);
        r := Ok(Apply(r.cmd, rs));
      } else {
        BlockPanics(T, lo, i, inner, n);
        r := Panic;
      }
    }

    /** sh.c:433-464. The command node that is filled in as the arguments come is built
        here at the end, inside its redirections. */
    method ParseExec() returns (r: Result)
      requires Valid()
      modifies this`s, this`k
      ensures Valid() && old(s) <= s && old(k) <= k
      ensures r.Ok? ==> FoundExec(T, old(k), k, r.cmd)
      ensures r.Panic? ==> NoExec(T, old(k))
      decreases |line| - s, 1
    {
      hide Tokens, Skip, Simple, Args, RedirsOf, Wrapped, Apply, IsExec, NoExec, FoundExec;
      ghost var lo := k;
      var block := Peek("(");
      if block {
        r := ParseBlock();
        return;
      }
      SimpleNone(T, lo, true);
      var argv: seq<Word> := [];
      var ok, rs;
      ghost var n;
      ok, rs, n := ParseRedirs([], lo, true);
      if !ok {
        SimplePanics(T, lo, n);
        return Panic;
      }
      var stop := Peek("|)&;");
      while !stop
        invariant Valid() && old(s) <= s && lo <= k && Simple(T, lo, k, true) && NoRedir(T, k)
        invariant argv == Args(T, lo, k) && |argv| < MAXARGS && rs == RedirsOf(T, lo, k)
        invariant stop <==> k < |T| && Shows(T[k].kind) in "|)&;"
        invariant lo < |T| ==> T[lo].kind != '('
        decreases |line| - s
      {
        var tok, q, eq := GetToken();
        if tok as int == 0 {
          break;
        }
        if tok != 'a' {
          SimplePanics(T, lo, k - 1);
          return Panic;
        }
        SimpleWord(T, lo, k);
        argv := argv + [Word(q, eq)];
        if |argv| >= MAXARGS {
          SimplePanics(T, lo, k);
          return Panic;
        }
        ok, rs, n := ParseRedirs(rs, lo, true);
        if !ok {
          SimplePanics(T, lo, n);
          return Panic;
        }
        stop := Peek("|)&;");
      }
      SimpleIsExec(T, lo, k);
      ApplyWraps(Exec(argv), T, lo, k);
      r := Ok(Apply(Exec(argv), rs));
    }

    /** sh.c:376-387 */
    method ParsePipe() returns (r: Result)
      requires Valid()
      modifies this`s, this`k
      ensures Valid() && old(s) <= s && old(k) <= k
      ensures r.Ok? ==> FoundPipe(T, old(k), k, r.cmd)
      ensures r.Panic? ==> NoPipe(T, old(k))
      decreases |line| - s, 2
    {
      hide Tokens, Skip, IsPipe, IsExec, NoExec, NoPipe, FoundExec, FoundPipe;
      ghost var lo := k;
      r := ParseExec();
      if r.Panic? {
        PipeNoExec(T, lo);
        return;
      }
      ghost var e := k;
      var left := r.cmd;
      var bar := Peek("|");
      if bar {
        var _, _, _ := GetToken();
        r := ParsePipe();
        if r.Panic? {
          PipeBroken(T, lo, e, left);
        } else {
          PipeJoined(T, lo, e, left, k, r.cmd);
          r := Ok(Pipe(left, r.cmd));
        }
      } else {
        PipeEnds(T, lo, e, left);
      }
    }

    /** sh.c:357-373 */
    method ParseLine() returns (r: Result)
      requires Valid()
      modifies this`s, this`k
      ensures Valid() && old(s) <= s && old(k) <= k
      ensures r.Ok? ==> IsLine(r.cmd, T, old(k), k) && (NoLine(T, old(k)) || LineStop(T, k))
      ensures r.Panic? ==> NoLine(T, old(k))
      decreases |line| - s, 3
    {
      hide Tokens, Skip, IsLine, IsPipe, NoLine, NoPipe, FoundPipe;
      ghost var lo := k;
      r := ParsePipe();
      if r.Panic? {
        LineNoPipe(T, lo);
        return;
      }
      ghost var p, d := k, r.cmd;
      var cmd := r.cmd;
      var amp := Peek("&");
      while amp
        invariant Valid() && old(s) <= s && p <= k && Ampersands(T, p, k) && cmd == Backs(d, k - p)
        invariant amp <==> k < |T| && T[k].kind == '&'
        decreases |line| - s
      {
        var _, _, _ := GetToken();
        cmd := Back(cmd);
        amp := Peek("&");
      }
      ghost var b := k;
      var semi := Peek(";");
      if semi {
        var _, _, _ := GetToken();
        r := ParseLine();
        if r.Panic? {
          LineBroken(T, lo, p, d, b);
        } else {
          LineJoined(T, lo, p, d, b, k, r.cmd);
          r := Ok(List(cmd, r.cmd));
        }
      } else {
        LineEnds(T, lo, p, d, b);
        r := Ok(cmd);
      }
    }
  }

  lemma SimpleRedir(T: seq<Token>, lo: nat, k: nat, words: bool)
    requires lo + 2 <= k <= |T| && Simple(T, lo, k - 2, words)
    requires RedirKind(T[k - 2].kind) && T[k - 1].kind == 'a'
    ensures Simple(T, lo, k, words) && Args(T, lo, k) == Args(T, lo, k - 2)
    ensures RedirsOf(T, lo, k) ==
            RedirsOf(T, lo, k - 2) + [Redirection(T[k - 2].kind, Word(T[k - 1].q, T[k - 1].eq))]
  {
  }

  lemma SimpleNone(T: seq<Token>, lo: nat, words: bool)
    requires lo <= |T|
    ensures Simple(T, lo, lo, words) && Args(T, lo, lo) == [] && RedirsOf(T, lo, lo) == []
  {
  }

  lemma SimpleIsExec(T: seq<Token>, lo: nat, k: nat)
    requires lo <= k <= |T| && Simple(T, lo, k, true) && |Args(T, lo, k)| < MAXARGS && ExecStop(T, k)
    ensures FoundExec(T, lo, k, Wrapped(Exec(Args(T, lo, k)), T, lo, k))
  {
  }

  lemma SimpleWord(T: seq<Token>, lo: nat, k: nat)
    requires lo < k <= |T| && Simple(T, lo, k - 1, true) && T[k - 1].kind == 'a'
    ensures Simple(T, lo, k, true) && RedirsOf(T, lo, k) == RedirsOf(T, lo, k - 1)
    ensures Args(T, lo, k) == Args(T, lo, k - 1) + [Word(T[k - 1].q, T[k - 1].eq)]
  {
    if lo < k - 1 {
      assert T[k - 2].kind == 'a';
    }
  }

  // ---- NUL termination ----

  const NUL: char := 0 as char

  ghost predicate EndsAt(ws: seq<Word>, i: nat) {
    exists j :: 0 <= j < |ws| && ws[j].eq == i
  }

  /** after is before with a NUL just past each of the words. */
  ghost predicate Stamped(before: seq<char>, after: seq<char>, ws: seq<Word>) {
    && |after| == |before|
    && forall i :: 0 <= i < |before| ==> after[i] == if EndsAt(ws, i) then NUL else before[i]
  }

  lemma StampedBoth(x: seq<char>, y: seq<char>, z: seq<char>, ws: seq<Word>, vs: seq<Word>)
    requires Stamped(x, y, ws) && Stamped(y, z, vs)
    ensures Stamped(x, z, ws + vs)
  {
    forall i | 0 <= i < |x|
      ensures EndsAt(ws + vs, i) <==> EndsAt(ws, i) || EndsAt(vs, i)
    {
      if j :| 0 <= j < |ws| && ws[j].eq == i {
        assert (ws + vs)[j].eq == i;
      }
      if j :| 0 <= j < |vs| && vs[j].eq == i {
        assert (ws + vs)[|ws| + j].eq == i;
      }
    }
  }

  lemma StampedOne(x: seq<char>, w: Word)
    requires w.eq < |x|
    ensures Stamped(x, x[w.eq := NUL], [w])
  {
    assert [w][0].eq == w.eq;
  }

  /** sh.c:468-512 */
  method Nulterminate(buf: array<char>, c: Cmd)
    requires forall w :: w in Words(c) ==> w.eq < buf.Length
    modifies buf
    ensures Stamped(old(buf[..]), buf[..], Words(c))
    decreases c
  {
    hide Stamped;
    match c
    case Exec(argv) =>
      assert Stamped(buf[..], buf[..], argv[..0]) by { StampedNone(buf[..]); }
      for i := 0 to |argv|
        invariant Stamped(old(buf[..]), buf[..], argv[..i])
      {
        StampAt(buf, argv[i], old(buf[..]), argv[..i]);
        assert argv[..i + 1] == argv[..i] + [argv[i]];
      }
      assert argv[..|argv|] == argv;
    case Redir(d, file, _, _) =>
      assert file in Words(c);
      Nulterminate(buf, d);
      StampAt(buf, file, old(buf[..]), Words(d));
    case Pipe(l, r) =>
      Nulterminate(buf, l);
      ghost var mid := buf[..];
      Nulterminate(buf, r);
      StampedBoth(old(buf[..]), mid, buf[..], Words(l), Words(r));
    case List(l, r) =>
      Nulterminate(buf, l);
      ghost var mid := buf[..];
      Nulterminate(buf, r);
      StampedBoth(old(buf[..]), mid, buf[..], Words(l), Words(r));
    case Back(d) =>
      Nulterminate(buf, d);
  }

  lemma StampedNone(x: seq<char>)
    ensures Stamped(x, x, [])
  {
  }

  method StampAt(buf: array<char>, w: Word, ghost before: seq<char>, ghost ws: seq<Word>)
    requires w.eq < buf.Length && Stamped(before, buf[..], ws)
    modifies buf
    ensures Stamped(before, buf[..], ws + [w])
  {
    hide Stamped;
    ghost var was := buf[..];
    buf[w.eq] := NUL;
    assert buf[..] == was[w.eq := NUL];
    StampedOne(was, w);
    StampedBoth(before, was, buf[..], ws, [w]);
  }

  // ---- parsecmd ----

  /** A word of the line: word characters, as many as there are. */
  ghost predicate WordOk(line: string, w: Word) {
    && w.q < w.eq <= |line| && (w.eq < |line| ==> !WordChar(line[w.eq]))
    && forall i :: w.q <= i < w.eq ==> WordChar(line[i])
  }

  lemma {:induction false} TokensOk(line: string, s: nat, i: nat)
    requires s <= |line| && i < |Tokens(line, s)| && Tokens(line, s)[i].kind == 'a'
    ensures WordOk(line, Word(Tokens(line, s)[i].q, Tokens(line, s)[i].eq))
    decreases |line| - s
  {
    var t := TokenAt(line, Skip(line, s));
    if i > 0 {
      TokensOk(line, t.eq, i - 1);
    }
  }

  lemma {:induction false} WordsAreTokens(T: seq<Token>, lo: nat, hi: nat, w: Word)
    requires lo <= hi <= |T| && w in WordsIn(T, lo, hi)
    ensures exists i :: lo <= i < hi && T[i].kind == 'a' && w == Word(T[i].q, T[i].eq)
  {
    if !(T[hi - 1].kind == 'a' && w == Word(T[hi - 1].q, T[hi - 1].eq)) {
      WordsAreTokens(T, lo, hi - 1, w);
    }
  }

  /** Every word of a command parsed from the line is a word of the line. */
  lemma WordsOk(line: string, c: Cmd, w: Word)
    requires IsLine(c, Tokens(line, 0), 0, |Tokens(line, 0)|) && w in Words(c)
    ensures WordOk(line, w)
  {
    var T := Tokens(line, 0);
    LineWords(c, T, 0, |T|);
    assert w in multiset(WordsIn(T, 0, |T|));
    WordsAreTokens(T, 0, |T|, w);
    var i :| 0 <= i < |T| && T[i].kind == 'a' && w == Word(T[i].q, T[i].eq);
    TokensOk(line, 0, i);
  }

  /** What a C string pointer at q reads. */
  function CString(buf: seq<char>, q: nat): string
    decreases |buf| - q
  {
    if q < |buf| && buf[q] != NUL then [buf[q]] + CString(buf, q + 1) else []
  }

  lemma {:induction false} ReadsTo(buf: seq<char>, q: nat, eq: nat)
    requires q <= eq < |buf| && buf[eq] == NUL && forall i :: q <= i < eq ==> buf[i] != NUL
    ensures CString(buf, q) == buf[q..eq]
    decreases eq - q
  {
    if q < eq {
      ReadsTo(buf, q + 1, eq);
      assert buf[q..eq] == [buf[q]] + buf[q + 1..eq];
    }
  }

  /** A terminator stands where no word has a character, so each word reads back whole. */
  lemma ReadsBack(before: seq<char>, after: seq<char>, line: string, ws: seq<Word>, w: Word)
    requires Stamped(before, after, ws) && w in ws && forall v :: v in ws ==> WordOk(line, v)
    requires |line| < |before| && before[..|line|] == line && forall i :: 0 <= i < |line| ==> line[i] != NUL
    ensures w.q <= w.eq <= |line| && CString(after, w.q) == line[w.q..w.eq]
  {
    var j :| 0 <= j < |ws| && ws[j] == w;
    assert WordOk(line, w);
    assert EndsAt(ws, w.eq);
    forall i | w.q <= i < w.eq
      ensures after[i] == line[i]
    {
      assert line[i] == before[i] && WordChar(line[i]);
      assert forall j :: 0 <= j < |ws| ==> WordOk(line, ws[j]);
      assert !EndsAt(ws, i);
    }
    ReadsTo(after, w.q, w.eq);
    assert after[w.q..w.eq] == line[w.q..w.eq];
  }

  /** sh.c:339-354. A line of the buffer, n characters and a NUL, is accepted if and only
      if it is in the grammar; then the command has the line's arguments, files to open and
      separators in order, and each word pointer reads exactly its word. */
  method ParseCmd(buf: array<char>, n: nat) returns (r: Result)
    requires n < buf.Length && buf[n] == NUL && forall i :: 0 <= i < n ==> buf[i] != NUL
    modifies buf
    ensures var T := Tokens(old(buf[..n]), 0);
      && (r.Ok? <==> exists c :: IsLine(c, T, 0, |T|))
      && (r.Ok? ==> IsLine(r.cmd, T, 0, |T|) && SameWords(r.cmd, T, 0, |T|))
    ensures Lexed(old(buf[..n]), 0, Tokens(old(buf[..n]), 0))
    ensures r.Ok? ==> PartsOf(r.cmd) == (var T := Tokens(old(buf[..n]), 0); PartsIn(T, 0, |T|))
    ensures r.Ok? ==> Stamped(old(buf[..]), buf[..], Words(r.cmd))
    ensures r.Ok? ==> forall w :: w in Words(r.cmd) ==>
                        w.q <= w.eq <= n && CString(buf[..], w.q) == old(buf[w.q..w.eq])
    ensures r.Panic? ==> buf[..] == old(buf[..])
  {
    hide IsLine, Stamped, SameWords, Tokens, Skip, Lexed, PartsIn, PartsOf;
    var line := buf[..n];
    TokensText(line, 0);
    ghost var T, before := Tokens(line, 0), buf[..];
    var p := new Parser(line);
    r := p.ParseLine();
    var _ := p.Peek("");
    if r.Panic? || p.s != n {
      assert r.Panic? || p.k < |T| by { AtEnd(p); }
      forall c
        ensures !IsLine(c, T, 0, |T|)
      {
        if IsLine(c, T, 0, |T|) {
          assert LineTo(c, T, 0, |T|);
          LineUnique(c, r.cmd, T, 0, |T|, p.k);
        }
      }
      return Panic;
    }
    AtEnd(p);
    LineWords(r.cmd, T, 0, |T|);
    LineParts(r.cmd, T, 0, |T|);
    forall w | w in Words(r.cmd)
      ensures WordOk(line, w)
    {
      WordsOk(line, r.cmd, w);
    }
    Nulterminate(buf, r.cmd);
    forall w | w in Words(r.cmd)
      ensures CString(buf[..], w.q) == before[w.q..w.eq]
    {
      ReadsBack(before, buf[..], line, Words(r.cmd), w);
    }
  }

  lemma AtEnd(p: Parser)
    requires p.Valid() && p.s == Skip(p.line, p.s)
    ensures p.s == |p.line| <==> p.k == |p.T|
  {
    assert p.T[p.k..] == Tokens(p.line, p.s);
  }
}
