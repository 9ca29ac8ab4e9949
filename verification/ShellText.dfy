/** What the tokens and the commands of a shell line mean in terms of its characters and of
    its words, redirections and separators in the order in which they stand. */
module ShellText {
  import opened ShellGrammar

  // ---- Tokens are stretches of the line ----

  predicate IsBlank(c: char) {
    c as int == 9 || c as int == 10 || c as int == 11 || c as int == 13 || c as int == 32
  }

  const MARKS := "<|>&;()"

  ghost predicate Blanks(line: string, from: nat, to: nat) {
    to <= |line| && forall i :: from <= i < to ==> IsBlank(line[i])
  }

  /** A token's text: >> for '+', a > that is not one of two, another mark, or a word, which
      goes on as long as it can. */
  ghost predicate TextOk(line: string, t: Token) {
    && t.q < t.eq <= |line|
    && var text := line[t.q..t.eq];
    if t.kind == 'a' then
      && (forall i :: t.q <= i < t.eq ==> !IsBlank(line[i]) && line[i] !in MARKS)
      && (t.eq < |line| ==> IsBlank(line[t.eq]) || line[t.eq] in MARKS)
    else if t.kind == '+' then text == ">>"
    else text == [t.kind] && t.kind in MARKS && (t.kind == '>' && t.eq < |line| ==> line[t.eq] != '>')
  }

  /** From s on the line is the tokens T with blanks between them. */
  ghost predicate Lexed(line: string, s: nat, T: seq<Token>)
    decreases |T|
  {
    if T == [] then Blanks(line, s, |line|)
    else s <= T[0].q && Blanks(line, s, T[0].q) && TextOk(line, T[0]) && Lexed(line, T[0].eq, T[1..])
  }

  lemma {:induction false} SkipsBlanks(line: string, s: nat)
    requires s <= |line|
    ensures Blanks(line, s, Skip(line, s)) && (Skip(line, s) < |line| ==> !IsBlank(line[Skip(line, s)]))
    decreases |line| - s
  {
    if s < |line| && White(line[s]) {
      SkipsBlanks(line, s + 1);
    }
  }

  lemma TokenText(line: string, s: nat)
    requires s < |line| && !White(line[s])
    ensures TextOk(line, TokenAt(line, s))
  {
    var t := TokenAt(line, s);
    var text := line[t.q..t.eq];
    assert text[0] == line[s];
    if t.kind == 'a' {
      assert forall i :: t.q <= i < t.eq ==> WordChar(line[i]);
    } else if t.kind == '+' {
      assert text == [line[s], line[s + 1]];
    }
  }

  lemma {:induction false} TokensText(line: string, s: nat)
    requires s <= |line|
    ensures Lexed(line, s, Tokens(line, s))
    decreases |line| - s
  {
    hide TextOk, TokenAt;
    SkipsBlanks(line, s);
    var i := Skip(line, s);
    if i < |line| {
      TokenText(line, i);
      var t := TokenAt(line, i);
      TokensText(line, t.eq);
      assert Tokens(line, s)[1..] == Tokens(line, t.eq);
    }
  }

  /** There is only one way to cut a line into tokens. */
  lemma {:induction false} LexedUnique(line: string, s: nat, T: seq<Token>, U: seq<Token>)
    requires Lexed(line, s, T) && Lexed(line, s, U)
    ensures T == U
    decreases |T|
  {
    if T != [] {
      FirstChar(line, T[0]);
    }
    if U != [] {
      FirstChar(line, U[0]);
    }
    if T != [] && U != [] {
      LexedUnique(line, T[0].eq, T[1..], U[1..]);
      assert T == [T[0]] + T[1..] && U == [U[0]] + U[1..];
    }
  }

  /** The character at which a token begins, with the next, decides its kind. */
  lemma FirstChar(line: string, t: Token)
    requires TextOk(line, t)
    ensures var c := line[t.q];
      && !IsBlank(c) && (t.kind == 'a' <==> c !in MARKS)
      && (t.kind == '+' <==> c == '>' && t.q + 1 < |line| && line[t.q + 1] == '>')
      && (t.kind == '+' ==> t.eq == t.q + 2)
      && (t.kind != 'a' && t.kind != '+' ==> t.kind == c && t.eq == t.q + 1)
  {
    var text := line[t.q..t.eq];
    assert text[0] == line[t.q];
    if t.kind == '+' {
      assert text[1] == line[t.q + 1];
    }
  }

  // ---- Commands hold the words, redirections and separators of the line, in order ----

  /** A file to open on a descriptor before the command runs. */
  datatype Open = Open(file: Word, mode: nat, fd: nat)

  const O_RDONLY := 0x000
  const O_WRONLY_CREATE := 0x201

  datatype Parts = Parts(args: seq<Word>, opens: seq<Open>, seps: string)

  function Plus(a: Parts, b: Parts): Parts {
    Parts(a.args + b.args, a.opens + b.opens, a.seps + b.seps)
  }

  const NONE := Parts([], [], "")

  /** Arguments, opened files (the inner before the outer) and separators of a command. */
  function PartsOf(c: Cmd): Parts {
    match c
    case Exec(argv) => Parts(argv, [], "")
    case Redir(d, file, mode, fd) => Plus(PartsOf(d), Parts([], [Open(file, mode, fd)], ""))
    case Pipe(l, r) => Plus(Plus(PartsOf(l), Parts([], [], "|")), PartsOf(r))
    case List(l, r) => Plus(Plus(PartsOf(l), Parts([], [], ";")), PartsOf(r))
    case Back(d) => Plus(PartsOf(d), Parts([], [], "&"))
  }

  /** What token j stands for: a word behind < is opened for reading as descriptor 0, one
      behind > or >> is opened for writing, and created, as descriptor 1; any other word is
      an argument. */
  function PartAt(T: seq<Token>, j: nat): Parts
    requires j < |T|
  {
    var w, before := Word(T[j].q, T[j].eq), if j == 0 then ' ' else T[j - 1].kind;
    if T[j].kind == 'a' then
      if before == '<' then Parts([], [Open(w, O_RDONLY, 0)], "")
      else if before == '>' || before == '+' then Parts([], [Open(w, O_WRONLY_CREATE, 1)], "")
      else Parts([w], [], "")
    else if T[j].kind == '|' || T[j].kind == ';' || T[j].kind == '&' then Parts([], [], [T[j].kind])
    else NONE
  }

  function PartsIn(T: seq<Token>, lo: nat, hi: nat): Parts
    requires lo <= hi <= |T|
  {
    if lo == hi then NONE else Plus(PartsIn(T, lo, hi - 1), PartAt(T, hi - 1))
  }

  /** No redirection waits for its file at token lo. */
  predicate Clear(T: seq<Token>, lo: nat) {
    0 < lo <= |T| ==> !RedirKind(T[lo - 1].kind)
  }

  lemma PlusAssoc(a: Parts, b: Parts, c: Parts)
    ensures Plus(Plus(a, b), c) == Plus(a, Plus(b, c)) && Plus(a, NONE) == a && Plus(NONE, a) == a
  {
  }

  lemma {:induction false} PartsJoin(T: seq<Token>, lo: nat, mid: nat, hi: nat)
    requires lo <= mid <= hi <= |T|
    ensures PartsIn(T, lo, hi) == Plus(PartsIn(T, lo, mid), PartsIn(T, mid, hi))
    decreases hi
  {
    hide Plus;
    if mid < hi {
      PartsJoin(T, lo, mid, hi - 1);
      PlusAssoc(PartsIn(T, lo, mid), PartsIn(T, mid, hi - 1), PartAt(T, hi - 1));
    } else {
      PlusAssoc(PartsIn(T, lo, mid), NONE, NONE);
    }
  }

  lemma PartsAround(T: seq<Token>, lo: nat, i: nat, hi: nat)
    requires lo <= i < hi <= |T|
    ensures PartsIn(T, lo, hi) == Plus(Plus(PartsIn(T, lo, i), PartAt(T, i)), PartsIn(T, i + 1, hi))
  {
    hide Plus, PartAt;
    PartsJoin(T, lo, i + 1, hi);
  }

  /** Redirections around c add the files they open; the other words are arguments. */
  lemma {:induction false} WrappedParts(c: Cmd, T: seq<Token>, lo: nat, hi: nat, words: bool)
    requires lo <= hi <= |T| && Simple(T, lo, hi, words) && Clear(T, lo)
    ensures PartsIn(T, lo, hi).args == Args(T, lo, hi) && PartsIn(T, lo, hi).seps == ""
    ensures PartsOf(Wrapped(c, T, lo, hi)) == Plus(PartsOf(c), Parts([], PartsIn(T, lo, hi).opens, ""))
    ensures !words ==> Args(T, lo, hi) == []
    decreases hi
  {
    if lo == hi {
      PlusAssoc(PartsOf(c), NONE, NONE);
    } else if EndsInRedir(T, lo, hi) {
      WrappedParts(c, T, lo, hi - 2, words);
      PartsRedir(T, lo, hi);
      PlusAssoc(PartsOf(c), Parts([], PartsIn(T, lo, hi - 2).opens, ""), PartAt(T, hi - 1));
    } else {
      WrappedParts(c, T, lo, hi - 1, words);
      assert PartAt(T, hi - 1) == Parts([Word(T[hi - 1].q, T[hi - 1].eq)], [], "");
    }
  }

  lemma PartsRedir(T: seq<Token>, lo: nat, hi: nat)
    requires lo + 2 <= hi <= |T| && RedirKind(T[hi - 2].kind) && T[hi - 1].kind == 'a'
    ensures PartsIn(T, lo, hi) == Plus(PartsIn(T, lo, hi - 2), PartAt(T, hi - 1))
    ensures PartAt(T, hi - 1).args == [] && PartAt(T, hi - 1).seps == ""
  {
    PlusAssoc(PartsIn(T, lo, hi - 2), NONE, NONE);
  }

  lemma {:induction false} ExecParts(c: Cmd, T: seq<Token>, lo: nat, hi: nat)
    requires lo <= hi <= |T| && IsExec(c, T, lo, hi) && Clear(T, lo)
    ensures PartsOf(c) == PartsIn(T, lo, hi)
    decreases hi - lo, 1
  {
    hide PartsIn, Wrapped, Args, Simple, PartAt;
    if IsSimple(c, T, lo, hi) {
      WrappedParts(Exec(Args(T, lo, hi)), T, lo, hi, true);
    } else {
      var i: nat, inner :| BlockAt(c, T, lo, hi, i, inner);
      LineParts(inner, T, lo + 1, i);
      BlockParts(c, T, lo, i, hi, inner);
    }
  }

  lemma BlockParts(c: Cmd, T: seq<Token>, lo: nat, i: nat, hi: nat, inner: Cmd)
    requires lo < i < hi <= |T| && T[lo].kind == '(' && T[i].kind == ')'
    requires PartsOf(inner) == PartsIn(T, lo + 1, i)
    requires Simple(T, i + 1, hi, false) && c == Wrapped(inner, T, i + 1, hi)
    ensures PartsOf(c) == PartsIn(T, lo, hi)
  {
    hide PartsIn;
    WrappedParts(inner, T, i + 1, hi, false);
    PartsAround(T, lo, lo, hi);
    PartsAround(T, lo + 1, i, hi);
    assert PartsIn(T, lo, lo) == NONE by { NoParts(T, lo); }
  }

  lemma NoParts(T: seq<Token>, lo: nat)
    requires lo <= |T|
    ensures PartsIn(T, lo, lo) == NONE
  {
  }

  lemma {:induction false} PipeParts(c: Cmd, T: seq<Token>, lo: nat, hi: nat)
    requires lo <= hi <= |T| && IsPipe(c, T, lo, hi) && Clear(T, lo)
    ensures PartsOf(c) == PartsIn(T, lo, hi)
    decreases hi - lo, 2
  {
    hide PartsIn, Plus;
    if IsExec(c, T, lo, hi) {
      ExecParts(c, T, lo, hi);
    } else {
      var i: nat :| PipeAt(c, T, lo, hi, i);
      ExecParts(c.left, T, lo, i);
      PipeParts(c.right, T, i + 1, hi);
      PartsAround(T, lo, i, hi);
    }
  }

  lemma {:induction false} BackParts(c: Cmd, T: seq<Token>, lo: nat, hi: nat)
    requires lo <= hi <= |T| && IsBack(c, T, lo, hi) && Clear(T, lo)
    ensures PartsOf(c) == PartsIn(T, lo, hi)
    decreases hi - lo, 3
  {
    hide Plus;
    if IsPipe(c, T, lo, hi) {
      PipeParts(c, T, lo, hi);
    } else {
      BackParts(c.cmd, T, lo, hi - 1);
    }
  }

  /** For an accepted line the arguments, the files to open with their modes and descriptors
      and the separators of the command are those of the line, one for one and in order. */
  lemma {:induction false} LineParts(c: Cmd, T: seq<Token>, lo: nat, hi: nat)
    requires lo <= hi <= |T| && IsLine(c, T, lo, hi) && Clear(T, lo)
    ensures PartsOf(c) == PartsIn(T, lo, hi)
    decreases hi - lo, 4
  {
    hide PartsIn, Plus;
    if IsBack(c, T, lo, hi) {
      BackParts(c, T, lo, hi);
    } else {
      var i: nat :| ListAt(c, T, lo, hi, i);
      BackParts(c.left, T, lo, i);
      LineParts(c.right, T, i + 1, hi);
      PartsAround(T, lo, i, hi);
    }
  }

  // ---- Lines of words alone ----

  ghost predicate AllWords(T: seq<Token>) {
    forall i :: 0 <= i < |T| ==> T[i].kind == 'a'
  }

  lemma {:induction false} WordsAreArgs(T: seq<Token>, hi: nat)
    requires AllWords(T) && hi <= |T|
    ensures Simple(T, 0, hi, true) && |Args(T, 0, hi)| == hi && forall c :: Wrapped(c, T, 0, hi) == c
  {
    if hi > 0 {
      WordsAreArgs(T, hi - 1);
      assert !EndsInRedir(T, 0, hi);
    }
  }

  /** A line of words and nothing else is accepted if and only if there are fewer than ten, and
      then it is that one command. */
  lemma WordsOnly(T: seq<Token>, c: Cmd)
    requires AllWords(T)
    ensures IsLine(c, T, 0, |T|) <==> |T| < 10 && c == Exec(PartsIn(T, 0, |T|).args)
  {
    hide Simple, Args, Wrapped, PartsIn;
    var n := |T|;
    WordsAreArgs(T, n);
    WrappedParts(c, T, 0, n, true);
    assert IsLine(c, T, 0, n) <==> IsSimple(c, T, 0, n) by { OnlySimple(c, T); }
  }

  lemma OnlySimple(c: Cmd, T: seq<Token>)
    requires AllWords(T)
    ensures IsLine(c, T, 0, |T|) <==> IsSimple(c, T, 0, |T|)
  {
    hide IsSimple;
    var n := |T|;
    forall i: nat ensures !ListAt(c, T, 0, n, i) && !PipeAt(c, T, 0, n, i) {
    }
    forall i: nat, inner ensures !BlockAt(c, T, 0, n, i, inner) {
    }
    assert IsLine(c, T, 0, n) <==> IsBack(c, T, 0, n);
    assert IsBack(c, T, 0, n) <==> IsPipe(c, T, 0, n);
    assert IsPipe(c, T, 0, n) <==> IsExec(c, T, 0, n);
  }
}
