/** The tokens of a shell line (sh.c:273-331), the commands the shell knows, and the
    grammar its parser (sh.c:339-464) accepts, stated without reference to the parser. */
module ShellGrammar {

  const MAXARGS := 10

  predicate White(c: char) {
    c == ' ' || c == '\t' || c == '\r' || c == '\n' || c as int == 11
  }

  predicate Symbol(c: char) {
    c == '<' || c == '|' || c == '>' || c == '&' || c == ';' || c == '(' || c == ')'
  }

  predicate WordChar(c: char) {
    !White(c) && !Symbol(c)
  }

  // ---- Tokens of a line ----

  /** kind is the symbol, '+' for >> and 'a' for a word. */
  datatype Token = Token(kind: char, q: nat, eq: nat)

  datatype Word = Word(q: nat, eq: nat)

  function Skip(line: string, s: nat): (r: nat)
    requires s <= |line|
    ensures s <= r <= |line| && (r < |line| ==> !White(line[r]))
    decreases |line| - s
  {
    if s < |line| && White(line[s]) then Skip(line, s + 1) else s
  }

  function WordEnd(line: string, s: nat): (r: nat)
    requires s <= |line|
    ensures s <= r <= |line| && (r < |line| ==> !WordChar(line[r]))
    ensures forall i :: s <= i < r ==> WordChar(line[i])
    decreases |line| - s
  {
    if s < |line| && WordChar(line[s]) then WordEnd(line, s + 1) else s
  }

  predicate Kind(k: char) {
    k == 'a' || k == '+' || Symbol(k)
  }

  function TokenAt(line: string, s: nat): (t: Token)
    requires s < |line| && !White(line[s])
    ensures s == t.q < t.eq <= |line| && Kind(t.kind)
  {
    if line[s] == '>' then
      if s + 1 < |line| && line[s + 1] == '>' then Token('+', s, s + 2) else Token('>', s, s + 1)
    else if Symbol(line[s]) then Token(line[s], s, s + 1)
    else Token('a', s, WordEnd(line, s))
  }

  function Tokens(line: string, s: nat): seq<Token>
    requires s <= |line|
    decreases |line| - s
  {
    var i := Skip(line, s);
    if i == |line| then []
    else
      var t := TokenAt(line, i);
      [t] + Tokens(line, t.eq)
  }

  /** The words among the tokens lo .. hi-1. */
  ghost function WordsIn(T: seq<Token>, lo: nat, hi: nat): seq<Word>
    requires lo <= hi <= |T|
  {
    if lo == hi then []
    else WordsIn(T, lo, hi - 1) + (if T[hi - 1].kind == 'a' then [Word(T[hi - 1].q, T[hi - 1].eq)] else [])
  }

  // ---- Commands ----

  datatype Cmd =
    | Exec(argv: seq<Word>)
    | Redir(cmd: Cmd, file: Word, mode: nat, fd: nat)
    | Pipe(left: Cmd, right: Cmd)
    | List(left: Cmd, right: Cmd)
    | Back(cmd: Cmd)

  /** The words a command holds. */
  function Words(c: Cmd): seq<Word> {
    match c
    case Exec(argv) => argv
    case Redir(d, file, _, _) => Words(d) + [file]
    case Pipe(l, r) => Words(l) + Words(r)
    case List(l, r) => Words(l) + Words(r)
    case Back(d) => Words(d)
  }

  predicate RedirKind(k: char) {
    k == '<' || k == '>' || k == '+'
  }

  /** Open mode and descriptor of a redirection; >> is opened like >. */
  function Redirected(c: Cmd, k: char, file: Word): Cmd {
    if k == '<' then Redir(c, file, 0x000, 0) else Redir(c, file, 0x201, 1)
  }

  // ---- The grammar, over the tokens lo .. hi-1 of a line ----

  /** Does the last of the tokens name the file of a redirection? */
  predicate EndsInRedir(T: seq<Token>, lo: nat, hi: nat)
    requires hi <= |T|
  {
    lo + 2 <= hi && RedirKind(T[hi - 2].kind)
  }

  /** Words and redirections in any order; words is false where only redirections may stand. */
  ghost predicate Simple(T: seq<Token>, lo: nat, hi: nat, words: bool)
    requires hi <= |T|
    decreases hi
  {
    || lo == hi
    || (lo < hi && T[hi - 1].kind == 'a' &&
        if EndsInRedir(T, lo, hi) then Simple(T, lo, hi - 2, words) else words && Simple(T, lo, hi - 1, words))
  }

  ghost function Args(T: seq<Token>, lo: nat, hi: nat): seq<Word>
    requires hi <= |T|
    decreases hi
  {
    if lo >= hi then []
    else if EndsInRedir(T, lo, hi) then Args(T, lo, hi - 2)
    else Args(T, lo, hi - 1) + [Word(T[hi - 1].q, T[hi - 1].eq)]
  }

  /** The redirections around c, the first innermost. */
  ghost function Wrapped(c: Cmd, T: seq<Token>, lo: nat, hi: nat): Cmd
    requires hi <= |T|
    decreases hi
  {
    if lo >= hi then c
    else if EndsInRedir(T, lo, hi) then
      Redirected(Wrapped(c, T, lo, hi - 2), T[hi - 2].kind, Word(T[hi - 1].q, T[hi - 1].eq))
    else Wrapped(c, T, lo, hi - 1)
  }

  ghost predicate IsSimple(c: Cmd, T: seq<Token>, lo: nat, hi: nat)
    requires lo <= hi <= |T|
  {
    && Simple(T, lo, hi, true) && |Args(T, lo, hi)| < MAXARGS
    && c == Wrapped(Exec(Args(T, lo, hi)), T, lo, hi)
  }

  /** ( line ) redirections, the closing parenthesis at i. */
  ghost predicate BlockAt(c: Cmd, T: seq<Token>, lo: nat, hi: nat, i: nat, inner: Cmd)
    requires lo <= hi <= |T|
    decreases hi - lo, 0
  {
    && lo < i < hi && T[lo].kind == '(' && T[i].kind == ')'
    && IsLine(inner, T, lo + 1, i) && Simple(T, i + 1, hi, false) && c == Wrapped(inner, T, i + 1, hi)
  }

  ghost predicate IsExec(c: Cmd, T: seq<Token>, lo: nat, hi: nat)
    requires lo <= hi <= |T|
    decreases hi - lo, 1
  {
    IsSimple(c, T, lo, hi) || exists i: nat, inner :: BlockAt(c, T, lo, hi, i, inner)
  }

  ghost predicate PipeAt(c: Cmd, T: seq<Token>, lo: nat, hi: nat, i: nat)
    requires lo <= hi <= |T|
    decreases hi - lo, 2
  {
    c.Pipe? && lo <= i < hi && T[i].kind == '|' && IsExec(c.left, T, lo, i) && IsPipe(c.right, T, i + 1, hi)
  }

  ghost predicate IsPipe(c: Cmd, T: seq<Token>, lo: nat, hi: nat)
    requires lo <= hi <= |T|
    decreases hi - lo, 3
  {
    IsExec(c, T, lo, hi) || exists i: nat :: PipeAt(c, T, lo, hi, i)
  }

  /** A pipe put in the background once for each '&' after it. */
  ghost predicate IsBack(c: Cmd, T: seq<Token>, lo: nat, hi: nat)
    requires lo <= hi <= |T|
    decreases hi - lo, 4
  {
    || IsPipe(c, T, lo, hi)
    || (c.Back? && lo < hi && T[hi - 1].kind == '&' && IsBack(c.cmd, T, lo, hi - 1))
  }

  ghost predicate ListAt(c: Cmd, T: seq<Token>, lo: nat, hi: nat, i: nat)
    requires lo <= hi <= |T|
    decreases hi - lo, 5
  {
    c.List? && lo <= i < hi && T[i].kind == ';' && IsBack(c.left, T, lo, i) && IsLine(c.right, T, i + 1, hi)
  }

  ghost predicate IsLine(c: Cmd, T: seq<Token>, lo: nat, hi: nat)
    requires lo <= hi <= |T|
    decreases hi - lo, 6
  {
    IsBack(c, T, lo, hi) || exists i: nat :: ListAt(c, T, lo, hi, i)
  }

  // ---- Conservation of words ----

  ghost predicate SameWords(c: Cmd, T: seq<Token>, lo: nat, hi: nat)
    requires lo <= hi <= |T|
  {
    multiset(Words(c)) == multiset(WordsIn(T, lo, hi))
  }

  lemma {:induction false} WordsJoin(T: seq<Token>, lo: nat, mid: nat, hi: nat)
    requires lo <= mid <= hi <= |T|
    ensures WordsIn(T, lo, hi) == WordsIn(T, lo, mid) + WordsIn(T, mid, hi)
  {
    if mid < hi {
      WordsJoin(T, lo, mid, hi - 1);
    }
  }

  /** A separator token between two parts holds no word. */
  lemma WordsAround(T: seq<Token>, lo: nat, i: nat, hi: nat)
    requires lo <= i < hi <= |T| && T[i].kind != 'a'
    ensures WordsIn(T, lo, hi) == WordsIn(T, lo, i) + WordsIn(T, i + 1, hi)
  {
    hide WordsIn;
    NoWordAt(T, i);
    WordsJoin(T, lo, i, hi);
    WordsJoin(T, i, i + 1, hi);
    assert WordsIn(T, i, hi) == WordsIn(T, i + 1, hi);
  }

  lemma NoWordAt(T: seq<Token>, i: nat)
    requires i < |T| && T[i].kind != 'a'
    ensures WordsIn(T, i, i + 1) == [] && WordsIn(T, i, i) == []
  {
  }

  lemma OneMore<A>(a: seq<A>, b: seq<A>, c: seq<A>, d: seq<A>, w: A)
    requires multiset(a) + multiset(b) == multiset(c) + multiset(d)
    ensures multiset(a + [w]) + multiset(b) == multiset(c) + multiset(d + [w])
    ensures multiset(a) + multiset(b + [w]) == multiset(c) + multiset(d + [w])
  {
    assert multiset(a + [w]) == multiset(a) + multiset{w};
    assert multiset(b + [w]) == multiset(b) + multiset{w};
    assert multiset(d + [w]) == multiset(d) + multiset{w};
    assert multiset(a) + (multiset(b) + multiset{w}) == (multiset(c) + multiset(d)) + multiset{w};
    assert (multiset(c) + multiset(d)) + multiset{w} == multiset(c) + multiset(d + [w]);
  }

  lemma WordsUnfold(c: Cmd, T: seq<Token>, lo: nat, hi: nat)
    requires lo < hi <= |T| && T[hi - 1].kind == 'a'
    ensures var w := Word(T[hi - 1].q, T[hi - 1].eq);
      && WordsIn(T, lo, hi) == WordsIn(T, lo, hi - 1) + [w]
      && (EndsInRedir(T, lo, hi) ==>
            && WordsIn(T, lo, hi - 1) == WordsIn(T, lo, hi - 2)
            && Words(Wrapped(c, T, lo, hi)) == Words(Wrapped(c, T, lo, hi - 2)) + [w])
  {
    if EndsInRedir(T, lo, hi) {
      assert WordsIn(T, lo, hi - 1) == WordsIn(T, lo, hi - 2) + [];
    }
  }

  lemma {:induction false} WrappedWords(c: Cmd, T: seq<Token>, lo: nat, hi: nat, words: bool)
    requires lo <= hi <= |T| && Simple(T, lo, hi, words)
    ensures multiset(Words(Wrapped(c, T, lo, hi))) + multiset(Args(T, lo, hi)) ==
            multiset(Words(c)) + multiset(WordsIn(T, lo, hi))
    ensures !words ==> Args(T, lo, hi) == []
    decreases hi
  {
    hide Words, WordsIn;
    if lo == hi {
      assert WordsIn(T, lo, hi) == [] by { NoWords(T, lo); }
    } else {
      var w := Word(T[hi - 1].q, T[hi - 1].eq);
      WordsUnfold(c, T, lo, hi);
      var k := if EndsInRedir(T, lo, hi) then hi - 2 else hi - 1;
      WrappedWords(c, T, lo, k, words);
      OneMore(Words(Wrapped(c, T, lo, k)), Args(T, lo, k), Words(c), WordsIn(T, lo, k), w);
    }
  }

  lemma NoWords(T: seq<Token>, lo: nat)
    requires lo <= |T|
    ensures WordsIn(T, lo, lo) == []
  {
  }

  lemma Cancel<A(!new)>(a: multiset<A>, b: multiset<A>, x: multiset<A>)
    requires a + x == x + b
    ensures a == b
  {
    forall e
      ensures a[e] == b[e]
    {
      assert (a + x)[e] == a[e] + x[e] && (x + b)[e] == x[e] + b[e];
    }
  }

  lemma {:induction false} ExecWords(c: Cmd, T: seq<Token>, lo: nat, hi: nat)
    requires lo <= hi <= |T| && IsExec(c, T, lo, hi)
    ensures SameWords(c, T, lo, hi)
    decreases hi - lo, 1
  {
    hide WordsIn, Wrapped, Args, Simple;
    if IsSimple(c, T, lo, hi) {
      WrappedWords(Exec(Args(T, lo, hi)), T, lo, hi, true);
      Cancel(multiset(Words(c)), multiset(WordsIn(T, lo, hi)), multiset(Args(T, lo, hi)));
    } else {
      var i: nat, inner :| BlockAt(c, T, lo, hi, i, inner);
      LineWords(inner, T, lo + 1, i);
      BlockWords(c, T, lo, i, hi, inner);
    }
  }

  lemma BlockWords(c: Cmd, T: seq<Token>, lo: nat, i: nat, hi: nat, inner: Cmd)
    requires lo < i < hi <= |T| && T[lo].kind == '(' && T[i].kind == ')'
    requires SameWords(inner, T, lo + 1, i) && Simple(T, i + 1, hi, false) && c == Wrapped(inner, T, i + 1, hi)
    ensures SameWords(c, T, lo, hi)
  {
    hide Words, WordsIn;
    WrappedWords(inner, T, i + 1, hi, false);
    NoWordAt(T, lo);
    WordsAround(T, lo, lo, hi);
    WordsAround(T, lo + 1, i, hi);
  }

  lemma {:induction false} PipeWords(c: Cmd, T: seq<Token>, lo: nat, hi: nat)
    requires lo <= hi <= |T| && IsPipe(c, T, lo, hi)
    ensures SameWords(c, T, lo, hi)
    decreases hi - lo, 2
  {
    if IsExec(c, T, lo, hi) {
      ExecWords(c, T, lo, hi);
    } else {
      var i: nat :| PipeAt(c, T, lo, hi, i);
      ExecWords(c.left, T, lo, i);
      PipeWords(c.right, T, i + 1, hi);
      WordsAround(T, lo, i, hi);
    }
  }

  lemma {:induction false} BackWords(c: Cmd, T: seq<Token>, lo: nat, hi: nat)
    requires lo <= hi <= |T| && IsBack(c, T, lo, hi)
    ensures SameWords(c, T, lo, hi)
    decreases hi - lo, 3
  {
    if IsPipe(c, T, lo, hi) {
      PipeWords(c, T, lo, hi);
    } else {
      BackWords(c.cmd, T, lo, hi - 1);
      assert WordsIn(T, lo, hi) == WordsIn(T, lo, hi - 1) + [];
    }
  }

  /** Each word token of a line is, exactly once, an argument or a redirection file. */
  lemma {:induction false} LineWords(c: Cmd, T: seq<Token>, lo: nat, hi: nat)
    requires lo <= hi <= |T| && IsLine(c, T, lo, hi)
    ensures SameWords(c, T, lo, hi)
    decreases hi - lo, 4
  {
    if IsBack(c, T, lo, hi) {
      BackWords(c, T, lo, hi);
    } else {
      var i: nat :| ListAt(c, T, lo, hi, i);
      BackWords(c.left, T, lo, i);
      LineWords(c.right, T, i + 1, hi);
      WordsAround(T, lo, i, hi);
    }
  }
}
