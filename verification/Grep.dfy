/** grep.c:71-105: the regular expression matcher. A C string is the sequence of its
    characters before the NUL; a pointer into it is the rest of the sequence. */
module Grep {

  // ---- What a pattern means ----

  /** One pattern element: a character, or any number of them; '.' stands for any character. */
  datatype Item = One(c: char) | Star(c: char)

  predicate Accepts(c: char, x: char) {
    c == '.' || c == x
  }

  ghost predicate ItemAccepts(item: Item, word: string) {
    match item
    case One(c) => |word| == 1 && Accepts(c, word[0])
    case Star(c) => forall i :: 0 <= i < |word| ==> Accepts(c, word[i])
  }

  function Flatten(words: seq<string>): string {
    if words == [] then [] else words[0] + Flatten(words[1..])
  }

  /** A word is accepted by a list of elements when it can be cut into one piece for each. */
  ghost predicate Accepted(items: seq<Item>, word: string) {
    exists pieces: seq<string> :: Cut(items, word, pieces)
  }

  ghost predicate Cut(items: seq<Item>, word: string, pieces: seq<string>) {
    && |pieces| == |items| && Flatten(pieces) == word
    && forall i :: 0 <= i < |items| ==> ItemAccepts(items[i], pieces[i])
  }

  /** Reading a pattern: a character followed by '*' is a Star, a '$' that ends the
      pattern is no element, every other character stands for itself. */
  function Items(re: string): seq<Item> {
    if re == [] then []
    else if |re| > 1 && re[1] == '*' then [Star(re[0])] + Items(re[2..])
    else if re == "$" then []
    else [One(re[0])] + Items(re[1..])
  }

  predicate EndAnchored(re: string) {
    if re == [] then false
    else if |re| > 1 && re[1] == '*' then EndAnchored(re[2..])
    else re == "$" || EndAnchored(re[1..])
  }

  /** The pattern matches text[..j]; with a final '$' only all of it. */
  ghost predicate MatchesTo(re: string, text: string, j: nat)
    requires j <= |text|
  {
    Accepted(Items(re), text[..j]) && (EndAnchored(re) ==> j == |text|)
  }

  /** The pattern matches at the start of the text. */
  ghost predicate MatchesHere(re: string, text: string) {
    exists j: nat :: j <= |text| && MatchesTo(re, text, j)
  }

  // ---- Unfolding the meaning ----

  lemma AcceptedNone(word: string)
    ensures Accepted([], word) <==> word == []
  {
    if word == [] {
      assert Cut([], word, []);
    }
  }

  lemma AcceptedOne(c: char, items: seq<Item>, word: string)
    ensures Accepted([One(c)] + items, word) <==>
            |word| > 0 && Accepts(c, word[0]) && Accepted(items, word[1..])
  {
    var all := [One(c)] + items;
    if Accepted(all, word) {
      var pieces :| Cut(all, word, pieces);
      CutHead(One(c), items, word, pieces);
      assert word[1..] == Flatten(pieces[1..]);
    }
    if |word| > 0 && Accepts(c, word[0]) && Accepted(items, word[1..]) {
      var pieces :| Cut(items, word[1..], pieces);
      CutCons(One(c), items, word, word[..1], pieces);
    }
  }

  lemma AcceptedStar(c: char, items: seq<Item>, word: string)
    ensures Accepted([Star(c)] + items, word) <==>
            exists k: nat :: k <= |word| && ItemAccepts(Star(c), word[..k]) && Accepted(items, word[k..])
  {
    var all := [Star(c)] + items;
    if Accepted(all, word) {
      var pieces :| Cut(all, word, pieces);
      CutHead(Star(c), items, word, pieces);
      var k := |pieces[0]|;
      assert word[..k] == pieces[0] && word[k..] == Flatten(pieces[1..]);
    }
    if k: nat :| k <= |word| && ItemAccepts(Star(c), word[..k]) && Accepted(items, word[k..]) {
      var pieces :| Cut(items, word[k..], pieces);
      CutCons(Star(c), items, word, word[..k], pieces);
    }
  }

  lemma CutHead(item: Item, items: seq<Item>, word: string, pieces: seq<string>)
    requires Cut([item] + items, word, pieces)
    ensures ItemAccepts(item, pieces[0]) && word == pieces[0] + Flatten(pieces[1..])
    ensures Cut(items, Flatten(pieces[1..]), pieces[1..])
  {
    var all := [item] + items;
    assert all[0] == item;
    forall i | 0 <= i < |items|
      ensures ItemAccepts(items[i], pieces[1..][i])
    {
      assert all[i + 1] == items[i];
    }
  }

  lemma CutCons(item: Item, items: seq<Item>, word: string, piece: string, pieces: seq<string>)
    requires ItemAccepts(item, piece) && |piece| <= |word| && word[..|piece|] == piece
    requires Cut(items, word[|piece|..], pieces)
    ensures Accepted([item] + items, word)
  {
    var cut := [piece] + pieces;
    assert cut[1..] == pieces && word == piece + word[|piece|..];
    assert Cut([item] + items, word, cut);
  }

  lemma HereEmpty(text: string)
    ensures MatchesHere([], text)
  {
    AcceptedNone([]);
    assert text[..0] == [];
    assert MatchesTo([], text, 0);
  }

  lemma HereDollar(text: string)
    ensures MatchesHere("$", text) <==> text == []
  {
    if text == [] {
      AcceptedNone([]);
      assert MatchesTo("$", text, 0);
    }
    if j: nat :| j <= |text| && MatchesTo("$", text, j) {
      AcceptedNone(text[..j]);
    }
  }

  /** The first element takes exactly one character. */
  lemma HereOne(re: string, text: string)
    requires re != [] && re != "$" && !(|re| > 1 && re[1] == '*')
    ensures MatchesHere(re, text) <==> text != [] && Accepts(re[0], text[0]) && MatchesHere(re[1..], text[1..])
  {
    if j: nat :| j <= |text| && MatchesTo(re, text, j) {
      AcceptedOne(re[0], Items(re[1..]), text[..j]);
      assert text[1..][..j - 1] == text[..j][1..];
      assert MatchesTo(re[1..], text[1..], j - 1);
    }
    if text != [] && Accepts(re[0], text[0]) && MatchesHere(re[1..], text[1..]) {
      var j: nat :| j <= |text| - 1 && MatchesTo(re[1..], text[1..], j);
      AcceptedOne(re[0], Items(re[1..]), text[..j + 1]);
      assert text[1..][..j] == text[..j + 1][1..];
      assert MatchesTo(re, text, j + 1);
    }
  }

  /** c*re: some run of characters that c accepts, then re. */
  ghost predicate StarHere(c: char, re: string, text: string, k: nat) {
    k <= |text| && ItemAccepts(Star(c), text[..k]) && MatchesHere(re, text[k..])
  }

  lemma HereStar(re: string, text: string)
    requires |re| > 1 && re[1] == '*'
    ensures MatchesHere(re, text) <==> exists k: nat :: StarHere(re[0], re[2..], text, k)
  {
    StarItems(re);
    hide Items, EndAnchored, Accepted, ItemAccepts;
    if j: nat :| j <= |text| && MatchesTo(re, text, j) {
      StarSplits(re, text, j);
    }
    if k: nat :| StarHere(re[0], re[2..], text, k) {
      StarJoins(re, text, k);
    }
  }

  lemma StarItems(re: string)
    requires |re| > 1 && re[1] == '*'
    ensures Items(re) == [Star(re[0])] + Items(re[2..]) && (EndAnchored(re) <==> EndAnchored(re[2..]))
  {
  }

  lemma StarSplits(re: string, text: string, j: nat)
    requires |re| > 1 && re[1] == '*' && j <= |text| && MatchesTo(re, text, j)
    ensures exists k: nat :: StarHere(re[0], re[2..], text, k)
  {
    StarItems(re);
    hide Items, EndAnchored, Accepted, ItemAccepts;
    var items := Items(re[2..]);
    AcceptedStar(re[0], items, text[..j]);
    var k: nat :| k <= j && ItemAccepts(Star(re[0]), text[..j][..k]) && Accepted(items, text[..j][k..]);
    Slices(text, j, k);
    assert MatchesTo(re[2..], text[k..], j - k);
    assert StarHere(re[0], re[2..], text, k);
  }

  lemma StarJoins(re: string, text: string, k: nat)
    requires |re| > 1 && re[1] == '*' && StarHere(re[0], re[2..], text, k)
    ensures MatchesHere(re, text)
  {
    StarItems(re);
    hide Items, EndAnchored, Accepted, ItemAccepts;
    var i: nat :| i <= |text[k..]| && MatchesTo(re[2..], text[k..], i);
    Slices(text, k + i, k);
    AcceptedStar(re[0], Items(re[2..]), text[..k + i]);
    assert MatchesTo(re, text, k + i);
  }

  lemma Slices(text: string, j: nat, k: nat)
    requires k <= j <= |text|
    ensures text[..j][..k] == text[..k] && text[..j][k..] == text[k..][..j - k]
  {
  }

  // ---- Patterns without operators ----

  /** Characters that stand for themselves, and dots. */
  predicate Plain(re: string) {
    '*' !in re && '^' !in re && '$' !in re
  }

  /** The pattern's characters agree with the first characters of the text. */
  ghost predicate Agrees(re: string, text: string) {
    |re| <= |text| && forall k :: 0 <= k < |re| ==> re[k] == '.' || re[k] == text[k]
  }

  lemma {:induction false} PlainHere(re: string, text: string)
    requires Plain(re)
    ensures MatchesHere(re, text) <==> Agrees(re, text)
  {
    hide MatchesHere;
    if re == [] {
      HereEmpty(text);
    } else {
      HereOne(re, text);
      if text != [] {
        PlainHere(re[1..], text[1..]);
        AgreesCons(re, text);
      }
    }
  }

  lemma AgreesCons(re: string, text: string)
    requires re != [] && text != []
    ensures Agrees(re, text) <==> (re[0] == '.' || re[0] == text[0]) && Agrees(re[1..], text[1..])
  {
    if Agrees(re[1..], text[1..]) && (re[0] == '.' || re[0] == text[0]) {
      forall k | 0 <= k < |re| ensures re[k] == '.' || re[k] == text[k] {
        if k > 0 {
          assert re[1..][k - 1] == re[k] && text[1..][k - 1] == text[k];
        }
      }
    }
  }

  /** A pattern of characters and dots is found exactly where the text agrees with it. */
  lemma PlainIsFound(re: string, text: string, i: nat)
    requires Plain(re) && i <= |text|
    ensures MatchesAt(re, text, i) <==> Agrees(re, text[i..])
  {
    hide MatchesHere, Agrees;
    PlainHere(re, text[i..]);
  }

  // ---- The matcher ----

  /** matchhere answers exactly whether the pattern matches at the start of the text. */
  method MatchHere(re: string, text: string) returns (r: bool)
    ensures r <==> MatchesHere(re, text)
    decreases |re|, 0
  {
    hide MatchesHere;
    if re == [] {
      HereEmpty(text);
      return true;
    }
    if |re| > 1 && re[1] == '*' {
      HereStar(re, text);
      r := MatchStar(re[0], re[2..], text);
      return;
    }
    if re[0] == '$' && |re| == 1 {
      assert re == "$";
      HereDollar(text);
      return text == [];
    }
    HereOne(re, text);
    if text != [] && (re[0] == '.' || re[0] == text[0]) {
      r := MatchHere(re[1..], text[1..]);
      return;
    }
    return false;
  }

  /** matchstar tries the shortest run first and stops at the first character c refuses. */
  method MatchStar(c: char, re: string, text: string) returns (r: bool)
    ensures r <==> exists k: nat :: StarHere(c, re, text, k)
    decreases |re|, 1
  {
    hide MatchesHere;
    var t := 0;
    while true
      invariant 0 <= t <= |text|
      invariant forall i :: 0 <= i < t ==> Accepts(c, text[i])
      invariant forall k: nat :: k < t ==> !StarHere(c, re, text, k)
      decreases |text| - t
    {
      r := MatchHere(re, text[t..]);
      if r {
        assert StarHere(c, re, text, t);
        return;
      }
      if t == |text| || !(text[t] == c || c == '.') {
        forall k: nat
          ensures !StarHere(c, re, text, k)
        {
          if t < k <= |text| {
            assert text[..k][t] == text[t];
          }
        }
        return false;
      }
      t := t + 1;
    }
  }

  /** Some position of the text, only the first if the pattern starts with '^'. */
  ghost predicate MatchesAt(re: string, text: string, i: nat) {
    && i <= |text|
    && (if re != [] && re[0] == '^' then i == 0 && MatchesHere(re[1..], text)
        else MatchesHere(re, text[i..]))
  }

  /** match is sound and complete for the meaning above. */
  method Match(re: string, text: string) returns (r: bool)
    ensures r <==> exists i: nat :: MatchesAt(re, text, i)
  {
    hide MatchesHere;
    if re != [] && re[0] == '^' {
      r := MatchHere(re[1..], text);
      assert r ==> MatchesAt(re, text, 0);
      return;
    }
    var t := 0;
    while true
      invariant 0 <= t <= |text|
      invariant forall i: nat :: i < t ==> !MatchesAt(re, text, i)
      decreases |text| - t
    {
      r := MatchHere(re, text[t..]);
      if r {
        assert MatchesAt(re, text, t);
        return;
      }
      if t == |text| {
        return false;
      }
      t := t + 1;
    }
  }
}
