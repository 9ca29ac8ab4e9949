/** Path names (skipelem) and the contents of directories as name maps. */
module Paths {
  import opened Blocks

  const DIRSIZ := 14
  const SLASH: byte := 47

  // ---------- path components ----------

  /** Characters before the first slash. */
  function Head(p: seq<byte>): (n: nat)
    ensures n <= |p| && (n < |p| ==> p[n] == SLASH) && forall k :: 0 <= k < n ==> p[k] != SLASH
  {
    if p == [] || p[0] == SLASH then 0 else 1 + Head(p[1..])
  }

  function Cut(name: seq<byte>): (r: seq<byte>)
    ensures |r| <= DIRSIZ
  {
    if |name| >= DIRSIZ then name[..DIRSIZ] else name
  }

  /** The path split at every slash, empty fields included. */
  function Split(p: seq<byte>): (r: seq<seq<byte>>)
    decreases |p|
  {
    var n := Head(p);
    if n == |p| then [p] else [p[..n]] + Split(p[n + 1..])
  }

  /** The names a path walks through: the non-empty fields, cut to DIRSIZ bytes. */
  function Names(fields: seq<seq<byte>>): seq<seq<byte>> {
    if fields == [] then []
    else (if fields[0] == [] then [] else [Cut(fields[0])]) + Names(fields[1..])
  }

  function Components(p: seq<byte>): seq<seq<byte>> {
    Names(Split(p))
  }

  // ---------- the same, on the bytes of the path ----------

  /** Byte s of the path begins an element: it is no slash, and none but a slash is before it. */
  predicate Begins(path: seq<byte>, s: nat) {
    s < |path| && path[s] != SLASH && (s == 0 || path[s - 1] == SLASH)
  }

  /** The positions from i on at which elements begin, in order. */
  function Starts(path: seq<byte>, i: nat): (r: seq<nat>)
    ensures forall k :: 0 <= k < |r| ==> i <= r[k] && Begins(path, r[k])
    decreases |path| - i
  {
    if i >= |path| then [] else (if Begins(path, i) then [i] else []) + Starts(path, i + 1)
  }

  /** The bytes from s on are the name: up to the next slash or the end of the path, but no
      more than 14. */
  ghost predicate Spells(path: seq<byte>, s: nat, name: seq<byte>) {
    && s + |name| <= |path| && name == path[s..s + |name|] && 0 < |name| <= 14
    && (forall k :: 0 <= k < |name| ==> name[k] != SLASH)
    && (|name| == 14 || s + |name| == |path| || path[s + |name|] == SLASH)
  }

  /** The rest of the path behind the element that begins at s, and behind its slashes. */
  ghost predicate RestAfter(path: seq<byte>, s: nat, e: nat, rest: seq<byte>) {
    && s < e <= |path| && (forall k :: s <= k < e ==> path[k] != SLASH) && (e < |path| ==> path[e] == SLASH)
    && |rest| <= |path| - e && rest == path[|path| - |rest|..]
    && (forall k :: e <= k < |path| - |rest| ==> path[k] == SLASH) && (rest != [] ==> rest[0] != SLASH)
  }

  /** The first element of a path: its name and what is behind it. */
  ghost predicate FirstOf(path: seq<byte>, s: nat, e: nat, name: seq<byte>, rest: seq<byte>) {
    && s <= |path| && (forall k :: 0 <= k < s ==> path[k] == SLASH)
    && Spells(path, s, name) && RestAfter(path, s, e, rest)
  }

  lemma CutIsName(path: seq<byte>, s: nat, e: nat)
    requires s < e <= |path| && (forall k :: s <= k < e ==> path[k] != SLASH) && (e < |path| ==> path[e] == SLASH)
    ensures Spells(path, s, Cut(path[s..e]))
  {
  }

  /** Inside an element nothing begins. */
  lemma {:induction false} NoStart(path: seq<byte>, i: nat, e: nat)
    requires 0 < i <= e <= |path| && forall k :: i - 1 <= k < e ==> path[k] != SLASH
    ensures Starts(path, i) == Starts(path, e)
    decreases e - i
  {
    if i < e {
      NoStart(path, i + 1, e);
    }
  }

  ghost predicate AllNames(path: seq<byte>, starts: seq<nat>, names: seq<seq<byte>>) {
    |names| == |starts| && forall k :: 0 <= k < |names| ==> Spells(path, starts[k], names[k])
  }

  /** The components are the names at the places where elements begin, in order. */
  lemma ComponentsAre(path: seq<byte>)
    ensures AllNames(path, Starts(path, 0), Components(path))
  {
    assert path[0..] == path;
    ComponentsFrom(path, 0);
  }

  lemma {:induction false} ComponentsFrom(path: seq<byte>, i: nat)
    requires i <= |path| && (i == 0 || i == |path| || path[i] == SLASH || path[i - 1] == SLASH)
    ensures AllNames(path, Starts(path, i), Components(path[i..]))
    decreases |path| - i
  {
    hide Components, Spells;
    if i == |path| {
      NoElems();
    } else if path[i] == SLASH {
      SkipSlash(path[i..]);
      assert path[i..][1..] == path[i + 1..];
      ComponentsFrom(path, i + 1);
    } else {
      var e := ElementAt(path, i);
      ComponentsFrom(path, e);
      NoStart(path, i + 1, e);
      hide AllNames;
      OneMoreName(path, i, Cut(path[i..e]), Starts(path, e), Components(path[e..]));
    }
  }

  lemma OneMoreName(path: seq<byte>, s: nat, name: seq<byte>, starts: seq<nat>, names: seq<seq<byte>>)
    requires Spells(path, s, name) && AllNames(path, starts, names)
    ensures AllNames(path, [s] + starts, [name] + names)
  {
    hide Spells;
  }

  /** The element that begins at i is the first component from there on. */
  lemma ElementAt(path: seq<byte>, i: nat) returns (e: nat)
    requires i < |path| && path[i] != SLASH
    ensures i < e <= |path| && (forall k :: i <= k < e ==> path[k] != SLASH) && (e < |path| ==> path[e] == SLASH)
    ensures Components(path[i..]) == [Cut(path[i..e])] + Components(path[e..]) && Spells(path, i, Cut(path[i..e]))
  {
    hide Components, Spells, Cut;
    var p := path[i..];
    var n := Head(p);
    e := i + n;
    assert forall k :: i <= k < e ==> path[k] == p[k - i];
    assert e < |path| ==> path[e] == p[n];
    OneElem(p, n);
    assert p[..n] == path[i..e] && p[n..] == path[e..];
    CutIsName(path, i, e);
  }

  /** skipelem: the next component and the rest of the path without leading slashes;
      no element if only slashes are left. */
  method Skipelem(path: seq<byte>) returns (found: bool, name: seq<byte>, rest: seq<byte>)
    ensures found <==> Components(path) != []
    ensures found ==> Components(path) == [name] + Components(rest) && |name| <= DIRSIZ && |rest| < |path|
    ensures found ==> (rest == [] <==> |Components(path)| == 1)
    ensures found ==> forall b :: b in name || b in rest ==> b in path
    ensures found ==> exists s: nat, e: nat :: FirstOf(path, s, e, name, rest)
    ensures !found ==> forall k :: 0 <= k < |path| ==> path[k] == SLASH
  {
    hide Components, Cut, Spells;
    NoElems();
    var i := 0;
    while i < |path| && path[i] == SLASH
      invariant 0 <= i <= |path| && Components(path) == Components(path[i..])
      invariant forall k :: 0 <= k < i ==> path[k] == SLASH
    {
      SkipSlash(path[i..]);
      assert path[i..][1..] == path[i + 1..];
      i := i + 1;
    }
    if i == |path| {
      assert path[i..] == [];
      return false, [], [];
    }
    var s := i;
    while i < |path| && path[i] != SLASH
      invariant s <= i <= |path| && forall k :: s <= k < i ==> path[k] != SLASH
    {
      i := i + 1;
    }
    found, name := true, Cut(path[s..i]);
    ghost var i0 := i;
    CutIsName(path, s, i0);
    OneElem(path[s..], i - s);
    assert path[s..][..i - s] == path[s..i] && path[s..][i - s..] == path[i..];
    while i < |path| && path[i] == SLASH
      invariant i0 <= i <= |path| && Components(path[i0..]) == Components(path[i..])
      invariant forall k :: i0 <= k < i ==> path[k] == SLASH
    {
      SkipSlash(path[i..]);
      assert path[i..][1..] == path[i + 1..];
      i := i + 1;
    }
    rest := path[i..];
    if rest != [] {
      FirstElem(rest);
    }
    assert FirstOf(path, s, i0, name, rest);
  }

  lemma SkipSlash(p: seq<byte>)
    requires p != [] && p[0] == SLASH
    ensures Components(p) == Components(p[1..])
  {
    assert Split(p) == [[]] + Split(p[1..]);
    assert Split(p)[1..] == Split(p[1..]);
  }

  /** A path that starts with a name of n characters. */
  lemma OneElem(p: seq<byte>, n: nat)
    requires 0 < n <= |p| && (forall k :: 0 <= k < n ==> p[k] != SLASH) && (n < |p| ==> p[n] == SLASH)
    ensures Components(p) == [Cut(p[..n])] + Components(p[n..])
  {
    HeadIs(p, n);
    if n < |p| {
      SkipSlash(p[n..]);
      assert p[n..][1..] == p[n + 1..];
      assert Split(p)[1..] == Split(p[n + 1..]);
    } else {
      assert p[..n] == p && p[n..] == [];
      assert Split(p) == [p] && [p][1..] == [];
      NoElems();
    }
  }

  lemma NoElems()
    ensures Components([]) == []
  {
    var e: seq<byte> := [];
    assert Split(e) == [e] && [e][1..] == [];
  }

  lemma HeadIs(p: seq<byte>, n: nat)
    requires n <= |p| && (forall k :: 0 <= k < n ==> p[k] != SLASH) && (n < |p| ==> p[n] == SLASH)
    ensures Head(p) == n
  {
  }

  lemma FirstElem(p: seq<byte>)
    requires p != [] && p[0] != SLASH
    ensures Components(p) != []
  {
    OneElem(p, Head(p));
  }
}
