/** What becomes of a path between my_open and a server: its check, its split into a directory and a last
    component, and the 14 bytes of it that fit in a message. */
module Paths {
  import opened Bytes
  import opened LogicalFs
  import opened NameTree

  const SPACE: byte := 32
  const FIELD: nat := 14
  const MAX_PATH_NAME_SIZE: nat := 200

  // ----- message fields -----

  function Cut(s: seq<byte>, n: nat): (r: seq<byte>)
    ensures |r| <= n && r <= s && (|s| <= n ==> r == s)
  {
    s[..Min(|s|, n)]
  }

  /** The path that the lookup handler sees: the request carries the 14 bytes of its `pname`, and the
      server's buffer is zero after them. */
  function Sent(path: seq<byte>): (r: seq<byte>) {
    Cut(path, FIELD)
  }

  /** The name that the create and mkdir handlers see, after `name[MAX_FILE_NAME_SIZE-1] = 0`. */
  function Stem(name: seq<byte>): (r: seq<byte>) {
    Cut(name, FIELD - 1)
  }

  // ----- paths as joined components -----

  predicate IsComponent(c: seq<byte>) {
    c != [] && SLASH !in c
  }

  predicate AreComponents(names: seq<Name>) {
    forall i | 0 <= i < |names| :: IsComponent(names[i])
  }

  function Join(names: seq<Name>): (r: seq<byte>)
    ensures names == [] <==> r == []
    ensures names != [] ==> r[0] == SLASH
  {
    if names == [] then [] else [SLASH] + names[0] + Join(names[1..])
  }

  lemma {:induction false} JoinSnoc(names: seq<Name>, c: Name)
    ensures Join(names + [c]) == Join(names) + [SLASH] + c
  {
    if names == [] {
      assert names + [c] == [c] && [c][1..] == [];
    } else {
      assert (names + [c])[1..] == names[1..] + [c];
      JoinSnoc(names[1..], c);
    }
  }

  predicate NoDouble(s: seq<byte>) {
    forall i | 0 <= i < |s| - 1 :: s[i] != SLASH || s[i + 1] != SLASH
  }

  predicate Trails(s: seq<byte>) {
    s != [] && s[|s| - 1] == SLASH
  }

  /** The slash that myparse lets pass at the end of a path. */
  function Tail(s: seq<byte>): seq<byte> {
    if Trails(s) then [SLASH] else []
  }

  lemma Unfolded(s: seq<byte>)
    requires |s| > 1 && s[0] == SLASH && s[1] != SLASH
    ensures var t, n := s[1..], TokenLen(s[1..]);
            n > 0 && Components(s) == [t[..n]] + Components(t[n..]) && SLASH !in t[..n]
  {
    var t := s[1..];
    assert t[0] == s[1];
  }

  lemma FirstComponent(s: seq<byte>) returns (c: Name, rest: seq<byte>)
    requires NoDouble(s) && |s| > 1 && s[0] == SLASH
    ensures s == [SLASH] + c + rest && IsComponent(c) && Components(s) == [c] + Components(rest)
    ensures NoDouble(rest) && (rest != [] ==> rest[0] == SLASH) && Trails(s) == Trails(rest)
  {
    hide Components;
    assert s[0] != SLASH || s[0 + 1] != SLASH;
    Unfolded(s);
    var n := TokenLen(s[1..]);
    c, rest := s[1..][..n], s[1..][n..];
    assert rest == s[1 + n..] && c == s[1..1 + n];
    if rest == [] {
      assert s[|s| - 1] == c[n - 1];
    }
  }

  lemma JoinCons(c: Name, names: seq<Name>)
    requires IsComponent(c) && AreComponents(names)
    ensures AreComponents([c] + names) && Join([c] + names) == [SLASH] + c + Join(names)
  {
    assert ([c] + names)[1..] == names;
  }

  lemma ShortPath(s: seq<byte>)
    requires |s| <= 1 && (s != [] ==> s[0] == SLASH)
    ensures Components(s) == [] && s == Tail(s)
  {
    assert s != [] ==> s[1..] == [];
  }

  /** A path without double slashes is its components joined, with perhaps a slash at the end. */
  lemma {:induction false} JoinedAgain(s: seq<byte>)
    requires NoDouble(s) && (s != [] ==> s[0] == SLASH)
    ensures AreComponents(Components(s)) && s == Join(Components(s)) + Tail(s)
    decreases |s|
  {
    hide Components, NoDouble, IsComponent, AreComponents;
    if |s| > 1 {
      var c, rest := FirstComponent(s);
      JoinedAgain(rest);
      JoinCons(c, Components(rest));
      assert s == [SLASH] + c + (Join(Components(rest)) + Tail(rest));
    } else {
      ShortPath(s);
      NoComponents();
    }
  }

  lemma NoComponents()
    ensures AreComponents([]) && Join([]) == []
  {
  }

  /** And joining components gives a path with those components. */
  lemma {:induction false} ComponentsOfJoin(names: seq<Name>, tail: seq<byte>)
    requires AreComponents(names) && (tail == [] || tail == [SLASH])
    ensures Components(Join(names) + tail) == names
    decreases |names|
  {
    hide Components;
    if names == [] {
      ShortPath(tail);
      assert Join(names) + tail == tail;
    } else {
      var c, more := names[0], names[1..];
      assert names == [c] + more && IsComponent(c);
      assert AreComponents(more) by {
        forall i | 0 <= i < |more| ensures IsComponent(more[i]) {
          assert more[i] == names[i + 1];
        }
      }
      ComponentsOfJoin(more, tail);
      FirstOff(c, Join(more) + tail);
      assert Join(names) + tail == [SLASH] + c + (Join(more) + tail);
    }
  }

  lemma FirstOff(c: Name, rest: seq<byte>)
    requires IsComponent(c) && (rest == [] || rest[0] == SLASH)
    ensures Components([SLASH] + c + rest) == [c] + Components(rest)
  {
    var s := [SLASH] + c + rest;
    assert s[1..] == c + rest;
    TokenLenIs(c + rest, |c|);
    assert (c + rest)[..|c|] == c && (c + rest)[|c|..] == rest;
  }

  // ----- myparse -----

  /** myparse. Its test for a slash at the end looks at the terminator and never fires. */
  predicate Parses(path: seq<byte>) {
    && 0 < |path| < MAX_PATH_NAME_SIZE && path[0] == SLASH && NoDouble(path) && SPACE !in path
    && forall i | 0 <= i < |Components(path)| :: |Components(path)[i]| <= MAX_NAME
  }

  /** The loop of myparse over the tokens, and the checks before it. */
  method MyParse(path: seq<byte>) returns (ok: bool)
    ensures ok == Parses(path)
  {
    hide Components, StrTok;
    if !(0 < |path| < MAX_PATH_NAME_SIZE) || SPACE in path || !NoDouble(path) || path[0] != SLASH {
      return false;
    }
    var names := Components(path);
    ghost var done: seq<Name> := [];
    var t := StrTok(path);
    while t.0 != []
      invariant names == done + if t.0 == [] then [] else [t.0] + Components(t.1)
      invariant forall i | 0 <= i < |done| :: |done[i]| <= MAX_NAME
      decreases |t.1| + |t.0|
    {
      if |t.0| > MAX_NAME {
        assert names[|done|] == t.0;
        return false;
      }
      done := done + [t.0];
      t := StrTok(t.1);
    }
    ok := true;
  }

  // ----- the split in my_open and my_mkdir -----

  /** strncpy of a token onto a zeroed buffer that may hold a longer one. */
  function Overlay(b: seq<byte>, t: seq<byte>): seq<byte> {
    if |t| >= |b| then t else t + b[|t|..]
  }

  function Filled(b: seq<byte>, names: seq<Name>): seq<byte>
    decreases |names|
  {
    if names == [] then b else Filled(Overlay(b, names[0]), names[1..])
  }

  /** `newfilename` after the split. Of a single component the slash after it comes along; with 13 bytes before
      it that fills the buffer, and then only what Stem leaves is looked at. */
  function LeafOf(path: seq<byte>): seq<byte>
    requires path != []
  {
    if |Components(path)| > 1 then Filled([], Components(path)) else path[1..]
  }

  /** `newdirname` after the split. */
  function DirOf(path: seq<byte>): seq<byte>
    requires path != []
  {
    if |Components(path)| > 1 then path[..|path| - Min(|path|, |LeafOf(path)| + 1)] else path
  }

  function Last(names: seq<Name>): Name
    requires names != []
  {
    names[|names| - 1]
  }

  function Front(names: seq<Name>): seq<Name>
    requires names != []
  {
    names[..|names| - 1]
  }

  /** The loop of my_open over the tokens, and the two ways to the directory part. */
  method SplitPath(path: seq<byte>) returns (leaf: seq<byte>, dir: seq<byte>, i: nat)
    requires Parses(path) && Components(path) != []
    ensures leaf == LeafOf(path) && dir == DirOf(path) && i == |Components(path)|
  {
    hide Components, StrTok, Filled, Overlay, Tail;
    ghost var done: seq<Name> := [];
    leaf, i := [], 0;
    FilledNone();
    var t := StrTok(path);
    while t.0 != []
      invariant Components(path) == done + if t.0 == [] then [] else [t.0] + Components(t.1)
      invariant i == |done| && leaf == Filled([], done)
      decreases |t.1| + |t.0|
    {
      FilledSnoc([], done, t.0);
      i, leaf, done := i + 1, Overlay(leaf, t.0), done + [t.0];
      t := StrTok(t.1);
    }
    assert done == Components(path);
    if i > 1 {
      DirOfIs(path);
      dir := path[..|path| - (|leaf| + 1)];
    } else {
      OnlyComponent(path);
      LongerWins(leaf, path[1..]);
      leaf := Overlay(leaf, path[1..]);
      dir := path;
    }
  }

  lemma FilledNone()
    ensures Filled([], []) == []
  {
  }

  lemma LongerWins(b: seq<byte>, t: seq<byte>)
    requires |t| >= |b|
    ensures Overlay(b, t) == t
  {
  }

  lemma OnlyComponent(path: seq<byte>)
    requires Parses(path) && |Components(path)| == 1
    ensures path[1..] == Components(path)[0] + Tail(path) && |Filled([], Components(path))| <= |path[1..]|
  {
    hide Components;
    var names := Components(path);
    JoinedAgain(path);
    assert names == [names[0]] && names[1..] == [];
    assert path == [SLASH] + names[0] + Tail(path);
    FilledLength([], names, |path[1..]|);
  }

  lemma {:induction false} FilledSnoc(b: seq<byte>, names: seq<Name>, t: Name)
    ensures Filled(b, names + [t]) == Overlay(Filled(b, names), t)
    decreases |names|
  {
    if names == [] {
      assert names + [t] == [t] && [t][1..] == [];
    } else {
      assert (names + [t])[1..] == names[1..] + [t];
      FilledSnoc(Overlay(b, names[0]), names[1..], t);
    }
  }

  /** The buffer ends up as long as the longest component. */
  lemma {:induction false} FilledLength(b: seq<byte>, names: seq<Name>, n: nat)
    ensures |Filled(b, names)| <= n <==> |b| <= n && forall i | 0 <= i < |names| :: |names[i]| <= n
    decreases |names|
  {
    if names != [] {
      FilledLength(Overlay(b, names[0]), names[1..], n);
      assert forall i | 1 <= i < |names| :: names[i] == names[1..][i - 1];
    }
  }

  predicate LastIsLongest(names: seq<Name>)
    requires names != []
  {
    forall i | 0 <= i < |names| :: |names[i]| <= |Last(names)|
  }

  /** A shorter last component keeps the tail of a longer one before it. */
  lemma FilledIsLast(names: seq<Name>)
    requires names != []
    ensures Filled([], names) == Last(names) <==> LastIsLongest(names)
    ensures Last(names) <= Filled([], names)
  {
    assert names == Front(names) + [Last(names)];
    FilledSnoc([], Front(names), Last(names));
    FilledLength([], Front(names), |Last(names)|);
    FilledLength([], names, |Last(names)|);
  }

  /** No component reaches over the whole path when there are two or more. */
  lemma {:induction false} JoinIsLonger(names: seq<Name>, i: nat)
    requires AreComponents(names) && i < |names|
    ensures |Join(names)| >= |names[i]| + 1 + 2 * (|names| - 1)
    decreases |names|
  {
    if |names| > 1 {
      assert IsComponent(names[0]) && IsComponent(names[1]);
      assert AreComponents(names[1..]) by {
        forall j | 0 <= j < |names| - 1 ensures IsComponent(names[1..][j]) {
          assert names[1..][j] == names[j + 1];
        }
      }
      JoinIsLonger(names[1..], if i == 0 then 0 else i - 1);
    }
  }

  /** The directory part is shorter than the path by the length of the leaf, and more than a slash. */
  lemma DirOfIs(path: seq<byte>)
    requires Parses(path) && |Components(path)| > 1
    ensures |LeafOf(path)| + 3 <= |path| && DirOf(path) == path[..|path| - |LeafOf(path)| - 1]
    ensures |LeafOf(path)| <= MAX_NAME
    ensures DirOf(path)[0] == SLASH && DirOf(path)[1] != SLASH && NoDouble(DirOf(path))
  {
    var names := Components(path);
    JoinedAgain(path);
    FilledLength([], names, MAX_NAME);
    FilledLength([], names, |path| - 3);
    forall i | 0 <= i < |names| ensures |names[i]| <= |path| - 3 {
      JoinIsLonger(names, i);
    }
    assert IsComponent(names[0]);
    assert NoDouble(path) ==> path[1] != SLASH;
  }

  /** When the split is right: it yields the last component, and for longer paths a directory part with
      the components before it. */
  lemma SplitsRight(path: seq<byte>)
    requires Parses(path) && Components(path) != []
    ensures var names := Components(path);
            LeafOf(path) == Last(names) <==> if |names| == 1 then !Trails(path) else LastIsLongest(names)
    ensures var names := Components(path);
            |names| > 1 && LastIsLongest(names) ==>
              DirOf(path) == Join(Front(names)) + Tail(path) && Components(DirOf(path)) == Front(names)
  {
    hide Components, Filled, Parses;
    if |Components(path)| == 1 {
      OnlyComponent(path);
      TailIsEmpty(Components(path)[0], path);
    } else {
      FilledIsLast(Components(path));
      if LastIsLongest(Components(path)) {
        DirSplitsRight(path);
      }
    }
  }

  lemma TailIsEmpty(c: Name, path: seq<byte>)
    ensures c + Tail(path) == c <==> !Trails(path)
  {
  }

  lemma DirSplitsRight(path: seq<byte>)
    requires Parses(path) && |Components(path)| > 1 && LastIsLongest(Components(path))
    ensures var names := Components(path);
            DirOf(path) == Join(Front(names)) + Tail(path) && Components(DirOf(path)) == Front(names)
  {
    hide Components, Filled;
    var names := Components(path);
    JoinedAgain(path);
    FilledIsLast(names);
    DirOfIs(path);
    assert names == Front(names) + [Last(names)];
    JoinSnoc(Front(names), Last(names));
    assert path == Join(Front(names)) + [SLASH] + Last(names) + Tail(path);
    DirIsFront(Join(Front(names)), Last(names), Tail(path), path);
    assert AreComponents(Front(names)) by {
      forall i | 0 <= i < |names| - 1 ensures IsComponent(Front(names)[i]) {
        assert IsComponent(names[i]);
      }
    }
    ComponentsOfJoin(Front(names), Tail(path));
  }

  lemma DirIsFront(front: seq<byte>, last: seq<byte>, tail: seq<byte>, path: seq<byte>)
    requires path == front + [SLASH] + last + tail && (tail == [] || tail == [SLASH])
    ensures path[..|path| - |last| - 1] == front + tail
  {
  }
  // ----- what the servers are asked for -----

  /** The path, but for a slash at its end, fits in a lookup message. */
  predicate Fits(path: seq<byte>) {
    |path| - |Tail(path)| <= FIELD
  }

  lemma SentIsAPath(path: seq<byte>)
    requires NoDouble(path) && path != [] && path[0] == SLASH
    ensures NoDouble(Sent(path)) && Sent(path) != [] && Sent(path)[0] == SLASH
    ensures |path| > 1 ==> Components(Sent(path)) != []
  {
    var sent := Sent(path);
    assert forall i | 0 <= i < |sent| :: sent[i] == path[i];
    if |path| > 1 {
      var c, rest := FirstComponent(sent);
    }
  }

  /** A lookup asks for the path that was given exactly when it fits. */
  lemma SentWhole(path: seq<byte>)
    requires Parses(path)
    ensures Components(Sent(path)) == Components(path) <==> Fits(path)
  {
    hide Components;
    var names, sent := Components(path), Sent(path);
    JoinedAgain(path);
    SentIsAPath(path);
    JoinedAgain(sent);
    if Fits(path) {
      ComponentsOfJoin(names, if |path| <= FIELD then Tail(path) else []);
      assert sent == Join(names) + if |path| <= FIELD then Tail(path) else [];
    }
  }

  /** The components of the directory that a create goes to. */
  function Above(path: seq<byte>): seq<Name>
    requires path != []
  {
    if |Components(path)| > 1 then Components(Sent(DirOf(path))) else []
  }

  /** The lookup of a path finds what a create through the same path has made. */
  predicate Reopens(path: seq<byte>)
    requires path != []
  {
    Components(Sent(path)) == Above(path) + [Stem(LeafOf(path))]
  }

  /** Which paths these are. A single component may have a slash after it only if it is 13 bytes long. */
  predicate Safe(path: seq<byte>)
    requires Components(path) != []
  {
    if |Components(path)| == 1 then !Trails(path) || |path| == FIELD + 1
    else Fits(path) && LastIsLongest(Components(path))
  }

  lemma ReopensIff(path: seq<byte>)
    requires Parses(path) && Components(path) != []
    ensures Reopens(path) <==> Safe(path)
  {
    hide Components, Filled;
    var names := Components(path);
    JoinedAgain(path);
    SentWhole(path);
    if |names| == 1 {
      TopReopens(path);
    } else if Fits(path) {
      DirOfIs(path);
      SplitsRight(path);
      assert names == Front(names) + [Last(names)];
      assert Last(Above(path) + [Stem(LeafOf(path))]) == LeafOf(path);
    } else {
      DirOfIs(path);
      TooLong(path);
    }
  }

  lemma TopReopens(path: seq<byte>)
    requires Parses(path) && |Components(path)| == 1
    ensures Fits(path) && (Reopens(path) <==> Safe(path))
  {
    hide Components;
    var names := Components(path);
    var c := names[0];
    JoinedAgain(path);
    assert names == [c] && names[1..] == [];
    assert path == [SLASH] + c + Tail(path);
    SentWhole(path);
    assert path[1..] == c + Tail(path);
    if Trails(path) {
      assert |c| == MAX_NAME ==> Stem(path[1..]) == c;
    }
  }

  /** A longer path is looked up as something else than what has been made. */
  lemma TooLong(path: seq<byte>)
    requires Parses(path) && |Components(path)| > 1 && !Fits(path)
    ensures Components(Sent(path)) != Components(Sent(DirOf(path))) + [LeafOf(path)]
  {
    hide Components, Filled;
    var sent, dir, leaf := Sent(path), DirOf(path), LeafOf(path);
    DirOfIs(path);
    assert |dir| >= FIELD ==> Sent(dir) == sent;
    if Components(sent) == Components(Sent(dir)) + [leaf] {
      SentIsAPath(path);
      SentIsAPath(dir);
      JoinedAgain(sent);
      JoinedAgain(Sent(dir));
      JoinSnoc(Components(Sent(dir)), leaf);
      assert IsComponent(Last(Components(sent)));
      if |dir| < FIELD {
        OneMoreByte(path, Components(dir), leaf);
      }
    }
  }

  /** The one length at which the bytes would add up: there the leaf would be too short. */
  lemma OneMoreByte(path: seq<byte>, above: seq<Name>, leaf: Name)
    requires Parses(path) && |Components(path)| > 1 && |path| == FIELD + 1 && !Trails(path)
    requires path[..FIELD] == Join(above) + [SLASH] + leaf && AreComponents(above) && SLASH !in leaf
    ensures |LeafOf(path)| > |leaf|
  {
    hide Components, Filled;
    var last := leaf + [path[FIELD]];
    assert path == path[..FIELD] + [path[FIELD]];
    JoinSnoc(above, last);
    assert path == Join(above + [last]) + [];
    ComponentsOfJoin(above + [last], []);
    assert Components(path)[|above|] == last;
    FilledLength([], Components(path), |leaf|);
  }
  lemma {:induction false} FilledNoNul(b: seq<byte>, names: seq<Name>)
    requires NoNul(b) && forall i | 0 <= i < |names| :: NoNul(names[i])
    ensures NoNul(Filled(b, names))
    decreases |names|
  {
    if names != [] {
      assert NoNul(names[0]) && NoNul(Overlay(b, names[0]));
      forall i | 0 <= i < |names| - 1 ensures NoNul(names[1..][i]) {
        assert names[1..][i] == names[i + 1];
      }
      FilledNoNul(Overlay(b, names[0]), names[1..]);
    }
  }

  lemma {:induction false} JoinNoNul(names: seq<Name>, i: nat)
    requires NoNul(Join(names)) && i < |names|
    ensures NoNul(names[i])
    decreases |names|
  {
    var j := Join(names);
    assert j == [SLASH] + names[0] + Join(names[1..]);
    if i == 0 {
      assert names[0] == j[1..1 + |names[0]|];
    } else {
      assert Join(names[1..]) == j[1 + |names[0]|..];
      JoinNoNul(names[1..], i - 1);
    }
  }

  /** Both parts of the split are strings again. */
  lemma SplitNoNul(path: seq<byte>)
    requires Parses(path) && Components(path) != [] && NoNul(path)
    ensures path != [] && NoNul(LeafOf(path)) && NoNul(DirOf(path))
    ensures Components(Sent(path)) != [] && Components(Sent(DirOf(path))) != []
  {
    hide Components, Filled;
    var names := Components(path);
    JoinedAgain(path);
    if |path| == 1 {
      ShortPath(path);
    }
    SentIsAPath(path);
    if |names| > 1 {
      DirOfIs(path);
      SentIsAPath(DirOf(path));
      assert Join(names) == path[..|Join(names)|];
      forall i | 0 <= i < |names| ensures NoNul(names[i]) {
        JoinNoNul(names, i);
      }
      FilledNoNul([], names);
    }
  }

  /** "/teste/a": the split makes "aeste" of the last component, and "/t" of the directory. */
  lemma SplitsWrong()
    ensures var path := [SLASH, 116, 101, 115, 116, 101, SLASH, 97];
            && Parses(path) && Components(path) == [[116, 101, 115, 116, 101], [97]]
            && LeafOf(path) == [97, 101, 115, 116, 101] && DirOf(path) == [SLASH, 116]
  {
    var path := [SLASH, 116, 101, 115, 116, 101, SLASH, 97];
    var names: seq<Name> := [[116, 101, 115, 116, 101], [97]];
    TwoComponents(names[0], names[1], path);
    var more: seq<Name> := names[1..];
    assert more == [names[1]] && |more[1..]| == 0;
    assert Overlay([], names[0]) == names[0];
    assert Filled(names[0], more) == Filled(Overlay(names[0], names[1]), []);
  }

  lemma TwoComponents(a: Name, b: Name, path: seq<byte>)
    requires IsComponent(a) && IsComponent(b) && path == [SLASH] + a + [SLASH] + b
    ensures Components(path) == [a, b]
  {
    var names: seq<Name> := [a, b];
    var more := names[1..];
    assert more == [b] && |more[1..]| == 0;
    assert Join(names) + [] == path;
    ComponentsOfJoin(names, []);
  }

  lemma TwoPartsParse(a: Name, b: Name, path: seq<byte>)
    requires IsComponent(a) && IsComponent(b) && |a| <= |b| <= MAX_NAME && SPACE !in a && SPACE !in b
    requires path == [SLASH] + a + [SLASH] + b && Components(path) == [a, b]
    ensures Parses(path) && !Trails(path)
  {
    hide Components;
    assert path[|path| - 1] == b[|b| - 1];
    forall i | 0 <= i < |path| - 1 ensures path[i] != SLASH || path[i + 1] != SLASH {
      if 1 <= i < 1 + |a| {
        assert path[i] == a[i - 1];
      } else if |a| + 2 <= i {
        assert path[i] == b[i - |a| - 2];
      } else {
        assert path[1] == a[0] && path[|a| + 2] == b[0];
      }
    }
  }

  /** A path of two components, the second at least as long as the first. */
  lemma TwoParts(a: Name, b: Name, path: seq<byte>)
    requires IsComponent(a) && IsComponent(b) && |a| <= |b| <= MAX_NAME && SPACE !in a && SPACE !in b
    requires path == [SLASH] + a + [SLASH] + b
    ensures Parses(path) && Components(path) == [a, b] && LeafOf(path) == b
    ensures DirOf(path) == [SLASH] + a && Components([SLASH] + a) == [a]
    ensures Safe(path) <==> |path| <= FIELD
  {
    hide Components, Filled, Parses;
    TwoComponents(a, b, path);
    var names: seq<Name> := [a, b];
    TwoPartsParse(a, b, path);
    SplitsRight(path);
    var one: seq<Name> := [a];
    assert Front(names) == one && |one[1..]| == 0;
    assert Join(one) == [SLASH] + a;
    ComponentsOfJoin(one, []);
    assert Join(one) + [] == Join(one);
  }
}
