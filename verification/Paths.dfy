/** Slash-separated paths, their lexical cleaning, and the two normalisers of package repoprotocol. */
module Paths {
  import opened Wrappers
  import opened Text

  datatype PathError = NotRelative | EscapesRoot

  function Split(s: string): (r: seq<string>)
    ensures |r| >= 1
  {
    if s == "" then [""]
    else
      var r := Split(s[1..]);
      if s[0] == '/' then [""] + r else [[s[0]] + r[0]] + r[1..]
  }

  function Join(cs: seq<string>): string
    requires |cs| >= 1
  {
    if |cs| == 1 then cs[0] else cs[0] + "/" + Join(cs[1..])
  }

  /** The stack machine behind path.Clean on a path that does not start at the root. */
  function Resolve(cs: seq<string>, out: seq<string>): seq<string>
    decreases |cs|
  {
    if cs == [] then out
    else if cs[0] == "" || cs[0] == "." then Resolve(cs[1..], out)
    else if cs[0] == ".." && out != [] && out[|out| - 1] != ".." then Resolve(cs[1..], out[..|out| - 1])
    else Resolve(cs[1..], out + [cs[0]])
  }

  function Clean(s: string): string {
    var r := Resolve(Split(s), []);
    if r == [] then "." else Join(r)
  }

  function Relative(value: string): Result<string, PathError> {
    if value == "" || HasPrefix(value, "/") then Failure(NotRelative)
    else
      var cleaned := Clean(value);
      if cleaned == "." || cleaned == ".." || HasPrefix(cleaned, "../") then Failure(EscapesRoot)
      else Success(cleaned)
  }

  /** The value both packages start from: forward slashes, trimmed, one leading "./" dropped. */
  function Prepared(value: string): string {
    TrimPrefix(TrimSpace(ReplaceBackslash(value)), "./")
  }

  function NormalizeRepositoryPath(value: string): Result<string, PathError> {
    Relative(TrimSuffix(Prepared(value), "/"))
  }

  function NormalizePattern(value: string): Result<string, PathError> {
    var v := Prepared(value);
    var suffix := if HasSuffix(v, "/**") then "/**" else if HasSuffix(v, "/*") then "/*" else "";
    match NormalizeRepositoryPath(TrimSuffix(v, suffix))
    case Failure(e) => Failure(e)
    case Success(normalized) => Success(normalized + suffix)
  }

  predicate PathMatches(pattern: string, changed: string) {
    var p := NormalizePattern(pattern);
    var c := NormalizeRepositoryPath(changed);
    p.Success? && c.Success? &&
    if HasSuffix(p.value, "/**") then
      Under(c.value, TrimSuffix(p.value, "/**"))
    else if HasSuffix(p.value, "/*") then
      var base := TrimSuffix(p.value, "/*");
      HasPrefix(c.value, base + "/") &&
      var remainder := TrimPrefix(c.value, base + "/");
      remainder != "" && '/' !in remainder
    else
      c.value == p.value
  }

  /** Path p is base itself or lies in the tree below it. */
  predicate Under(p: string, base: string) {
    p == base || HasPrefix(p, base + "/")
  }

  predicate PlainComponent(c: string) {
    c != "" && c != "." && c != ".." && '/' !in c
  }

  /** A path that cleaning leaves alone and that stays inside the repository. */
  predicate IsCleanPath(s: string) {
    forall c :: c in Split(s) ==> PlainComponent(c)
  }

  // ---- Split and Join are inverse

  lemma {:induction false} SplitHasNoSlash(s: string)
    ensures forall c :: c in Split(s) ==> '/' !in c
  {
    if s != "" {
      SplitHasNoSlash(s[1..]);
    }
  }

  lemma {:induction false} JoinSplit(s: string)
    ensures Join(Split(s)) == s
  {
    if s != "" {
      JoinSplit(s[1..]);
      var r := Split(s[1..]);
      if s[0] == '/' {
        assert ([""] + r)[1..] == r;
        assert "" + "/" + s[1..] == s;
      } else {
        var t := [[s[0]] + r[0]] + r[1..];
        assert t[1..] == r[1..];
        assert Join(t) == [s[0]] + Join(r);
      }
    }
  }

  lemma SplitCons(c: char, s: string)
    ensures Split([c] + s)
            == if c == '/' then [""] + Split(s) else [[c] + Split(s)[0]] + Split(s)[1..]
  {
    assert ([c] + s)[1..] == s;
  }

  lemma {:induction false} SplitAppend(a: string, b: string)
    ensures Split(a + "/" + b) == Split(a) + Split(b)
  {
    if a == "" {
      assert a + "/" + b == ['/'] + b;
      SplitCons('/', b);
    } else {
      var rest := a[1..];
      SplitAppend(rest, b);
      assert a + "/" + b == [a[0]] + (rest + "/" + b) && a == [a[0]] + rest;
      SplitPrepend(a[0], rest, rest + "/" + b, Split(b));
    }
  }

  lemma SplitPrepend(c: char, s: string, whole: string, more: seq<string>)
    requires Split(whole) == Split(s) + more
    ensures Split([c] + whole) == Split([c] + s) + more
  {
    hide Split;
    SplitCons(c, s);
    SplitCons(c, whole);
    var r := Split(s);
    assert Split(whole)[0] == r[0] && Split(whole)[1..] == r[1..] + more;
    if c == '/' {
      assert [""] + (r + more) == ([""] + r) + more;
    } else {
      assert [[c] + r[0]] + (r[1..] + more) == ([[c] + r[0]] + r[1..]) + more;
    }
  }

  lemma {:induction false} SplitWhole(c: string)
    requires '/' !in c
    ensures Split(c) == [c]
  {
    if c != "" {
      assert c[0] != '/';
      SplitWhole(c[1..]);
      assert [c[0]] + c[1..] == c;
    }
  }

  lemma {:induction false} SplitJoin(cs: seq<string>)
    requires |cs| >= 1 && forall c :: c in cs ==> '/' !in c
    ensures Split(Join(cs)) == cs
  {
    SplitWhole(cs[0]);
    if |cs| > 1 {
      SplitJoin(cs[1..]);
      SplitAppend(cs[0], Join(cs[1..]));
    }
  }

  // ---- What cleaning yields

  /** Only parent steps precede a parent step, and nothing empty is left. */
  predicate Resolved(out: seq<string>) {
    && (forall i :: 0 <= i < |out| ==> out[i] != "" && out[i] != "." && '/' !in out[i])
    && (forall i, j :: 0 <= i < j < |out| && out[j] == ".." ==> out[i] == "..")
  }

  lemma {:induction false} ResolveYieldsResolved(cs: seq<string>, out: seq<string>)
    requires Resolved(out) && forall c :: c in cs ==> '/' !in c
    ensures Resolved(Resolve(cs, out))
    decreases |cs|
  {
    if cs == [] {
    } else if cs[0] == "" || cs[0] == "." {
      ResolveYieldsResolved(cs[1..], out);
    } else if cs[0] == ".." && out != [] && out[|out| - 1] != ".." {
      ResolveYieldsResolved(cs[1..], out[..|out| - 1]);
    } else {
      assert cs[0] in cs;
      ResolveYieldsResolved(cs[1..], out + [cs[0]]);
    }
  }

  lemma {:induction false} ResolveKeepsPlain(cs: seq<string>, out: seq<string>)
    requires forall c :: c in cs ==> PlainComponent(c)
    ensures Resolve(cs, out) == out + cs
    decreases |cs|
  {
    if cs == [] {
      assert out + cs == out;
    } else {
      assert PlainComponent(cs[0]);
      ResolveKeepsPlain(cs[1..], out + [cs[0]]);
      assert out + [cs[0]] + cs[1..] == out + cs;
    }
  }

  /** A successful normalisation is a clean path. */
  lemma RelativeIsClean(value: string)
    requires Relative(value).Success?
    ensures IsCleanPath(Relative(value).value)
  {
    var r := Resolve(Split(value), []);
    SplitHasNoSlash(value);
    ResolveYieldsResolved(Split(value), []);
    SplitJoin(r);
    assert r[0] != ".." by {
      if r[0] == ".." {
        ParentFirst(r);
      }
    }
  }

  lemma ParentFirst(r: seq<string>)
    requires |r| >= 1 && r[0] == ".."
    ensures Join(r) == ".." || HasPrefix(Join(r), "../")
  {
    if |r| > 1 {
      assert ".." + "/" + Join(r[1..]) == "../" + Join(r[1..]);
    }
  }

  lemma FirstComponent(s: string)
    ensures HasPrefix(s, "../") || s == ".." ==> Split(s)[0] == ".."
    ensures HasPrefix(s, "./") || s == "." ==> Split(s)[0] == "."
    ensures s == "" || s[0] == '/' ==> Split(s)[0] == ""
  {
    SplitWhole("..");
    SplitWhole(".");
    if HasPrefix(s, "../") {
      SplitAppend("..", s[3..]);
      assert s == ".." + "/" + s[3..];
    } else if HasPrefix(s, "./") {
      SplitAppend(".", s[2..]);
      assert s == "." + "/" + s[2..];
    }
  }

  lemma LastComponent(s: string)
    requires s != "" && s[|s| - 1] == '/'
    ensures Split(s)[|Split(s)| - 1] == ""
  {
    hide Split;
    var a := s[..|s| - 1];
    assert s == a + "/" + "";
    SplitAppend(a, "");
    SplitWhole("");
  }

  lemma CleanPathShape(s: string)
    requires IsCleanPath(s)
    ensures s != "" && s[0] != '/' && s[|s| - 1] != '/' && Clean(s) == s
    ensures s != "." && s != ".." && !HasPrefix(s, "../") && !HasPrefix(s, "./")
    ensures Relative(s) == Success(s)
  {
    hide Split, Resolve;
    var cs := Split(s);
    JoinSplit(s);
    ResolveKeepsPlain(cs, []);
    assert [] + cs == cs;
    assert PlainComponent(cs[0]) && PlainComponent(cs[|cs| - 1]);
    FirstComponent(s);
    if s[|s| - 1] == '/' {
      LastComponent(s);
    }
  }

  lemma CleanPathParts(a: string, b: string)
    ensures IsCleanPath(a + "/" + b) <==> IsCleanPath(a) && IsCleanPath(b)
  {
    SplitAppend(a, b);
  }

  // ---- What cleaning does with parent steps

  lemma {:induction false} ResolveConcat(a: seq<string>, b: seq<string>, out: seq<string>)
    ensures Resolve(a + b, out) == Resolve(b, Resolve(a, out))
    decreases |a|
  {
    if a == [] {
      assert a + b == b;
    } else {
      assert (a + b)[1..] == a[1..] + b;
      if a[0] == "" || a[0] == "." {
        ResolveConcat(a[1..], b, out);
      } else if a[0] == ".." && out != [] && out[|out| - 1] != ".." {
        ResolveConcat(a[1..], b, out[..|out| - 1]);
      } else {
        ResolveConcat(a[1..], b, out + [a[0]]);
      }
    }
  }

  /** A component followed by a parent step cancels, and empty and dot components drop out, wherever they stand. */
  lemma ParentCancels(a: string, c: string, b: string)
    requires PlainComponent(c)
    ensures Clean(a + "/" + (c + "/" + (".." + "/" + b))) == Clean(a + "/" + b)
    ensures Clean(a + "/" + ("." + "/" + b)) == Clean(a + "/" + b)
    ensures Clean(a + "/" + ("" + "/" + b)) == Clean(a + "/" + b)
  {
    hide Join, Split, Resolve;
    var x, y := Split(a), Split(b);
    SplitWhole("..");
    SplitAppend("..", b);
    SplitParts(a, c, ".." + "/" + b, [".."] + y);
    SplitParts(a, ".", b, y);
    SplitParts(a, "", b, y);
    SplitAppend(a, b);
    ResolveConcat(x, y, []);
    ResolveConcat(x, [c] + ([".."] + y), []);
    ResolveConcat(x, ["."] + y, []);
    ResolveConcat(x, [""] + y, []);
    StepsDropOut(c, y, Resolve(x, []));
  }

  lemma SplitParts(a: string, c: string, b: string, y: seq<string>)
    requires '/' !in c && y == Split(b)
    ensures Split(a + "/" + (c + "/" + b)) == Split(a) + ([c] + y)
  {
    hide Split;
    SplitAppend(a, c + "/" + b);
    SplitAppend(c, b);
    SplitWhole(c);
  }

  lemma StepsDropOut(c: string, y: seq<string>, out: seq<string>)
    requires PlainComponent(c)
    ensures Resolve([c] + ([".."] + y), out) == Resolve(["."] + y, out) == Resolve([""] + y, out) == Resolve(y, out)
  {
    assert ([c] + ([".."] + y))[1..] == [".."] + y && ([".."] + y)[1..] == y;
    assert (["."] + y)[1..] == y && ([""] + y)[1..] == y;
    assert (out + [c])[..|out|] == out;
  }

  /** How far below its start a walk along the components ends. */
  function Height(cs: seq<string>): int {
    if cs == [] then 0
    else
      var last := cs[|cs| - 1];
      Height(cs[..|cs| - 1]) + if last == ".." then -1 else if last == "" || last == "." then 0 else 1
  }

  /** No part of the walk ends above the start. */
  predicate NeverLeaves(cs: seq<string>) {
    Height(cs) >= 0 && (cs == [] || NeverLeaves(cs[..|cs| - 1]))
  }

  predicate AllPlain(cs: seq<string>) {
    forall c :: c in cs ==> PlainComponent(c)
  }

  lemma ResolveOne(last: string, r: seq<string>)
    ensures Resolve([last], r) ==
              if last == "" || last == "." then r
              else if last == ".." && r != [] && r[|r| - 1] != ".." then r[..|r| - 1] else r + [last]
  {
    assert [last][1..] == [];
  }

  /** A walk that never leaves its start resolves to plain components, one for each step of its height; any other
      resolves to something that starts with a parent step. */
  lemma {:induction false} ResolveFollowsHeight(cs: seq<string>)
    requires forall c :: c in cs ==> '/' !in c
    ensures NeverLeaves(cs) ==> AllPlain(Resolve(cs, [])) && |Resolve(cs, [])| == Height(cs)
    ensures !NeverLeaves(cs) ==> Resolve(cs, []) != [] && Resolve(cs, [])[0] == ".."
  {
    if cs != [] {
      var init, last := cs[..|cs| - 1], cs[|cs| - 1];
      ResolveFollowsHeight(init);
      assert cs == init + [last] && last in cs;
      ResolveConcat(init, [last], []);
      var r := Resolve(init, []);
      ResolveOne(last, r);
      hide Resolve;
      if NeverLeaves(init) && r != [] {
        assert r[|r| - 1] in r;
      }
    }
  }

  lemma JoinOfResolved(r: seq<string>)
    requires Resolved(r) && r != []
    ensures Split(Join(r)) == r && Join(r) != "."
    ensures Join(r) == ".." || HasPrefix(Join(r), "../") <==> r[0] == ".."
  {
    hide Split, Join;
    SplitJoin(r);
    FirstComponent(Join(r));
    if r[0] == ".." {
      ParentFirst(r);
    }
  }

  /** Accepted are exactly the paths that do not start at the root, never climb above their start and end below it. */
  lemma RelativeExactly(value: string)
    ensures Relative(value).Success? <==>
              value != "" && value[0] != '/' && NeverLeaves(Split(value)) && Height(Split(value)) > 0
    ensures Relative(value).Success? ==> Split(Relative(value).value) == Resolve(Split(value), [])
  {
    hide Split, Resolve, NeverLeaves, Height, Resolved;
    SplitHasNoSlash(value);
    var r := Resolve(Split(value), []);
    ResolveFollowsHeight(Split(value));
    StartsResolved();
    ResolveYieldsResolved(Split(value), []);
    if r != [] {
      JoinOfResolved(r);
      assert NeverLeaves(Split(value)) ==> PlainComponent(r[0]);
    }
    hide Join;
  }

  lemma StartsResolved()
    ensures Resolved([])
  {
  }

  // ---- Backslashes are gone after normalisation

  lemma {:induction false} SplitChars(s: string, bad: char)
    requires bad !in s
    ensures forall c :: c in Split(s) ==> bad !in c
  {
    if s != "" {
      SplitChars(s[1..], bad);
    }
  }

  lemma {:induction false} JoinChars(cs: seq<string>, bad: char)
    requires |cs| >= 1 && bad != '/' && forall c :: c in cs ==> bad !in c
    ensures bad !in Join(cs)
  {
    if |cs| > 1 {
      JoinChars(cs[1..], bad);
    }
  }

  lemma {:induction false} ResolveChars(cs: seq<string>, out: seq<string>, bad: char)
    requires (forall c :: c in cs ==> bad !in c) && forall c :: c in out ==> bad !in c
    ensures forall c :: c in Resolve(cs, out) ==> bad !in c
    decreases |cs|
  {
    if cs == [] {
    } else if cs[0] == "" || cs[0] == "." {
      ResolveChars(cs[1..], out, bad);
    } else if cs[0] == ".." && out != [] && out[|out| - 1] != ".." {
      ResolveChars(cs[1..], out[..|out| - 1], bad);
    } else {
      ResolveChars(cs[1..], out + [cs[0]], bad);
    }
  }

  lemma PreparedDropsBackslash(value: string)
    ensures '\\' !in TrimSuffix(Prepared(value), "/")
  {
    var replaced := ReplaceBackslash(value);
    TrimLeftEdge(replaced);
    TrimRightEdge(TrimLeft(replaced));
    var trimmed := TrimSpace(replaced);
    assert forall c :: c in trimmed ==> c in replaced;
    hide TrimSpace;
    assert Prepared(value) == TrimPrefix(trimmed, "./");
    assert forall c :: c in Prepared(value) ==> c in replaced;
  }

  lemma NormalizeDropsBackslash(value: string)
    requires NormalizeRepositoryPath(value).Success?
    ensures '\\' !in NormalizeRepositoryPath(value).value
  {
    hide Prepared, Split, Resolve;
    PreparedDropsBackslash(value);
    var v := TrimSuffix(Prepared(value), "/");
    SplitChars(v, '\\');
    ResolveChars(Split(v), [], '\\');
    JoinChars(Resolve(Split(v), []), '\\');
  }

  /** Every clean path is the normal form of some spelling, so nothing below is vacuous. */
  lemma SpellingOf(s: string)
    requires IsCleanPath(s) && '\\' !in s
    ensures NormalizeRepositoryPath("./" + s + "/") == Success(s)
  {
    var spelled := "./" + s + "/";
    assert '\\' !in spelled;
    assert ReplaceBackslash(spelled) == spelled;
    TrimSpaceKeeps(spelled);
    assert TrimPrefix(spelled, "./") == s + "/";
    assert TrimSuffix(s + "/", "/") == s;
    CleanPathShape(s);
  }

  lemma {:induction false} TrimLeftAfterReplace(s: string)
    ensures TrimLeft(ReplaceBackslash(s)) == ReplaceBackslash(TrimLeft(s))
  {
    if s != "" {
      TrimLeftAfterReplace(s[1..]);
      assert ReplaceBackslash(s)[1..] == ReplaceBackslash(s[1..]);
    }
  }

  lemma {:induction false} TrimRightAfterReplace(s: string)
    ensures TrimRight(ReplaceBackslash(s)) == ReplaceBackslash(TrimRight(s))
  {
    if s != "" {
      TrimRightAfterReplace(s[..|s| - 1]);
      assert ReplaceBackslash(s)[..|s| - 1] == ReplaceBackslash(s[..|s| - 1]);
    }
  }

  /** Backslashes for slashes and white space around the path make no difference to what it is or whether it is accepted. */
  lemma SpellingIsIndifferent(value: string)
    ensures NormalizeRepositoryPath(ReplaceBackslash(value)) == NormalizeRepositoryPath(value)
    ensures NormalizeRepositoryPath(TrimSpace(value)) == NormalizeRepositoryPath(value)
    ensures NormalizePattern(ReplaceBackslash(value)) == NormalizePattern(value) == NormalizePattern(TrimSpace(value))
  {
    assert Prepared(ReplaceBackslash(value)) == Prepared(value) by {
      assert ReplaceBackslash(ReplaceBackslash(value)) == ReplaceBackslash(value);
    }
    assert Prepared(TrimSpace(value)) == Prepared(value) by {
      TrimLeftAfterReplace(value);
      TrimRightAfterReplace(TrimLeft(value));
      TrimSpaceIdempotent(ReplaceBackslash(value));
      assert ReplaceBackslash(TrimSpace(value)) == TrimSpace(ReplaceBackslash(value));
    }
    hide Prepared, Relative;
  }
}
