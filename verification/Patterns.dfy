/** What change patterns match, component by component. */
module Patterns {
  import opened Text
  import opened Paths
  import opened Wrappers
  import Ownership

  /** A final double star reaches whatever starts with the components before it, a final star what is one longer. */
  predicate Reaches(pattern: seq<string>, path: seq<string>) {
    var n := |pattern| - 1;
    if n >= 1 && pattern[n] == "**" then pattern[..n] <= path
    else if n >= 1 && pattern[n] == "*" then |path| == n + 1 && pattern[..n] <= path
    else path == pattern
  }

  lemma {:induction false} JoinLast(cs: seq<string>, x: string)
    requires |cs| >= 1
    ensures Join(cs + [x]) == Join(cs) + "/" + x
  {
    var all := cs + [x];
    assert all[1..] == cs[1..] + [x];
    if |cs| == 1 {
      assert all[1..] == [x];
    } else {
      JoinLast(cs[1..], x);
    }
  }

  /** The last of several components is read off the end of the path. */
  lemma LastIsSuffix(s: string, x: string)
    requires '/' !in x
    ensures HasSuffix(s, "/" + x) <==> |Split(s)| >= 2 && Split(s)[|Split(s)| - 1] == x
    ensures HasSuffix(s, "/" + x) ==> Split(s) == Split(TrimSuffix(s, "/" + x)) + [x]
  {
    hide Split;
    var cs := Split(s);
    JoinSplit(s);
    if HasSuffix(s, "/" + x) {
      var base := TrimSuffix(s, "/" + x);
      assert s == base + "/" + x;
      SplitAppend(base, x);
      SplitWhole(x);
    }
    if |cs| >= 2 && cs[|cs| - 1] == x {
      var init := cs[..|cs| - 1];
      assert cs == init + [x];
      JoinLast(init, x);
      assert s[|Join(init)|..] == "/" + x;
    }
  }

  /** Lying under a base is starting with its components. */
  lemma UnderIsPrefix(p: string, base: string)
    ensures Under(p, base) <==> Split(base) <= Split(p)
  {
    hide Split, Join;
    JoinSplit(p);
    JoinSplit(base);
    var bs, cs := Split(base), Split(p);
    if HasPrefix(p, base + "/") {
      assert p == base + "/" + p[|base| + 1..];
      SplitAppend(base, p[|base| + 1..]);
    }
    if bs <= cs && |bs| == |cs| {
      assert bs == cs;
    } else if bs <= cs {
      var rest := cs[|bs|..];
      assert cs == bs + rest;
      SplitHasNoSlash(p);
      SplitJoin(rest);
      SplitAppend(base, Join(rest));
      JoinSplit(base + "/" + Join(rest));
      assert Split(base + "/" + Join(rest)) == cs;
      assert p == base + "/" + Join(rest);
      assert p[..|base| + 1] == base + "/";
    }
  }

  /** A child of a base is what has its components and one more. */
  lemma ChildIsOneMore(p: string, base: string)
    requires IsCleanPath(p)
    ensures HasPrefix(p, base + "/") && p[|base| + 1..] != "" && '/' !in p[|base| + 1..]
            <==> |Split(p)| == |Split(base)| + 1 && Split(base) <= Split(p)
  {
    hide Split;
    var bs, cs := Split(base), Split(p);
    if HasPrefix(p, base + "/") && '/' !in p[|base| + 1..] {
      var rest := p[|base| + 1..];
      assert p == base + "/" + rest;
      SplitAppend(base, rest);
      SplitWhole(rest);
    }
    if |cs| == |bs| + 1 && bs <= cs {
      var last := cs[|bs|];
      assert cs == bs + [last] && last in cs;
      JoinSplit(p);
      JoinSplit(base);
      JoinLast(bs, last);
      assert p == (base + "/") + last;
      assert p[|base| + 1..] == last;
    }
  }

  lemma NormalizedIsClean(value: string)
    requires NormalizeRepositoryPath(value).Success?
    ensures IsCleanPath(NormalizeRepositoryPath(value).value)
  {
    RelativeIsClean(TrimSuffix(Prepared(value), "/"));
  }

  /** What PathMatches asks of two normal forms. */
  predicate Selects(p: string, c: string) {
    if HasSuffix(p, "/**") then Under(c, TrimSuffix(p, "/**"))
    else if HasSuffix(p, "/*") then
      var base := TrimSuffix(p, "/*");
      HasPrefix(c, base + "/") && c[|base| + 1..] != "" && '/' !in c[|base| + 1..]
    else c == p
  }

  lemma SelectsExactly(p: string, c: string)
    requires IsCleanPath(c)
    ensures Selects(p, c) <==> Reaches(Split(p), Split(c))
  {
    hide Split, IsCleanPath, Under, HasSuffix, HasPrefix, TrimSuffix, Join;
    assert "/" + "**" == "/**" && "/" + "*" == "/*";
    LastIsSuffix(p, "**");
    LastIsSuffix(p, "*");
    if HasSuffix(p, "/**") {
      UnderIsPrefix(c, TrimSuffix(p, "/**"));
    } else if HasSuffix(p, "/*") {
      ChildIsOneMore(c, TrimSuffix(p, "/*"));
    } else {
      JoinSplit(p);
      JoinSplit(c);
    }
  }

  lemma MatchIsSelection(pattern: string, changed: string)
    ensures PathMatches(pattern, changed) <==>
              && NormalizePattern(pattern).Success? && NormalizeRepositoryPath(changed).Success?
              && Selects(NormalizePattern(pattern).value, NormalizeRepositoryPath(changed).value)
  {
    hide NormalizePattern, NormalizeRepositoryPath;
  }

  /** Over all spellings: a pattern matches a changed path exactly when both normalise and its components reach the path's. */
  lemma MatchesExactly(pattern: string, changed: string)
    ensures PathMatches(pattern, changed) <==>
              && NormalizePattern(pattern).Success? && NormalizeRepositoryPath(changed).Success?
              && Reaches(Split(NormalizePattern(pattern).value), Split(NormalizeRepositoryPath(changed).value))
  {
    hide *;
    MatchIsSelection(pattern, changed);
    if NormalizeRepositoryPath(changed).Success? && NormalizePattern(pattern).Success? {
      NormalizedIsClean(changed);
      SelectsExactly(NormalizePattern(pattern).value, NormalizeRepositoryPath(changed).value);
    }
  }

  // ---- Plain bases with a wildcard or none

  /** A clean path is its own normal form, unless white space at an edge is trimmed off it. */
  lemma CleanIsNormal(s: string)
    requires s != "" && IsCleanPath(s) && '\\' !in s && !IsSpace(s[0]) && !IsSpace(s[|s| - 1])
    ensures NormalizeRepositoryPath(s) == Success(s)
  {
    CleanPathShape(s);
    Ownership.PreparedKeeps(s);
  }

  /** A plain base with two stars matches the base and all below it, with one its children, and alone just itself. */
  lemma PlainPatternMatches(base: string, suffix: string, changed: string)
    requires Ownership.PlainBase(base) && suffix in {"", "/*", "/**"} && NormalizeRepositoryPath(changed).Success?
    ensures var bs, cs := Split(base), Split(NormalizeRepositoryPath(changed).value);
            PathMatches(base + suffix, changed) <==>
              if suffix == "/**" then bs <= cs else if suffix == "/*" then |cs| == |bs| + 1 && bs <= cs else cs == bs
  {
    hide NormalizePattern, NormalizeRepositoryPath, Split, PathMatches, Ownership.Covers, Ownership.OwnedTree,
      Ownership.PlainBase;
    MatchesExactly(base + suffix, changed);
    Ownership.NormalFormCovers(base, suffix);
    PlainComponents(base, suffix);
  }

  lemma PlainComponents(base: string, suffix: string)
    requires Ownership.PlainBase(base) && suffix in {"", "/*", "/**"}
    ensures suffix != "" ==> Split(base + suffix) == Split(base) + [suffix[1..]]
    ensures suffix == "" ==> base + suffix == base
    ensures suffix == "" && |Split(base)| >= 2 ==> Split(base)[|Split(base)| - 1] !in {"*", "**"}
  {
    hide Split, IsCleanPath;
    assert "/" + "**" == "/**" && "/" + "*" == "/*";
    if suffix == "" {
      assert base + suffix == base;
      LastIsSuffix(base, "**");
      LastIsSuffix(base, "*");
    } else {
      assert base + suffix == base + "/" + suffix[1..];
      SplitAppend(base, suffix[1..]);
      SplitWhole(suffix[1..]);
    }
  }
}
