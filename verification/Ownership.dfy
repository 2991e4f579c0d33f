/** Ownership entries: which paths a work item owns, and when two owners conflict. */
module Ownership {
  import opened Wrappers
  import opened Text
  import opened Paths

  function NormalizeOwnership(value: string): Result<string, PathError> {
    var v := Prepared(value);
    Relative(TrimSuffix(TrimSuffix(TrimSuffix(v, "/**"), "/*"), "/"))
  }

  predicate Normalizes(entry: string) {
    NormalizeOwnership(entry).Success?
  }

  /** The tree an entry owns, named by its root. */
  function OwnedTree(entry: string): string
    requires Normalizes(entry)
  {
    NormalizeOwnership(entry).value
  }

  predicate KeysOverlap(a: string, b: string) {
    a == b || HasPrefix(a, b + "/") || HasPrefix(b, a + "/")
  }

  predicate HasMalformed(entries: seq<string>) {
    exists i :: 0 <= i < |entries| && !Normalizes(entries[i])
  }

  predicate PairConflict(left: string, right: string) {
    Normalizes(left) && Normalizes(right) && KeysOverlap(OwnedTree(left), OwnedTree(right))
  }

  /** What the nested search of OwnershipConflict decides, malformed entries included. */
  predicate Conflict(left: seq<string>, right: seq<string>) {
    || HasMalformed(left)
    || (left != [] && HasMalformed(right))
    || exists i, j :: 0 <= i < |left| && 0 <= j < |right| && PairConflict(left[i], right[j])
  }

  method OwnershipConflict(left: seq<string>, right: seq<string>) returns (conflict: bool)
    ensures conflict <==> Conflict(left, right)
  {
    hide NormalizeOwnership, KeysOverlap;
    for i := 0 to |left|
      invariant forall k :: 0 <= k < i ==> Normalizes(left[k])
      invariant i > 0 ==> !HasMalformed(right)
      invariant forall k, j :: 0 <= k < i && 0 <= j < |right| ==> !PairConflict(left[k], right[j])
    {
      var a := NormalizeOwnership(left[i]);
      if a.Failure? {
        return true;
      }
      for j := 0 to |right|
        invariant forall k :: 0 <= k < j ==> Normalizes(right[k])
        invariant forall k :: 0 <= k < j ==> !PairConflict(left[i], right[k])
      {
        var b := NormalizeOwnership(right[j]);
        if b.Failure? {
          return true;
        }
        if KeysOverlap(a.value, b.value) {
          assert PairConflict(left[i], right[j]);
          return true;
        }
      }
    }
    return false;
  }

  /** Path p lies in a tree owned by one of the entries. */
  predicate Owns(entries: seq<string>, p: string) {
    exists i :: 0 <= i < |entries| && Normalizes(entries[i]) && Under(p, OwnedTree(entries[i]))
  }

  lemma OverlapIsSharedPath(a: string, b: string)
    ensures KeysOverlap(a, b) <==> exists p :: Under(p, a) && Under(p, b)
  {
    if KeysOverlap(a, b) {
      var p := if |a| >= |b| then a else b;
      assert Under(p, a) && Under(p, b);
    }
    forall p | Under(p, a) && Under(p, b)
      ensures KeysOverlap(a, b)
    {
      assert a <= p && b <= p;
      if |a| < |b| {
        assert b[|a|] == p[|a|];
      } else if |b| < |a| {
        assert a[|b|] == p[|b|];
      }
    }
  }

  /** On entries that normalise, a conflict is exactly a path both sides own. */
  lemma ConflictIsSharedPath(left: seq<string>, right: seq<string>)
    requires !HasMalformed(left) && !HasMalformed(right)
    ensures Conflict(left, right) <==> exists p :: Owns(left, p) && Owns(right, p)
  {
    if Conflict(left, right) {
      var i, j :| 0 <= i < |left| && 0 <= j < |right| && PairConflict(left[i], right[j]);
      OverlapIsSharedPath(OwnedTree(left[i]), OwnedTree(right[j]));
      var p :| Under(p, OwnedTree(left[i])) && Under(p, OwnedTree(right[j]));
      assert Owns(left, p) && Owns(right, p);
    }
    forall p | Owns(left, p) && Owns(right, p)
      ensures Conflict(left, right)
    {
      var i :| 0 <= i < |left| && Normalizes(left[i]) && Under(p, OwnedTree(left[i]));
      var j :| 0 <= j < |right| && Normalizes(right[j]) && Under(p, OwnedTree(right[j]));
      OverlapIsSharedPath(OwnedTree(left[i]), OwnedTree(right[j]));
      assert PairConflict(left[i], right[j]);
    }
  }

  /** The test is symmetric except when one side is empty and the other malformed. */
  lemma ConflictSymmetry(left: seq<string>, right: seq<string>)
    ensures Conflict(left, right) == Conflict(right, left)
            <==> !(left == [] && HasMalformed(right)) && !(right == [] && HasMalformed(left))
  {
    if exists i, j :: 0 <= i < |left| && 0 <= j < |right| && PairConflict(left[i], right[j]) {
      var i, j :| 0 <= i < |left| && 0 <= j < |right| && PairConflict(left[i], right[j]);
      assert PairConflict(right[j], left[i]);
    }
    if exists i, j :: 0 <= i < |right| && 0 <= j < |left| && PairConflict(right[i], left[j]) {
      var i, j :| 0 <= i < |right| && 0 <= j < |left| && PairConflict(right[i], left[j]);
      assert PairConflict(left[j], right[i]);
    }
  }

  /** An empty entry against no entries at all: a conflict one way round and none the other. */
  lemma AsymmetryExample()
    ensures Conflict([""], []) && !Conflict([], [""])
  {
    EmptyDoesNotNormalize();
    hide NormalizeOwnership;
    assert [""][0] == "" && !Normalizes([""][0]);
  }

  lemma EmptyDoesNotNormalize()
    ensures !Normalizes("")
  {
  }

  // ---- Ownership entries read as change patterns

  function PatternBase(p: string): string {
    if HasSuffix(p, "/**") then TrimSuffix(p, "/**") else TrimSuffix(p, "/*")
  }

  /** The tree owned under package scheduler contains what package repoprotocol matches the entry against. */
  predicate Covers(entry: string) {
    && Normalizes(entry)
    && NormalizePattern(entry).Success?
    && Under(PatternBase(NormalizePattern(entry).value), OwnedTree(entry))
  }

  lemma UnderTransitive(p: string, mid: string, base: string)
    requires Under(p, mid) && Under(mid, base)
    ensures Under(p, base)
  {
    if p != mid && mid != base {
      assert base + "/" <= mid <= p;
    }
  }

  lemma MatchedPathUnderBase(entry: string, changed: string)
    requires PathMatches(entry, changed)
    ensures Under(NormalizeRepositoryPath(changed).value, PatternBase(NormalizePattern(entry).value))
  {
  }

  /** A changed path matched by an entry of each side forces a conflict between the sides. */
  lemma SharedMatchForcesConflict(left: seq<string>, right: seq<string>, i: nat, j: nat, changed: string)
    requires i < |left| && j < |right| && Covers(left[i]) && Covers(right[j])
    requires PathMatches(left[i], changed) && PathMatches(right[j], changed)
    ensures Conflict(left, right)
  {
    var p := NormalizeRepositoryPath(changed).value;
    MatchedPathUnderBase(left[i], changed);
    MatchedPathUnderBase(right[j], changed);
    UnderTransitive(p, PatternBase(NormalizePattern(left[i]).value), OwnedTree(left[i]));
    UnderTransitive(p, PatternBase(NormalizePattern(right[j]).value), OwnedTree(right[j]));
    OverlapIsSharedPath(OwnedTree(left[i]), OwnedTree(right[j]));
    assert PairConflict(left[i], right[j]);
  }

  lemma UnderBothChildren(base: string, key: string)
    requires Under(base + "/x", key) && Under(base + "/y", key)
    ensures Under(base, key)
  {
    var child, other := base + "/x", base + "/y";
    assert child[|base| + 1] == 'x' && other[|base| + 1] == 'y';
    if key != child {
      assert key + "/" <= child;
      assert child[|key|] == '/' && child[|base| + 1] == 'x';
      assert |key| <= |base|;
      assert child[..|base|] == base && child[..|key|] == key;
      assert base[..|key|] == key;
      if |key| < |base| {
        assert base[|key|] == child[|key|];
      }
    }
  }

  lemma PatternShape(entry: string) returns (body: string, suffix: string)
    requires NormalizePattern(entry).Success?
    ensures NormalizePattern(entry).value == body + suffix
    ensures IsCleanPath(body) && '\\' !in body && suffix in {"", "/*", "/**"}
  {
    hide IsCleanPath, NormalizeRepositoryPath;
    var v := Prepared(entry);
    suffix := if HasSuffix(v, "/**") then "/**" else if HasSuffix(v, "/*") then "/*" else "";
    var inner := TrimSuffix(v, suffix);
    body := NormalizeRepositoryPath(inner).value;
    NormalizedIsClean(inner);
    NormalizeDropsBackslash(inner);
  }

  lemma NormalizedIsClean(value: string)
    requires NormalizeRepositoryPath(value).Success?
    ensures IsCleanPath(NormalizeRepositoryPath(value).value)
  {
    RelativeIsClean(TrimSuffix(Prepared(value), "/"));
  }

  lemma BaseIsClean(body: string, suffix: string)
    requires IsCleanPath(body) && '\\' !in body && suffix in {"", "/*", "/**"}
    ensures IsCleanPath(PatternBase(body + suffix)) && '\\' !in PatternBase(body + suffix)
  {
    hide IsCleanPath;
    var p := body + suffix;
    var base := PatternBase(p);
    if suffix == "" {
      assert p == body;
      if HasSuffix(p, "/**") {
        assert p == base + "/" + "**";
        CleanPathParts(base, "**");
      } else if HasSuffix(p, "/*") {
        assert p == base + "/" + "*";
        CleanPathParts(base, "*");
      }
    } else {
      assert p[|body|..] == suffix && p[..|body|] == body;
      if suffix == "/*" {
        assert p[|p| - 2] == '/';
        SuffixChar(p, "/**", 1);
      }
      assert base == body;
    }
  }

  lemma PatternBaseIsClean(entry: string)
    requires NormalizePattern(entry).Success?
    ensures IsCleanPath(PatternBase(NormalizePattern(entry).value))
    ensures '\\' !in PatternBase(NormalizePattern(entry).value)
  {
    hide *;
    var body, suffix := PatternShape(entry);
    BaseIsClean(body, suffix);
  }

  /** Some spelling of a changed path is matched and normalises to the base, or to a child of it. */
  lemma BaseMatches(entry: string)
    requires NormalizePattern(entry).Success?
    requires var p := NormalizePattern(entry).value; HasSuffix(p, "/**") || !HasSuffix(p, "/*")
    ensures var base := PatternBase(NormalizePattern(entry).value);
            var changed := "./" + base + "/";
            PathMatches(entry, changed) && NormalizeRepositoryPath(changed) == Success(base)
  {
    hide NormalizePattern, NormalizeRepositoryPath, IsCleanPath;
    PatternBaseIsClean(entry);
    SpellingOf(PatternBase(NormalizePattern(entry).value));
  }

  lemma ChildMatches(entry: string, child: string)
    requires NormalizePattern(entry).Success? && (child == "x" || child == "y")
    requires var p := NormalizePattern(entry).value; HasSuffix(p, "/*") && !HasSuffix(p, "/**")
    ensures var path := PatternBase(NormalizePattern(entry).value) + "/" + child;
            PathMatches(entry, "./" + path + "/") && NormalizeRepositoryPath("./" + path + "/") == Success(path)
  {
    hide NormalizePattern, NormalizeRepositoryPath, IsCleanPath, HasSuffix, TrimSuffix;
    var base := PatternBase(NormalizePattern(entry).value);
    var path := base + "/" + child;
    assert NormalizeRepositoryPath("./" + path + "/") == Success(path) by {
      PatternBaseIsClean(entry);
      ChildIsClean(base, child);
      assert '\\' !in path;
      SpellingOf(path);
    }
    assert path[..|base| + 1] == base + "/" && path[|base| + 1..] == child;
  }

  lemma ChildIsClean(base: string, child: string)
    requires IsCleanPath(base) && (child == "x" || child == "y")
    ensures IsCleanPath(base + "/" + child)
  {
    SplitWhole(child);
    CleanPathParts(base, child);
  }

  /** Covers is exactly the condition: every path the pattern matches lies in the owned tree. */
  lemma CoversExactly(entry: string)
    requires Normalizes(entry) && NormalizePattern(entry).Success?
    ensures Covers(entry) <==>
            forall changed :: PathMatches(entry, changed) ==> Under(NormalizeRepositoryPath(changed).value, OwnedTree(entry))
  {
    hide NormalizePattern, NormalizeRepositoryPath, NormalizeOwnership, OwnedTree, Under, PatternBase;
    var p := NormalizePattern(entry).value;
    var base := PatternBase(p);
    if Covers(entry) {
      forall changed | PathMatches(entry, changed)
        ensures Under(NormalizeRepositoryPath(changed).value, OwnedTree(entry))
      {
        MatchedPathUnderBase(entry, changed);
        UnderTransitive(NormalizeRepositoryPath(changed).value, base, OwnedTree(entry));
      }
    } else if HasSuffix(p, "/**") || !HasSuffix(p, "/*") {
      BaseMatches(entry);
    } else {
      ChildMatches(entry, "x");
      ChildMatches(entry, "y");
      if Under(base + "/" + "x", OwnedTree(entry)) && Under(base + "/" + "y", OwnedTree(entry)) {
        assert base + "/" + "x" == base + "/x" && base + "/" + "y" == base + "/y";
        UnderBothChildren(base, OwnedTree(entry));
      }
    }
  }

  /** A plain base directory: clean, no edge white space, no star as its last segment. */
  predicate PlainBase(base: string) {
    && base != "" && IsCleanPath(base) && '\\' !in base
    && !IsSpace(base[0]) && !IsSpace(base[|base| - 1])
    && !HasSuffix(base, "/*") && !HasSuffix(base, "/**")
  }

  lemma PreparedKeeps(s: string)
    requires s != "" && '\\' !in s && !IsSpace(s[0]) && !IsSpace(s[|s| - 1]) && !HasPrefix(s, "./")
    ensures Prepared(s) == s
  {
    assert ReplaceBackslash(s) == s;
    TrimSpaceKeeps(s);
  }

  /** Entries in normal form own exactly the tree of their base under both packages. */
  lemma NormalFormCovers(base: string, suffix: string)
    requires PlainBase(base) && suffix in {"", "/*", "/**"}
    ensures Covers(base + suffix) && OwnedTree(base + suffix) == base
    ensures NormalizePattern(base + suffix) == Success(base + suffix)
  {
    hide IsCleanPath, Relative, Prepared;
    var e := base + suffix;
    CleanPathShape(base);
    DotSlashNeedsBase(base, suffix);
    assert e[..|base|] == base && e[|base|..] == suffix;
    PreparedKeeps(e);
    NoSlashToTrim(base);
    SuffixStripped(base, suffix);
    PlainNormalizes(base);
    StrippedNormalizes(base, suffix);
  }

  lemma DotSlashNeedsBase(base: string, suffix: string)
    requires base != "" && base != "." && !HasPrefix(base, "./")
    ensures !HasPrefix(base + suffix, "./")
  {
    var e := base + suffix;
    assert e[..|base|] == base;
    if |base| == 1 {
      assert e[0] == base[0];
      assert base == [base[0]];
    } else {
      assert e[0] == base[0] && e[1] == base[1];
      assert base[..2] == [base[0], base[1]];
    }
  }

  lemma NoSlashToTrim(s: string)
    requires s != "" && s[|s| - 1] != '/'
    ensures !HasSuffix(s, "/") && TrimSuffix(s, "/") == s
  {
    SuffixChar(s, "/", 0);
  }

  lemma PlainNormalizes(base: string)
    requires PlainBase(base)
    ensures NormalizeRepositoryPath(base) == Success(base)
  {
    hide IsCleanPath, Relative, Prepared;
    CleanPathShape(base);
    PreparedKeeps(base);
    NoSlashToTrim(base);
  }

  lemma StrippedNormalizes(base: string, suffix: string)
    requires suffix in {"", "/*", "/**"} && Prepared(base + suffix) == base + suffix
    requires Relative(base) == Success(base) && NormalizeRepositoryPath(base) == Success(base)
    requires !HasSuffix(base, "/*") && !HasSuffix(base, "/**") && !HasSuffix(base, "/")
    ensures NormalizeOwnership(base + suffix) == Success(base)
    ensures NormalizePattern(base + suffix) == Success(base + suffix)
    ensures Covers(base + suffix)
  {
    hide Relative, Prepared, NormalizeRepositoryPath, HasSuffix, TrimSuffix, PatternBase;
    SuffixStripped(base, suffix);
  }

  /** Stripping one wildcard suffix from base plus suffix gives the base back. */
  lemma SuffixStripped(base: string, suffix: string)
    requires suffix in {"", "/*", "/**"}
    requires !HasSuffix(base, "/*") && !HasSuffix(base, "/**") && !HasSuffix(base, "/")
    ensures HasSuffix(base + suffix, "/**") <==> suffix == "/**"
    ensures HasSuffix(base + suffix, "/*") <==> suffix == "/*"
    ensures TrimSuffix(base + suffix, suffix) == base
    ensures TrimSuffix(TrimSuffix(TrimSuffix(base + suffix, "/**"), "/*"), "/") == base
    ensures PatternBase(base + suffix) == base
  {
    var e := base + suffix;
    assert e[|base|..] == suffix && e[..|base|] == base;
    if suffix == "" {
      assert e == base;
    } else if suffix == "/*" {
      assert e[|e| - 2] == '/';
      SuffixChar(e, "/**", 1);
    } else {
      assert e[|e| - 2] == '*';
      SuffixChar(e, "/*", 0);
    }
  }

  /** Outside normal form the two packages disagree: a star kept as a literal by one is a wildcard to the other. */
  lemma StarBeforeSlashIsNotCovered()
    ensures Normalizes("src/**/") && NormalizePattern("src/**/").Success? && !Covers("src/**/")
    ensures PathMatches("src/**/", "src/a") && PathMatches("src/a", "src/a") && !Conflict(["src/**/"], ["src/a"])
  {
    hide IsCleanPath, Relative, Prepared, TrimPrefix;
    StarSpellings();
    SuffixChar("src/**/", "/**", 1);
    SuffixChar("src/**/", "/*", 1);
    assert "src/**/"[6..] == "/" && "src/**/"[..6] == "src/**" && "src/**/"[..7] == "src/**/";
    assert NormalizeRepositoryPath("src/**/") == NormalizeOwnership("src/**/") == Success("src/**");
    assert NormalizePattern("src/**/") == Success("src/**" + "");
    SuffixChar("src/a", "/**", 0);
    SuffixChar("src/a", "/*", 1);
    SuffixChar("src/a", "/", 0);
    assert "src/a"[..5] == "src/a";
    assert NormalizeRepositoryPath("src/a") == NormalizeOwnership("src/a") == Success("src/a");
    assert NormalizePattern("src/a") == Success("src/a" + "");
    assert "src/**" + "" == "src/**" && "src/a" + "" == "src/a";
    StarMatches();
  }

  lemma CleanPair(a: string, b: string)
    requires PlainComponent(a) && PlainComponent(b)
    ensures Relative(a + "/" + b) == Success(a + "/" + b)
  {
    hide Relative, Split;
    SplitWhole(a);
    SplitWhole(b);
    CleanPathParts(a, b);
    CleanPathShape(a + "/" + b);
  }

  lemma StarSpellings()
    ensures Relative("src/**") == Success("src/**") && Relative("src/a") == Success("src/a")
    ensures Prepared("src/**/") == "src/**/" && Prepared("src/a") == "src/a"
  {
    hide Relative, Prepared;
    CleanPair("src", "**");
    CleanPair("src", "a");
    assert "src" + "/" + "**" == "src/**" && "src" + "/" + "a" == "src/a";
    PreparedKeeps("src/**/");
    PreparedKeeps("src/a");
  }

  lemma StarMatches()
    requires NormalizePattern("src/**/") == Success("src/**") && NormalizePattern("src/a") == Success("src/a")
    requires NormalizeRepositoryPath("src/a") == Success("src/a")
    requires NormalizeOwnership("src/**/") == Success("src/**") && NormalizeOwnership("src/a") == Success("src/a")
    ensures !Covers("src/**/") && PathMatches("src/**/", "src/a") && PathMatches("src/a", "src/a")
    ensures !Conflict(["src/**/"], ["src/a"])
  {
    hide NormalizePattern, NormalizeRepositoryPath, NormalizeOwnership;
    assert "src/**"[3..] == "/**" && "src/**"[..3] == "src";
    SuffixChar("src/a", "/**", 0);
    SuffixChar("src/a", "/*", 1);
    assert "src/**"[4] == '*' && "src/a"[4] == 'a' && ("src/a" + "/")[4] == 'a';
    assert !KeysOverlap("src/**", "src/a");
  }

  /** A small letter is an entry in normal form. */
  lemma LetterOwns(s: string)
    requires |s| == 1 && 'a' <= s[0] <= 'z'
    ensures Normalizes(s) && NormalizePattern(s).Success?
  {
    hide NormalizePattern, NormalizeOwnership, Relative;
    SplitWhole(s);
    assert PlainBase(s);
    NormalFormCovers(s, "");
    assert s + "" == s;
  }
}
