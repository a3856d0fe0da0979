/** Repository paths an operator types
    (internal/destination/destination.go:60-88). */
module Destination {
  import opened Text
  import opened Paths

  function TrimLeftSlash(s: string): string {
    if s != "" && s[0] == '/' then TrimLeftSlash(s[1..]) else s
  }

  function TrimRightSlash(s: string): string {
    if s != "" && s[|s| - 1] == '/' then TrimRightSlash(s[..|s| - 1]) else s
  }

  /** What is left to clean: outer space first, then outer slashes. */
  function Trimmed(repoPath: string): string {
    TrimRightSlash(TrimLeftSlash(TrimSpace(repoPath)))
  }

  datatype RepoPath = Cleaned(path: string) | Empty | Backslash | NullByte | Escapes | InvalidSegment

  function CleanRepoPath(repoPath: string): RepoPath {
    var trimmed := Trimmed(repoPath);
    if trimmed == "" then Empty
    else if '\\' in trimmed then Backslash
    else if '\0' in trimmed then NullByte
    else
      var cleaned := Clean(trimmed);
      if Leaves(cleaned) then Escapes
      else if !Plain(SplitOn(cleaned, '/')) then InvalidSegment
      else Cleaned(cleaned)
  }

  lemma {:induction false} TrimmedEnds(s: string)
    ensures TrimRightSlash(s) != "" ==> TrimRightSlash(s)[0] == s[0]
    ensures TrimRightSlash(s) != "" ==> TrimRightSlash(s)[|TrimRightSlash(s)| - 1] != '/'
  {
    if s != "" && s[|s| - 1] == '/' { TrimmedEnds(s[..|s| - 1]); }
  }

  lemma {:induction false} TrimLeftStarts(s: string)
    ensures !Rooted(TrimLeftSlash(s))
  {
    if s != "" && s[0] == '/' { TrimLeftStarts(s[1..]); }
  }

  /** Which texts are accepted, and as what: the check after cleaning never
      has anything left to refuse. */
  lemma AcceptedIff(repoPath: string)
    ensures var trimmed, result := Trimmed(repoPath), CleanRepoPath(repoPath);
            && !result.InvalidSegment?
            && (result.Cleaned? <==>
                '\\' !in trimmed && '\0' !in trimmed &&
                Segments(trimmed) != [] && Segments(trimmed)[0] != "..")
            && (result.Cleaned? ==>
                result.path == Join(Segments(trimmed)) && SplitOn(result.path, '/') == Segments(trimmed) &&
                Segments(trimmed) != [] && Plain(Segments(trimmed)))
  {
    var trimmed := Trimmed(repoPath);
    TrimLeftStarts(TrimSpace(repoPath));
    TrimmedEnds(TrimLeftSlash(TrimSpace(repoPath)));
    var segments := Segments(trimmed);
    SegmentsAreNormal(trimmed);
    if trimmed == "" {
      FoldEmptyPiece(false);
    } else if segments != [] {
      NormalIsSlashFree(false, segments);
      SplitJoin(segments);
      JoinLeaves(segments);
      if segments[0] != ".." { NormalIsPlain(segments); }
    }
  }

  /** Joined to any root, an accepted path ends up beneath it. */
  lemma AcceptedStaysBeneath(repoPath: string, root: string)
    requires CleanRepoPath(repoPath).Cleaned? && root != ""
    ensures var path := CleanRepoPath(repoPath).path;
            Segments(root + ['/'] + path) == Segments(root) + SplitOn(path, '/')
    ensures |Segments(root + ['/'] + CleanRepoPath(repoPath).path)| > |Segments(root)|
  {
    AcceptedIff(repoPath);
    PlainStaysBeneath(root, Segments(Trimmed(repoPath)));
  }

  predicate Without(pieces: Path, c: char) {
    forall i | 0 <= i < |pieces| :: c !in pieces[i]
  }

  lemma {:induction false} SplitWithout(s: string, c: char)
    requires c !in s
    ensures Without(SplitOn(s, '/'), c)
  {
    if s != "" {
      SplitWithout(s[1..], c);
      assert c != s[0];
    }
  }

  lemma {:induction false} FoldWithout(rooted: bool, pieces: Path, c: char)
    requires Without(pieces, c)
    ensures Without(Fold(rooted, [], pieces), c)
  {
    if pieces != [] { FoldWithout(rooted, pieces[..|pieces| - 1], c); }
  }

  lemma {:induction false} JoinWithout(pieces: Path, c: char)
    requires Without(pieces, c) && c != '/'
    ensures c !in Join(pieces)
  {
    if |pieces| > 1 { JoinWithout(pieces[1..], c); }
  }

  lemma CleanWithout(s: string, c: char)
    requires c !in s && c != '/'
    ensures c !in Join(Segments(s))
  {
    SplitWithout(s, c);
    FoldWithout(Rooted(s), SplitOn(s, '/'), c);
    JoinWithout(Segments(s), c);
  }

  // ---- Cleaning never lengthens ----

  function Length(pieces: Path): nat {
    if pieces == [] then 0 else Length(pieces[..|pieces| - 1]) + |pieces[|pieces| - 1]| + 1
  }

  lemma {:induction false} LengthConcat(a: Path, b: Path)
    ensures Length(a + b) == Length(a) + Length(b)
  {
    if b == [] {
      assert a + b == a;
    } else {
      assert (a + b)[..|a + b| - 1] == a + b[..|b| - 1];
      LengthConcat(a, b[..|b| - 1]);
    }
  }

  lemma {:induction false} SplitLength(s: string)
    ensures Length(SplitOn(s, '/')) == |s| + 1
  {
    if s == "" {
    } else {
      var pieces := SplitOn(s[1..], '/');
      SplitLength(s[1..]);
      LengthConcat([""], pieces);
      assert pieces == [pieces[0]] + pieces[1..];
      LengthConcat([pieces[0]], pieces[1..]);
      LengthConcat([[s[0]] + pieces[0]], pieces[1..]);
    }
  }

  lemma {:induction false} FoldLength(rooted: bool, pieces: Path)
    ensures Length(Fold(rooted, [], pieces)) <= Length(pieces)
  {
    if pieces != [] {
      var stack := Fold(rooted, [], pieces[..|pieces| - 1]);
      FoldLength(rooted, pieces[..|pieces| - 1]);
      assert (stack + [pieces[|pieces| - 1]])[..|stack|] == stack;
    }
  }

  lemma {:induction false} TrimSlashLength(s: string)
    ensures |TrimLeftSlash(s)| <= |s| && |TrimRightSlash(s)| <= |s|
  {
    if s != "" {
      TrimSlashLength(s[1..]);
      TrimSlashLength(s[..|s| - 1]);
    }
  }

  lemma {:induction false} TrimSpaceLength(s: string)
    ensures |TrimLeft(s)| <= |s| && |TrimRight(s)| <= |s|
    ensures TrimLeft(s) == s || |TrimLeft(s)| < |s|
    ensures TrimRight(s) == s || |TrimRight(s)| < |s|
  {
    if s != "" {
      TrimSpaceLength(s[1..]);
      TrimSpaceLength(s[..|s| - 1]);
    }
  }

  lemma AcceptedIsNoLonger(repoPath: string)
    requires CleanRepoPath(repoPath).Cleaned?
    ensures |CleanRepoPath(repoPath).path| <= |TrimSpace(repoPath)|
  {
    var trimmed, path := Trimmed(repoPath), CleanRepoPath(repoPath).path;
    AcceptedIff(repoPath);
    SplitLength(path);
    SplitLength(trimmed);
    FoldLength(Rooted(trimmed), SplitOn(trimmed, '/'));
    TrimSlashLength(TrimSpace(repoPath));
    TrimSlashLength(TrimLeftSlash(TrimSpace(repoPath)));
  }

  /** Cleaning an accepted path again changes nothing exactly when that path
      has no space at either end. */
  lemma AcceptedAgainIff(repoPath: string)
    requires CleanRepoPath(repoPath).Cleaned?
    ensures var path := CleanRepoPath(repoPath).path;
            CleanRepoPath(path) == Cleaned(path) <==> TrimSpace(path) == path
  {
    var trimmed, path := Trimmed(repoPath), CleanRepoPath(repoPath).path;
    AcceptedIff(repoPath);
    if TrimSpace(path) == path {
      JoinEnds(Segments(trimmed));
      assert Trimmed(path) == path;
      CleanIsIdempotent(trimmed);
      AcceptedIff(path);
      CleanWithout(trimmed, '\\');
      CleanWithout(trimmed, '\0');
    } else if CleanRepoPath(path) == Cleaned(path) {
      AcceptedIsNoLonger(path);
      TrimSpaceLength(path);
      TrimSpaceLength(TrimLeft(path));
    }
  }

  /** The slashes are trimmed after the space, so a space can come to stand
      at the front: cleaned again it is another path, or none. */
  lemma SecondCleaningDiffers()
    ensures CleanRepoPath("/ a") == Cleaned(" a") && CleanRepoPath(" a") == Cleaned("a")
    ensures CleanRepoPath("/ /") == Cleaned(" ") && CleanRepoPath(" ") == Empty
  {
    TrimmedExamples();
    OneSegment(" a");
    OneSegment("a");
    OneSegment(" ");
  }

  lemma TrimmedExamples()
    ensures Trimmed("/ a") == " a" && Trimmed(" a") == "a" && Trimmed("/ /") == " " && Trimmed(" ") == ""
  {
    assert "/ a"[1..] == " a" && " a"[1..] == "a";
    assert "/ /"[1..] == " /" && " /"[..1] == " ";
    assert TrimSpace("/ a") == "/ a" && TrimSpace(" a") == "a";
    assert TrimSpace("/ /") == "/ /" && TrimSpace(" ") == "";
  }

  lemma OneSegment(s: string)
    requires PlainSegment(s)
    ensures Clean(s) == s && SplitOn(s, '/') == [s]
  {
    SplitOne(s, '/');
    FoldPlain(false, [], [s]);
    assert s[0] in s;
  }
}
