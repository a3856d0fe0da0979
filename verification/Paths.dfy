/** Lexical path cleaning, as Go's path.Clean does it, on a stack of segments.
    The archive reader, the repository path check and the granular planner all
    decide by it (internal/reassemble/tar.go:252-261,
    internal/destination/destination.go:67-88). */
module Paths {
  import opened Text

  type Path = seq<string>

  function Join(segments: Path): string {
    if segments == [] then ""
    else if |segments| == 1 then segments[0]
    else segments[0] + ['/'] + Join(segments[1..])
  }

  predicate SlashFree(segments: Path) {
    forall i | 0 <= i < |segments| :: '/' !in segments[i]
  }

  lemma {:induction false} SplitJoin(segments: Path)
    requires segments != [] && SlashFree(segments)
    ensures SplitOn(Join(segments), '/') == segments
  {
    var first, rest := segments[0], segments[1..];
    if rest == [] {
      SplitPiece(first, '/', "");
      assert segments == [first];
    } else {
      SplitPiece(first, '/', Join(rest));
      SplitJoin(rest);
      assert segments == [first] + rest;
    }
  }

  lemma {:induction false} SplitIsSlashFree(s: string)
    ensures SlashFree(SplitOn(s, '/'))
  {
    if s != "" { SplitIsSlashFree(s[1..]); }
  }

  lemma {:induction false} JoinLonger(a: Path, b: Path)
    requires a != [] && b != []
    ensures Join(a + b) == Join(a) + ['/'] + Join(b)
  {
    if |a| == 1 {
      assert (a + b)[1..] == b;
    } else {
      assert (a + b)[1..] == a[1..] + b;
      JoinLonger(a[1..], b);
    }
  }

  // ---- Cleaning ----

  function Push(rooted: bool, stack: Path, segment: string): Path {
    if segment == "" || segment == "." then stack
    else if segment != ".." then stack + [segment]
    else if stack != [] && stack[|stack| - 1] != ".." then stack[..|stack| - 1]
    else if rooted then stack
    else stack + [segment]
  }

  function Fold(rooted: bool, stack: Path, pieces: Path): Path {
    if pieces == [] then stack
    else Push(rooted, Fold(rooted, stack, pieces[..|pieces| - 1]), pieces[|pieces| - 1])
  }

  predicate Rooted(s: string) {
    s != "" && s[0] == '/'
  }

  function Segments(s: string): Path {
    Fold(Rooted(s), [], SplitOn(s, '/'))
  }

  function Render(rooted: bool, segments: Path): string {
    if rooted then ['/'] + Join(segments) else if segments == [] then "." else Join(segments)
  }

  /** path.Clean. */
  function Clean(s: string): string {
    Render(Rooted(s), Segments(s))
  }

  /** What cleaning leaves: parents only in front, and only of a path that
      does not start at the root. */
  predicate Normal(rooted: bool, segments: Path) {
    segments == [] || (Normal(rooted, segments[..|segments| - 1]) && NormalLast(rooted, segments))
  }

  predicate NormalLast(rooted: bool, segments: Path)
    requires segments != []
  {
    var last := |segments| - 1;
    && segments[last] != "" && segments[last] != "." && '/' !in segments[last]
    && (segments[last] == ".." ==> !rooted && (last == 0 || segments[last - 1] == ".."))
  }

  lemma {:induction false} FoldNormal(rooted: bool, stack: Path, pieces: Path)
    requires Normal(rooted, stack) && SlashFree(pieces)
    ensures Normal(rooted, Fold(rooted, stack, pieces))
  {
    if pieces != [] {
      var n := |pieces| - 1;
      FoldNormal(rooted, stack, pieces[..n]);
    }
  }

  lemma {:induction false} FoldKeepsNormal(rooted: bool, stack: Path, pieces: Path)
    requires Normal(rooted, stack + pieces)
    ensures Fold(rooted, stack, pieces) == stack + pieces
  {
    if pieces == [] {
      assert stack + pieces == stack;
    } else {
      var n, whole := |pieces| - 1, stack + pieces;
      var before := stack + pieces[..n];
      assert whole[..|whole| - 1] == before && whole == before + [pieces[n]];
      FoldKeepsNormal(rooted, stack, pieces[..n]);
      assert NormalLast(rooted, whole);
    }
  }

  lemma {:induction false} FoldConcat(rooted: bool, stack: Path, a: Path, b: Path)
    ensures Fold(rooted, stack, a + b) == Fold(rooted, Fold(rooted, stack, a), b)
  {
    if b == [] {
      assert a + b == a;
    } else {
      var n := |b| - 1;
      assert (a + b)[..|a| + n] == a + b[..n];
      FoldConcat(rooted, stack, a, b[..n]);
    }
  }

  lemma SegmentsAreNormal(s: string)
    ensures Normal(Rooted(s), Segments(s))
  {
    SplitIsSlashFree(s);
    FoldNormal(Rooted(s), [], SplitOn(s, '/'));
  }

  lemma {:induction false} NormalIsSlashFree(rooted: bool, segments: Path)
    requires Normal(rooted, segments)
    ensures SlashFree(segments)
    ensures segments != [] ==> segments[0] != "" && segments[0] != "."
  {
    if segments != [] { NormalIsSlashFree(rooted, segments[..|segments| - 1]); }
  }

  /** What is printed for a normal path reads back as that path. */
  lemma RenderedReadsBack(rooted: bool, segments: Path)
    requires Normal(rooted, segments)
    ensures Rooted(Render(rooted, segments)) == rooted
    ensures Segments(Render(rooted, segments)) == segments
  {
    if rooted {
      assert Render(rooted, segments)[1..] == Join(segments);
      RootedReadsBack(segments);
    } else {
      RelativeReadsBack(segments);
    }
  }

  lemma RelativeReadsBack(segments: Path)
    requires Normal(false, segments)
    ensures !Rooted(Render(false, segments)) && Segments(Render(false, segments)) == segments
  {
    if segments == [] {
      SplitOne(".", '/');
      assert ["."][..0] == [];
    } else {
      NormalIsSlashFree(false, segments);
      SplitJoin(segments);
      assert [] + segments == segments;
      FoldKeepsNormal(false, [], segments);
    }
  }

  lemma RootedReadsBack(segments: Path)
    requires Normal(true, segments)
    ensures Segments(['/'] + Join(segments)) == segments
  {
    var s := "" + ['/'] + Join(segments);
    assert s == ['/'] + Join(segments);
    SplitPiece("", '/', Join(segments));
    var pieces := if segments == [] then [""] else segments;
    if segments != [] {
      NormalIsSlashFree(true, segments);
      SplitJoin(segments);
    }
    FoldConcat(true, [], [""], pieces);
    FoldEmptyPiece(true);
    assert [] + segments == segments;
    FoldKeepsNormal(true, [], segments);
  }

  lemma FoldEmptyPiece(rooted: bool)
    ensures Fold(rooted, [], [""]) == []
  {
    assert [""][..0] == [];
  }

  /** Cleaning twice is cleaning once. */
  lemma CleanIsIdempotent(s: string)
    ensures Clean(Clean(s)) == Clean(s)
    ensures Segments(Clean(s)) == Segments(s) && Rooted(Clean(s)) == Rooted(s)
  {
    SegmentsAreNormal(s);
    RenderedReadsBack(Rooted(s), Segments(s));
  }

  predicate Leaves(cleaned: string) {
    cleaned == "." || cleaned == ".." || HasPrefix(cleaned, "../")
  }

  lemma JoinLeaves(segments: Path)
    requires segments != [] && SlashFree(segments) && segments[0] != "" && segments[0] != "."
    ensures Leaves(Join(segments)) <==> segments[0] == ".."
  {
    var s := Join(segments);
    if |segments| > 1 {
      assert s == segments[0] + ['/'] + Join(segments[1..]);
      assert s[|segments[0]|] == '/';
      if segments[0] == ".." { assert s[..3] == "../"; }
      if HasPrefix(s, "../") { FirstSlash(s, segments[0], ".."); }
      assert s != "." && s != "..";
    } else {
      assert '/' !in s;
      assert forall k | 0 <= k < |s| :: s[k] != '/';
      assert |s| >= 3 ==> s[..3][2] == s[2];
    }
  }

  lemma FirstSlash(s: string, a: string, b: string)
    requires '/' !in a && '/' !in b && |s| > |a| && |s| > |b|
    requires s[..|a|] == a && s[|a|] == '/' && s[..|b| + 1] == b + ['/']
    ensures a == b
  {
    assert s[|b|] == s[..|b| + 1][|b|] == '/';
    forall k | 0 <= k < |a| ensures s[k] != '/' { assert s[k] == s[..|a|][k] && a[k] in a; }
    forall k | 0 <= k < |b| ensures s[k] != '/' { assert s[k] == s[..|b| + 1][k] == b[k] && b[k] in b; }
    assert s[..|b|] == s[..|b| + 1][..|b|] == b;
  }

  // ---- Names that stay where they are put ----

  predicate PlainSegment(segment: string) {
    segment != "" && segment != "." && segment != ".." && '/' !in segment
  }

  predicate Plain(segments: Path) {
    forall i | 0 <= i < |segments| :: PlainSegment(segments[i])
  }

  lemma {:induction false} PlainIsNormal(rooted: bool, segments: Path)
    requires Plain(segments)
    ensures Normal(rooted, segments)
  {
    if segments != [] {
      PlainIsNormal(rooted, segments[..|segments| - 1]);
      assert PlainSegment(segments[|segments| - 1]);
    }
  }

  /** A normal path that does not start at the root or with a parent is plain. */
  lemma {:induction false} NormalIsPlain(segments: Path)
    requires Normal(false, segments) && (segments == [] || segments[0] != "..")
    ensures Plain(segments)
  {
    if segments != [] {
      var n := |segments| - 1;
      NormalIsPlain(segments[..n]);
      assert n > 0 ==> PlainSegment(segments[..n][n - 1]);
      assert PlainSegment(segments[n]);
    }
  }

  lemma {:induction false} FoldPlain(rooted: bool, stack: Path, pieces: Path)
    requires Plain(pieces)
    ensures Fold(rooted, stack, pieces) == stack + pieces
  {
    if pieces == [] {
      assert stack + pieces == stack;
    } else {
      var n := |pieces| - 1;
      assert PlainSegment(pieces[n]);
      FoldPlain(rooted, stack, pieces[..n]);
      assert stack + pieces == stack + pieces[..n] + [pieces[n]];
    }
  }

  lemma {:induction false} JoinEnds(segments: Path)
    requires segments != [] && Plain(segments)
    ensures Join(segments) != "" && Join(segments)[0] != '/' && Join(segments)[|Join(segments)| - 1] != '/'
  {
    assert PlainSegment(segments[0]);
    if |segments| > 1 {
      assert forall i | 0 <= i < |segments| - 1 :: PlainSegment(segments[1..][i]) by {
        assert forall i | 0 <= i < |segments| - 1 :: segments[1..][i] == segments[i + 1] && PlainSegment(segments[i + 1]);
      }
      JoinEnds(segments[1..]);
    } else {
      var s := segments[0];
      assert s[|s| - 1] in s && s[0] in s;
    }
  }

  /** Joined to any root, a plain path ends up beneath it: the root's own
      segments, then these. */
  lemma PlainStaysBeneath(root: string, segments: Path)
    requires root != "" && segments != [] && Plain(segments)
    ensures Segments(root + ['/'] + Join(segments)) == Segments(root) + segments
  {
    PlainIsNormal(false, segments);
    NormalIsSlashFree(false, segments);
    SplitConcat(root, '/', Join(segments));
    SplitJoin(segments);
    FoldConcat(Rooted(root), [], SplitOn(root, '/'), segments);
    FoldPlain(Rooted(root), Segments(root), segments);
  }

  // ---- What cleaning may and may not change ----

  /** The four rules cleaning is defined by: an empty segment and a dot go, a
      parent takes the name before it away, and there is nothing above the
      root. */
  lemma CleanRules(before: string, name: string, after: string)
    requires PlainSegment(name)
    ensures before != "" ==> Segments(before + ['/'] + "" + ['/'] + after) == Segments(before + ['/'] + after)
    ensures before != "" ==> Segments(before + ['/'] + "." + ['/'] + after) == Segments(before + ['/'] + after)
    ensures before != "" ==>
              Segments(before + ['/'] + name + ['/'] + ".." + ['/'] + after) == Segments(before + ['/'] + after)
    ensures Segments("/.." + ['/'] + after) == Segments(['/'] + after)
  {
    if before != "" {
      SplitOne("", '/');
      Inserted(before, [""], after, "");
      SplitOne(".", '/');
      Inserted(before, ["."], after, ".");
      SplitOne("..", '/');
      SplitPiece(name, '/', "..");
      assert [name] + [".."] == [name, ".."];
      Inserted(before, [name, ".."], after, name + ['/'] + "..");
      assert before + ['/'] + (name + ['/'] + "..") + ['/'] + after == before + ['/'] + name + ['/'] + ".." + ['/'] + after;
      FoldOne(Rooted(before), Segments(before), "");
      FoldOne(Rooted(before), Segments(before), ".");
      FoldTwo(Rooted(before), Segments(before), name);
    }
    RootsParent(after);
  }

  lemma FoldOne(rooted: bool, stack: Path, piece: string)
    ensures Fold(rooted, stack, [piece]) == Push(rooted, stack, piece)
  {
    assert [piece][..0] == [];
  }

  lemma FoldTwo(rooted: bool, stack: Path, name: string)
    requires PlainSegment(name)
    ensures Fold(rooted, stack, [name, ".."]) == stack
  {
    assert [name, ".."][..1] == [name];
    FoldOne(rooted, stack, name);
    assert (stack + [name])[..|stack|] == stack;
  }

  /** Pieces in the middle of a path act on what is in front of them. */
  lemma Inserted(before: string, pieces: Path, after: string, middle: string)
    requires before != "" && SplitOn(middle, '/') == pieces
    ensures Segments(before + ['/'] + middle + ['/'] + after) ==
            Fold(Rooted(before), Fold(Rooted(before), Segments(before), pieces), SplitOn(after, '/'))
    ensures Segments(before + ['/'] + after) == Fold(Rooted(before), Segments(before), SplitOn(after, '/'))
  {
    var rooted, front := Rooted(before), SplitOn(before, '/');
    assert before + ['/'] + middle + ['/'] + after == before + ['/'] + (middle + ['/'] + after);
    SplitConcat(before, '/', middle + ['/'] + after);
    SplitConcat(middle, '/', after);
    SplitConcat(before, '/', after);
    FoldConcat(rooted, [], front, pieces + SplitOn(after, '/'));
    FoldConcat(rooted, Segments(before), pieces, SplitOn(after, '/'));
    FoldConcat(rooted, [], front, SplitOn(after, '/'));
  }

  lemma RootsParent(after: string)
    ensures Segments("/.." + ['/'] + after) == Segments(['/'] + after)
  {
    SplitPiece("", '/', ".." + ['/'] + after);
    SplitPiece("..", '/', after);
    SplitPiece("", '/', after);
    var rest := SplitOn(after, '/');
    assert "/.." + ['/'] + after == "" + ['/'] + (".." + ['/'] + after);
    assert ['/'] + after == "" + ['/'] + after;
    assert SplitOn("/.." + ['/'] + after, '/') == [""] + ([".."] + rest);
    FoldConcat(true, [], [""], [".."] + rest);
    FoldConcat(true, [], [".."], rest);
    FoldConcat(true, [], [""], rest);
    FoldEmptyPiece(true);
    FoldOne(true, [], "..");
  }

  // ---- What stays beneath where it starts ----

  predicate Inside(stack: Path) {
    stack == [] || stack[0] != ".."
  }

  /** Followed from an empty stack without a parent left in front, pieces lead
      beneath wherever they are followed from, and by the same names. */
  lemma {:induction false} StaysBeneath(rooted: bool, stack: Path, pieces: Path)
    requires SlashFree(pieces) && Inside(Fold(false, [], pieces))
    ensures Fold(rooted, stack, pieces) == stack + Fold(false, [], pieces)
    ensures Plain(Fold(false, [], pieces))
  {
    FoldNormal(false, [], pieces);
    NormalIsPlain(Fold(false, [], pieces));
    if pieces == [] {
      assert stack + [] == stack;
    } else {
      var n := |pieces| - 1;
      var before := Fold(false, [], pieces[..n]);
      assert Inside(before);
      StaysBeneath(rooted, stack, pieces[..n]);
      PushBeneath(rooted, stack, before, pieces[n]);
    }
  }

  lemma PushBeneath(rooted: bool, stack: Path, before: Path, piece: string)
    requires Plain(before) && Inside(Push(false, before, piece))
    ensures Push(rooted, stack + before, piece) == stack + Push(false, before, piece)
  {
    if before != [] { assert PlainSegment(before[|before| - 1]); }
  }
}
