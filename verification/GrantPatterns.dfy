/** The database of a GRANT is a LIKE pattern. Telling one database from a
    family of them (internal/inventory/dbusers.go:85-114) and writing a name
    so that it means only itself (internal/cpanel/putback.go:130-132). */
module GrantPatterns {
  import opened NodeStore

  // ---- What a pattern means ----

  /** MySQL's LIKE: '_' is any one character, '%' any run of them, and a
      backslash makes the character after it mean itself. */
  predicate Like(pattern: string, name: string)
    decreases |pattern|, |name|
  {
    if pattern == "" then name == ""
    else if pattern[0] == '\\' && |pattern| > 1 then
      name != "" && name[0] == pattern[1] && Like(pattern[2..], name[1..])
    else if pattern[0] == '%' then
      Like(pattern[1..], name) || (name != "" && Like(pattern, name[1..]))
    else
      name != "" && (pattern[0] == '_' || pattern[0] == name[0]) && Like(pattern[1..], name[1..])
  }

  /** The rules of LIKE, one first character at a time. */
  lemma LikeRules(rest: string, c: char, name: string)
    ensures Like("", name) <==> |name| == 0
    ensures Like("_" + rest, name) <==> |name| > 0 && Like(rest, name[1..])
    ensures Like("\\" + [c] + rest, name) <==> |name| > 0 && name[0] == c && Like(rest, name[1..])
    ensures c != '_' && c != '%' && c != '\\' ==>
              (Like([c] + rest, name) <==> |name| > 0 && name[0] == c && Like(rest, name[1..]))
    ensures Like("%" + rest, name) <==> exists k :: 0 <= k <= |name| && Like(rest, name[k..])
  {
    assert ("_" + rest)[1..] == rest && ([c] + rest)[1..] == rest;
    var escaped := "\\" + [c] + rest;
    assert escaped[0] == '\\' && escaped[1] == c && escaped[2..] == rest;
    AnyRun(rest, name);
  }

  lemma {:induction false} AnyRun(rest: string, name: string)
    ensures Like("%" + rest, name) <==> exists k :: 0 <= k <= |name| && Like(rest, name[k..])
  {
    assert ("%" + rest)[1..] == rest && name[0..] == name;
    if name != "" {
      AnyRun(rest, name[1..]);
      forall k | 1 <= k <= |name| ensures name[1..][k - 1..] == name[k..] {}
      if k :| 0 <= k <= |name[1..]| && Like(rest, name[1..][k..]) { assert Like(rest, name[k + 1..]); }
      if k :| 0 <= k <= |name| && Like(rest, name[k..]) {
        if k > 0 { assert Like(rest, name[1..][k - 1..]); }
      }
    }
  }

  /** The pattern ends in a backslash with nothing left to escape. */
  predicate Dangling(pattern: string) {
    pattern != "" && if pattern[0] == '\\' then |pattern| == 1 || Dangling(pattern[2..]) else Dangling(pattern[1..])
  }

  ghost predicate MatchesOnly(pattern: string, name: string) {
    forall s :: Like(pattern, s) <==> s == name
  }

  // ---- Reading a pattern ----

  /** The one name a pattern spells, if it has no wildcard and no dangling
      backslash. */
  function Spelled(pattern: string): Option<string> {
    if pattern == "" then Some("")
    else if pattern[0] == '\\' then
      if |pattern| == 1 then None else Before(pattern[1], Spelled(pattern[2..]))
    else if pattern[0] == '_' || pattern[0] == '%' then None
    else Before(pattern[0], Spelled(pattern[1..]))
  }

  function Before(c: char, rest: Option<string>): Option<string> {
    if rest.Some? then Some([c] + rest.value) else None
  }

  lemma {:induction false} SpelledMatchesOnly(pattern: string, s: string)
    requires Spelled(pattern).Some?
    ensures Like(pattern, s) <==> s == Spelled(pattern).value
  {
    if pattern != "" {
      var skip := if pattern[0] == '\\' then 2 else 1;
      var name := Spelled(pattern).value;
      assert name[1..] == Spelled(pattern[skip..]).value;
      if s != "" {
        SpelledMatchesOnly(pattern[skip..], s[1..]);
        assert s == [s[0]] + s[1..] && name == [name[0]] + name[1..];
      }
    }
  }

  /** A name the pattern matches, with `c` wherever there was a choice. */
  function Filled(pattern: string, c: char): string {
    if pattern == "" then ""
    else if pattern[0] == '\\' && |pattern| > 1 then [pattern[1]] + Filled(pattern[2..], c)
    else [if pattern[0] == '_' || pattern[0] == '%' then c else pattern[0]] + Filled(pattern[1..], c)
  }

  lemma {:induction false} FilledMatches(pattern: string, c: char)
    ensures Like(pattern, Filled(pattern, c))
  {
    if pattern != "" {
      var skip := if pattern[0] == '\\' && |pattern| > 1 then 2 else 1;
      var name := Filled(pattern, c);
      FilledMatches(pattern[skip..], c);
      assert name[1..] == Filled(pattern[skip..], c);
      if pattern[0] == '%' { assert Like(pattern, name[1..]); }
    }
  }

  lemma {:induction false} WildcardFillsDiffer(pattern: string)
    requires Spelled(pattern).None? && !Dangling(pattern)
    ensures Filled(pattern, 'a') != Filled(pattern, 'b')
  {
    if pattern[0] != '_' && pattern[0] != '%' {
      var skip := if pattern[0] == '\\' then 2 else 1;
      WildcardFillsDiffer(pattern[skip..]);
      assert Filled(pattern, 'a')[1..] == Filled(pattern[skip..], 'a');
      assert Filled(pattern, 'b')[1..] == Filled(pattern[skip..], 'b');
    } else {
      assert Filled(pattern, 'a')[0] == 'a' && Filled(pattern, 'b')[0] == 'b';
    }
  }

  lemma {:induction false} DanglingSpellsNothing(pattern: string)
    requires Dangling(pattern)
    ensures Spelled(pattern).None?
  {
    if pattern[0] == '\\' {
      if |pattern| > 1 { DanglingSpellsNothing(pattern[2..]); }
    } else if pattern[0] != '_' && pattern[0] != '%' {
      DanglingSpellsNothing(pattern[1..]);
    }
  }

  /** The scan decides a question about infinitely many names: a pattern is
      one database exactly when a single name matches it. */
  lemma LiteralIff(pattern: string)
    requires !Dangling(pattern)
    ensures Spelled(pattern).Some? <==> exists name :: MatchesOnly(pattern, name)
    ensures Spelled(pattern).Some? ==> MatchesOnly(pattern, Spelled(pattern).value)
  {
    if Spelled(pattern).Some? {
      forall s ensures Like(pattern, s) <==> s == Spelled(pattern).value { SpelledMatchesOnly(pattern, s); }
      assert MatchesOnly(pattern, Spelled(pattern).value);
    } else {
      FilledMatches(pattern, 'a');
      FilledMatches(pattern, 'b');
      WildcardFillsDiffer(pattern);
    }
  }

  lemma SpelledBuilds(done: string, c: char, rest: Option<string>)
    ensures Joined(done, Before(c, rest)) == Joined(done + [c], rest)
  {
    if rest.Some? { assert done + ([c] + rest.value) == done + [c] + rest.value; }
  }

  /** One turn of the scan. */
  lemma SpelledFrom(pattern: string, i: nat)
    requires i < |pattern|
    ensures var rest := Spelled(pattern[i..]);
            if pattern[i] == '\\' then
              if i + 1 == |pattern| then rest.None? else rest == Before(pattern[i + 1], Spelled(pattern[i + 2..]))
            else if pattern[i] == '_' || pattern[i] == '%' then rest.None?
            else rest == Before(pattern[i], Spelled(pattern[i + 1..]))
  {
    var from := pattern[i..];
    assert from[1..] == pattern[i + 1..];
    if pattern[i] == '\\' && i + 1 < |pattern| {
      assert from[1] == pattern[i + 1] && from[2..] == pattern[i + 2..];
    }
  }

  function Joined(done: string, rest: Option<string>): Option<string> {
    if rest.Some? then Some(done + rest.value) else None
  }

  /** unescapeGrantDatabase. A dangling backslash is refused as well, whatever
      it might have meant. */
  method UnescapeGrantDatabase(pattern: string) returns (name: string, literal: bool)
    ensures !Dangling(pattern) ==> (literal <==> exists only :: MatchesOnly(pattern, only))
    ensures literal ==> MatchesOnly(pattern, name)
    ensures Dangling(pattern) ==> !literal
    ensures !literal ==> name == ""
    ensures Spelled(pattern) == if literal then Some(name) else None
  {
    if Dangling(pattern) { DanglingSpellsNothing(pattern); } else { LiteralIff(pattern); }
    var out := "";
    var i := 0;
    assert pattern[0..] == pattern;
    if Spelled(pattern).Some? { assert "" + Spelled(pattern).value == Spelled(pattern).value; }
    while i < |pattern|
      invariant 0 <= i <= |pattern|
      invariant Spelled(pattern) == Joined(out, Spelled(pattern[i..]))
    {
      SpelledFrom(pattern, i);
      if pattern[i] == '\\' {
        if i + 1 >= |pattern| {
          return "", false;
        }
        i := i + 1;
      } else if pattern[i] == '_' || pattern[i] == '%' {
        return "", false;
      }
      SpelledBuilds(out, pattern[i], Spelled(pattern[i + 1..]));
      out := out + [pattern[i]];
      i := i + 1;
    }
    assert out + "" == out;
    return out, true;
  }

  // ---- Writing a pattern ----

  function GrantPattern(database: string): string {
    if database == "" then ""
    else (if database[0] == '_' then "\\_" else [database[0]]) + GrantPattern(database[1..])
  }

  /** Neither of the two characters grantPattern leaves with a meaning of
      their own. */
  predicate Writable(database: string) {
    '%' !in database && '\\' !in database
  }

  lemma {:induction false} PatternSpells(database: string)
    requires Writable(database)
    ensures Spelled(GrantPattern(database)) == Some(database)
  {
    if database != "" {
      PatternSpells(database[1..]);
      var head := if database[0] == '_' then "\\_" else [database[0]];
      assert GrantPattern(database)[|head|..] == GrantPattern(database[1..]);
      assert database == [database[0]] + database[1..];
    }
  }

  /** Every name is written with at least as many characters as are read back. */
  lemma {:induction false} ReadsNoMore(database: string)
    requires Spelled(GrantPattern(database)).Some?
    ensures |Spelled(GrantPattern(database)).value| <= |database|
  {
    if database != "" {
      var pattern, rest := GrantPattern(database), GrantPattern(database[1..]);
      if database[0] == '_' {
        assert pattern[2..] == rest;
        ReadsNoMore(database[1..]);
      } else {
        assert pattern[1..] == rest;
        if database[0] == '\\' {
          assert database[1..][1..] == database[2..];
          if database[1] != '_' {
            assert pattern[2..] == GrantPattern(database[2..]);
            ReadsNoMore(database[2..]);
          }
        } else {
          ReadsNoMore(database[1..]);
        }
      }
    }
  }

  lemma {:induction false} PatternReadsBack(database: string)
    requires Spelled(GrantPattern(database)) == Some(database)
    ensures Writable(database)
  {
    if database != "" {
      var pattern, rest := GrantPattern(database), GrantPattern(database[1..]);
      if database[0] == '\\' {
        assert pattern[1..] == rest && database[1..][1..] == database[2..];
        if database[1] != '_' {
          assert pattern[2..] == GrantPattern(database[2..]);
          ReadsNoMore(database[2..]);
        }
      } else {
        assert pattern[if database[0] == '_' then 2 else 1..] == rest;
        assert Spelled(pattern).value[1..] == database[1..];
        PatternReadsBack(database[1..]);
        assert database == [database[0]] + database[1..];
      }
    }
  }

  /** unescapeGrantDatabase undoes grantPattern on exactly the names without
      '%' and '\': the escape covers '_' alone. */
  lemma PatternRoundTripIff(database: string)
    ensures Spelled(GrantPattern(database)) == Some(database) <==> Writable(database)
  {
    if Writable(database) { PatternSpells(database); }
    if Spelled(GrantPattern(database)) == Some(database) { PatternReadsBack(database); }
  }

  /** A grant written for such a name covers that database and no other. */
  lemma PatternCoversOnlyItself(database: string)
    requires Writable(database)
    ensures !Dangling(GrantPattern(database))
    ensures MatchesOnly(GrantPattern(database), database)
  {
    PatternSpells(database);
    if Dangling(GrantPattern(database)) { DanglingSpellsNothing(GrantPattern(database)); }
    LiteralIff(GrantPattern(database));
  }

  /** The names UsableDatabaseName accepts (internal/granular/granular.go:532-548). */
  predicate UsableDatabaseName(database: string) {
    database != "" && database[0] != '-' && |database| <= 64 &&
    forall i | 0 <= i < |database| ::
      'a' <= database[i] <= 'z' || 'A' <= database[i] <= 'Z' || '0' <= database[i] <= '9' || database[i] in "_$"
  }

  /** Unescaped, a usable name that carries an underscore covers more. */
  lemma UsableNames(database: string)
    requires UsableDatabaseName(database)
    ensures Spelled(GrantPattern(database)) == Some(database)
    ensures MatchesOnly(GrantPattern(database), database)
    ensures MatchesOnly(database, database) <==> '_' !in database
  {
    assert Writable(database);
    PatternSpells(database);
    PatternCoversOnlyItself(database);
    UnescapedSpells(database);
    NotDangling(database);
    LiteralIff(database);
  }

  lemma {:induction false} NotDangling(database: string)
    requires '\\' !in database
    ensures !Dangling(database)
  {
    if database != "" { NotDangling(database[1..]); }
  }

  lemma {:induction false} UnescapedSpells(database: string)
    requires Writable(database)
    ensures Spelled(database) == if '_' in database then None else Some(database)
  {
    if database != "" {
      UnescapedSpells(database[1..]);
      assert database == [database[0]] + database[1..];
    }
  }
}
