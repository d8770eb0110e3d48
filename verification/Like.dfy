/** The LIKE predicate with an escape character, and the escaping of search terms. */
module Like {

  const ESCAPE: char := '\\'

  /** SQLite's LIKE ignores the case of ASCII letters only. */
  function Fold(c: char): char {
    if 'A' <= c <= 'Z' then (c as int + 32) as char else c
  }

  /** Characters fold alike when they are equal, or the two cases of one of the 26 letters. */
  lemma FoldAlike(a: char, b: char)
    ensures Fold(a) == Fold(b) <==>
            || a == b
            || ('A' <= a <= 'Z' && 'a' <= b <= 'z' && a as int - 'A' as int == b as int - 'a' as int)
            || ('A' <= b <= 'Z' && 'a' <= a <= 'z' && b as int - 'A' as int == a as int - 'a' as int)
  {
  }

  ghost predicate FoldEqual(s: string, t: string) {
    |s| == |t| && forall i :: 0 <= i < |s| ==> Fold(s[i]) == Fold(t[i])
  }

  /** Does s contain t, up to the case of ASCII letters? */
  ghost predicate ContainsFold(s: string, t: string) {
    exists i :: FoldOccursAt(s, t, i)
  }

  ghost predicate FoldOccursAt(s: string, t: string, i: int) {
    0 <= i && i + |t| <= |s| && FoldEqual(s[i..i + |t|], t)
  }

  /** `value LIKE pattern ESCAPE '\'`: section 8.5 of ISO/IEC 9075-2, with SQLite's case folding. */
  predicate LikeMatch(pattern: string, value: string)
    decreases |pattern| + |value|
  {
    if pattern == [] then value == []
    else if pattern[0] == '%' then
      LikeMatch(pattern[1..], value) || (value != [] && LikeMatch(pattern, value[1..]))
    else if pattern[0] == ESCAPE then
      |pattern| > 1 && value != [] && Fold(pattern[1]) == Fold(value[0]) && LikeMatch(pattern[2..], value[1..])
    else if pattern[0] == '_' then
      value != [] && LikeMatch(pattern[1..], value[1..])
    else
      value != [] && Fold(pattern[0]) == Fold(value[0]) && LikeMatch(pattern[1..], value[1..])
  }

  // ----- escaping -----

  /** `strings.ReplaceAll(s, c, repl)` for a single character c. */
  function ReplaceAll(s: string, c: char, repl: string): string {
    if s == [] then [] else (if s[0] == c then repl else [s[0]]) + ReplaceAll(s[1..], c, repl)
  }

  function EscapeLike(s: string): string {
    ReplaceAll(ReplaceAll(ReplaceAll(s, '\\', "\\\\"), '%', "\\%"), '_', "\\_")
  }

  /** The same in one pass over the characters. */
  function EscapeEach(s: string): string {
    if s == [] then []
    else (if s[0] == '%' || s[0] == '_' || s[0] == ESCAPE then [ESCAPE, s[0]] else [s[0]]) + EscapeEach(s[1..])
  }

  lemma {:induction false} ReplaceAllConcat(a: string, b: string, c: char, repl: string)
    ensures ReplaceAll(a + b, c, repl) == ReplaceAll(a, c, repl) + ReplaceAll(b, c, repl)
  {
    if a == [] {
      assert a + b == b;
    } else {
      assert (a + b)[1..] == a[1..] + b;
      ReplaceAllConcat(a[1..], b, c, repl);
    }
  }

  /** The three passes do not disturb one another. */
  lemma {:induction false} EscapeLikeIsOnePass(s: string)
    ensures EscapeLike(s) == EscapeEach(s)
  {
    if s != [] {
      EscapeLikeIsOnePass(s[1..]);
      var head := [s[0]];
      assert s == head + s[1..];
      var h1, r1 := ReplaceAll(head, '\\', "\\\\"), ReplaceAll(s[1..], '\\', "\\\\");
      ReplaceAllConcat(head, s[1..], '\\', "\\\\");
      var h2, r2 := ReplaceAll(h1, '%', "\\%"), ReplaceAll(r1, '%', "\\%");
      ReplaceAllConcat(h1, r1, '%', "\\%");
      ReplaceAllConcat(h2, r2, '_', "\\_");
      assert EscapeLike(s) == ReplaceAll(h2, '_', "\\_") + EscapeEach(s[1..]);
      EscapeOneCharacter(s[0]);
    }
  }

  lemma EscapeOneCharacter(c: char)
    ensures EscapeLike([c]) == EscapeEach([c])
  {
    ReplaceOne(c, '\\', "\\\\");
    ReplaceOne(c, '%', "\\%");
    ReplaceOne(c, '_', "\\_");
    Untouched("\\\\", '%', "\\%");
    Untouched("\\\\", '_', "\\_");
    Untouched("\\%", '_', "\\_");
    assert [c][1..] == [] && EscapeEach([]) == [];
  }

  lemma ReplaceOne(x: char, c: char, repl: string)
    ensures ReplaceAll([x], c, repl) == if x == c then repl else [x]
  {
  }

  lemma {:induction false} Untouched(s: string, c: char, repl: string)
    requires c !in s
    ensures ReplaceAll(s, c, repl) == s
  {
    if s != [] {
      Untouched(s[1..], c, repl);
    }
  }

  // ----- matching an escaped pattern -----

  lemma {:induction false} PercentMatchesAll(value: string)
    ensures LikeMatch("%", value)
  {
    if value == [] {
      assert LikeMatch([], value);
    } else {
      PercentMatchesAll(value[1..]);
    }
  }

  /** A leading % looks for the rest of the pattern at every position. */
  lemma {:induction false} PercentSearches(rest: string, value: string)
    ensures LikeMatch("%" + rest, value) <==> exists i :: 0 <= i <= |value| && LikeMatch(rest, value[i..])
    decreases |value|
  {
    var p := "%" + rest;
    assert p[1..] == rest;
    assert value[0..] == value;
    if value != [] {
      PercentSearches(rest, value[1..]);
      forall i | 0 <= i <= |value[1..]|
        ensures value[1..][i..] == value[i + 1..]
      {
      }
      forall i | 0 < i <= |value|
        ensures value[1..][i - 1..] == value[i..]
      {
      }
    }
  }

  /** An escaped term followed by % matches the values that begin with the term. */
  lemma {:induction false} EscapedPrefix(t: string, value: string)
    ensures LikeMatch(EscapeEach(t) + "%", value) <==> |t| <= |value| && FoldEqual(value[..|t|], t)
  {
    var p := EscapeEach(t) + "%";
    if t == [] {
      assert p == "%";
      PercentMatchesAll(value);
    } else {
      var rest := EscapeEach(t[1..]) + "%";
      if t[0] == '%' || t[0] == '_' || t[0] == ESCAPE {
        assert p == [ESCAPE, t[0]] + rest;
        assert p[2..] == rest;
      } else {
        assert p == [t[0]] + rest;
        assert p[1..] == rest;
      }
      if value != [] {
        EscapedPrefix(t[1..], value[1..]);
        if |t| <= |value| {
          FoldEqualUnrolls(value[..|t|], t);
          assert value[..|t|][1..] == value[1..][..|t| - 1];
        }
      }
    }
  }

  lemma FoldEqualUnrolls(s: string, t: string)
    requires s != [] && t != []
    ensures FoldEqual(s, t) <==> Fold(s[0]) == Fold(t[0]) && FoldEqual(s[1..], t[1..])
  {
  }

  /** Escaping is exact: the pattern of a search term matches precisely the values that contain
      the term literally, whatever metacharacters the term has. */
  lemma EscapingIsExact(t: string, value: string)
    ensures LikeMatch("%" + EscapeLike(t) + "%", value) <==> ContainsFold(value, t)
  {
    EscapeLikeIsOnePass(t);
    var rest := EscapeEach(t) + "%";
    assert "%" + EscapeLike(t) + "%" == "%" + rest;
    PercentSearches(rest, value);
    forall i | 0 <= i <= |value|
      ensures LikeMatch(rest, value[i..]) <==> FoldOccursAt(value, t, i)
    {
      EscapedPrefix(t, value[i..]);
      if i + |t| <= |value| {
        assert value[i..][..|t|] == value[i..i + |t|];
      }
    }
  }
}
