/** SQL `LIKE` pattern matching, as the list endpoints' `ilike` searches use
    it: `%` matches any run of characters, `_` exactly one, every other
    character itself. `ilike` lower-cases both sides first. No escape
    character is configured, so a search term's own `%` and `_` act as
    wildcards. */
module Like {
  import Text

  predicate IsWildcard(c: char) {
    c == '%' || c == '_'
  }

  predicate NoWildcards(s: string) {
    forall i :: 0 <= i < |s| ==> !IsWildcard(s[i])
  }

  /** `s LIKE p`. */
  predicate Match(p: string, s: string)
    decreases |p| + |s|
  {
    if |p| == 0 then |s| == 0
    else if p[0] == '%' then Match(p[1..], s) || (|s| > 0 && Match(p, s[1..]))
    else if p[0] == '_' then |s| > 0 && Match(p[1..], s[1..])
    else |s| > 0 && s[0] == p[0] && Match(p[1..], s[1..])
  }

  /** `column ILIKE '%term%'`. */
  predicate ContainsIgnoringCase(term: string, s: string) {
    Match(Text.Lower("%" + term + "%"), Text.Lower(s))
  }

  lemma {:induction false} PercentMatchesAll(s: string)
    ensures Match("%", s)
    decreases |s|
  {
    if |s| > 0 {
      PercentMatchesAll(s[1..]);
    }
  }

  /** A literal pattern followed by `%` matches exactly the strings it
      starts. */
  lemma {:induction false} LiteralThenPercent(t: string, s: string)
    requires NoWildcards(t)
    ensures Match(t + "%", s) <==> Text.IsPrefix(t, s)
    decreases |t|
  {
    if |t| == 0 {
      assert t + "%" == "%";
      PercentMatchesAll(s);
    } else {
      assert (t + "%")[1..] == t[1..] + "%";
      if |s| > 0 && s[0] == t[0] {
        LiteralThenPercent(t[1..], s[1..]);
        assert Text.IsPrefix(t, s) <==> Text.IsPrefix(t[1..], s[1..]) by {
          if |t| <= |s| {
            assert s[..|t|] == [s[0]] + s[1..][..|t| - 1];
            assert t == [t[0]] + t[1..];
          }
        }
      } else if |s| > 0 {
        assert !Text.IsPrefix(t, s) by {
          if |t| <= |s| { assert s[..|t|][0] != t[0]; }
        }
      }
    }
  }

  /** `%t%` matches exactly the strings that contain `t`, when `t` has no
      wildcard. */
  lemma {:induction false} SurroundedLiteral(t: string, s: string)
    requires NoWildcards(t)
    ensures Match("%" + t + "%", s) <==> Text.IsInfix(t, s)
    decreases |s|
  {
    var p := "%" + t + "%";
    assert p[1..] == t + "%";
    LiteralThenPercent(t, s);
    if |s| > 0 {
      SurroundedLiteral(t, s[1..]);
    }
  }

  /** For a search term free of `%` and `_`, `ilike '%term%'` is a
      case-insensitive substring test. */
  lemma ContainsIgnoringCaseIsInfix(term: string, s: string)
    requires NoWildcards(term)
    ensures ContainsIgnoringCase(term, s) <==> Text.IsInfix(Text.Lower(term), Text.Lower(s))
  {
    var lowered := Text.Lower("%" + term + "%");
    assert lowered == "%" + Text.Lower(term) + "%";
    assert NoWildcards(Text.Lower(term));
    SurroundedLiteral(Text.Lower(term), Text.Lower(s));
  }

  /** A term's own `_` is a wildcard: `a_c` finds `abc`, which does not
      contain `a_c`. */
  lemma UnderscoreIsWildcard()
    ensures ContainsIgnoringCase("a_c", "abc")
    ensures !Text.IsInfix("a_c", "abc")
  {
    assert "%" + "a_c" + "%" == "%a_c%";
    assert Text.Lower("%a_c%") == "%a_c%";
    assert Text.Lower("abc") == "abc";
    assert "%a_c%"[1..] == "a_c%" && "a_c%"[1..] == "_c%" && "_c%"[1..] == "c%";
    assert "c%"[1..] == "%" && "%"[1..] == "";
    assert "abc"[1..] == "bc" && "bc"[1..] == "c" && "c"[1..] == "";
    assert Match("%", "");
    assert Match("c%", "c");
    assert Match("_c%", "bc");
    assert Match("a_c%", "abc");
    assert Match("%a_c%", "abc");
    assert !Text.IsPrefix("a_c", "abc") by {
      assert "abc"[1] != "a_c"[1];
    }
    assert !Text.IsInfix("a_c", "bc");
  }
}
