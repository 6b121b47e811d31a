/** SQL `LIKE` with no escape character: `%` matches any run of characters,
    `_` matches exactly one, every other character matches itself. A
    database whose default escape is the backslash treats `\` differently. */
module SqlLike {
  import opened Strings

  /** `s LIKE pat`. */
  predicate Like(s: string, pat: string)
    decreases |pat|, |s|
  {
    if pat == [] then s == []
    else if pat[0] == '%' then Like(s, pat[1..]) || (s != [] && Like(s[1..], pat))
    else s != [] && (pat[0] == '_' || pat[0] == s[0]) && Like(s[1..], pat[1..])
  }

  /** `t` holds neither wildcard, so as a pattern it matches only itself. */
  predicate NoWildcards(t: string) {
    forall i :: 0 <= i < |t| ==> t[i] != '%' && t[i] != '_'
  }

  /** The pattern `CONCAT('%', t, '%')`. */
  function Surround(t: string): string {
    ['%'] + t + ['%']
  }

  /** A lone `%` matches every string. */
  lemma {:induction false} LikeAnything(s: string)
    ensures Like(s, ['%'])
    decreases |s|
  {
    if s != [] {
      LikeAnything(s[1..]);
    }
  }

  /** A leading `%` lets the rest of the pattern match any suffix. */
  lemma {:induction false} LikeLeadingPercent(s: string, q: string)
    ensures Like(s, ['%'] + q) <==> exists k :: 0 <= k <= |s| && Like(s[k..], q)
    decreases |s|
  {
    var pat := ['%'] + q;
    assert pat[1..] == q;
    assert s[0..] == s;
    if s != [] {
      LikeLeadingPercent(s[1..], q);
      if Like(s[1..], pat) {
        var k :| 0 <= k <= |s[1..]| && Like(s[1..][k..], q);
        assert s[1..][k..] == s[k + 1..];
      }
      if k :| 0 <= k <= |s| && Like(s[k..], q) {
        if k > 0 {
          assert s[k..] == s[1..][k - 1..];
        }
      }
    }
  }

  /** A literal followed by `%` matches exactly the strings it starts. */
  lemma {:induction false} LikeLiteralPrefix(s: string, t: string)
    requires NoWildcards(t)
    ensures Like(s, t + ['%']) <==> IsPrefix(t, s)
    decreases |t|
  {
    if t == [] {
      assert t + ['%'] == ['%'];
      LikeAnything(s);
    } else {
      var pat := t + ['%'];
      assert pat[0] == t[0] && pat[1..] == t[1..] + ['%'];
      assert NoWildcards(t[1..]) by {
        forall i | 0 <= i < |t[1..]| ensures t[1..][i] != '%' && t[1..][i] != '_' {
          assert t[1..][i] == t[i + 1];
        }
      }
      if s != [] {
        LikeLiteralPrefix(s[1..], t[1..]);
        if IsPrefix(t, s) {
          assert s[1..][..|t[1..]|] == s[..|t|][1..];
        }
        if IsPrefix(t[1..], s[1..]) && t[0] == s[0] {
          assert s[..|t|] == [s[0]] + s[1..][..|t[1..]|];
        }
      }
    }
  }

  /** Without wildcards in the term, `s LIKE CONCAT('%', t, '%')` is `s.contains(t)`. */
  lemma LikeContains(s: string, t: string)
    requires NoWildcards(t)
    ensures Like(s, Surround(t)) <==> Contains(s, t)
  {
    assert Surround(t) == ['%'] + (t + ['%']);
    LikeLeadingPercent(s, t + ['%']);
    ContainsAt(s, t);
    forall k | 0 <= k <= |s| ensures Like(s[k..], t + ['%']) <==> IsPrefix(t, s[k..]) {
      LikeLiteralPrefix(s[k..], t);
    }
  }

  /** `LOWER(CONCAT('%', t, '%'))` is the pattern of the lowered term, and
      lowering neither adds nor removes wildcards. */
  lemma LowerSurround(t: string)
    ensures ToLower(Surround(t)) == Surround(ToLower(t))
    ensures NoWildcards(t) <==> NoWildcards(ToLower(t))
  {
    assert forall i :: 0 <= i < |t| ==> ToLower(t)[i] == LowerChar(t[i]);
  }

  /** An `_` in the term matches any character: the name "abc" matches the
      pattern built from the term "a_c", which it does not contain. */
  lemma UnderscoreMatchesAnyChar()
    ensures Like("abc", Surround("a_c")) && !Contains("abc", "a_c")
  {
    assert Surround("a_c") == "%a_c%";
    assert "%a_c%"[1..] == "a_c%";
    assert "a_c%"[1..] == "_c%";
    assert "_c%"[1..] == "c%";
    assert "c%"[1..] == "%";
    assert "abc"[1..] == "bc";
    assert "bc"[1..] == "c";
    assert "c"[1..] == [];
    LikeAnything([]);
    assert Like("c", "c%");
    assert Like("bc", "_c%");
    assert Like("abc", "a_c%");
    ContainsAt("abc", "a_c");
    forall k | 0 <= k <= 3 ensures !IsPrefix("a_c", "abc"[k..]) {
      if k == 0 {
        assert "abc"[0..][1] == 'b';
      }
    }
  }

  /** A term that is just `%` matches every name. */
  lemma PercentTermMatchesAll(s: string)
    ensures Like(s, Surround("%"))
  {
    assert Surround("%") == ['%'] + "%%";
    assert "%%"[1..] == ['%'];
    LikeAnything(s);
    LikeLeadingPercent(s, "%%");
    assert s[0..] == s;
  }
}
