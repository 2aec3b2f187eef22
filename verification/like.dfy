/** The meaning of SQLite's `LIKE` without an ESCAPE clause: `%` matches any
    run of characters, `_` matches one character, and letters compare
    without regard to ASCII case. Used to state what the patterns built for
    `begins`, `contains` and `ends`, and the materialized-path join
    `c.mp_path like c_selected.mp_path || '%'`, select. */
module Like {

  function LowerChar(c: char): char {
    if 'A' <= c <= 'Z' then ((c as int) + 32) as char else c
  }

  predicate SameFolded(a: char, b: char) {
    LowerChar(a) == LowerChar(b)
  }

  /** Text that contains neither LIKE wildcard. */
  predicate WildcardFree(s: string) {
    '%' !in s && '_' !in s
  }

  /** `s` starts with `p`, ignoring ASCII case. */
  predicate CiPrefix(p: string, s: string) {
    |p| <= |s| && forall i :: 0 <= i < |p| ==> SameFolded(p[i], s[i])
  }

  predicate CiEqual(a: string, b: string) {
    |a| == |b| && CiPrefix(a, b)
  }

  /** `p` occurs somewhere in `s`, ignoring ASCII case. */
  predicate CiContains(p: string, s: string) {
    exists k :: 0 <= k <= |s| && CiPrefix(p, s[k..])
  }

  /** `s` ends with `p`, ignoring ASCII case. */
  predicate CiSuffix(p: string, s: string) {
    |p| <= |s| && CiEqual(p, s[|s| - |p|..])
  }

  /** `s LIKE p`. */
  predicate LikeMatch(s: string, p: string)
    decreases |s| + |p|
  {
    if |p| == 0 then |s| == 0
    else if p[0] == '%' then LikeMatch(s, p[1..]) || (|s| > 0 && LikeMatch(s[1..], p))
    else |s| > 0 && (p[0] == '_' || SameFolded(s[0], p[0])) && LikeMatch(s[1..], p[1..])
  }

  lemma {:induction false} CiPrefixCons(p: string, s: string)
    requires |p| > 0
    ensures CiPrefix(p, s) <==> |s| > 0 && SameFolded(p[0], s[0]) && CiPrefix(p[1..], s[1..])
  {
    if |s| > 0 && SameFolded(p[0], s[0]) && CiPrefix(p[1..], s[1..]) {
      forall i | 0 <= i < |p| ensures SameFolded(p[i], s[i]) {
        if i > 0 {
          assert p[1..][i - 1] == p[i] && s[1..][i - 1] == s[i];
        }
      }
    }
  }

  lemma {:induction false} PercentMatchesAll(s: string)
    ensures LikeMatch(s, "%")
    decreases |s|
  {
    if |s| > 0 {
      PercentMatchesAll(s[1..]);
    }
  }

  /** A pattern without wildcards matches exactly the strings equal to it up
      to case. */
  lemma {:induction false} LiteralMatch(s: string, v: string)
    requires WildcardFree(v)
    ensures LikeMatch(s, v) <==> CiEqual(v, s)
    decreases |v|
  {
    if |v| > 0 {
      assert v[0] in v;
      assert WildcardFree(v[1..]) by {
        forall i | 0 <= i < |v[1..]| ensures v[1..][i] == v[i + 1] {}
      }
      if |s| > 0 {
        LiteralMatch(s[1..], v[1..]);
      }
      CiPrefixCons(v, s);
    }
  }

  /** The `begins` pattern `v%` matches exactly the strings that start with `v`. */
  lemma {:induction false} PrefixMatch(s: string, v: string)
    requires WildcardFree(v)
    ensures LikeMatch(s, v + "%") <==> CiPrefix(v, s)
    decreases |v|
  {
    if |v| == 0 {
      assert v + "%" == "%";
      PercentMatchesAll(s);
    } else {
      var p := v + "%";
      assert p[0] == v[0] && v[0] in v;
      assert p[1..] == v[1..] + "%";
      assert WildcardFree(v[1..]) by {
        forall i | 0 <= i < |v[1..]| ensures v[1..][i] == v[i + 1] {}
      }
      if |s| > 0 {
        PrefixMatch(s[1..], v[1..]);
      }
      CiPrefixCons(v, s);
    }
  }

  /** A leading `%` lets the rest of the pattern start at any position. */
  lemma {:induction false} LeadingPercent(s: string, q: string)
    ensures LikeMatch(s, "%" + q) <==> exists k :: 0 <= k <= |s| && LikeMatch(s[k..], q)
    decreases |s|
  {
    var p := "%" + q;
    assert p[1..] == q;
    assert s[0..] == s;
    if |s| == 0 {
      assert LikeMatch(s, p) <==> LikeMatch(s, q);
    } else {
      LeadingPercent(s[1..], q);
      if LikeMatch(s, p) {
        if !LikeMatch(s, q) {
          assert LikeMatch(s[1..], p);
          var k :| 0 <= k <= |s[1..]| && LikeMatch(s[1..][k..], q);
          assert s[1..][k..] == s[k + 1..];
        }
      }
      if exists k :: 0 <= k <= |s| && LikeMatch(s[k..], q) {
        var k :| 0 <= k <= |s| && LikeMatch(s[k..], q);
        if k > 0 {
          assert s[1..][k - 1..] == s[k..];
          assert LikeMatch(s[1..], p);
        }
      }
    }
  }

  /** The `contains` pattern `%v%` matches exactly the strings containing `v`. */
  lemma {:induction false} ContainsMatch(s: string, v: string)
    requires WildcardFree(v)
    ensures LikeMatch(s, "%" + v + "%") <==> CiContains(v, s)
  {
    assert "%" + v + "%" == "%" + (v + "%");
    LeadingPercent(s, v + "%");
    forall k | 0 <= k <= |s|
      ensures LikeMatch(s[k..], v + "%") <==> CiPrefix(v, s[k..])
    {
      PrefixMatch(s[k..], v);
    }
  }

  /** The `ends` pattern `%v` matches exactly the strings that end with `v`. */
  lemma {:induction false} SuffixMatch(s: string, v: string)
    requires WildcardFree(v)
    ensures LikeMatch(s, "%" + v) <==> CiSuffix(v, s)
  {
    LeadingPercent(s, v);
    forall k | 0 <= k <= |s|
      ensures LikeMatch(s[k..], v) <==> CiEqual(v, s[k..])
    {
      LiteralMatch(s[k..], v);
    }
    if CiSuffix(v, s) {
      assert LikeMatch(s[|s| - |v|..], v);
    }
  }

  /** A materialized path lies under itself: `p LIKE p || '%'` holds for
      every path, wildcards included (`_` matches itself, and a `%` in the
      path can consume its own copy). */
  lemma {:induction false} PathUnderItself(path: string)
    ensures LikeMatch(path, path + "%")
    decreases |path|
  {
    if |path| == 0 {
      assert path + "%" == "%";
      PercentMatchesAll(path);
    } else {
      var t := path[1..];
      PathUnderItself(t);
      assert (path + "%")[1..] == t + "%";
      if path[0] == '%' {
        assert LikeMatch(t, path + "%");
      }
    }
  }

  /** `_` stands for any one character: "a_%" matches "abc", which does
      not start with "a_". */
  lemma {:induction false} UnderscoreWidensPrefix()
    ensures LikeMatch("abc", "a_" + "%")
    ensures !CiPrefix("a_", "abc")
  {
    assert ("a_" + "%")[1..] == "_%";
    assert "abc"[1..] == "bc";
    assert "_%"[1..] == "%";
    assert "bc"[1..] == "c";
    PercentMatchesAll("c");
    assert "a_"[1] == '_' && "abc"[1] == 'b';
    assert LowerChar('_') == '_' && LowerChar('b') == 'b';
    assert !SameFolded("a_"[1], "abc"[1]);
  }
}
