/** `quoteIdentifier`: the only way a client-supplied field name reaches SQL
    text. The name is cut at its first NUL, wrapped in double quotes, and
    every double quote inside it is doubled. */
module Identifier {
  import opened Common

  const Nul: char := '\0'
  const Quote: char := '"'

  /** `strings.IndexRune`: the first position of `c` in `s`, or -1. */
  function IndexRune(s: string, c: char): (i: int)
    ensures -1 <= i < |s|
    ensures i == -1 <==> c !in s
    ensures i >= 0 ==> s[i] == c && c !in s[..i]
  {
    if |s| == 0 then -1
    else if s[0] == c then 0
    else
      var j := IndexRune(s[1..], c);
      assert s[1..][..j + 1] == s[1..j + 2];
      if j == -1 then -1 else j + 1
  }

  /** The part of the name before its first NUL (all of it if there is none). */
  function CutAtNul(name: string): (t: string)
    ensures Nul !in t
    ensures t <= name
    ensures Nul !in name ==> t == name
    ensures Nul in name ==> |t| < |name| && name[|t|] == Nul
  {
    var end := IndexRune(name, Nul);
    if end > -1 then name[..end] else name
  }

  /** `strings.Replace(s, "\"", "\"\"", -1)`. */
  function Escape(s: string): (r: string)
    ensures |r| == |s| + multiset(s)[Quote]
    ensures Nul in r <==> Nul in s
  {
    if |s| == 0 then []
    else
      assert s == [s[0]] + s[1..];
      (if s[0] == Quote then [Quote, Quote] else [s[0]]) + Escape(s[1..])
  }

  function QuoteIdentifier(name: string): string {
    [Quote] + Escape(CutAtNul(name)) + [Quote]
  }

  /** The result is always quoted at both ends, never contains NUL, and for
      a NUL-free name is exactly one character longer per quote it holds. */
  lemma {:induction false} QuoteIdentifierShape(name: string)
    ensures var r := QuoteIdentifier(name);
            |r| >= 2 && r[0] == Quote && r[|r| - 1] == Quote && Nul !in r
    ensures Nul !in name ==> |QuoteIdentifier(name)| == 2 + |name| + multiset(name)[Quote]
  {
  }

  /** Reading a quoted identifier's body back: `""` stands for one quote,
      and a lone quote means the body was not produced by `Escape`. */
  function Unescape(s: string): Option<string>
    decreases |s|
  {
    if |s| == 0 then Some([])
    else if s[0] == Quote then
      if |s| >= 2 && s[1] == Quote then
        match Unescape(s[2..])
        case Some(t) => Some([Quote] + t)
        case None => None
      else None
    else
      match Unescape(s[1..])
      case Some(t) => Some([s[0]] + t)
      case None => None
  }

  function Unquote(q: string): Option<string> {
    if |q| >= 2 && q[0] == Quote && q[|q| - 1] == Quote then Unescape(q[1..|q| - 1]) else None
  }

  lemma {:induction false} UnescapeEscape(s: string)
    ensures Unescape(Escape(s)) == Some(s)
    decreases |s|
  {
    if |s| > 0 {
      var tail := Escape(s[1..]);
      UnescapeEscape(s[1..]);
      assert s == [s[0]] + s[1..];
      if s[0] == Quote {
        var e := [Quote, Quote] + tail;
        assert Escape(s) == e;
        assert e[2..] == tail;
      } else {
        var e := [s[0]] + tail;
        assert Escape(s) == e;
        assert e[1..] == tail;
      }
    }
  }

  /** Stripping the outer quotes and collapsing each doubled quote gives
      back the name up to its first NUL; in particular a NUL-free name comes
      back exactly. */
  lemma {:induction false} QuoteRoundTrip(name: string)
    ensures Unquote(QuoteIdentifier(name)) == Some(CutAtNul(name))
    ensures Nul !in name ==> Unquote(QuoteIdentifier(name)) == Some(name)
  {
    var q := QuoteIdentifier(name);
    assert q[1..|q| - 1] == Escape(CutAtNul(name));
    UnescapeEscape(CutAtNul(name));
  }

  /** Distinct NUL-free names never collide once quoted. */
  lemma {:induction false} QuoteInjective(a: string, b: string)
    requires Nul !in a && Nul !in b
    requires QuoteIdentifier(a) == QuoteIdentifier(b)
    ensures a == b
  {
    QuoteRoundTrip(a);
    QuoteRoundTrip(b);
  }

  /** Whatever follows the first NUL has no influence on the result. */
  lemma {:induction false} QuoteIgnoresAfterNul(prefix: string, rest: string)
    requires Nul !in prefix
    ensures QuoteIdentifier(prefix + [Nul] + rest) == QuoteIdentifier(prefix)
  {
    var name := prefix + [Nul] + rest;
    assert name[|prefix|] == Nul;
    var t := CutAtNul(name);
    assert t == prefix;
  }
}
