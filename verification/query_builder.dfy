/** `applyQueryWhere` and `applyQueryOrderBy` (internal/app/storage/sqlitedb/utils.go):
    a client's filter groups and sort specs become WHERE clauses and ORDER BY
    terms in which the only SQL text is the quoted field name; every value
    is a bound argument. */
module QueryBuilder {
  import opened Common
  import opened Decimal
  import opened Sql
  import opened Identifier
  import opened Like

  /** One comparison of a filter group (`model.QueryWhere`). */
  datatype QueryWhere = QueryWhere(field: string, operator: string, value: Value)

  /** One sort key (`model.QueryOrderBy`). */
  datatype QueryOrderBy = QueryOrderBy(field: string, desc: bool)

  /** The operators the translator recognises; any other is dropped. */
  const Operators: set<string> := {"=", "is", ">", "<", ">=", "<=", "begins", "contains", "ends", "between"}

  /** The operators that become a plain comparison with the value bound as is. */
  const ComparisonOps: map<string, CmpOp> := map["=" := Eq, "is" := Eq, ">" := Gt, "<" := Lt, ">=" := Ge, "<=" := Le]

  function JoinSpaced(parts: seq<string>): string {
    if |parts| == 0 then ""
    else if |parts| == 1 then parts[0]
    else parts[0] + " " + JoinSpaced(parts[1..])
  }

  /** `fmt.Sprintf("%v", v)` for the values a decoded request can carry. */
  function Show(v: Value): string
    decreases v
  {
    match v
    case VStr(s) => s
    case VInt(i) => Itoa(i)
    case VBool(b) => if b then "true" else "false"
    case VNull => "<nil>"
    case VList(items) => "[" + JoinSpaced(seq(|items|, k requires 0 <= k < |items| => Show(items[k]))) + "]"
  }

  /** The `w.Value.([]any)` assertion with `len(values) == 2`. */
  predicate IsPair(v: Value) {
    v.VList? && |v.items| == 2
  }

  /** One comparison's fragment, or None when it is dropped. */
  function Translate(w: QueryWhere): Option<Cond> {
    var f := QuoteIdentifier(w.field);
    var op := w.operator;
    if op == "=" || op == "is" then Some(Compare(Eq, f, w.value))
    else if op == ">" then Some(Compare(Gt, f, w.value))
    else if op == "<" then Some(Compare(Lt, f, w.value))
    else if op == ">=" then Some(Compare(Ge, f, w.value))
    else if op == "<=" then Some(Compare(Le, f, w.value))
    else if op == "begins" then Some(Like(f, Show(w.value) + "%"))
    else if op == "contains" then Some(Like(f, "%" + Show(w.value) + "%"))
    else if op == "ends" then Some(Like(f, "%" + Show(w.value)))
    else if op == "between" then
      if w.value.VList? && |w.value.items| == 2 then Some(Between(f, w.value.items[0], w.value.items[1])) else None
    else None
  }

  /** A comparison survives iff its operator is recognised (and, for
      `between`, its value is a pair); a surviving fragment is a single
      atom whose only SQL text is the quoted field. */
  lemma {:induction false} TranslateSurvives(w: QueryWhere)
    ensures Translate(w).Some? <==> w.operator in Operators && (w.operator == "between" ==> IsPair(w.value))
  {
    var op := w.operator;
    if op !in Operators {
      assert op != "=" && op != "is" && op != ">" && op != "<" && op != ">=" && op != "<=";
      assert op != "begins" && op != "contains" && op != "ends" && op != "between";
    }
  }

  lemma {:induction false} TranslateShape(w: QueryWhere)
    ensures Translate(w).Some? ==> (Translate(w).value.Compare? || Translate(w).value.Like? || Translate(w).value.Between?)
                                   && Translate(w).value.subject == QuoteIdentifier(w.field)
  {
  }

  /** The comparison operators bind the value as is; `begins`, `contains`
      and `ends` bind the value's text with `%` after, around or before it;
      `between` binds the two elements of its pair. */
  lemma {:induction false} TranslateBindsValue(w: QueryWhere)
    ensures w.operator in ComparisonOps ==>
              Translate(w) == Some(Compare(ComparisonOps[w.operator], QuoteIdentifier(w.field), w.value))
    ensures w.operator == "begins" ==> Translate(w) == Some(Like(QuoteIdentifier(w.field), Show(w.value) + "%"))
    ensures w.operator == "contains" ==> Translate(w) == Some(Like(QuoteIdentifier(w.field), "%" + Show(w.value) + "%"))
    ensures w.operator == "ends" ==> Translate(w) == Some(Like(QuoteIdentifier(w.field), "%" + Show(w.value)))
    ensures w.operator == "between" && IsPair(w.value) ==>
              Translate(w) == Some(Between(QuoteIdentifier(w.field), w.value.items[0], w.value.items[1]))
  {
    var op := w.operator;
    if op in ComparisonOps {
      assert op == "=" || op == "is" || op == ">" || op == "<" || op == ">=" || op == "<=";
    }
  }

  /** `begins` selects exactly the rows whose field starts with the value's text. */
  lemma {:induction false} BeginsMeansPrefix(w: QueryWhere, s: string)
    requires w.operator == "begins" && WildcardFree(Show(w.value))
    ensures Translate(w).Some? && Translate(w).value.Like?
    ensures LikeMatch(s, Translate(w).value.pattern) <==> CiPrefix(Show(w.value), s)
  {
    PrefixMatch(s, Show(w.value));
  }

  /** `contains` selects exactly the rows whose field contains the value's text. */
  lemma {:induction false} ContainsMeansSubstring(w: QueryWhere, s: string)
    requires w.operator == "contains" && WildcardFree(Show(w.value))
    ensures Translate(w).Some? && Translate(w).value.Like?
    ensures LikeMatch(s, Translate(w).value.pattern) <==> CiContains(Show(w.value), s)
  {
    ContainsMatch(s, Show(w.value));
  }

  /** `ends` selects exactly the rows whose field ends with the value's text. */
  lemma {:induction false} EndsMeansSuffix(w: QueryWhere, s: string)
    requires w.operator == "ends" && WildcardFree(Show(w.value))
    ensures Translate(w).Some? && Translate(w).value.Like?
    ensures LikeMatch(s, Translate(w).value.pattern) <==> CiSuffix(Show(w.value), s)
  {
    SuffixMatch(s, Show(w.value));
  }

  /** Wildcards in a value are not escaped: a `begins` filter on "a_"
      admits "abc", which does not start with "a_". */
  lemma {:induction false} UnescapedWildcardWidens()
    ensures var w := QueryWhere("name", "begins", VStr("a_"));
            && Translate(w).Some? && Translate(w).value.Like?
            && Translate(w).value.pattern == "a_" + "%"
            && LikeMatch("abc", Translate(w).value.pattern)
            && !CiPrefix(Show(w.value), "abc")
  {
    var w := QueryWhere("name", "begins", VStr("a_"));
    TranslateBindsValue(w);
    assert Show(w.value) == "a_";
    UnderscoreWidensPrefix();
  }

  /** The surviving fragments of one group, in input order. */
  function GroupFragments(g: seq<QueryWhere>): seq<Cond> {
    if |g| == 0 then []
    else
      match Translate(g[0])
      case Some(c) => [c] + GroupFragments(g[1..])
      case None => GroupFragments(g[1..])
  }

  /** Every fragment comes from a comparison of the group, and every
      surviving comparison contributes its fragment. */
  lemma {:induction false} GroupFragmentsMembers(g: seq<QueryWhere>)
    ensures |GroupFragments(g)| <= |g|
    ensures forall c :: c in GroupFragments(g) ==> exists w :: w in g && Translate(w) == Some(c)
    ensures forall w :: w in g && Translate(w).Some? ==> Translate(w).value in GroupFragments(g)
    decreases |g|
  {
    if |g| > 0 {
      var rest := g[1..];
      GroupFragmentsMembers(rest);
      forall c | c in GroupFragments(g)
        ensures exists w :: w in g && Translate(w) == Some(c)
      {
        if c in GroupFragments(rest) {
          var w :| w in rest && Translate(w) == Some(c);
          assert w in g;
        } else {
          assert Translate(g[0]) == Some(c) && g[0] in g;
        }
      }
      forall w | w in g && Translate(w).Some?
        ensures Translate(w).value in GroupFragments(g)
      {
        if w != g[0] {
          assert w in rest;
        }
      }
    }
  }

  /** Fragments keep the order of their comparisons. */
  lemma {:induction false} GroupFragmentsAppend(a: seq<QueryWhere>, b: seq<QueryWhere>)
    ensures GroupFragments(a + b) == GroupFragments(a) + GroupFragments(b)
    decreases |a|
  {
    if |a| > 0 {
      assert (a + b)[1..] == a[1..] + b;
      GroupFragmentsAppend(a[1..], b);
    } else {
      assert a + b == b;
    }
  }

  lemma {:induction false} GroupFragmentsSnoc(g: seq<QueryWhere>, i: int)
    requires 0 <= i < |g|
    ensures GroupFragments(g[..i + 1]) ==
            GroupFragments(g[..i]) + (if Translate(g[i]).Some? then [Translate(g[i]).value] else [])
  {
    PrefixSnoc(g, i);
    GroupFragmentsAppend(g[..i], [g[i]]);
    assert [g[i]][1..] == [];
  }

  /** The WHERE clauses added for the groups: one OR per group. */
  function GroupClauses(qw: seq<seq<QueryWhere>>): seq<Cond> {
    seq(|qw|, i requires 0 <= i < |qw| => Or(GroupFragments(qw[i])))
  }

  /** The inner loop of `applyQueryWhere`: one group's fragments. */
  method BuildGroup(g: seq<QueryWhere>) returns (og: seq<Cond>)
    ensures og == GroupFragments(g)
  {
    og := [];
    var wi := 0;
    while wi < |g|
      invariant 0 <= wi <= |g|
      invariant og == GroupFragments(g[..wi])
    {
      GroupFragmentsSnoc(g, wi);
      match Translate(g[wi]) {
        case Some(c) => og := og + [c];
        case None =>
      }
      wi := wi + 1;
    }
    assert g[..|g|] == g;
  }

  method ApplyQueryWhere(sb: Select, qw: seq<seq<QueryWhere>>) returns (r: Select)
    ensures r.extraColumns == sb.extraColumns && r.joins == sb.joins && r.orderBy == sb.orderBy
    ensures r.wheres == sb.wheres + GroupClauses(qw)
  {
    var added: seq<Cond> := [];
    var gi := 0;
    while gi < |qw|
      invariant 0 <= gi <= |qw|
      invariant added == GroupClauses(qw)[..gi]
    {
      var og := BuildGroup(qw[gi]);
      PrefixSnoc(GroupClauses(qw), gi);
      added := added + [Or(og)];
      gi := gi + 1;
    }
    assert GroupClauses(qw)[..|qw|] == GroupClauses(qw);
    r := sb.(wheres := sb.wheres + added);
  }

  /** Some surviving comparison of the group holds. */
  predicate GroupSatisfied(g: seq<QueryWhere>, atom: Cond -> bool) {
    exists w :: w in g && Translate(w).Some? && atom(Translate(w).value)
  }

  /** Every fragment is a single comparison, so it holds exactly when the
      atom does. */
  lemma {:induction false} FragmentsAreAtoms(g: seq<QueryWhere>, atom: Cond -> bool)
    ensures forall c :: c in GroupFragments(g) ==> Holds(c, atom) == atom(c)
  {
    GroupFragmentsMembers(g);
    forall c | c in GroupFragments(g) ensures Holds(c, atom) == atom(c) {
      var w :| w in g && Translate(w) == Some(c);
      TranslateShape(w);
    }
  }

  /** Within a group the comparisons are OR-ed. */
  lemma {:induction false} GroupClauseMeaning(g: seq<QueryWhere>, atom: Cond -> bool)
    requires GroupFragments(g) != []
    ensures Holds(Or(GroupFragments(g)), atom) <==> GroupSatisfied(g, atom)
  {
    var frags := GroupFragments(g);
    GroupFragmentsMembers(g);
    FragmentsAreAtoms(g, atom);
    assert Holds(Or(frags), atom) <==> exists c :: c in frags && Holds(c, atom);
    if GroupSatisfied(g, atom) {
      var w :| w in g && Translate(w).Some? && atom(Translate(w).value);
      var c := Translate(w).value;
      assert c in frags && Holds(c, atom);
    }
    if Holds(Or(frags), atom) {
      var c :| c in frags && Holds(c, atom);
      var w :| w in g && Translate(w) == Some(c);
      assert atom(Translate(w).value);
    }
  }

  /** Groups are AND-ed and the comparisons of a group are OR-ed: the added
      clauses hold iff every group has a surviving comparison that holds.
      Stated for groups that keep at least one comparison. */
  lemma {:induction false} GroupClausesMeaning(qw: seq<seq<QueryWhere>>, atom: Cond -> bool)
    requires forall i :: 0 <= i < |qw| ==> GroupFragments(qw[i]) != []
    ensures AllHold(GroupClauses(qw), atom) <==> forall i :: 0 <= i < |qw| ==> GroupSatisfied(qw[i], atom)
  {
    var cs := GroupClauses(qw);
    assert |cs| == |qw|;
    forall i | 0 <= i < |qw|
      ensures Holds(cs[i], atom) <==> GroupSatisfied(qw[i], atom)
    {
      GroupClauseMeaning(qw[i], atom);
    }
  }

  /** One ORDER BY term: the quoted field and its direction. */
  function OrderTerm(s: QueryOrderBy): string {
    QuoteIdentifier(s.field) + (if s.desc then " DESC" else " ASC")
  }

  /** Reads an ORDER BY term back into the sort key it names. */
  function ParseOrderTerm(t: string): Option<QueryOrderBy> {
    if |t| >= 5 && t[|t| - 5..] == " DESC" then
      match Unquote(t[..|t| - 5])
      case Some(f) => Some(QueryOrderBy(f, true))
      case None => None
    else if |t| >= 4 && t[|t| - 4..] == " ASC" then
      match Unquote(t[..|t| - 4])
      case Some(f) => Some(QueryOrderBy(f, false))
      case None => None
    else None
  }

  /** A term names the sort field (up to its first NUL) and its direction,
      and nothing else. */
  lemma {:induction false} OrderTermRoundTrip(s: QueryOrderBy)
    ensures ParseOrderTerm(OrderTerm(s)) == Some(QueryOrderBy(CutAtNul(s.field), s.desc))
  {
    var q := QuoteIdentifier(s.field);
    var t := OrderTerm(s);
    QuoteRoundTrip(s.field);
    if s.desc {
      assert t[..|t| - 5] == q;
      assert t[|t| - 5..] == " DESC";
    } else {
      assert t[..|t| - 4] == q;
      assert t[|t| - 4..] == " ASC";
      assert t[|t| - 5] == Quote;
      assert t[|t| - 5..] != " DESC" by {
        assert t[|t| - 5..][0] == Quote;
      }
    }
  }

  function OrderTerms(qo: seq<QueryOrderBy>): seq<string> {
    seq(|qo|, i requires 0 <= i < |qo| => OrderTerm(qo[i]))
  }

  /** Each term names its sort key's field (up to its first NUL) and direction. */
  lemma {:induction false} OrderTermsMeaning(qo: seq<QueryOrderBy>)
    ensures |OrderTerms(qo)| == |qo|
    ensures forall i :: 0 <= i < |qo| ==>
              ParseOrderTerm(OrderTerms(qo)[i]) == Some(QueryOrderBy(CutAtNul(qo[i].field), qo[i].desc))
  {
    forall i | 0 <= i < |qo|
      ensures ParseOrderTerm(OrderTerms(qo)[i]) == Some(QueryOrderBy(CutAtNul(qo[i].field), qo[i].desc))
    {
      OrderTermRoundTrip(qo[i]);
    }
  }

  method ApplyQueryOrderBy(sb: Select, qo: seq<QueryOrderBy>) returns (r: Select)
    ensures r.extraColumns == sb.extraColumns && r.joins == sb.joins && r.wheres == sb.wheres
    ensures r.orderBy == sb.orderBy + OrderTerms(qo)
  {
    var terms: seq<string> := [];
    var k := 0;
    while k < |qo|
      invariant 0 <= k <= |qo|
      invariant terms == OrderTerms(qo)[..k]
    {
      var s := qo[k];
      var safeField := QuoteIdentifier(s.field);
      var term := if s.desc then safeField + " DESC" else safeField + " ASC";
      assert term == OrderTerm(s);
      PrefixSnoc(OrderTerms(qo), k);
      terms := terms + [term];
      k := k + 1;
    }
    assert OrderTerms(qo)[..|qo|] == OrderTerms(qo);
    r := sb.(orderBy := sb.orderBy + terms);
  }
}
