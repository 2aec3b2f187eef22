/** `getQueryFindAvailableByCategoryID`: the storefront query over a
    category and a combination of selected facets. A `FilterCombination`
    maps a facet key to the set of selected value ids: key "B" selects
    brands, a key that `strconv.Atoi` accepts names an attribute set, and
    any other key is ignored. Go's map iteration order is not fixed, so the
    order in which keys are visited is a parameter: any duplicate-free
    enumeration of the keys. */
module Facets {
  import opened Common
  import opened Decimal
  import opened Sql
  import ProductQueries

  type FilterCombination = map<string, set<int>>

  const BrandKey: string := "B"

  /** Only products that can be bought: in stock, published, in a
      published category, from a published supplier. */
  const Availability: Cond :=
    Raw("p.quantity > 0 and p.is_published = 1 and c.is_published = 1 and s.is_published = 1")

  function SelectedCategory(categoryID: int): Cond {
    Compare(Eq, "c_selected.id", VInt(categoryID))
  }

  /** `pa_%d`. */
  function AttributeAlias(n: int): string {
    "pa_" + Itoa(n)
  }

  function BrandClause(ids: set<int>): Cond {
    In("p.brand_id", ids)
  }

  /** `product_attribute as pa_n` joined on `pa_n.product_id = p.id AND
      pa_n.attribute_value_id IN (ids)`. */
  function AttributeJoin(n: int, ids: set<int>): Join {
    var alias := AttributeAlias(n);
    Join(InnerJoin, "product_attribute as " + alias,
      And([Raw(alias + ".product_id = p.id"), In(alias + ".attribute_value_id", ids)]))
  }

  /** `order` visits every key of `fc` exactly once. */
  predicate IsEnumeration(order: seq<string>, fc: FilterCombination) {
    && Distinct(order)
    && (forall i :: 0 <= i < |order| ==> order[i] in fc)
    && (forall k :: k in fc ==> k in order)
  }

  /** What one key contributes to the WHERE clauses. */
  function KeyWheres(fc: FilterCombination, key: string): seq<Cond> {
    if key in fc && key == BrandKey then [BrandClause(fc[key])] else []
  }

  /** What one key contributes to the joins. */
  function KeyJoins(fc: FilterCombination, key: string): seq<Join> {
    if key in fc && key != BrandKey && Atoi(key).Some? then [AttributeJoin(Atoi(key).value, fc[key])] else []
  }

  /** The WHERE clauses contributed by the keys in `order`, in that order. */
  function BrandWheres(fc: FilterCombination, order: seq<string>): seq<Cond>
    decreases |order|
  {
    if |order| == 0 then [] else KeyWheres(fc, order[0]) + BrandWheres(fc, order[1..])
  }

  /** The joins contributed by the keys in `order`, in that order. */
  function AttributeJoins(fc: FilterCombination, order: seq<string>): seq<Join>
    decreases |order|
  {
    if |order| == 0 then [] else KeyJoins(fc, order[0]) + AttributeJoins(fc, order[1..])
  }

  /** The loop over the filter combination, visiting keys in `order`. */
  method GetQueryFindAvailableByCategoryID(categoryID: int, fc: FilterCombination, order: seq<string>)
    returns (sel: Select)
    requires IsEnumeration(order, fc)
    ensures sel.extraColumns == [] && sel.orderBy == []
    ensures sel.wheres == [Availability, SelectedCategory(categoryID)] + BrandWheres(fc, order)
    ensures sel.joins == [ProductQueries.CategorySelectedJoin] + AttributeJoins(fc, order)
  {
    // What the loop appends to the WHERE list and to the join list.
    var brandWheres: seq<Cond> := [];
    var attributeJoins: seq<Join> := [];
    var i := 0;
    while i < |order|
      invariant 0 <= i <= |order|
      invariant brandWheres == BrandWheres(fc, order[..i])
      invariant attributeJoins == AttributeJoins(fc, order[..i])
    {
      var key := order[i];
      var facets := fc[key];
      BrandWheresSnoc(fc, order[..i], key);
      AttributeJoinsSnoc(fc, order[..i], key);
      PrefixSnoc(order, i);
      if key == BrandKey {
        brandWheres := brandWheres + [BrandClause(facets)];
        assert KeyWheres(fc, key) == [BrandClause(facets)] && KeyJoins(fc, key) == [];
      } else {
        var parsed := Atoi(key);
        assert KeyWheres(fc, key) == [];
        if parsed.Some? {
          attributeJoins := attributeJoins + [AttributeJoin(parsed.value, facets)];
          assert KeyJoins(fc, key) == [AttributeJoin(parsed.value, facets)];
        } else {
          assert KeyJoins(fc, key) == [];
        }
      }
      i := i + 1;
    }
    assert order[..|order|] == order;
    sel := Select([], [ProductQueries.CategorySelectedJoin] + attributeJoins,
                  [Availability, SelectedCategory(categoryID)] + brandWheres, []);
  }

  lemma {:induction false} BrandWheresAppend(fc: FilterCombination, a: seq<string>, b: seq<string>)
    ensures BrandWheres(fc, a + b) == BrandWheres(fc, a) + BrandWheres(fc, b)
    decreases |a|
  {
    if |a| > 0 {
      assert (a + b)[1..] == a[1..] + b;
      BrandWheresAppend(fc, a[1..], b);
    } else {
      assert a + b == b;
    }
  }

  lemma {:induction false} AttributeJoinsAppend(fc: FilterCombination, a: seq<string>, b: seq<string>)
    ensures AttributeJoins(fc, a + b) == AttributeJoins(fc, a) + AttributeJoins(fc, b)
    decreases |a|
  {
    if |a| > 0 {
      assert (a + b)[1..] == a[1..] + b;
      AttributeJoinsAppend(fc, a[1..], b);
    } else {
      assert a + b == b;
    }
  }

  lemma {:induction false} BrandWheresSnoc(fc: FilterCombination, a: seq<string>, key: string)
    ensures BrandWheres(fc, a + [key]) == BrandWheres(fc, a) + KeyWheres(fc, key)
  {
    BrandWheresAppend(fc, a, [key]);
    assert [key][1..] == [];
  }

  lemma {:induction false} AttributeJoinsSnoc(fc: FilterCombination, a: seq<string>, key: string)
    ensures AttributeJoins(fc, a + [key]) == AttributeJoins(fc, a) + KeyJoins(fc, key)
  {
    AttributeJoinsAppend(fc, a, [key]);
    assert [key][1..] == [];
  }

  /** A key that `getQueryFindAvailableByCategoryID` turns into a join. */
  predicate NumericKey(key: string) {
    key != BrandKey && Atoi(key).Some?
  }

  /** Over a duplicate-free list of keys, the brand clause appears once if
      "B" is among them and not at all otherwise. */
  lemma {:induction false} BrandWheresOnce(fc: FilterCombination, order: seq<string>)
    requires Distinct(order)
    ensures BrandWheres(fc, order) ==
            if BrandKey in order && BrandKey in fc then [BrandClause(fc[BrandKey])] else []
    decreases |order|
  {
    if |order| > 0 {
      var key, tail := order[0], order[1..];
      DistinctTail(order);
      BrandWheresOnce(fc, tail);
      assert BrandWheres(fc, order) == KeyWheres(fc, key) + BrandWheres(fc, tail);
      assert BrandKey in order <==> key == BrandKey || BrandKey in tail;
    }
  }

  /** The brand facet: `p.brand_id IN` over exactly the "B" set, present
      iff the combination has a "B" key, whatever the iteration order. */
  lemma {:induction false} BrandClausePresentIff(fc: FilterCombination, order: seq<string>)
    requires IsEnumeration(order, fc)
    ensures BrandWheres(fc, order) == if BrandKey in fc then [BrandClause(fc[BrandKey])] else []
    ensures forall ids :: BrandClause(ids) in BrandWheres(fc, order) <==> BrandKey in fc && ids == fc[BrandKey]
  {
    BrandWheresOnce(fc, order);
  }

  /** Each join comes from a numeric key of the listed keys, and each
      numeric listed key yields its join. */
  lemma {:induction false} AttributeJoinsMembers(fc: FilterCombination, order: seq<string>)
    ensures forall j :: j in AttributeJoins(fc, order) ==>
              exists k :: k in order && k in fc && NumericKey(k) && j == AttributeJoin(Atoi(k).value, fc[k])
    ensures forall k :: k in order && k in fc && NumericKey(k) ==>
              AttributeJoin(Atoi(k).value, fc[k]) in AttributeJoins(fc, order)
    decreases |order|
  {
    if |order| > 0 {
      AttributeJoinsMembers(fc, order[1..]);
      assert order == [order[0]] + order[1..];
      forall k | k in order && k in fc && NumericKey(k)
        ensures AttributeJoin(Atoi(k).value, fc[k]) in AttributeJoins(fc, order)
      {
        if k != order[0] {
          assert k in order[1..];
        }
      }
    }
  }

  /** For every key of the combination that `strconv.Atoi` accepts there is
      one inner join `pa_n` restricted to exactly that key's set (an empty
      set included); every join added is of that form. */
  lemma {:induction false} AttributeJoinsPresentIff(fc: FilterCombination, order: seq<string>)
    requires IsEnumeration(order, fc)
    ensures forall k :: k in fc && NumericKey(k) ==> AttributeJoin(Atoi(k).value, fc[k]) in AttributeJoins(fc, order)
    ensures forall j :: j in AttributeJoins(fc, order) ==>
              exists k :: k in fc && NumericKey(k) && j == AttributeJoin(Atoi(k).value, fc[k])
  {
    AttributeJoinsMembers(fc, order);
  }

  function NumericKeys(fc: FilterCombination): set<string> {
    set k | k in fc && NumericKey(k)
  }

  /** One join per numeric key: two keys that parse to the same number
      (such as "3" and "03") give two joins, not one. */
  lemma {:induction false} AttributeJoinsCount(fc: FilterCombination, order: seq<string>)
    requires Distinct(order)
    ensures |AttributeJoins(fc, order)| == |set k | k in order && k in fc && NumericKey(k)|
    decreases |order|
  {
    var here := set k | k in order && k in fc && NumericKey(k);
    if |order| == 0 {
      assert here == {};
    } else {
      var key, tail := order[0], order[1..];
      var rest := set k | k in tail && k in fc && NumericKey(k);
      DistinctTail(order);
      AttributeJoinsCount(fc, tail);
      assert AttributeJoins(fc, order) == KeyJoins(fc, key) + AttributeJoins(fc, tail);
      assert forall k :: k in order <==> k == key || k in tail;
      if key in fc && NumericKey(key) {
        assert |KeyJoins(fc, key)| == 1;
        assert here == rest + {key};
        assert key !in rest;
      } else {
        assert |KeyJoins(fc, key)| == 0;
        assert here == rest;
      }
    }
  }

  lemma {:induction false} JoinCountIsNumericKeys(fc: FilterCombination, order: seq<string>)
    requires IsEnumeration(order, fc)
    ensures |AttributeJoins(fc, order)| == |NumericKeys(fc)|
  {
    AttributeJoinsCount(fc, order);
    assert (set k | k in order && k in fc && NumericKey(k)) == NumericKeys(fc);
  }

  lemma {:induction false} DistinctCounts<T>(s: seq<T>)
    requires Distinct(s)
    ensures forall x :: multiset(s)[x] == if x in s then 1 else 0
    decreases |s|
  {
    if |s| > 0 {
      DistinctTail(s);
      DistinctCounts(s[1..]);
      assert s == [s[0]] + s[1..];
      assert multiset(s) == multiset{s[0]} + multiset(s[1..]);
    }
  }

  /** Two enumerations of the same map are permutations of each other. */
  lemma {:induction false} EnumerationsPermute(fc: FilterCombination, o1: seq<string>, o2: seq<string>)
    requires IsEnumeration(o1, fc) && IsEnumeration(o2, fc)
    ensures multiset(o1) == multiset(o2)
  {
    DistinctCounts(o1);
    DistinctCounts(o2);
    forall x ensures multiset(o1)[x] == multiset(o2)[x] {
      assert x in o1 <==> x in o2;
    }
  }

  /** The concatenation of `f(k)` over the keys `k` of `order`. */
  function FlatMap<T>(f: string -> seq<T>, order: seq<string>): seq<T>
    decreases |order|
  {
    if |order| == 0 then [] else f(order[0]) + FlatMap(f, order[1..])
  }

  /** Taking one key out of the list takes out exactly what it contributes. */
  lemma {:induction false} FlatMapRemove<T>(f: string -> seq<T>, s: seq<string>, k: int)
    requires 0 <= k < |s|
    ensures multiset(FlatMap(f, s)) == multiset(f(s[k])) + multiset(FlatMap(f, s[..k] + s[k + 1..]))
    decreases k
  {
    if k == 0 {
      assert s[..0] + s[1..] == s[1..];
    } else {
      var tail := s[1..];
      var rest := tail[..k - 1] + tail[k..];
      FlatMapRemove(f, tail, k - 1);
      assert tail[k - 1] == s[k];
      assert s[..k] + s[k + 1..] == [s[0]] + rest;
      assert ([s[0]] + rest)[1..] == rest;
      var fr := FlatMap(f, rest);
      assert FlatMap(f, [s[0]] + rest) == f(s[0]) + fr;
      assert multiset(f(s[0]) + fr) == multiset(f(s[0])) + multiset(fr);
      assert multiset(f(s[0]) + FlatMap(f, tail)) == multiset(f(s[0])) + multiset(FlatMap(f, tail));
    }
  }

  /** Permuting the keys permutes what they contribute. */
  lemma {:induction false} FlatMapPermute<T>(f: string -> seq<T>, o1: seq<string>, o2: seq<string>)
    requires multiset(o1) == multiset(o2)
    ensures multiset(FlatMap(f, o1)) == multiset(FlatMap(f, o2))
    decreases |o1|
  {
    if |o1| == 0 {
      assert |o2| == |multiset(o2)| == 0;
    } else {
      var x := o1[0];
      assert x in multiset(o2);
      var k :| 0 <= k < |o2| && o2[k] == x;
      RemoveAt(o2, k);
      RemoveAt(o1, 0);
      assert o1[..0] + o1[1..] == o1[1..];
      FlatMapPermute(f, o1[1..], o2[..k] + o2[k + 1..]);
      FlatMapRemove(f, o2, k);
      FlatMapRemove(f, o1, 0);
    }
  }

  lemma {:induction false} AttributeJoinsFlatMap(fc: FilterCombination, order: seq<string>)
    ensures AttributeJoins(fc, order) == FlatMap(k => KeyJoins(fc, k), order)
    decreases |order|
  {
    if |order| > 0 {
      AttributeJoinsFlatMap(fc, order[1..]);
    }
  }

  lemma {:induction false} AttributeJoinsPermute(fc: FilterCombination, o1: seq<string>, o2: seq<string>)
    requires multiset(o1) == multiset(o2)
    ensures multiset(AttributeJoins(fc, o1)) == multiset(AttributeJoins(fc, o2))
  {
    AttributeJoinsFlatMap(fc, o1);
    AttributeJoinsFlatMap(fc, o2);
    FlatMapPermute(k => KeyJoins(fc, k), o1, o2);
  }

  /** Go's map order does not matter: any two iteration orders give the same
      WHERE list and the same joins up to order. */
  lemma {:induction false} OrderIndependent(fc: FilterCombination, o1: seq<string>, o2: seq<string>)
    requires IsEnumeration(o1, fc) && IsEnumeration(o2, fc)
    ensures BrandWheres(fc, o1) == BrandWheres(fc, o2)
    ensures multiset(AttributeJoins(fc, o1)) == multiset(AttributeJoins(fc, o2))
  {
    BrandClausePresentIff(fc, o1);
    BrandClausePresentIff(fc, o2);
    EnumerationsPermute(fc, o1, o2);
    AttributeJoinsPermute(fc, o1, o2);
  }

  /** A product as the facet clauses see it: its brand and the ids of the
      attribute values it carries (its `product_attribute` rows). */
  datatype ProductFacts = ProductFacts(brandId: int, values: set<int>)

  /** How a WHERE clause reads on the product: `p.brand_id IN (ids)`. */
  function BrandAtom(p: ProductFacts): Cond -> bool {
    (c: Cond) => c.In? && c.subject == "p.brand_id" && p.brandId in c.ids
  }

  /** How a join condition reads on one of the product's `product_attribute`
      rows, the one carrying value `v`: the row belongs to the product, and
      `attribute_value_id IN (ids)` asks whether `v` is selected. */
  function JoinRowAtom(v: int): Cond -> bool {
    (c: Cond) =>
      match c
      case Raw(_) => true
      case In(_, ids) => v in ids
      case _ => false
  }

  /** An inner join keeps the product iff one of its rows satisfies the
      join condition. */
  predicate JoinAdmits(p: ProductFacts, j: Join) {
    exists v :: v in p.values && Holds(j.on, JoinRowAtom(v))
  }

  /** The product survives the facet clauses of the query. */
  predicate FacetClausesAdmit(p: ProductFacts, fc: FilterCombination, order: seq<string>) {
    && AllHold(BrandWheres(fc, order), BrandAtom(p))
    && forall j :: j in AttributeJoins(fc, order) ==> JoinAdmits(p, j)
  }

  /** Reference: AND across the active facets, OR within each facet. The
      brand must be one of the selected brands, and for every attribute key
      at least one of the product's values must be selected. */
  predicate PassesFacets(p: ProductFacts, fc: FilterCombination) {
    && (BrandKey in fc ==> p.brandId in fc[BrandKey])
    && forall k :: k in fc && NumericKey(k) ==> exists v :: v in p.values && v in fc[k]
  }

  lemma {:induction false} AttributeJoinAdmits(p: ProductFacts, n: int, ids: set<int>)
    ensures JoinAdmits(p, AttributeJoin(n, ids)) <==> exists v :: v in p.values && v in ids
  {
    var on := AttributeJoin(n, ids).on;
    forall v ensures Holds(on, JoinRowAtom(v)) <==> v in ids {
      assert on.items[0] in on.items && on.items[1] in on.items;
    }
  }

  /** The brand clause, when present, admits exactly the selected brands. */
  lemma {:induction false} BrandPartMeaning(p: ProductFacts, fc: FilterCombination, order: seq<string>)
    requires IsEnumeration(order, fc)
    ensures AllHold(BrandWheres(fc, order), BrandAtom(p)) <==> (BrandKey in fc ==> p.brandId in fc[BrandKey])
  {
    BrandClausePresentIff(fc, order);
  }

  /** The attribute joins admit the product iff every numeric key has one
      of the product's values selected. */
  lemma {:induction false} AttributePartMeaning(p: ProductFacts, fc: FilterCombination, order: seq<string>)
    requires IsEnumeration(order, fc)
    ensures (forall j :: j in AttributeJoins(fc, order) ==> JoinAdmits(p, j)) <==>
            (forall k :: k in fc && NumericKey(k) ==> exists v :: v in p.values && v in fc[k])
  {
    AttributeJoinsPresentIff(fc, order);
    var joins := AttributeJoins(fc, order);
    if forall j :: j in joins ==> JoinAdmits(p, j) {
      forall k | k in fc && NumericKey(k) ensures exists v :: v in p.values && v in fc[k] {
        AttributeJoinAdmits(p, Atoi(k).value, fc[k]);
      }
    }
    if forall k :: k in fc && NumericKey(k) ==> exists v :: v in p.values && v in fc[k] {
      forall j | j in joins ensures JoinAdmits(p, j) {
        var k :| k in fc && NumericKey(k) && j == AttributeJoin(Atoi(k).value, fc[k]);
        AttributeJoinAdmits(p, Atoi(k).value, fc[k]);
      }
    }
  }

  /** Under the reading above the facet clauses mean exactly "AND across
      facets, OR within a facet", for any iteration order. */
  lemma {:induction false} FacetsMeaning(p: ProductFacts, fc: FilterCombination, order: seq<string>)
    requires IsEnumeration(order, fc)
    ensures FacetClausesAdmit(p, fc, order) <==> PassesFacets(p, fc)
  {
    BrandPartMeaning(p, fc, order);
    AttributePartMeaning(p, fc, order);
  }

  lemma {:induction false} AtoiThree()
    ensures Atoi("3") == Some(3) && Atoi("03") == Some(3) && Itoa(3) == "3"
  {
    AtoiLeadingZero("3");
    assert "0" + "3" == "03";
  }

  /** Aliases are not deduplicated: keys "3" and "03" both parse to 3, so
      the query joins `product_attribute as pa_3` twice. */
  lemma {:induction false} AliasesCollide(a: set<int>, b: set<int>)
    ensures AttributeJoins(map["3" := a, "03" := b], ["3", "03"]) == [AttributeJoin(3, a), AttributeJoin(3, b)]
    ensures AttributeJoin(3, a).table == AttributeJoin(3, b).table == "product_attribute as pa_3"
  {
    AtoiThree();
    var fc := map["3" := a, "03" := b];
    assert ["3", "03"][1..] == ["03"];
    assert ["03"][1..] == [];
    assert AttributeJoins(fc, ["03"]) == [AttributeJoin(3, b)];
  }

  /** No two joins declare the same alias. */
  predicate AliasesDistinct(joins: seq<Join>) {
    forall i, j :: 0 <= i < j < |joins| ==> joins[i].table != joins[j].table
  }

  /** No two listed numeric keys parse to the same number. */
  predicate NumbersDistinct(fc: FilterCombination, order: seq<string>) {
    forall k1, k2 :: k1 in order && k2 in order && k1 in fc && k2 in fc && NumericKey(k1) && NumericKey(k2) ==>
      (Atoi(k1) == Atoi(k2) ==> k1 == k2)
  }

  /** Two attribute joins declare the same alias iff they are for the same
      attribute set. */
  lemma {:induction false} AttributeTableInjective(n: int, m: int, a: set<int>, b: set<int>)
    ensures AttributeJoin(n, a).table == AttributeJoin(m, b).table <==> n == m
  {
    var sn, sm := Itoa(n), Itoa(m);
    if AttributeJoin(n, a).table == AttributeJoin(m, b).table {
      PrefixCancel("product_attribute as ", "pa_" + sn, "pa_" + sm);
      PrefixCancel("pa_", sn, sm);
      AtoiItoa(n);
      AtoiItoa(m);
    }
  }

  lemma {:induction false} AliasesDistinctCons(j: Join, s: seq<Join>)
    ensures AliasesDistinct([j] + s) <==> (forall x :: x in s ==> x.table != j.table) && AliasesDistinct(s)
  {
    var t := [j] + s;
    if AliasesDistinct(t) {
      forall x | x in s
        ensures x.table != j.table
      {
        var i :| 0 <= i < |s| && s[i] == x;
        assert t[0] == j && t[i + 1] == x;
      }
      forall a, b | 0 <= a < b < |s|
        ensures s[a].table != s[b].table
      {
        assert t[a + 1] == s[a] && t[b + 1] == s[b];
      }
    }
    if (forall x :: x in s ==> x.table != j.table) && AliasesDistinct(s) {
      forall a, b | 0 <= a < b < |t|
        ensures t[a].table != t[b].table
      {
        assert t[b] == s[b - 1];
        if a > 0 {
          assert t[a] == s[a - 1];
        }
      }
    }
  }

  /** Every join declares its own `pa_n` alias exactly when no two of the
      listed numeric keys parse to the same number; otherwise (as with "3"
      and "03") the same alias is declared twice. */
  lemma {:induction false} AliasesDistinctIff(fc: FilterCombination, order: seq<string>)
    requires Distinct(order)
    ensures AliasesDistinct(AttributeJoins(fc, order)) <==> NumbersDistinct(fc, order)
    decreases |order|
  {
    if |order| > 0 {
      var key, tail := order[0], order[1..];
      var rest := AttributeJoins(fc, tail);
      DistinctTail(order);
      AliasesDistinctIff(fc, tail);
      assert AttributeJoins(fc, order) == KeyJoins(fc, key) + rest;
      assert forall k :: k in order <==> k == key || k in tail;
      if key in fc && NumericKey(key) {
        var n := Atoi(key).value;
        var j := AttributeJoin(n, fc[key]);
        assert KeyJoins(fc, key) == [j];
        AliasesDistinctCons(j, rest);
        AttributeJoinsMembers(fc, tail);
        if NumbersDistinct(fc, order) {
          assert NumbersDistinct(fc, tail);
          forall x | x in rest
            ensures x.table != j.table
          {
            var k :| k in tail && k in fc && NumericKey(k) && x == AttributeJoin(Atoi(k).value, fc[k]);
            assert k != key;
            AttributeTableInjective(Atoi(k).value, n, fc[k], fc[key]);
          }
        }
        if AliasesDistinct(AttributeJoins(fc, order)) {
          forall k1, k2 | k1 in order && k2 in order && k1 in fc && k2 in fc && NumericKey(k1) && NumericKey(k2) && k1 != k2
            ensures Atoi(k1) != Atoi(k2)
          {
            if k1 == key || k2 == key {
              var k := if k1 == key then k2 else k1;
              assert k in tail;
              assert AttributeJoin(Atoi(k).value, fc[k]) in rest;
              AttributeTableInjective(Atoi(k).value, n, fc[k], fc[key]);
            }
          }
        }
      } else {
        assert KeyJoins(fc, key) == [];
        assert AttributeJoins(fc, order) == rest;
        assert NumbersDistinct(fc, order) <==> NumbersDistinct(fc, tail);
      }
    }
  }

  /** Brands 7 or 9, attribute set 3 with value 101, and a key "color"
      that is neither "B" nor a number and so contributes nothing. */
  lemma {:induction false} ExampleCombination()
    ensures var fc := map["B" := {7, 9}, "3" := {101}, "color" := {1}];
            var order := ["color", "B", "3"];
            && BrandWheres(fc, order) == [In("p.brand_id", {7, 9})]
            && AttributeJoins(fc, order) == [AttributeJoin(3, {101})]
  {
    var fc := map["B" := {7, 9}, "3" := {101}, "color" := {1}];
    var order := ["color", "B", "3"];
    AtoiThree();
    assert Atoi("color") == None;
    assert order[1..] == ["B", "3"] && order[1..][1..] == ["3"] && ["3"][1..] == [];
    assert AttributeJoins(fc, ["3"]) == [AttributeJoin(3, {101})];
    assert BrandWheres(fc, ["3"]) == [];
  }
}
