/** The statement builders of internal/app/storage/sqlitedb/product_storage.go:
    the category scope and allow-lists of `getQueryFindMany`, the INSERT of
    `getQueryInsert`, the partial UPDATE of `getQueryUpdateByID` and the
    attribute clean-up of `getQueryDeleteInvalidAttributes`. The fixed
    column list, base joins and category CTE of `getQuerySelectBase` are
    represented by an empty `Select`. */
module ProductQueries {
  import opened Common
  import opened Sql
  import opened Like
  import QueryBuilder

  /** The fields of `model.Product` that the storage layer reads, with the
      set of changed-field tags (`dto.Partial`). */
  datatype Product = Product(
    id: int,
    code: string,
    name: string,
    description: string,
    quantity: int,
    price: int,
    brandId: int,
    categoryId: int,
    supplierId: int,
    statusId: int,
    isPublished: bool,
    partial: set<string>)

  /** `storage.FindManyParams`. */
  datatype FindManyParams = FindManyParams(
    filters: seq<seq<QueryBuilder.QueryWhere>>,
    sorters: seq<QueryBuilder.QueryOrderBy>,
    limit: int,
    offset: int,
    logicAnd: bool)

  /** The query `getQueryFindMany` builds before rendering: the clauses it
      adds itself, and the arguments it hands to `storage.ApplyLimitOffset`,
      `storage.ApplyFilters` and `storage.ApplySorters`. */
  datatype FindManyPlan = FindManyPlan(
    select: Select,
    limit: int,
    offset: int,
    filters: seq<seq<QueryBuilder.QueryWhere>>,
    logicAnd: bool,
    allowedFilters: map<string, string>,
    sorters: seq<QueryBuilder.QueryOrderBy>,
    allowedSorters: map<string, string>)

  function SelectBase(extra: seq<string>): Select {
    Select(extra, [], [], [])
  }

  /** Joins every category under the selected one by materialized path. */
  const CategorySelectedJoin: Join :=
    Join(InnerJoin, "category as c_selected", Raw("c.mp_path like c_selected.mp_path || '%'"))

  /** The scope clause: top-level categories for 0, the given category otherwise. */
  function CategoryScope(categoryID: int): Cond {
    if categoryID == 0 then IsNull("c_selected.parent_id")
    else Compare(Eq, "c_selected.id", VInt(categoryID))
  }

  const FilterAllowList: map<string, string> := map[
    "code" := "p.code",
    "name" := "p.name",
    "category" := "p.category_id",
    "supplier" := "p.supplier_id",
    "brand" := "p.brand_id",
    "status" := "coalesce(p.status_id, 0)",
    "is_published" := "p.is_published",
    "quantity" := "p.quantity",
    "price" := "p.price"]

  const SorterAllowList: map<string, string> := map[
    "code" := "p.code",
    "name" := "p.name",
    "supplier" := "s.name",
    "brand" := "b.name",
    "status" := "ps.name",
    "quantity" := "p.quantity",
    "price" := "p.price",
    "is_published" := "p.is_published",
    "created_at" := "p.created_at",
    "updated_at" := "p.updated_at"]

  function GetQueryFindMany(q: FindManyParams, categoryID: int): (plan: FindManyPlan)
    ensures plan.select.extraColumns == ["count(*) over () as count"]
    ensures plan.select.joins == [CategorySelectedJoin] && plan.select.orderBy == []
    ensures plan.select.wheres == [CategoryScope(categoryID)]
    ensures categoryID == 0 <==> plan.select.wheres[0] == IsNull("c_selected.parent_id")
    ensures categoryID != 0 <==> plan.select.wheres[0] == Compare(Eq, "c_selected.id", VInt(categoryID))
    ensures plan.allowedFilters == FilterAllowList && plan.allowedSorters == SorterAllowList
    ensures plan.limit == q.limit && plan.offset == q.offset && plan.logicAnd == q.logicAnd
    ensures plan.filters == q.filters && plan.sorters == q.sorters
  {
    var sb := SelectBase(["count(*) over () as count"]);
    var sb := sb.(joins := sb.joins + [CategorySelectedJoin]);
    var sb := sb.(wheres := sb.wheres + [CategoryScope(categoryID)]);
    FindManyPlan(sb, q.limit, q.offset, q.filters, q.logicAnd, FilterAllowList, q.sorters, SorterAllowList)
  }

  /** The filter allow-list has nine keys and the sorter allow-list ten. */
  lemma {:induction false} AllowListKeys()
    ensures FilterAllowList.Keys ==
            {"code", "name", "category", "supplier", "brand", "status", "is_published", "quantity", "price"}
    ensures SorterAllowList.Keys ==
            {"code", "name", "supplier", "brand", "status", "quantity", "price", "is_published", "created_at", "updated_at"}
  {
  }

  /** The two allow-lists are fixed and differ: `category` can be filtered
      but not sorted, the timestamps sorted but not filtered, and status,
      supplier and brand are filtered by id but sorted by display name. */
  lemma {:induction false} AllowListsDiffer()
    ensures FilterAllowList.Keys - SorterAllowList.Keys == {"category"}
    ensures SorterAllowList.Keys - FilterAllowList.Keys == {"created_at", "updated_at"}
    ensures forall k :: k in {"status", "supplier", "brand"} ==> FilterAllowList[k] != SorterAllowList[k]
    ensures forall k :: k in FilterAllowList.Keys * SorterAllowList.Keys && k !in {"status", "supplier", "brand"} ==>
              FilterAllowList[k] == SorterAllowList[k]
  {
    AllowListKeys();
    var shared := FilterAllowList.Keys * SorterAllowList.Keys;
    assert shared == {"code", "name", "supplier", "brand", "status", "is_published", "quantity", "price"};
    forall k | k in shared && k !in {"status", "supplier", "brand"}
      ensures FilterAllowList[k] == SorterAllowList[k]
    {
      assert k == "code" || k == "name" || k == "is_published" || k == "quantity" || k == "price";
    }
  }

  /** A category row as the scope join sees it. */
  datatype Category = Category(id: int, parentId: Option<int>, path: string)

  /** What a scope clause over `c_selected` says about the selected row. */
  predicate SelectsCategory(scope: Cond, s: Category) {
    match scope
    case IsNull(col) => col == "c_selected.parent_id" && s.parentId.None?
    case Compare(op, col, arg) => op == Eq && col == "c_selected.id" && arg.VInt? && s.id == arg.i
    case _ => false
  }

  /** A product in category `c` passes the scope when some category that
      the scope clause selects has a path that `c.mp_path like c_selected.mp_path || '%'`
      accepts. */
  predicate InScope(categories: seq<Category>, c: Category, scope: Cond) {
    exists s :: s in categories && SelectsCategory(scope, s) && LikeMatch(c.path, s.path + "%")
  }

  /** With wildcard-free materialized paths, the scope is a subtree match:
      category 0 admits everything under a top-level category, any other id
      admits everything under that category. */
  lemma {:induction false} CategoryScopeIsSubtree(categories: seq<Category>, c: Category, categoryID: int)
    requires forall s :: s in categories ==> WildcardFree(s.path)
    ensures InScope(categories, c, CategoryScope(categoryID)) <==>
            exists s :: s in categories
                        && (if categoryID == 0 then s.parentId.None? else s.id == categoryID)
                        && CiPrefix(s.path, c.path)
  {
    forall s | s in categories ensures LikeMatch(c.path, s.path + "%") <==> CiPrefix(s.path, c.path) {
      PrefixMatch(c.path, s.path);
    }
  }

  /** The selected category lies in its own scope: no separate equality
      branch is needed for products directly in it. */
  lemma {:induction false} SelectedCategoryInOwnScope(categories: seq<Category>, c: Category)
    requires c in categories && c.id != 0
    ensures InScope(categories, c, CategoryScope(c.id))
  {
    PathUnderItself(c.path);
  }

  /** A partially updatable field: the tag flagged in `dto.Partial` and the
      column it writes. */
  datatype PartialField = PartialField(tag: string, column: string)

  /** The ten `ApplyUpdateSetPartial` calls of `getQueryUpdateByID`, in order. */
  const PartialFields: seq<PartialField> := [
    PartialField("Code", "code"),
    PartialField("Name", "name"),
    PartialField("Description", "description"),
    PartialField("Quantity", "quantity"),
    PartialField("Price", "price"),
    PartialField("ProductBrandEmbed.BrandID", "brand_id"),
    PartialField("ProductCategoryEmbed.CategoryID", "category_id"),
    PartialField("ProductSupplierEmbed.SupplierID", "supplier_id"),
    PartialField("ProductStatusEmbed.StatusID", "status_id"),
    PartialField("IsPublished", "is_published")]

  /** The DTO field each tag names (the value argument of each call). */
  function TaggedValue(dto: Product, tag: string): Value {
    if tag == "Code" then VStr(dto.code)
    else if tag == "Name" then VStr(dto.name)
    else if tag == "Description" then VStr(dto.description)
    else if tag == "Quantity" then VInt(dto.quantity)
    else if tag == "Price" then VInt(dto.price)
    else if tag == "ProductBrandEmbed.BrandID" then VInt(dto.brandId)
    else if tag == "ProductCategoryEmbed.CategoryID" then VInt(dto.categoryId)
    else if tag == "ProductSupplierEmbed.SupplierID" then VInt(dto.supplierId)
    else if tag == "ProductStatusEmbed.StatusID" then VInt(dto.statusId)
    else VBool(dto.isPublished)
  }

  /** Reference: the value a `product` column should receive from a DTO
      whose slug is `slug`. */
  function ColumnValue(dto: Product, slug: string, column: string): Option<Value> {
    match column
    case "code" => Some(VStr(dto.code))
    case "slug" => Some(VStr(slug))
    case "name" => Some(VStr(dto.name))
    case "description" => Some(VStr(dto.description))
    case "quantity" => Some(VInt(dto.quantity))
    case "price" => Some(VInt(dto.price))
    case "brand_id" => Some(VInt(dto.brandId))
    case "category_id" => Some(VInt(dto.categoryId))
    case "supplier_id" => Some(VInt(dto.supplierId))
    case "status_id" => Some(VInt(dto.statusId))
    case "is_published" => Some(VBool(dto.isPublished))
    case _ => None
  }

  function GetQueryInsert(dto: Product, slugify: Product -> string): Insert {
    Insert("product",
      ["code", "slug", "name", "description", "quantity", "price",
       "brand_id", "category_id", "supplier_id", "status_id", "is_published"],
      [VStr(dto.code), VStr(slugify(dto)), VStr(dto.name), VStr(dto.description), VInt(dto.quantity), VInt(dto.price),
       VInt(dto.brandId), VInt(dto.categoryId), VInt(dto.supplierId), VInt(dto.statusId), VBool(dto.isPublished)])
  }

  /** The INSERT names eleven distinct columns of `product`; the id and
      timestamps are left to the database. */
  lemma {:induction false} InsertColumnsDistinct(dto: Product, slugify: Product -> string)
    ensures var ins := GetQueryInsert(dto, slugify);
            && ins.table == "product"
            && |ins.columns| == |ins.values| == 11
            && Distinct(ins.columns)
            && "id" !in ins.columns && "updated_at" !in ins.columns && "created_at" !in ins.columns
  {
  }

  /** Each INSERT value is the DTO's value for its column. */
  lemma {:induction false} InsertValuesMatch(dto: Product, slugify: Product -> string)
    ensures var ins := GetQueryInsert(dto, slugify);
            |ins.columns| == |ins.values| == 11 &&
            forall i :: 0 <= i < 11 ==> ColumnValue(dto, slugify(dto), ins.columns[i]) == Some(ins.values[i])
  {
    var ins := GetQueryInsert(dto, slugify);
    assert ins.columns[0] == "code" && ins.columns[1] == "slug" && ins.columns[2] == "name";
    assert ins.columns[3] == "description" && ins.columns[4] == "quantity" && ins.columns[5] == "price";
    assert ins.columns[6] == "brand_id" && ins.columns[7] == "category_id" && ins.columns[8] == "supplier_id";
    assert ins.columns[9] == "status_id" && ins.columns[10] == "is_published";
  }

  /** `storage.ApplyUpdateSetPartial`, whose body is not part of this model:
      taken to append `column = value` exactly when the tag is flagged. */
  function ApplyUpdateSetPartial(sets: seq<Assignment>, partial: set<string>, f: PartialField, value: Value): seq<Assignment> {
    if f.tag in partial then sets + [SetValue(f.column, value)] else sets
  }

  /** The same ten calls driven by the field table. */
  function ApplyPartialFields(sets: seq<Assignment>, dto: Product, fields: seq<PartialField>): seq<Assignment>
    decreases |fields|
  {
    if |fields| == 0 then sets
    else ApplyPartialFields(ApplyUpdateSetPartial(sets, dto.partial, fields[0], TaggedValue(dto, fields[0].tag)), dto, fields[1..])
  }

  /** The SET items that do not depend on the flag set: `updated_at`
      always, then `slug` when the derived slug is non-empty. */
  function FixedSets(slug: string): seq<Assignment> {
    var sets := [SetNow("updated_at")];
    if slug != "" then sets + [SetValue("slug", VStr(slug))] else sets
  }

  /** The SET list: the fixed items, then the ten partial calls in
      source order. */
  function UpdateSets(dto: Product, slug: string): seq<Assignment> {
    var p := dto.partial;
    var s := FixedSets(slug);
    var s := ApplyUpdateSetPartial(s, p, PartialField("Code", "code"), VStr(dto.code));
    var s := ApplyUpdateSetPartial(s, p, PartialField("Name", "name"), VStr(dto.name));
    var s := ApplyUpdateSetPartial(s, p, PartialField("Description", "description"), VStr(dto.description));
    var s := ApplyUpdateSetPartial(s, p, PartialField("Quantity", "quantity"), VInt(dto.quantity));
    var s := ApplyUpdateSetPartial(s, p, PartialField("Price", "price"), VInt(dto.price));
    var s := ApplyUpdateSetPartial(s, p, PartialField("ProductBrandEmbed.BrandID", "brand_id"), VInt(dto.brandId));
    var s := ApplyUpdateSetPartial(s, p, PartialField("ProductCategoryEmbed.CategoryID", "category_id"), VInt(dto.categoryId));
    var s := ApplyUpdateSetPartial(s, p, PartialField("ProductSupplierEmbed.SupplierID", "supplier_id"), VInt(dto.supplierId));
    var s := ApplyUpdateSetPartial(s, p, PartialField("ProductStatusEmbed.StatusID", "status_id"), VInt(dto.statusId));
    ApplyUpdateSetPartial(s, p, PartialField("IsPublished", "is_published"), VBool(dto.isPublished))
  }

  /** The partial UPDATE of one product row, keyed by `id`. */
  function GetQueryUpdateByID(dto: Product, slugify: Product -> string): Update {
    Update("product", Compare(Eq, "id", VInt(dto.id)), UpdateSets(dto, slugify(dto)))
  }

  function FieldColumns(fields: seq<PartialField>): seq<string> {
    seq(|fields|, i requires 0 <= i < |fields| => fields[i].column)
  }

  /** The assignments the flagged fields contribute, in field order. */
  function Flagged(dto: Product, fields: seq<PartialField>): seq<Assignment> {
    if |fields| == 0 then []
    else
      (if fields[0].tag in dto.partial then [SetValue(fields[0].column, TaggedValue(dto, fields[0].tag))] else [])
      + Flagged(dto, fields[1..])
  }

  /** Applying the fields one call at a time appends exactly their flagged assignments. */
  lemma {:induction false} ApplyPartialFieldsAppends(sets: seq<Assignment>, dto: Product, fields: seq<PartialField>)
    ensures ApplyPartialFields(sets, dto, fields) == sets + Flagged(dto, fields)
    decreases |fields|
  {
    if |fields| > 0 {
      var f := fields[0];
      var next := ApplyUpdateSetPartial(sets, dto.partial, f, TaggedValue(dto, f.tag));
      ApplyPartialFieldsAppends(next, dto, fields[1..]);
    }
  }

  /** A flagged field contributes `column = value`; an unflagged one nothing. */
  lemma {:induction false} FlaggedMembers(dto: Product, fields: seq<PartialField>)
    ensures forall a :: a in Flagged(dto, fields) ==>
              exists j :: 0 <= j < |fields| && fields[j].tag in dto.partial
                          && a == SetValue(fields[j].column, TaggedValue(dto, fields[j].tag))
    ensures forall j :: 0 <= j < |fields| && fields[j].tag in dto.partial ==>
              SetValue(fields[j].column, TaggedValue(dto, fields[j].tag)) in Flagged(dto, fields)
    decreases |fields|
  {
    if |fields| > 0 {
      var rest := fields[1..];
      var head := if fields[0].tag in dto.partial then [SetValue(fields[0].column, TaggedValue(dto, fields[0].tag))] else [];
      FlaggedMembers(dto, rest);
      assert Flagged(dto, fields) == head + Flagged(dto, rest);
      forall a | a in Flagged(dto, fields)
        ensures exists j :: 0 <= j < |fields| && fields[j].tag in dto.partial
                            && a == SetValue(fields[j].column, TaggedValue(dto, fields[j].tag))
      {
        if a in Flagged(dto, rest) {
          var j :| 0 <= j < |rest| && rest[j].tag in dto.partial
                   && a == SetValue(rest[j].column, TaggedValue(dto, rest[j].tag));
          assert fields[j + 1] == rest[j];
        } else {
          assert a in head;
        }
      }
      forall j | 0 <= j < |fields| && fields[j].tag in dto.partial
        ensures SetValue(fields[j].column, TaggedValue(dto, fields[j].tag)) in Flagged(dto, fields)
      {
        if j > 0 {
          assert rest[j - 1] == fields[j];
        }
      }
    }
  }

  lemma {:induction false} FieldColumnsTailDistinct(fields: seq<PartialField>)
    requires |fields| > 0 && Distinct(FieldColumns(fields))
    ensures Distinct(FieldColumns(fields[1..]))
    ensures forall j :: 0 < j < |fields| ==> fields[j].column != fields[0].column
  {
    var rest := fields[1..];
    forall i, j | 0 <= i < j < |rest| ensures FieldColumns(rest)[i] != FieldColumns(rest)[j] {
      assert FieldColumns(fields)[i + 1] == rest[i].column;
      assert FieldColumns(fields)[j + 1] == rest[j].column;
    }
    forall j | 0 < j < |fields| ensures fields[j].column != fields[0].column {
      assert FieldColumns(fields)[j] == fields[j].column && FieldColumns(fields)[0] == fields[0].column;
    }
  }

  /** Putting a fresh column in front keeps the columns distinct. */
  lemma {:induction false} ColumnsConsDistinct(a0: Assignment, tail: seq<Assignment>)
    requires Distinct(Columns(tail))
    requires forall k :: 0 <= k < |tail| ==> tail[k].column != a0.column
    ensures Distinct(Columns([a0] + tail))
  {
    var cols := Columns([a0] + tail);
    forall i, j | 0 <= i < j < |cols| ensures cols[i] != cols[j] {
      if i == 0 {
        assert cols[j] == tail[j - 1].column;
      } else {
        assert cols[i] == Columns(tail)[i - 1] && cols[j] == Columns(tail)[j - 1];
      }
    }
  }

  /** Distinct field columns give distinct assigned columns. */
  lemma {:induction false} FlaggedColumnsDistinct(dto: Product, fields: seq<PartialField>)
    requires Distinct(FieldColumns(fields))
    ensures Distinct(Columns(Flagged(dto, fields)))
    decreases |fields|
  {
    if |fields| > 0 {
      var rest := fields[1..];
      FieldColumnsTailDistinct(fields);
      FlaggedColumnsDistinct(dto, rest);
      var tail := Flagged(dto, rest);
      if fields[0].tag in dto.partial {
        FlaggedMembers(dto, rest);
        var a0 := SetValue(fields[0].column, TaggedValue(dto, fields[0].tag));
        assert Flagged(dto, fields) == [a0] + tail;
        forall k | 0 <= k < |tail| ensures tail[k].column != a0.column {
          assert tail[k] in tail;
          var j :| 0 <= j < |rest| && rest[j].tag in dto.partial
                   && tail[k] == SetValue(rest[j].column, TaggedValue(dto, rest[j].tag));
          assert rest[j] == fields[j + 1];
        }
        ColumnsConsDistinct(a0, tail);
      } else {
        assert Flagged(dto, fields) == tail;
      }
    }
  }

  lemma {:induction false} PartialFieldsColumns()
    ensures Distinct(FieldColumns(PartialFields))
    ensures forall j :: 0 <= j < |PartialFields| ==>
              PartialFields[j].column != "updated_at" && PartialFields[j].column != "slug"
  {
    assert FieldColumns(PartialFields) ==
      ["code", "name", "description", "quantity", "price", "brand_id", "category_id", "supplier_id", "status_id", "is_published"];
  }

  lemma {:induction false} PartialFieldsTags()
    ensures forall i, j :: 0 <= i < j < |PartialFields| ==> PartialFields[i].tag != PartialFields[j].tag
  {
  }

  lemma {:induction false} PartialFieldsValues(dto: Product, slug: string)
    ensures forall j :: 0 <= j < |PartialFields| ==>
              ColumnValue(dto, slug, PartialFields[j].column) == Some(TaggedValue(dto, PartialFields[j].tag))
  {
  }

  /** One call of the table, from position `k` on. */
  lemma {:induction false} ApplyPartialFieldsStep(sets: seq<Assignment>, dto: Product, fields: seq<PartialField>, k: int)
    requires 0 <= k < |fields|
    ensures ApplyPartialFields(sets, dto, fields[k..]) ==
            ApplyPartialFields(ApplyUpdateSetPartial(sets, dto.partial, fields[k], TaggedValue(dto, fields[k].tag)), dto, fields[k + 1..])
  {
    assert fields[k..][1..] == fields[k + 1..];
  }

  /** The ten calls written out are the field table applied in order. */
  lemma {:induction false} UpdateSetsFollowTable(dto: Product, slug: string)
    ensures UpdateSets(dto, slug) == ApplyPartialFields(FixedSets(slug), dto, PartialFields)
  {
    var f, p := PartialFields, dto.partial;
    var s0 := FixedSets(slug);
    var s1 := ApplyUpdateSetPartial(s0, p, f[0], TaggedValue(dto, f[0].tag));
    var s2 := ApplyUpdateSetPartial(s1, p, f[1], TaggedValue(dto, f[1].tag));
    var s3 := ApplyUpdateSetPartial(s2, p, f[2], TaggedValue(dto, f[2].tag));
    var s4 := ApplyUpdateSetPartial(s3, p, f[3], TaggedValue(dto, f[3].tag));
    var s5 := ApplyUpdateSetPartial(s4, p, f[4], TaggedValue(dto, f[4].tag));
    var s6 := ApplyUpdateSetPartial(s5, p, f[5], TaggedValue(dto, f[5].tag));
    var s7 := ApplyUpdateSetPartial(s6, p, f[6], TaggedValue(dto, f[6].tag));
    var s8 := ApplyUpdateSetPartial(s7, p, f[7], TaggedValue(dto, f[7].tag));
    var s9 := ApplyUpdateSetPartial(s8, p, f[8], TaggedValue(dto, f[8].tag));
    var s10 := ApplyUpdateSetPartial(s9, p, f[9], TaggedValue(dto, f[9].tag));
    assert UpdateSets(dto, slug) == s10;
    assert f[0..] == f && f[10..] == [];
    ApplyPartialFieldsStep(s0, dto, f, 0);
    ApplyPartialFieldsStep(s1, dto, f, 1);
    ApplyPartialFieldsStep(s2, dto, f, 2);
    ApplyPartialFieldsStep(s3, dto, f, 3);
    ApplyPartialFieldsStep(s4, dto, f, 4);
    ApplyPartialFieldsStep(s5, dto, f, 5);
    ApplyPartialFieldsStep(s6, dto, f, 6);
    ApplyPartialFieldsStep(s7, dto, f, 7);
    ApplyPartialFieldsStep(s8, dto, f, 8);
    ApplyPartialFieldsStep(s9, dto, f, 9);
  }

  lemma {:induction false} UpdateSetsDecompose(dto: Product, slugify: Product -> string)
    ensures GetQueryUpdateByID(dto, slugify).sets == FixedSets(slugify(dto)) + Flagged(dto, PartialFields)
  {
    UpdateSetsFollowTable(dto, slugify(dto));
    ApplyPartialFieldsAppends(FixedSets(slugify(dto)), dto, PartialFields);
  }

  lemma {:induction false} ColumnsAppend(a: seq<Assignment>, b: seq<Assignment>)
    ensures Columns(a + b) == Columns(a) + Columns(b)
  {
  }

  /** What the field table must satisfy for the SET list to be sound. */
  predicate FieldTableOk(fields: seq<PartialField>, dto: Product, slug: string) {
    && Distinct(FieldColumns(fields))
    && (forall j :: 0 <= j < |fields| ==> fields[j].column != "updated_at" && fields[j].column != "slug")
    && (forall j :: 0 <= j < |fields| ==> ColumnValue(dto, slug, fields[j].column) == Some(TaggedValue(dto, fields[j].tag)))
  }

  /** No flagged assignment touches `updated_at` or `slug`. */
  lemma {:induction false} FlaggedAvoidsFixed(dto: Product, slug: string, fields: seq<PartialField>)
    requires FieldTableOk(fields, dto, slug)
    ensures forall k :: 0 <= k < |Flagged(dto, fields)| ==>
              Flagged(dto, fields)[k].column != "updated_at" && Flagged(dto, fields)[k].column != "slug"
  {
    var flagged := Flagged(dto, fields);
    FlaggedMembers(dto, fields);
    forall k | 0 <= k < |flagged|
      ensures flagged[k].column != "updated_at" && flagged[k].column != "slug"
    {
      assert flagged[k] in flagged;
      var j :| 0 <= j < |fields| && fields[j].tag in dto.partial
               && flagged[k] == SetValue(fields[j].column, TaggedValue(dto, fields[j].tag));
    }
  }

  lemma {:induction false} FixedPartOfSets(dto: Product, slug: string, fields: seq<PartialField>)
    requires FieldTableOk(fields, dto, slug)
    ensures var sets := FixedSets(slug) + Flagged(dto, fields);
            && |sets| > 0 && sets[0] == SetNow("updated_at")
            && ("slug" in Columns(sets) <==> slug != "")
            && (slug != "" ==> SetValue("slug", VStr(slug)) in sets)
  {
    var fixed := FixedSets(slug);
    var flagged := Flagged(dto, fields);
    var sets := fixed + flagged;
    var cols := Columns(sets);
    FlaggedAvoidsFixed(dto, slug, fields);
    if slug == "" {
      forall k | 0 <= k < |cols| ensures cols[k] != "slug" {
        if k > 0 {
          assert cols[k] == flagged[k - 1].column;
        }
      }
    } else {
      assert sets[1] == SetValue("slug", VStr(slug));
      assert cols[1] == "slug";
    }
  }

  /** One field's column is assigned iff its tag is flagged. */
  lemma {:induction false} FlaggedColumnOfSets(dto: Product, slug: string, fields: seq<PartialField>, j: int)
    requires FieldTableOk(fields, dto, slug)
    requires 0 <= j < |fields|
    ensures fields[j].column in Columns(FixedSets(slug) + Flagged(dto, fields)) <==> fields[j].tag in dto.partial
  {
    if fields[j].tag in dto.partial {
      FlaggedColumnPresent(dto, slug, fields, j);
    } else {
      FlaggedColumnAbsent(dto, slug, fields, j);
    }
  }

  lemma {:induction false} FlaggedColumnPresent(dto: Product, slug: string, fields: seq<PartialField>, j: int)
    requires 0 <= j < |fields| && fields[j].tag in dto.partial
    ensures fields[j].column in Columns(FixedSets(slug) + Flagged(dto, fields))
  {
    var fixed := FixedSets(slug);
    var flagged := Flagged(dto, fields);
    var f := fields[j];
    FlaggedMembers(dto, fields);
    var a := SetValue(f.column, TaggedValue(dto, f.tag));
    var k :| 0 <= k < |flagged| && flagged[k] == a;
    ColumnsAppend(fixed, flagged);
    assert Columns(flagged)[k] == f.column;
  }

  /** An unflagged field's column is not assigned: it is neither a fixed
      column nor the column of another (flagged) field. */
  lemma {:induction false} FlaggedColumnAbsent(dto: Product, slug: string, fields: seq<PartialField>, j: int)
    requires FieldTableOk(fields, dto, slug)
    requires 0 <= j < |fields| && fields[j].tag !in dto.partial
    ensures fields[j].column !in Columns(FixedSets(slug) + Flagged(dto, fields))
  {
    var fixed := FixedSets(slug);
    var flagged := Flagged(dto, fields);
    var f := fields[j];
    FlaggedMembers(dto, fields);
    ColumnsAppend(fixed, flagged);
    assert f.column != "updated_at" && f.column != "slug";
    assert Columns(fixed) == if slug != "" then ["updated_at", "slug"] else ["updated_at"];
    forall k | 0 <= k < |flagged| ensures Columns(flagged)[k] != f.column {
      assert flagged[k] in flagged;
      var i :| 0 <= i < |fields| && fields[i].tag in dto.partial
               && flagged[k] == SetValue(fields[i].column, TaggedValue(dto, fields[i].tag));
      assert i != j;
      assert FieldColumns(fields)[i] != FieldColumns(fields)[j];
    }
  }

  lemma {:induction false} FlaggedColumnsOfSets(dto: Product, slug: string, fields: seq<PartialField>)
    requires FieldTableOk(fields, dto, slug)
    ensures var cols := Columns(FixedSets(slug) + Flagged(dto, fields));
            forall j :: 0 <= j < |fields| ==> (fields[j].column in cols <==> fields[j].tag in dto.partial)
  {
    forall j | 0 <= j < |fields|
      ensures fields[j].column in Columns(FixedSets(slug) + Flagged(dto, fields)) <==> fields[j].tag in dto.partial
    {
      FlaggedColumnOfSets(dto, slug, fields, j);
    }
  }

  /** No column of the SET list is assigned twice. */
  lemma {:induction false} SetsDistinct(dto: Product, slug: string, fields: seq<PartialField>)
    requires FieldTableOk(fields, dto, slug)
    ensures Distinct(Columns(FixedSets(slug) + Flagged(dto, fields)))
  {
    var fixed := FixedSets(slug);
    var flagged := Flagged(dto, fields);
    ColumnsAppend(fixed, flagged);
    FlaggedColumnsDistinct(dto, fields);
    FlaggedAvoidsFixed(dto, slug, fields);
    var fixedCols := Columns(fixed);
    assert fixedCols == if slug != "" then ["updated_at", "slug"] else ["updated_at"];
    forall i, j | 0 <= i < |fixedCols| && 0 <= j < |Columns(flagged)|
      ensures fixedCols[i] != Columns(flagged)[j]
    {
      assert Columns(flagged)[j] == flagged[j].column;
    }
    DistinctAppend(fixedCols, Columns(flagged));
  }

  /** Every assigned value is the DTO's value for its column, and only
      `updated_at` is set to the clock. */
  lemma {:induction false} SetsValues(dto: Product, slug: string, fields: seq<PartialField>)
    requires FieldTableOk(fields, dto, slug)
    ensures var sets := FixedSets(slug) + Flagged(dto, fields);
            && (forall a :: a in sets && a.SetValue? ==> ColumnValue(dto, slug, a.column) == Some(a.value))
            && (forall a :: a in sets && a.SetNow? ==> a.column == "updated_at")
  {
    var flagged := Flagged(dto, fields);
    FlaggedMembers(dto, fields);
    forall a | a in FixedSets(slug) + flagged && a.SetValue?
      ensures ColumnValue(dto, slug, a.column) == Some(a.value)
    {
      if a in flagged {
        var j :| 0 <= j < |fields| && fields[j].tag in dto.partial
                 && a == SetValue(fields[j].column, TaggedValue(dto, fields[j].tag));
      }
    }
  }

  /** The partial UPDATE always targets `id = dto.ID` and refreshes
      `updated_at` first; it sets `slug` iff the derived slug is non-empty,
      and each of the ten columns iff its tag is flagged; no column is
      assigned twice, and every assigned value is the DTO's value for that
      column. */
  lemma {:induction false} UpdateByIDContract(dto: Product, slugify: Product -> string)
    ensures var u := GetQueryUpdateByID(dto, slugify);
            var cols := Columns(u.sets);
            && u.table == "product"
            && u.where == Compare(Eq, "id", VInt(dto.id))
            && |u.sets| > 0 && u.sets[0] == SetNow("updated_at")
            && ("slug" in cols <==> slugify(dto) != "")
            && (forall j :: 0 <= j < |PartialFields| ==> (PartialFields[j].column in cols <==> PartialFields[j].tag in dto.partial))
            && Distinct(cols)
            && (forall a :: a in u.sets && a.SetValue? ==> ColumnValue(dto, slugify(dto), a.column) == Some(a.value))
            && (forall a :: a in u.sets && a.SetNow? ==> a.column == "updated_at")
  {
    var fields := PartialFields;
    var slug := slugify(dto);
    UpdateSetsDecompose(dto, slugify);
    PartialFieldsColumns();
    PartialFieldsTags();
    PartialFieldsValues(dto, slug);
    assert FieldTableOk(fields, dto, slug);
    FixedPartOfSets(dto, slug, fields);
    FlaggedColumnsOfSets(dto, slug, fields);
    SetsDistinct(dto, slug, fields);
    SetsValues(dto, slug, fields);
  }

  /** The attribute sets allowed for a product: those of the attribute
      group of the product's category, reached through
      `attribute_set -> attribute_group -> category -> product`. */
  function AllowedSetsQuery(productID: int): SubSelect {
    SubSelect("ats.id", "attribute_set as ats",
      [Join(InnerJoin, "attribute_group as atg", Raw("atg.id = ats.attribute_group_id")),
       Join(InnerJoin, "category as c", Raw("c.attribute_group_id = atg.id")),
       Join(InnerJoin, "product as p", Raw("p.category_id = c.id"))],
      [Compare(Eq, "p.id", VInt(productID))])
  }

  function GetQueryDeleteInvalidAttributes(productID: int): Delete {
    Delete("product_attribute",
      [Compare(Eq, "product_id", VInt(productID)), NotIn("attribute_set_id", AllowedSetsQuery(productID))])
  }

  /** A `product_attribute` row: which product, which attribute set. */
  datatype AttributeRow = AttributeRow(productId: int, attributeSetId: int)

  /** How the clean-up's clauses read on one row, given the ids the
      allowed-sets sub-SELECT returns for each product. */
  function DeleteRowAtom(row: AttributeRow, allowed: int -> set<int>): Cond -> bool {
    (c: Cond) =>
      match c
      case Compare(op, col, arg) => op == Eq && col == "product_id" && arg == VInt(row.productId)
      case NotIn(col, q) =>
        col == "attribute_set_id" && |q.wheres| == 1 && q.wheres[0].Compare? && q.wheres[0].arg.VInt?
        && q == AllowedSetsQuery(q.wheres[0].arg.i)
        && row.attributeSetId !in allowed(q.wheres[0].arg.i)
      case _ => false
  }

  /** The clean-up deletes exactly the rows of this product whose attribute
      set is not one of those allowed for it; rows of other products are
      never touched. */
  lemma {:induction false} DeleteInvalidAttributesMeaning(productID: int, row: AttributeRow, allowed: int -> set<int>)
    ensures var del := GetQueryDeleteInvalidAttributes(productID);
            del.table == "product_attribute" &&
            (AllHold(del.wheres, DeleteRowAtom(row, allowed)) <==>
             row.productId == productID && row.attributeSetId !in allowed(productID))
  {
    var del := GetQueryDeleteInvalidAttributes(productID);
    var atom := DeleteRowAtom(row, allowed);
    var q := AllowedSetsQuery(productID);
    assert q.wheres[0].arg.i == productID;
    assert Holds(del.wheres[0], atom) <==> row.productId == productID;
    assert Holds(del.wheres[1], atom) <==> row.attributeSetId !in allowed(productID);
  }

  /** `ColumnValue` knows exactly the columns the INSERT writes. */
  lemma {:induction false} ColumnValueOnlyInsertColumns(dto: Product, slugify: Product -> string, column: string)
    ensures ColumnValue(dto, slugify(dto), column).Some? <==> column in GetQueryInsert(dto, slugify).columns
  {
    var cols := GetQueryInsert(dto, slugify).columns;
    if column in cols {
      var i :| 0 <= i < |cols| && cols[i] == column;
    }
  }

  /** A partial update never writes a column the INSERT would not, and
      writes the value the INSERT would write there. */
  lemma {:induction false} UpdateAgreesWithInsert(dto: Product, slugify: Product -> string)
    ensures var ins := GetQueryInsert(dto, slugify);
            forall a :: a in GetQueryUpdateByID(dto, slugify).sets && a.SetValue? ==>
              exists i :: 0 <= i < |ins.columns| && i < |ins.values| && ins.columns[i] == a.column && ins.values[i] == a.value
  {
    var ins := GetQueryInsert(dto, slugify);
    UpdateByIDContract(dto, slugify);
    InsertColumnsDistinct(dto, slugify);
    InsertValuesMatch(dto, slugify);
    forall a | a in GetQueryUpdateByID(dto, slugify).sets && a.SetValue?
      ensures exists i :: 0 <= i < |ins.columns| && i < |ins.values| && ins.columns[i] == a.column && ins.values[i] == a.value
    {
      ColumnValueOnlyInsertColumns(dto, slugify, a.column);
      var i :| 0 <= i < |ins.columns| && ins.columns[i] == a.column;
      assert ColumnValue(dto, slugify(dto), ins.columns[i]) == Some(ins.values[i]);
    }
  }
}
