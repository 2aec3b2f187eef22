# Product storage query shaping, in Dafny

A model of the query-shaping core of the SQLite product storage of a small
CRM/shop backend. Every decision this code makes is a finite branch over
immutable inputs, and every output can be stated as "this clause is present
iff …". The generated SQL is modelled as an abstract clause and statement
datatype (`Sql`), not as rendered text. SQL text (quoted identifiers, fixed
column expressions) is kept apart from bound arguments, so contracts can say
which clauses appear and what is bound.

The modules follow the source files:

- `Identifier` covers `quoteIdentifier` (`internal/app/storage/sqlitedb/utils.go`). It cuts the name at its first NUL, doubles every `"` and wraps the result in `"`. The module proves:
  - a round trip back to the name;
  - injectivity on NUL-free names;
  - the length law;
  - that whatever follows the first NUL is ignored.
- `QueryBuilder` covers `applyQueryWhere` and `applyQueryOrderBy` (same file).
  - Each known operator becomes one fragment on the quoted field: a comparison, a `LIKE` pattern built from the value's `%v` text, or `BETWEEN` for a two-element list.
  - Any other operator is silently dropped.
  - Each input group becomes one OR clause, in group order; the added WHERE clauses are AND-ed.
  - Each sort key becomes `"field" ASC` or `"field" DESC`, in input order.
  - Semantic lemmas state that the clauses mean "every group has a surviving comparison that holds". Under the SQLite `LIKE` semantics in `Like`, `begins`/`contains`/`ends` mean prefix/substring/suffix of the value's text when that text is wildcard-free; a `%` or `_` in it widens the match.
- `Like` gives the meaning of SQLite `LIKE` without `ESCAPE`: `%`, `_`, and ASCII case-insensitivity.
- `Decimal` models `strconv.Atoi` (an optional sign, then decimal digits) and `%d`.
- `ProductQueries` covers `internal/app/storage/sqlitedb/product_storage.go`:
  - the category scope and the two allow-list tables of `getQueryFindMany`;
  - the INSERT of `getQueryInsert`;
  - the partial UPDATE of `getQueryUpdateByID`;
  - the attribute clean-up DELETE of `getQueryDeleteInvalidAttributes`.
- `Facets` covers `getQueryFindAvailableByCategoryID` over a `FilterCombination` (`map<string, set<int>>`).
  - Go's map iteration order is a parameter: any duplicate-free enumeration of the keys.
  - The module proves the brand clause and attribute joins present iff the matching keys are, with counts.
  - It proves independence from the iteration order, as equal WHERE lists and joins equal up to permutation.
  - It proves the facet meaning: AND across facets, OR within a facet.
- `ProductWrites` covers the control flow of `UpsertOne` and `UpdateMany`. The transaction and the batch executor are oracles that may fail at BEGIN, at any statement or at COMMIT.

Behaviour the model follows from the code, where a reader might expect otherwise:

- **Commit failure.** When COMMIT fails, `UpsertOne` returns the chosen id together with the error (product_storage.go:288). Only failures at BEGIN or at a statement return 0.
- **Empty facet sets.** An empty value set for a facet key is not skipped: it still yields its `IN` clause or join.
- **`attribute_set_id` not constrained.** The attribute join constrains `product_id` and `attribute_value_id` only, not `attribute_set_id`.
- **Aliases can collide.**
  - Facet keys `"3"`, `"03"` and `"+3"` all parse to 3 and share the alias `pa_3`, so the query joins it twice.
  - A negative key gives the alias `pa_-3`.
  - The brand key is the literal `"B"`.
- **LIKE wildcards not escaped.** `%` and `_` inside a filter value are not escaped, so they act as wildcards (`QueryBuilder.UnescapedWildcardWidens`).
- **Different import path.** `utils.go` imports a different module path from `product_storage.go`, and the storage code does not call its helpers (it calls `storage.ApplyFilters`/`ApplySorters`). Both are modelled as they stand.

## Model

| member | source | states |
|---|---|---|
| Identifier.IndexRune | internal/app/storage/sqlitedb/utils.go:13 | the first position of the rune, or -1 exactly when it does not occur; no earlier occurrence |
| Identifier.CutAtNul | internal/app/storage/sqlitedb/utils.go:13-16 | the result is the prefix before the first NUL, is NUL-free, and is the whole name when there is no NUL |
| Identifier.Escape | internal/app/storage/sqlitedb/utils.go:17 | doubling quotes adds one character per quote and introduces no NUL |
| Identifier.QuoteIdentifier | internal/app/storage/sqlitedb/utils.go:12-18 | the quoted form of a field name: its contract is carried by `QuoteIdentifierShape`, `QuoteRoundTrip`, `QuoteInjective` and `QuoteIgnoresAfterNul` |
| Identifier.QuoteIdentifierShape | internal/app/storage/sqlitedb/utils.go:12-18 | the result begins and ends with `"` and never contains NUL; for NUL-free input its length is 2 + the input length + the count of `"` in the input |
| Identifier.UnescapeEscape | internal/app/storage/sqlitedb/utils.go:17 | collapsing each `""` undoes the doubling |
| Identifier.QuoteRoundTrip | internal/app/storage/sqlitedb/utils.go:12-18 | stripping the outer quotes and collapsing `""` gives back the name up to its first NUL, and the name exactly when it is NUL-free |
| Identifier.QuoteInjective | internal/app/storage/sqlitedb/utils.go:12-18 | distinct NUL-free names quote to distinct identifiers |
| Identifier.QuoteIgnoresAfterNul | internal/app/storage/sqlitedb/utils.go:13-16 | the result depends only on the part before the first NUL |
| Like.LiteralMatch | internal/app/storage/sqlitedb/utils.go:37-42 | a wildcard-free pattern matches exactly the strings equal to it up to ASCII case |
| Like.PrefixMatch | internal/app/storage/sqlitedb/utils.go:37-38 | for wildcard-free `v`, `v%` matches exactly the strings starting with `v` (case-insensitively) |
| Like.ContainsMatch | internal/app/storage/sqlitedb/utils.go:39-40 | for wildcard-free `v`, `%v%` matches exactly the strings containing `v` (case-insensitively) |
| Like.SuffixMatch | internal/app/storage/sqlitedb/utils.go:41-42 | for wildcard-free `v`, `%v` matches exactly the strings ending with `v` (case-insensitively) |
| Like.PathUnderItself | internal/app/storage/sqlitedb/product_storage.go:65 | every materialized path matches itself followed by `%`, wildcards in the path included, so the selected category is in its own subtree |
| Decimal.AtoiItoa | internal/app/storage/sqlitedb/product_storage.go:140-141 | `Decimal.Atoi`, the model of `strconv.Atoi` (optional sign, then decimal digits), parses the `%d` form of any integer back to that integer |
| Decimal.AtoiLeadingZero | internal/app/storage/sqlitedb/product_storage.go:140-141 | a leading zero does not change the parsed number |
| QueryBuilder.Translate | internal/app/storage/sqlitedb/utils.go:24-48 | one comparison's fragment, or none when it is dropped: its contract is carried by `TranslateSurvives`, `TranslateShape`, `TranslateBindsValue` and the three `*Means*` lemmas |
| QueryBuilder.TranslateSurvives | internal/app/storage/sqlitedb/utils.go:26-48 | a comparison survives iff its operator is one of the ten cases of the switch, and a `between` survives only with a two-element list |
| QueryBuilder.TranslateShape | internal/app/storage/sqlitedb/utils.go:25-47 | a surviving comparison becomes one comparison, `LIKE` or `BETWEEN` atom on the quoted field |
| QueryBuilder.TranslateBindsValue | internal/app/storage/sqlitedb/utils.go:27-46 | `=` and `is` give an equality, `>`/`<`/`>=`/`<=` the matching comparison, each with the value bound as is; `begins`, `contains` and `ends` give a `LIKE` on the quoted field with pattern `v%`, `%v%` and `%v` over the value's `%v` text; `between` with a pair binds its two elements |
| QueryBuilder.BeginsMeansPrefix | internal/app/storage/sqlitedb/utils.go:37-38 | for wildcard-free value text, `begins` selects exactly the rows whose field starts with that text (ASCII case-insensitively) |
| QueryBuilder.ContainsMeansSubstring | internal/app/storage/sqlitedb/utils.go:39-40 | for wildcard-free value text, `contains` selects exactly the rows whose field contains that text (ASCII case-insensitively) |
| QueryBuilder.EndsMeansSuffix | internal/app/storage/sqlitedb/utils.go:41-42 | for wildcard-free value text, `ends` selects exactly the rows whose field ends with that text (ASCII case-insensitively) |
| QueryBuilder.UnescapedWildcardWidens | internal/app/storage/sqlitedb/utils.go:37-38 | a `begins` filter on "a_" binds the pattern `a_%`, which admits "abc" although "abc" does not start with "a_": wildcards in values are not escaped |
| QueryBuilder.GroupFragmentsMembers | internal/app/storage/sqlitedb/utils.go:22-49 | a group keeps at most one fragment per comparison; every fragment comes from a comparison of the group and every surviving comparison contributes its fragment |
| QueryBuilder.GroupFragmentsAppend | internal/app/storage/sqlitedb/utils.go:24-49 | the fragments of two concatenated lists are the concatenation of their fragments (input order is kept) |
| QueryBuilder.FragmentsAreAtoms | internal/app/storage/sqlitedb/utils.go:24-49 | every fragment of a group is a single atom, so it holds exactly when that atom holds |
| QueryBuilder.BuildGroup | internal/app/storage/sqlitedb/utils.go:22-49 | the inner loop collects exactly the surviving fragments in input order |
| QueryBuilder.ApplyQueryWhere | internal/app/storage/sqlitedb/utils.go:20-53 | exactly one WHERE clause is added per input group, in group order, each the OR of that group's fragments; nothing else in the query changes |
| QueryBuilder.GroupClauseMeaning | internal/app/storage/sqlitedb/utils.go:51 | a group's clause holds iff some surviving comparison of the group holds |
| QueryBuilder.GroupClausesMeaning | internal/app/storage/sqlitedb/utils.go:20-53 | the added clauses hold iff every group has a surviving comparison that holds (groups AND-ed, comparisons OR-ed) |
| QueryBuilder.OrderTermRoundTrip | internal/app/storage/sqlitedb/utils.go:57-62 | an ORDER BY term reads back as the sort field (up to its first NUL) and its direction: DESC iff `Desc` |
| QueryBuilder.OrderTermsMeaning | internal/app/storage/sqlitedb/utils.go:55-64 | one term per sort key, in input order, each naming that key's field and direction |
| QueryBuilder.ApplyQueryOrderBy | internal/app/storage/sqlitedb/utils.go:55-64 | the loop appends exactly those terms in input order and changes nothing else |
| ProductQueries.GetQueryFindMany | internal/app/storage/sqlitedb/product_storage.go:63-103 | the count column and the `c_selected` subtree join are added; the only WHERE clause it adds itself is the category scope: `c_selected.parent_id is null` (top-level categories) iff the category id is 0, and `c_selected.id = categoryID` iff it is not; the fixed allow-lists and the caller's limit, offset, filters and sorters are handed on |
| ProductQueries.AllowListKeys | internal/app/storage/sqlitedb/product_storage.go:73-96 | the filter allow-list has exactly nine keys and the sorter allow-list exactly ten, as listed |
| ProductQueries.AllowListsDiffer | internal/app/storage/sqlitedb/product_storage.go:73-96 | `category` is filterable only, `created_at`/`updated_at` sortable only; status, supplier and brand map to different expressions in each table, and all other shared keys to the same one |
| ProductQueries.CategoryScopeIsSubtree | internal/app/storage/sqlitedb/product_storage.go:65-71 | with wildcard-free paths the scope admits exactly the categories under a top-level category (id 0) or under the selected category |
| ProductQueries.SelectedCategoryInOwnScope | internal/app/storage/sqlitedb/product_storage.go:65-71 | a selected (non-zero) category lies in its own scope, whatever its path |
| ProductQueries.GetQueryInsert | internal/app/storage/sqlitedb/product_storage.go:196-225 | the INSERT of a new product: its contract is carried by `InsertColumnsDistinct`, `InsertValuesMatch` and `ColumnValueOnlyInsertColumns` |
| ProductQueries.InsertColumnsDistinct | internal/app/storage/sqlitedb/product_storage.go:196-210 | the INSERT names eleven distinct columns of `product`, with as many values, and none of them is `id`, `created_at` or `updated_at` |
| ProductQueries.InsertValuesMatch | internal/app/storage/sqlitedb/product_storage.go:197-223 | each INSERT value is the DTO's value for its column, and the derived slug for `slug` |
| ProductQueries.GetQueryUpdateByID | internal/app/storage/sqlitedb/product_storage.go:227-246 | the partial UPDATE of one product: its contract is carried by `UpdateByIDContract` and `UpdateAgreesWithInsert`, built from the lemmas below |
| ProductQueries.UpdateSetsFollowTable | internal/app/storage/sqlitedb/product_storage.go:235-244 | the ten `ApplyUpdateSetPartial` calls are the field table applied in order |
| ProductQueries.ApplyPartialFieldsAppends | internal/app/storage/sqlitedb/product_storage.go:235-244 | applying the fields one call at a time appends exactly the flagged fields' assignments, in table order |
| ProductQueries.UpdateSetsDecompose | internal/app/storage/sqlitedb/product_storage.go:229-244 | the SET list is the fixed items followed by the flagged fields' assignments |
| ProductQueries.FlaggedMembers | internal/app/storage/sqlitedb/product_storage.go:235-244 | an assignment is added iff it is `column = value` for a field whose tag is flagged |
| ProductQueries.FlaggedColumnsDistinct | internal/app/storage/sqlitedb/product_storage.go:235-244 | with distinct table columns no flagged column is assigned twice |
| ProductQueries.PartialFieldsColumns | internal/app/storage/sqlitedb/product_storage.go:235-244 | the ten partial-update columns are distinct and none is `updated_at` or `slug` |
| ProductQueries.PartialFieldsTags | internal/app/storage/sqlitedb/product_storage.go:235-244 | the ten partial-update tags are distinct |
| ProductQueries.PartialFieldsValues | internal/app/storage/sqlitedb/product_storage.go:235-244 | each call passes the DTO field that belongs in its column |
| ProductQueries.FlaggedAvoidsFixed | internal/app/storage/sqlitedb/product_storage.go:230-244 | no flagged assignment touches `updated_at` or `slug` |
| ProductQueries.FixedPartOfSets | internal/app/storage/sqlitedb/product_storage.go:230-234 | the SET list starts with `updated_at = unixepoch()` and sets `slug` iff the slug is non-empty, to that slug |
| ProductQueries.FlaggedColumnOfSets | internal/app/storage/sqlitedb/product_storage.go:235-244 | a table column appears in SET iff its tag is flagged |
| ProductQueries.FlaggedColumnPresent | internal/app/storage/sqlitedb/product_storage.go:235-244 | a flagged field's column is assigned |
| ProductQueries.FlaggedColumnAbsent | internal/app/storage/sqlitedb/product_storage.go:230-244 | an unflagged field's column is not assigned, neither as a fixed item nor through another field |
| ProductQueries.FlaggedColumnsOfSets | internal/app/storage/sqlitedb/product_storage.go:235-244 | every table column appears in SET iff its tag is flagged |
| ProductQueries.SetsDistinct | internal/app/storage/sqlitedb/product_storage.go:230-244 | no column of the SET list is assigned twice |
| ProductQueries.SetsValues | internal/app/storage/sqlitedb/product_storage.go:230-244 | each assigned value is the DTO's value for that column (the derived slug for `slug`), and only `updated_at` is set to the clock |
| ProductQueries.UpdateByIDContract | internal/app/storage/sqlitedb/product_storage.go:227-246 | the UPDATE is on `product` with `WHERE id = dto.ID`; it always sets `updated_at`, sets `slug` iff `Slugify()` is non-empty, and sets each of the ten columns iff its tag is in `dto.Partial`; no column is set twice and every value is the DTO's |
| ProductQueries.ColumnValueOnlyInsertColumns | internal/app/storage/sqlitedb/product_storage.go:198-210 | the columns the model gives a value for are exactly the INSERT's columns |
| ProductQueries.UpdateAgreesWithInsert | internal/app/storage/sqlitedb/product_storage.go:196-246 | a partial update writes only columns the INSERT writes, each with the value the INSERT would write |
| ProductQueries.GetQueryDeleteInvalidAttributes | internal/app/storage/sqlitedb/product_storage.go:248-260 | the clean-up DELETE: its contract is carried by `DeleteInvalidAttributesMeaning` |
| ProductQueries.DeleteInvalidAttributesMeaning | internal/app/storage/sqlitedb/product_storage.go:248-260 | the clean-up deletes a `product_attribute` row iff it belongs to the product and its attribute set is not one the sub-SELECT returns for that product; other products' rows are never touched |
| Facets.GetQueryFindAvailableByCategoryID | internal/app/storage/sqlitedb/product_storage.go:130-149 | the availability predicate and `c_selected.id = categoryID` are always the first WHERE clauses, and the subtree join the first join; the loop adds the brand clause and attribute joins of the keys in iteration order |
| Facets.BrandWheresOnce | internal/app/storage/sqlitedb/product_storage.go:136-139 | over distinct keys the brand clause appears at most once |
| Facets.BrandClausePresentIff | internal/app/storage/sqlitedb/product_storage.go:138-139 | a `p.brand_id IN` clause is added iff the combination has key "B", over exactly that key's set |
| Facets.AttributeJoinsMembers | internal/app/storage/sqlitedb/product_storage.go:140-145 | each join comes from a listed numeric key and each listed numeric key yields its join |
| Facets.AttributeJoinsPresentIff | internal/app/storage/sqlitedb/product_storage.go:140-145 | every key that `Atoi` accepts yields one inner join `pa_n` with `pa_n.product_id = p.id AND pa_n.attribute_value_id IN` exactly its set (empty set included); every join added is of that form; other keys add nothing |
| Facets.AttributeJoinsCount | internal/app/storage/sqlitedb/product_storage.go:136-146 | over distinct keys there is one join per numeric key |
| Facets.JoinCountIsNumericKeys | internal/app/storage/sqlitedb/product_storage.go:136-146 | the number of attribute joins equals the number of numeric keys of the combination |
| Facets.EnumerationsPermute | internal/app/storage/sqlitedb/product_storage.go:136 | two iteration orders of the same map are permutations of each other |
| Facets.FlatMapPermute | internal/app/storage/sqlitedb/product_storage.go:136-146 | permuting the keys permutes what they contribute |
| Facets.AttributeJoinsPermute | internal/app/storage/sqlitedb/product_storage.go:136-146 | permuting the keys permutes the attribute joins |
| Facets.OrderIndependent | internal/app/storage/sqlitedb/product_storage.go:136-146 | any two iteration orders give the same WHERE list and the same joins up to order |
| Facets.AttributeJoinAdmits | internal/app/storage/sqlitedb/product_storage.go:141-144 | an attribute join keeps a product iff one of its attribute values is in the join's set |
| Facets.BrandPartMeaning | internal/app/storage/sqlitedb/product_storage.go:138-139 | the brand clauses hold iff the product's brand is in the "B" set, when that key is present |
| Facets.AttributePartMeaning | internal/app/storage/sqlitedb/product_storage.go:140-145 | the attribute joins keep a product iff, for every numeric key, one of its values is in that key's set |
| Facets.FacetsMeaning | internal/app/storage/sqlitedb/product_storage.go:136-146 | a product passes the facet clauses iff its brand is in the "B" set (when present) and, for every numeric key, one of its attribute values is in that key's set, for any iteration order |
| Facets.AliasesDistinctIff | internal/app/storage/sqlitedb/product_storage.go:140-145 | over distinct keys, the joins declare pairwise different `pa_n` aliases iff no two numeric keys parse to the same number |
| Facets.AliasesCollide | internal/app/storage/sqlitedb/product_storage.go:140-141 | keys "3" and "03" both yield a join on `product_attribute as pa_3` |
| Facets.ExampleCombination | internal/app/storage/sqlitedb/product_storage.go:136-146 | for brands {7, 9}, attribute set 3 with value 101 and a non-numeric key, the query gets one brand clause and one join, and the other key adds nothing |
| ProductWrites.UpsertOne | internal/app/storage/sqlitedb/product_storage.go:262-289 | the insert-or-update transaction: its contract is carried by `UpsertOneCommitsIffNoError`, `UpsertOneChoosesStatement`, `UpsertOneCleansChosenId` and `UpsertOneFailures` |
| ProductWrites.UpsertOneCommitsIffNoError | internal/app/storage/sqlitedb/product_storage.go:262-289 | `UpsertOne` commits iff it reports no error, and every error carries the operation name |
| ProductWrites.UpsertOneChoosesStatement | internal/app/storage/sqlitedb/product_storage.go:265-281 | nothing runs if BEGIN fails; otherwise the first statement is an INSERT iff `dto.ID == 0`, and otherwise the UPDATE of row `dto.ID` |
| ProductWrites.UpsertOneCleansChosenId | internal/app/storage/sqlitedb/product_storage.go:271-288 | once the write succeeds the clean-up runs for the inserted id or for `dto.ID`; on success that id is returned, even for an UPDATE that touched no row |
| ProductWrites.UpsertOneFailures | internal/app/storage/sqlitedb/product_storage.go:265-288 | a failure at BEGIN, the write or the clean-up returns 0 with the wrapped error; a failure at COMMIT returns the chosen id with the wrapped error |
| ProductWrites.UpdateMany | internal/app/storage/sqlitedb/product_storage.go:291-305 | the batch of partial updates: its contract is carried by `UpdateManyContract` |
| ProductWrites.UpdateManyContract | internal/app/storage/sqlitedb/product_storage.go:291-305 | one UPDATE per DTO in input order, each keyed by that DTO's id; success returns the executor's count and no error, failure returns 0 with the wrapped error |

## Left out

- **go-sqlbuilder rendering** is left out because the library is not part of this model. This covers `BuildWithFlavor`, placeholder numbering, quoting of the fixed text, and what `Or()` or `In()` render for an empty list. The model shows which abstract clauses appear.
- **go-sqlbuilder accumulation** is assumed, because the library is not part of this model: every `Where`, `JoinWithOption` and `SetMore` call appends to what earlier calls added, and the repeated `OrderBy` calls of `applyQueryOrderBy` (utils.go:59-61) append terms rather than replace them.
- **Hidden helpers.** `storage.ApplyFilters`, `ApplySorters` and `ApplyLimitOffset` are not modelled. `getQueryFindMany` only hands them its arguments and allow-lists, so nothing is claimed about dropping fields outside the allow-lists.
- **`utils.WrapIfErr`** has a body that is not part of this model. `ProductWrites.WrapIfErr` takes it to return no error for no error, and otherwise an error carrying the operation name and the cause (`Common.Error`). The error-path clauses of `ProductWrites.UpsertOneCommitsIffNoError`, `ProductWrites.UpsertOneFailures` and `ProductWrites.UpdateManyContract` rest on that assumption.
- **`storage.ApplyUpdateSetPartial` and `model.Product.Slugify`** have bodies that are not part of this model. The first is taken to append `column = value` exactly when the tag is flagged. The second is an uninterpreted function parameter.
- **The fixed SELECT list, base joins and category CTE** of `getQuerySelectBase` are fixed text with no branching. They appear as an empty base `Select`.
- **Execution.** `runSelect`, `runGet`, the `runExec*` helpers, `Beginx`/`Commit`/`Rollback`, contexts and `fillDtoDetails` are database I/O. They are oracles, or left out. `runExecAffectedRangeNewTx` is one failing oracle over the batch, so its atomicity and row-count summing are not modelled.
- **The debug `fmt.Println("YES")`** in the `between` branch is a console side effect.
- **The facet DTOs `FilterFacet` and `FilterFacetValue`** carry no behaviour.
- **Decimal.Atoi** parses an optional sign then decimal digits, without the 64-bit range check of `strconv.Atoi`, so keys outside that range are treated as numbers.
- **Floating-point values** in `%v` formatting are left out. Values are strings, integers, booleans, nil and lists. `model.Product` is not part of this model; its price is assumed to be an integer.
- **Bytes and characters.** Strings are sequences of characters; Go's byte-level `name[:end]` coincides with this for the NUL rune.
- **Facet ordering.** No ordering of the joins is claimed, because Go's map iteration does not fix one. Alias uniqueness holds only as `Facets.AliasesDistinctIff` states it.
- **QueryBuilder.GroupClausesMeaning** is stated only for groups that keep at least one comparison. What an empty `Or()` renders to is the library's business.
- **QueryBuilder.GroupClauseMeaning** has the same restriction, for the same reason.
- **Facets.FacetsMeaning** reads an `IN` over an empty set as false, which is SQL's meaning. How the library renders an empty list is not modelled.
- **Facets.FacetsMeaning** and **Facets.AttributePartMeaning** read each join against its own `product_attribute` row, under set semantics. Two keys that parse to the same number (`Facets.AliasesDistinctIff`, `Facets.AliasesCollide`) declare one alias twice, and SQLite's name resolution for that SQL is outside this reading. Row multiplicity is outside it too: the inner joins have no DISTINCT, so a product can come back once per matching `product_attribute` row.
- **ProductQueries.DeleteInvalidAttributesMeaning** takes the sub-SELECT's result per product as a parameter. The join chain `attribute_set → attribute_group → category → product` is kept as abstract clauses and is not evaluated.
- **Other operations of `product_storage.go`** are outside the modelled core. These are `FindMany`, `FindAvailableByCategoryID`, `GetByID`, `DeleteManyByID` and the attribute queries. They only run a built query.
