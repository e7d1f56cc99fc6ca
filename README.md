# Association-rule mining: transaction table and frequent-itemset miner

This project models the market-basket core of the Association-Rule-Mining repository in Dafny:

- **The transaction table** is `DataBasket` in `data_parser.py`. It holds a product catalog and a basket matrix of quantities, with one row per transaction and one column per catalog product. From them it derives a lazily built, cached list of the products each transaction bought. Either setter marks that cache stale.
- **The per-line parse of the basket file** is also in `data_parser.py`. A line is split on commas, each field is stripped and read as an integer, and the leading transaction number is dropped.
- **The frequent-itemset miner** is `AssociationRuleMiner.build_frequent_item_sets`. It runs an Apriori-style levelled search:
  - Level 1 is the catalog singletons that pass the support test.
  - Each later level joins every pair of positions `i < j` of the level before whose sets differ. It keeps the frequent unions once each.
  - The search stops once a level has at most one itemset.

Modules:

- `Failures` (failures.dfy): `Option`, `Result`, `Outcome`, and one `Error` value for each kind of failure the source raises.
- `BasketRow` (basket_row.dfy): `str.split(',')`, `str.strip()` and `int()`, modelled as functions. It also states the round trip from a written line back to its row.
- `FrequentSets` (frequent_sets.dfy): the search as functions on values, with the lemmas about it and its termination argument. It also proves that raising the support threshold can only shrink the result (`ThresholdMonotone`).
- `DataParser` (data_basket.dfy): the class `DataBasket`. Its `Valid()` invariant ties the cache to the function `ItemSetsOf` whenever the cache is not marked stale.
- `Miner` (association_rule_miner.dfy): the class `AssociationRuleMiner` and the loops of `build_frequent_item_sets`. Each loop is proved to compute the matching `FrequentSets` function.

Modelling choices:

- A product is referred to by its catalog position. `Product` defines no equality, so set membership in the source is object identity. An itemset is therefore a `set<nat>` of catalog indices.
- A threshold is a rational `num / den` with `den > 0`. The test `count / n >= t` becomes `count * den >= num * n`. `FrequentSets.FrequentIsRatioTest` proves the two agree over the reals.
- The termination measure is `n - k`, where `n` is the catalog size and `k` is the current number of levels. Level `k` holds distinct sets, each with at least `k` indices below `n`. Two such sets exist only if `k < n`.

Behaviours of the code the model keeps as they are:

- Products compare by identity: `Product` defines no `__eq__`, so two products with the same name are still different set elements.
- Only row 0 of a matrix is checked against the catalog width. A later row with a positive quantity past the catalog makes `item_sets` raise an IndexError (`ProductIndexOutOfRange`). A shorter row is accepted as it is.
- Thresholds are not validated; any value is accepted.
- With an empty catalog the miner never reads the item sets: it returns one empty level, even when there is no matrix.
- The division by zero in the support test happens only when a non-empty catalog meets zero transactions. A stored matrix always has a row, because both the constructor and the setter index row 0. So through a `DataBasket` this division cannot occur, as long as the stored lists are not mutated in place (see "## Left out"). `Mine` still models it as `EmptyTable`, and `BuildFrequentItemSets` proves it never returns that error.
- Rule generation is a stub (`build_association_rules` does nothing).

## Model

| member | source | states |
|---|---|---|
| `BasketRow.Split` | AssociationRuleMiner/AssociationRuleMiner/data_parser.py:41 | `line.split(',')` yields at least one field, and no field contains a comma |
| `BasketRow.JoinSplit` | AssociationRuleMiner/AssociationRuleMiner/data_parser.py:41 | joining the split fields with commas gives back the line |
| `BasketRow.SplitJoin` | AssociationRuleMiner/AssociationRuleMiner/data_parser.py:41 | splitting a comma-join of comma-free fields gives back the fields |
| `BasketRow.StripPadded` | AssociationRuleMiner/AssociationRuleMiner/data_parser.py:41 | `strip()` removes exactly the whitespace padding around a field whose ends are not whitespace |
| `BasketRow.Strip` | AssociationRuleMiner/AssociationRuleMiner/data_parser.py:41 | `x.strip()` is a slice of `x` with only whitespace before and after it, and it neither starts nor ends with whitespace |
| `BasketRow.ParseInt` | AssociationRuleMiner/AssociationRuleMiner/data_parser.py:41 | `int()` accepts a string iff it is an optional leading sign followed by digits with single underscores between them, and has at most 4300 digits; a `-` gives a value `<= 0`, otherwise the value is `>= 0` |
| `BasketRow.SignedParse` | AssociationRuleMiner/AssociationRuleMiner/data_parser.py:41 | a leading `+` leaves the value unchanged and a leading `-` negates it |
| `BasketRow.LeadingZeroParse` | AssociationRuleMiner/AssociationRuleMiner/data_parser.py:41 | an extra leading zero leaves the value unchanged, as long as the digits stay within the limit |
| `BasketRow.UnderscoreParse` | AssociationRuleMiner/AssociationRuleMiner/data_parser.py:41 | one underscore between two digit groups leaves the value unchanged |
| `BasketRow.ParseFields` | AssociationRuleMiner/AssociationRuleMiner/data_parser.py:41-44 | the list comprehension succeeds iff every stripped field is an integer, and then holds each field's value in order |
| `BasketRow.ParseBasketRow` | AssociationRuleMiner/AssociationRuleMiner/data_parser.py:40-46 | a line parses iff all its fields are integers, otherwise `NonNumericBasket`; the row is the field values after the first, one per remaining field |
| `BasketRow.DecimalParses` | AssociationRuleMiner/AssociationRuleMiner/data_parser.py:41 | `int()` reads an integer's decimal form back as that integer when it has at most 4300 digits, and rejects it otherwise |
| `BasketRow.FormatParseRoundTrip` | AssociationRuleMiner/AssociationRuleMiner/data_parser.py:40-46 | parsing the line written for transaction `id` with quantities `row`, newline included, yields exactly `row` when every number has at most 4300 digits, and `NonNumericBasket` otherwise |
| `DataParser.ItemSetsOf` | AssociationRuleMiner/AssociationRuleMiner/data_parser.py:99-108 | fails with `ItemSetsNeedData` without catalog or matrix, or with `ProductIndexOutOfRange` if a row has a positive quantity past the catalog; otherwise one set per row, in row order, with product `p` in row `k`'s set iff entry `p` of row `k` is positive |
| `DataParser.InitArgs` | AssociationRuleMiner/AssociationRuleMiner/data_parser.py:51-64 | the constructor fails iff a matrix is passed without a products list, or both are present and the matrix is empty (`EmptyMatrix`) or row 0's width differs from the catalog size (`RowWidthMismatch`); otherwise it stores what was passed, and a stored matrix has a row 0 as wide as the catalog |
| `DataParser.DataBasket.Create` | AssociationRuleMiner/AssociationRuleMiner/data_parser.py:51-67 | a successful construction gives a fresh valid table holding the checked arguments, with its item sets marked for generation; a failed one reports the constructor's error |
| `DataParser.DataBasket.Init` | AssociationRuleMiner/AssociationRuleMiner/data_parser.py:65-67 | stores catalog and matrix, marks item sets for generation, and establishes `Valid()` |
| `DataParser.DataBasket.SetProductsList` | AssociationRuleMiner/AssociationRuleMiner/data_parser.py:73-78 | the new catalog is stored, the matrix becomes None, item sets are marked stale, and the cached list is untouched |
| `DataParser.DataBasket.SetBasketMatrix` | AssociationRuleMiner/AssociationRuleMiner/data_parser.py:84-95 | fails iff there is no products list (`CatalogRequired`), the value is None (`NoneMatrix`) or empty (`EmptyMatrix`), or row 0's width differs from the catalog size (`RowWidthMismatch`); nothing changes on failure; on success the matrix is stored and item sets are marked stale; the catalog never changes |
| `DataParser.DataBasket.ItemSets` | AssociationRuleMiner/AssociationRuleMiner/data_parser.py:97-110 | the result is always `ItemSetsOf` of the current catalog and matrix; a read while the cache is fresh returns the cached list and changes nothing; a successful read leaves the cache fresh and equal to the result; catalog and matrix never change |
| `DataParser.StoredTableNotEmpty` | AssociationRuleMiner/AssociationRuleMiner/data_parser.py:62-64 | a table whose matrix passed the row-0 check has at least one transaction whenever its item sets can be built |
| `FrequentSets.SupportCount` | AssociationRuleMiner/AssociationRuleMiner/AssociationRuleMiner.py:23-26 | the support count never exceeds the number of transactions |
| `FrequentSets.SupportCountIsCardinality` | AssociationRuleMiner/AssociationRuleMiner/AssociationRuleMiner.py:23-26 | the support count equals the number of transaction positions whose set contains the itemset |
| `FrequentSets.SupportAntiMonotone` | AssociationRuleMiner/AssociationRuleMiner/AssociationRuleMiner.py:31-35 | a superset is contained in no more transactions than its subset (the a-priori property the loop comment relies on) |
| `FrequentSets.FrequentIsRatioTest` | AssociationRuleMiner/AssociationRuleMiner/AssociationRuleMiner.py:27 | the integer test `count * den >= num * n` agrees with the real-number test `count / n >= num / den` for `n > 0` |
| `FrequentSets.Level1Members` | AssociationRuleMiner/AssociationRuleMiner/AssociationRuleMiner.py:18-29 | level 1 holds exactly the singletons `{p}`, for catalog products `p`, that are frequent |
| `FrequentSets.Level1Ordered` | AssociationRuleMiner/AssociationRuleMiner/AssociationRuleMiner.py:20-21 | level 1 lists its singletons in catalog order |
| `FrequentSets.CandidatesMembers` | AssociationRuleMiner/AssociationRuleMiner/AssociationRuleMiner.py:41-49 | a candidate is exactly a union of the sets at two positions `i < j` of the previous level that are unequal |
| `FrequentSets.SurvivorsSpec` | AssociationRuleMiner/AssociationRuleMiner/AssociationRuleMiner.py:52-60 | a set survives the filter iff it is a frequent candidate, and survivors are pairwise distinct |
| `FrequentSets.SurvivorsOrder` | AssociationRuleMiner/AssociationRuleMiner/AssociationRuleMiner.py:52-60 | survivors keep the order of their first appearance among the candidates |
| `FrequentSets.Level1Shape` | AssociationRuleMiner/AssociationRuleMiner/AssociationRuleMiner.py:18-21 | level 1 holds distinct non-empty sets of catalog indices |
| `FrequentSets.LevelIndexBound` | AssociationRuleMiner/AssociationRuleMiner/AssociationRuleMiner.py:31 | when level `k` has two itemsets, `k` is below the catalog size, so the loop can run again only that often |
| `FrequentSets.NextLevelShape` | AssociationRuleMiner/AssociationRuleMiner/AssociationRuleMiner.py:36-61 | if level `k` holds distinct sets of at least `k` catalog indices, the next level holds distinct sets of at least `k + 1` |
| `FrequentSets.MineFromFacts` | AssociationRuleMiner/AssociationRuleMiner/AssociationRuleMiner.py:31-62 | the loop keeps the levels it starts from, and each new level is the next level of the one before. Every level from there on has the shape above, and every level but the last has at least two itemsets. The last has at most one. The number of levels does not exceed the catalog size unless no level was added |
| `FrequentSets.Mine` | AssociationRuleMiner/AssociationRuleMiner/AssociationRuleMiner.py:17-62 | mining fails iff there is no catalog, or the catalog is non-empty and the item sets fail or are empty (then `EmptyTable`, the division by zero); an empty catalog gives one empty level; no catalog gives `NoCatalog`; with a non-empty catalog an item-set error is passed on unchanged, and a success is exactly `Levels` of the catalog size, the item sets and the threshold |
| `FrequentSets.LevelsFirst` | AssociationRuleMiner/AssociationRuleMiner/AssociationRuleMiner.py:17-29 | the first level is the frequent catalog singletons |
| `FrequentSets.LevelsSound` | AssociationRuleMiner/AssociationRuleMiner/AssociationRuleMiner.py:22-28 | every itemset at every level is frequent; level `k` holds distinct itemsets of at least `k` catalog indices |
| `FrequentSets.LevelsJoin` | AssociationRuleMiner/AssociationRuleMiner/AssociationRuleMiner.py:38-61 | a set is at level `k ≥ 2` iff it is frequent and the union of the sets at two positions `i < j` of level `k − 1` that differ |
| `FrequentSets.LevelsOrder` | AssociationRuleMiner/AssociationRuleMiner/AssociationRuleMiner.py:52-61 | each level `k ≥ 2` is drawn from the candidates and lists its sets in order of first generation |
| `FrequentSets.LevelsStop` | AssociationRuleMiner/AssociationRuleMiner/AssociationRuleMiner.py:31-35 | every level but the last has at least two itemsets and the last at most one. There is at least one level, and at most as many as catalog products when the catalog is not empty |
| `FrequentSets.FrequentAtLower` | AssociationRuleMiner/AssociationRuleMiner/AssociationRuleMiner.py:27 | an itemset that meets a threshold meets every lower one |
| `FrequentSets.Level1AtLower` | AssociationRuleMiner/AssociationRuleMiner/AssociationRuleMiner.py:22-28 | at a higher threshold level 1 keeps a subset of the singletons it keeps at a lower one |
| `FrequentSets.NextLevelAtLower` | AssociationRuleMiner/AssociationRuleMiner/AssociationRuleMiner.py:36-61 | if one level's sets all appear in another, then at a higher threshold its next level's sets all appear in the other's next level at a lower one |
| `FrequentSets.MineFromAtLower` | AssociationRuleMiner/AssociationRuleMiner/AssociationRuleMiner.py:31-62 | two runs of the level loop, the second at a higher threshold on a sub-level of the first, end with no more levels than the first, and each of their levels is a sub-level of the first run's |
| `FrequentSets.ThresholdMonotone` | AssociationRuleMiner/AssociationRuleMiner/AssociationRuleMiner.py:12-62 | raising the support threshold never adds a level, never adds an itemset to a level, and never increases the total number of frequent itemsets |
| `Miner.CountSupport` | AssociationRuleMiner/AssociationRuleMiner/AssociationRuleMiner.py:23-26 | the counting loop returns the support count of the itemset |
| `Miner.FrequentSingletons` | AssociationRuleMiner/AssociationRuleMiner/AssociationRuleMiner.py:18-28 | the two level-1 loops return exactly level 1 |
| `Miner.JoinPairs` | AssociationRuleMiner/AssociationRuleMiner/AssociationRuleMiner.py:36-50 | the nested join loops return exactly the candidates, in generation order |
| `Miner.KeepFrequent` | AssociationRuleMiner/AssociationRuleMiner/AssociationRuleMiner.py:52-60 | the filter loop returns exactly the survivors of the candidates |
| `Miner.AssociationRuleMiner.constructor` | AssociationRuleMiner/AssociationRuleMiner/AssociationRuleMiner.py:4-10 | stores the table and both thresholds |
| `Miner.AssociationRuleMiner.BuildFrequentItemSets` | AssociationRuleMiner/AssociationRuleMiner/AssociationRuleMiner.py:12-62 | on success `frequentItemSets` is `Mine` of the table's catalog size and item sets. On failure it reports `Mine`'s error and the list is empty. It never fails with `EmptyTable`. The table keeps its catalog, matrix and validity |

## Left out

- File reading (`DataFileParser.build_products_list`, the file loop of `build_basket_matrix`, `process_files`) is I/O; only the per-line parse of a basket line is modelled.
- Price parsing with its `float` fallback and `Product`'s numeric-price check: prices are floating point; `Product` keeps its price as a `real` that nothing reads.
- `int()` also accepts non-ASCII digits and `strip()` non-ASCII whitespace; the model accepts ASCII only.
- The support test on floats is modelled exactly on rationals; float rounding of `count / n` and of the threshold is not modelled.
- The two copies under `data_parser/` are earlier, broken versions superseded by `data_parser.py`; they are not part of this model.
- `build_association_rules` is a stub, and `AssociationRule` is a plain record; no rule generation, scoring or ranking is modelled. The confidence threshold is stored and never read.
- `demo.py` and `DataTest.py` are a script and file-loading tests.
- The miner reads `item_sets` twice per itemset in the source: once for the counting loop and once for `len(...)` in the support test. The model reads it once per run. After the first read the cache is fresh and each further read returns it unchanged (`DataParser.DataBasket.ItemSets`).
- Before the first build the source has no `frequent_item_sets` attribute; the model starts it as an empty list.
- A catalog listing the same product object twice would make two columns share one set element in the source; the model treats every catalog position as its own product.
- DataParser.DataBasket.ItemSets: on a failure it does not state the partly built list the source leaves in the cache; the cache stays marked stale, so no later read returns it.
- The catalog and the matrix are modelled as values. The source stores the caller's list objects by reference and hands the same objects back from its getters, so the caller can change them in place afterwards. The model does not capture such in-place mutation through a shared reference. `Valid()`'s cache clause and `BuildFrequentItemSets`'s `r != Fail(EmptyTable)` rely on it: clearing a stored matrix in place makes the source's support test divide by zero, and editing a row after a read leaves the cached item sets stale.
- BasketRow.ParseInt: models the default 4300-digit limit of `int()` (Python 3.11 and the 3.7.14, 3.8.14, 3.9.14 and 3.10.7 security releases). Interpreters without the limit accept longer digit strings. A limit changed through `sys.set_int_max_str_digits` or `PYTHONINTMAXSTRDIGITS` is not modelled. Digits are counted with leading zeros included.
