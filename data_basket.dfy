/** The transaction table: a product catalog, a basket matrix of quantities
    (one row per transaction, one column per catalog product) and a lazily
    built, cached list of the products each transaction bought. */
module DataParser {
  import opened Failures

  /** A catalog entry. Set membership is by object identity, so the model
      refers to a product by its position in the catalog. */
  datatype Product = Product(name: string, price: real)

  type Matrix = seq<seq<int>>

  /** The products of one transaction, as catalog positions. */
  type ItemSet = set<nat>

  /** A keyword argument of the constructor: left out, or passed (possibly as None). */
  datatype Kwarg<T> = Omitted | Passed(arg: Option<T>)

  function Given<T>(k: Kwarg<T>): Option<T> {
    if k.Passed? then k.arg else None
  }

  /** The catalog positions with a positive quantity in `row`. */
  function PositiveIndices(row: seq<int>): set<nat> {
    set i: nat | i < |row| && row[i] > 0
  }

  /** Every positive quantity of `row` sits in a column the catalog has. */
  predicate RowFits(row: seq<int>, width: nat) {
    forall i :: 0 <= i < |row| && row[i] > 0 ==> i < width
  }

  /** The item sets the table derives from its catalog and matrix. */
  function ItemSetsOf(catalog: Option<seq<Product>>, matrix: Option<Matrix>): (r: Result<seq<ItemSet>>)
    ensures r.Err? <==> catalog.None? || matrix.None? ||
                        exists k :: 0 <= k < |matrix.value| && !RowFits(matrix.value[k], |catalog.value|)
    ensures r.Err? ==> r.error == (if catalog.None? || matrix.None? then ItemSetsNeedData else ProductIndexOutOfRange)
    ensures r.Ok? ==> |r.value| == |matrix.value|
    ensures r.Ok? ==> forall k, p: nat :: 0 <= k < |r.value| ==>
                        (p in r.value[k] <==> p < |matrix.value[k]| && matrix.value[k][p] > 0)
    ensures r.Ok? ==> forall k, p :: 0 <= k < |r.value| && p in r.value[k] ==> p < |catalog.value|
  {
    if catalog.None? || matrix.None? then Err(ItemSetsNeedData)
    else
      var m, w := matrix.value, |catalog.value|;
      if exists k :: 0 <= k < |m| && !RowFits(m[k], w) then Err(ProductIndexOutOfRange)
      else Ok(seq(|m|, k requires 0 <= k < |m| => PositiveIndices(m[k])))
  }

  /** The checks of the constructor: which catalog and matrix it stores, or which error it raises. */
  function InitArgs(products: Kwarg<seq<Product>>, matrix: Kwarg<Matrix>): (r: Result<(Option<seq<Product>>, Option<Matrix>)>)
    ensures r.Err? <==>
      || (matrix.Passed? && Given(products).None?)
      || (Given(products).Some? && Given(matrix).Some? &&
          (|Given(matrix).value| == 0 || |Given(matrix).value[0]| != |Given(products).value|))
    ensures matrix.Passed? && Given(products).None? ==> r == Err(MatrixBeforeCatalog)
    ensures r.Err? && Given(products).Some? ==>
      r.error == (if |Given(matrix).value| == 0 then EmptyMatrix else RowWidthMismatch)
    ensures r.Ok? ==> r.value == (Given(products), Given(matrix))
    ensures r.Ok? && r.value.1.Some? ==>
      r.value.0.Some? && |r.value.1.value| > 0 && |r.value.1.value[0]| == |r.value.0.value|
  {
    var p := Given(products);
    if matrix.Passed? && p.None? then Err(MatrixBeforeCatalog)
    else
      var m := Given(matrix);
      if p.Some? && m.Some? then
        if |m.value| == 0 then Err(EmptyMatrix)
        else if |m.value[0]| != |p.value| then Err(RowWidthMismatch)
        else Ok((p, m))
      else Ok((p, m))
  }

  class DataBasket {
    var productsList: Option<seq<Product>>
    var basketMatrix: Option<Matrix>
    var itemSets: seq<ItemSet>
    var itemSetsNeedGeneration: bool

    /** A stored matrix has a catalog, at least one row, and a first row as
        wide as the catalog; a cache that is not marked stale holds the item
        sets of the current catalog and matrix. */
    ghost predicate Valid()
      reads this
    {
      && (basketMatrix.Some? ==>
            productsList.Some? && |basketMatrix.value| > 0 && |basketMatrix.value[0]| == |productsList.value|)
      && (!itemSetsNeedGeneration ==> ItemSetsOf(productsList, basketMatrix) == Ok(itemSets))
    }

    constructor Init(products: Option<seq<Product>>, matrix: Option<Matrix>)
      requires matrix.Some? ==> products.Some? && |matrix.value| > 0 && |matrix.value[0]| == |products.value|
      ensures Valid()
      ensures productsList == products && basketMatrix == matrix && itemSetsNeedGeneration
    {
      productsList := products;
      basketMatrix := matrix;
      itemSets := [];
      itemSetsNeedGeneration := true;
    }

    /** `DataBasket(**kwargs)`: a new table, or the error the constructor raises. */
    static method Create(products: Kwarg<seq<Product>>, matrix: Kwarg<Matrix>) returns (r: Result<DataBasket>)
      ensures r.Err? ==> InitArgs(products, matrix) == Err(r.error)
      ensures r.Ok? ==> InitArgs(products, matrix).Ok?
      ensures r.Ok? ==> fresh(r.value) && r.value.Valid() && r.value.itemSetsNeedGeneration
      ensures r.Ok? ==> (r.value.productsList, r.value.basketMatrix) == InitArgs(products, matrix).value
    {
      var checked := InitArgs(products, matrix);
      if checked.Err? {
        return Err(checked.error);
      }
      var basket := new DataBasket.Init(checked.value.0, checked.value.1);
      return Ok(basket);
    }

    /** The `products_list` setter: a new catalog drops the matrix and marks the item sets stale. */
    method SetProductsList(value: Option<seq<Product>>)
      requires Valid()
      modifies this
      ensures Valid()
      ensures productsList == value && basketMatrix == None && itemSetsNeedGeneration
      ensures itemSets == old(itemSets)
    {
      basketMatrix := None;
      productsList := value;
      itemSetsNeedGeneration := true;
    }

    /** The `basket_matrix` setter: only row 0 is checked against the catalog. */
    method SetBasketMatrix(value: Option<Matrix>) returns (r: Outcome)
      requires Valid()
      modifies this
      ensures Valid()
      ensures r.Fail? <==> old(productsList).None? || value.None? || |value.value| == 0 ||
                           |value.value[0]| != |old(productsList).value|
      ensures r == Fail(CatalogRequired) <==> old(productsList).None?
      ensures r == Fail(RowWidthMismatch) <==>
                (old(productsList).Some? && value.Some? && |value.value| > 0 &&
                 |value.value[0]| != |old(productsList).value|)
      ensures r == Fail(NoneMatrix) <==> old(productsList).Some? && value.None?
      ensures r == Fail(EmptyMatrix) <==> old(productsList).Some? && value.Some? && |value.value| == 0
      ensures r.Fail? ==> unchanged(this)
      ensures r.Pass? ==> basketMatrix == value && itemSetsNeedGeneration
      ensures productsList == old(productsList) && itemSets == old(itemSets)
    {
      if productsList.None? {
        return Fail(CatalogRequired);
      }
      if value.None? {
        return Fail(NoneMatrix);
      }
      if |value.value| == 0 {
        return Fail(EmptyMatrix);
      }
      if |productsList.value| != |value.value[0]| {
        return Fail(RowWidthMismatch);
      }
      basketMatrix := value;
      itemSetsNeedGeneration := true;
      return Pass;
    }

    /** The `item_sets` property: rebuilt from the matrix when stale, otherwise the cached list. */
    method ItemSets() returns (r: Result<seq<ItemSet>>)
      requires Valid()
      modifies this
      ensures Valid()
      ensures productsList == old(productsList) && basketMatrix == old(basketMatrix)
      ensures r == ItemSetsOf(productsList, basketMatrix)
      ensures r.Ok? ==> !itemSetsNeedGeneration && itemSets == r.value
      ensures r.Err? ==> itemSetsNeedGeneration == old(itemSetsNeedGeneration)
      ensures !old(itemSetsNeedGeneration) ==> r == Ok(old(itemSets)) && itemSets == old(itemSets)
    {
      if productsList.None? || basketMatrix.None? {
        return Err(ItemSetsNeedData);
      }
      if itemSetsNeedGeneration {
        var rows, width := basketMatrix.value, |productsList.value|;
        itemSets := [];
        var k := 0;
        while k < |rows|
          invariant 0 <= k <= |rows| && |itemSets| == k
          invariant forall q :: 0 <= q < k ==> RowFits(rows[q], width) && itemSets[q] == PositiveIndices(rows[q])
          invariant productsList == old(productsList) && basketMatrix == old(basketMatrix)
          invariant itemSetsNeedGeneration
        {
          var row := rows[k];
          var rowSet: set<nat> := {};
          var i := 0;
          while i < |row|
            invariant 0 <= i <= |row|
            invariant rowSet == set p: nat | p < i && row[p] > 0
            invariant forall p :: 0 <= p < i && row[p] > 0 ==> p < width
          {
            if row[i] > 0 {
              if i >= width {
                assert !RowFits(rows[k], width);
                return Err(ProductIndexOutOfRange);
              }
              rowSet := rowSet + {i};
            }
            i := i + 1;
          }
          assert rowSet == PositiveIndices(row);
          itemSets := itemSets + [rowSet];
          k := k + 1;
        }
        itemSetsNeedGeneration := false;
        assert itemSets == seq(|rows|, q requires 0 <= q < |rows| => PositiveIndices(rows[q]));
      }
      return Ok(itemSets);
    }
  }

  /** A table in a valid state that yields item sets has at least one transaction. */
  lemma StoredTableNotEmpty(catalog: Option<seq<Product>>, matrix: Option<Matrix>)
    requires matrix.Some? ==> catalog.Some? && |matrix.value| > 0 && |matrix.value[0]| == |catalog.value|
    ensures ItemSetsOf(catalog, matrix).Ok? ==> |ItemSetsOf(catalog, matrix).value| > 0
  {
  }
}
