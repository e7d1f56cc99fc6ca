/** Option, Result and Outcome wrappers and the errors the transaction table
    and the miner raise. Each Error names one kind of failure of the Python
    code; the comment says which exception it raises. */
module Failures {

  datatype Option<T> = None | Some(value: T)

  datatype Result<T> = Ok(value: T) | Err(error: Error)

  datatype Outcome = Pass | Fail(error: Error)

  datatype Error =
    | MatrixBeforeCatalog      // AssertionError: a basket matrix passed to the constructor without a products list
    | CatalogRequired          // AssertionError: the basket matrix setter called while there is no products list
    | RowWidthMismatch         // AssertionError: row 0 of the matrix is not as wide as the catalog
    | ItemSetsNeedData         // AssertionError: item sets read without both a catalog and a matrix
    | EmptyMatrix              // IndexError: `matrix[0]` on a matrix without rows
    | NoneMatrix               // TypeError: `None[0]` when the setter is given None
    | ProductIndexOutOfRange   // IndexError: a positive quantity in a column the catalog does not have
    | NoCatalog                // TypeError: the miner iterates a products list that is None
    | EmptyTable               // ZeroDivisionError: support divided by zero transactions
    | NonNumericBasket         // ValueError: a basket line field that is not an integer
}
