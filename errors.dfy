// Error values standing for the exceptions the inventory core throws, and the
// Option/Result/Outcome wrappers used wherever an operation can fail.

module Errors {

  datatype Option<T> = None | Some(value: T)

  /** An exception, by the class that is thrown. */
  datatype Error =
    // PharmacyException > MedicalProductException > ...
    | InvalidProductData(field: string)
    | InvalidProductId(id: string)          // a kind of InvalidProductData
    | DuplicateProduct(id: string)
    | ExpiredProduct(id: string)
    | ProductNotFound(id: string)
    // PharmacyException > InventoryException > ...
    | InventoryError
    | NegativeQuantity(quantity: int)
    | InsufficientQuantity(id: string, requested: int, available: int)
    // exceptions of the standard library
    | InvalidArgument                        // std::invalid_argument
    | OutOfRange                             // std::out_of_range
    | RuntimeError                           // std::runtime_error
  {
    /** Caught by a `catch (const PharmacyException&)` handler. */
    predicate IsPharmacyException() {
      !(InvalidArgument? || OutOfRange? || RuntimeError?)
    }

    /** Caught by a `catch (const InvalidProductDataException&)` handler. */
    predicate IsInvalidProductData() {
      InvalidProductData? || InvalidProductId?
    }
  }

  datatype Result<T> = Ok(value: T) | Fail(error: Error)
  {
    predicate IsFailure() { Fail? }
    function PropagateFailure<U>(): Result<U> requires Fail? { Fail(error) }
    function Extract(): T requires Ok? { value }
  }

  datatype Outcome = Pass | Raise(error: Error)
  {
    predicate IsFailure() { Raise? }
    function PropagateFailure(): Outcome requires Raise? { this }
  }

  /** The C++ `int`. */
  type Int32 = x: int | -0x8000_0000 <= x < 0x8000_0000

  predicate IsInt32(x: int) { -0x8000_0000 <= x < 0x8000_0000 }
}
