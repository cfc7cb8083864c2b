/** Scalar types shared by the blog, comment and vote module of the chain:
    bytes and byte strings, the fixed-width integers the records use,
    object ids, times, and the error outcomes of the evaluators. */
module ChainTypes {

  /** One byte of a std::string, read as unsigned. */
  newtype byte = x: int | 0 <= x < 0x100

  newtype uint8 = x: int | 0 <= x < 0x100

  newtype int64 = x: int | -0x8000_0000_0000_0000 <= x < 0x8000_0000_0000_0000

  newtype uint64 = x: int | 0 <= x < 0x1_0000_0000_0000_0000

  /** A std::string holds bytes; UTF-8 is a property checked on top of that. */
  type Bytes = seq<byte>

  /** An account_id_type, represented by its instance number (the order
      std::less<account_id_type> uses). */
  type AccountId = nat

  /** A time_point_sec: seconds since the epoch. */
  type Time = nat

  /** An object_id_type: (space, type, instance). */
  datatype ObjectId = ObjectId(space: uint8, objType: uint8, instance: nat)

  /** The default-constructed object_id_type, 0.0.0. */
  const DefaultId: ObjectId := ObjectId(0, 0, 0)

  /** Why an evaluator rejects an operation. */
  datatype Error =
    | UnknownObject        // the id does not name an existing object
    | AuthorMismatch       // an update by someone other than the stored author
    | ZeroWeightNewVote    // a first vote must carry a non-zero weight
    | UniqueIndexViolation // the table's unique indices refuse the object

  datatype Result<T> = Ok(value: T) | Err(error: Error)

  datatype Outcome = Pass | Fail(error: Error)
}
