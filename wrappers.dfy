/** Option and Result, the two failure-carrying shapes the pipeline needs:
    a lookup that may find nothing, and an operation that may fail. */
module Wrappers {

  datatype Option<+T> = None | Some(value: T)

  datatype Result<+T, +E> = Success(value: T) | Failure(error: E)
}

/** The data every stage passes along. */
module EtlData {

  /** A record is a Java String[]: an ordered list of fields of any arity. */
  type Record = seq<string>

  /** Integer.MAX_VALUE: the largest value of a Java int. */
  const Int32Max: int := 0x7fff_ffff
}
