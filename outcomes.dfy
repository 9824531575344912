/** Results of operations that may abort.
    The source aborts in three ways that the model does not distinguish:
    Yosys `log_error` (declared no-return), a thrown `std::runtime_error`,
    and an out-of-range read of a protobuf repeated field or `std::vector`.
    All of them end the operation with `Fatal`. */
module Outcomes {

  datatype Result<T> = Ok(value: T) | Fatal(reason: string)

  datatype Option<T> = None | Some(value: T)
}
