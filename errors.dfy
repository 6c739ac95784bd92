/** The errors the calculator raises, and a result type to carry them. */
module Errors {

  datatype Error =
    | InvalidWeekdayName        // ValueError("Invalid weekday name") of the weekday lookup
    | MonthOutOfRange(month: int) // the ValueError pandas raises for Timestamp(month=m), m outside 1..12

  datatype Result<T> = Ok(value: T) | Err(error: Error)
}
