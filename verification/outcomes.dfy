/** Small result types shared by every module of the model. */
module Outcomes {

  /** An optional value: `None` stands for JavaScript's null or undefined. */
  datatype Option<+T> = None | Some(value: T)

  /** How an awaited service call settled: it resolved with a value, or it
      rejected (a thrown error, which the caller catches). */
  datatype Outcome<+T> = Ok(value: T) | Failed
}
