/** Optional values and results shared by the other modules. */
module Options {

  /** An optional value; `None` stands for Java's `null`. */
  datatype Option<+T> = None | Some(value: T)

  /** A value or the message of the exception that replaced it. */
  datatype Result<+T> = Ok(value: T) | Err(msg: string)
}
