/** Values that may be missing, and operations that may fail. */
module Results {
  datatype Option<+T> = None | Some(value: T)

  datatype Result<T> = Ok(value: T) | Err(message: string) {
    /** The error handed on as that of another type. */
    function Message(): string {
      match this
      case Ok(_) => ""
      case Err(m) => m
    }
  }
}
