/** Types shared by the system-call models. */
module SysTypes {

  /** A nullable reference: None stands for NULL. */
  datatype Option<+T> = None | Some(value: T)

  /**
   * Error codes returned by the system calls. The numeric values live in
   * kern/errno.h, which is not part of this model, so the two named codes
   * are symbolic and every code passed through from a foreign call (or
   * the literal -1 that fork returns) is carried as `Code(n)`.
   */
  datatype Errno = EINVAL | ENOMEM | Code(n: int)

  /** The integer result of a system call: a return value or an error. */
  datatype SysResult = Ok(retval: int) | Err(error: Errno)
}
