/** Shared result types and errno values. */
module Wrappers {
  /** A C function that returns a value, or `-errno`. */
  datatype Result<+T> = Ok(value: T) | Err(errno: nat)

  datatype Option<+T> = None | Some(value: T)

  const EPERM: nat := 1
  const ENOENT: nat := 2
  const ENOTDIR: nat := 20
  const EINVAL: nat := 22
  const ERANGE: nat := 34
  const ENAMETOOLONG: nat := 36
  const ELOOP: nat := 40
}
