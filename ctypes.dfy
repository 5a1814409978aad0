/** The C-level vocabulary shared by the support library's modules: the
    errno values its routines set, the 0 / -1 return convention, an object
    standing for a pointer the caller passes in so that the routine can
    store through it, and the integer limits of an LP64 platform. */
module CTypes {

  datatype Option<T> = None | Some(value: T)

  /** The value of errno after a call. NoError is errno == 0. */
  datatype Errno = NoError | EINVAL | ERANGE

  /** The `int` return of a routine that only reports success: 0 is Ok,
      -1 is Err together with the errno it leaves. */
  datatype Status = Ok | Err(errno: Errno)

  /** The return of a routine that stores one value through an output
      pointer: Written(v) returns 0 after storing v; Failed(e) returns -1,
      leaves errno at e and does not store anything. */
  datatype Result<T> = Written(value: T) | Failed(errno: Errno)

  /** A memory cell the caller owns and passes by address (`T *p`): a
      routine reads or overwrites `target`; a null `Ptr?` is a NULL
      argument. */
  class Ptr<T> {
    var target: T

    constructor (initial: T)
      ensures target == initial
    {
      target := initial;
    }
  }

  // Integer limits of the LP64 data model (x86-64 Linux, glibc).
  const INT_MIN: int := -0x8000_0000
  const INT_MAX: int := 0x7FFF_FFFF
  const UINT_MAX: int := 0xFFFF_FFFF
  const LONG_MIN: int := -0x8000_0000_0000_0000
  const LONG_MAX: int := 0x7FFF_FFFF_FFFF_FFFF
  const ULONG_MAX: int := 0xFFFF_FFFF_FFFF_FFFF
  const UINTMAX_MAX: int := 0xFFFF_FFFF_FFFF_FFFF
  const SIZE_MAX: int := 0xFFFF_FFFF_FFFF_FFFF

  /** A value of C's `long`. */
  type Long = x: int | LONG_MIN <= x <= LONG_MAX
}
