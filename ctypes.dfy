/** Machine-level vocabulary shared by the model of the behavior core:
    fixed-width unsigned integers, the errno codes the core returns, C strings
    as addresses into a read-only memory, and an optional value standing for a
    nullable pointer. */
module CTypes {

  newtype u16 = x: int | 0 <= x < 0x1_0000
  newtype u32 = x: int | 0 <= x < 0x1_0000_0000

  // errno values as Zephyr's errno.h defines them; the core returns their negations.
  const ENODEV: int := 19
  const EINVAL: int := 22
  const ENOTSUP: int := 134

  /** A `const char *`: either NULL or the address of a NUL-terminated string. */
  datatype CStr = NullPtr | At(addr: nat)

  /** The text stored at each address, up to (not including) its NUL terminator.
      Being a function, one address always holds one text. */
  type Memory = nat -> string

  /** Stands for a pointer that may be NULL. */
  datatype Option<+T> = None | Some(value: T)
}
