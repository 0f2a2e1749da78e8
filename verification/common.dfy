/**
 Shared vocabulary of the PS5 backend model: optional values, the
 status a driver entry point returns, fixed-width integers and the
 pressed/released state that input events carry.
 */
module Common {

  /** A C reference that may be NULL, or a syscall result that may be absent. */
  datatype Option<+T> = None | Some(value: T)

  /** The integer a driver entry point returns: 0 on success, or the
      negative value `SDL_SetError` produces, carrying the failing call. */
  datatype Status = Ok | Error(reason: string)

  newtype u8 = x: int | 0 <= x < 0x100
  newtype u16 = x: int | 0 <= x < 0x1_0000

  const U32_MODULUS: int := 0x1_0000_0000
  newtype u32 = x: int | 0 <= x < 0x1_0000_0000

  /** `SDL_PRESSED` / `SDL_RELEASED`. */
  datatype KeyState = Pressed | Released

  /** The status code `sceUserServiceInitialize` returns when the user
      service was already initialised; both drivers accept it. */
  const USER_SERVICE_ALREADY_INITIALIZED: bv32 := 0x8096_0003

  /** The success test both drivers apply to `sceUserServiceInitialize`;
      `err` is the 32-bit pattern of the returned code, since the C
      comparison against an unsigned literal compares bit patterns. */
  predicate UserServiceInitOk(err: bv32)
  {
    err == 0 || err == USER_SERVICE_ALREADY_INITIALIZED
  }
}
