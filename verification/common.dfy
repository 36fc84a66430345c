/** Small vocabulary shared by every module of the model. */
module Common {

  /** One octet of a HID report or of a D-Bus `ay` argument. */
  type byte = x: int | 0 <= x < 256

  /** One modifier flag of the keyboard state: always 0 or 1. */
  type bit = x: int | 0 <= x < 2

  type Bytes = seq<byte>

  datatype Option<+T> = None | Some(value: T)

  function Pow2(n: nat): (r: nat)
    ensures r > 0
  {
    if n == 0 then 1 else 2 * Pow2(n - 1)
  }
}
