/** Small types and functions that several of the models share. */
module Common {
  datatype Option<T> = None | Some(value: T)

  type byte = x: int | 0 <= x < 256
  type uint16 = x: int | 0 <= x < 0x1_0000

  /** A buffer after w is written at i. */
  function Put<T>(s: seq<T>, i: nat, w: seq<T>): (r: seq<T>)
    requires i + |w| <= |s|
    ensures |r| == |s|
  {
    s[..i] + w + s[i + |w|..]
  }
}
