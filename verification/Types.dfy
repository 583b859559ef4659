/** What several modules say in the same words. */
module Types {
  type Byte = x: int | 0 <= x < 256

  datatype Option<+T> = None | Some(value: T)

  /** `v` written over `s` at `o`. */
  function Splice<T>(s: seq<T>, o: nat, v: seq<T>): (r: seq<T>)
    requires o + |v| <= |s|
    ensures |r| == |s|
  {
    s[..o] + v + s[o + |v|..]
  }
}
