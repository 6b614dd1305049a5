/** Shared by several components. */
module Prelude {
  datatype Option<+T> = None | Some(value: T)

  /** What a buffer of `n` characters and a terminator keeps of a text. */
  function Clip(s: string, n: nat): (r: string)
    ensures r <= s && |r| == (if |s| <= n then |s| else n) && (|s| <= n ==> r == s)
  {
    if |s| > n then s[..n] else s
  }
}
