/** Shared vocabulary: optional values, small arithmetic and JavaScript text. */
module Prelude {

  datatype Option<+T> = None | Some(value: T)

  /** The largest integer a JavaScript number counts up to exactly. */
  const MAX_SAFE_INTEGER := 9_007_199_254_740_991

  function Min(a: int, b: int): int {
    if b < a then b else a
  }

  function Max(a: int, b: int): int {
    if a < b then b else a
  }

  function Abs(x: real): real {
    if x < 0.0 then -x else x
  }

  function Times(x: real, y: real): real {
    x * y
  }

  /** JavaScript strings are sequences of UTF-16 code units; unpaired surrogates are allowed. */
  type CodeUnit = n: int | 0 <= n < 0x1_0000

  type Text = seq<CodeUnit>

  /** The code units of an ASCII literal. */
  function Ascii(s: string): (t: Text)
    ensures |t| == |s|
    ensures forall i :: 0 <= i < |s| && s[i] as int < 0x80 ==> t[i] == s[i] as int
  {
    seq(|s|, i requires 0 <= i < |s| => s[i] as int % 0x1_0000)
  }
}
