/** Small helpers shared by every module of the model. */
module Basics {

  /** A value that may be absent, as an optional field of a game record is. */
  datatype Option<+T> = None | Some(value: T)

  /** A board coordinate `{ r, c }`: row r, column c. */
  datatype Pos = Pos(r: int, c: int)

  function Abs(x: int): nat {
    if x < 0 then -x else x
  }

  function Max(a: int, b: int): int {
    if a < b then b else a
  }

  function Min(a: int, b: int): int {
    if a < b then a else b
  }

  /** `Math.abs(p.r - q.r) + Math.abs(p.c - q.c)`. */
  function Manhattan(p: Pos, q: Pos): nat {
    Abs(p.r - q.r) + Abs(p.c - q.c)
  }

  /** `s.splice(i, 1)`: the sequence without its element at index i. */
  function RemoveAt<T>(s: seq<T>, i: nat): (t: seq<T>)
    requires i < |s|
    ensures |t| == |s| - 1
    ensures forall k :: 0 <= k < i ==> t[k] == s[k]
    ensures forall k :: i <= k < |t| ==> t[k] == s[k + 1]
  {
    s[..i] + s[i + 1..]
  }
}
