/** Shared wrapper types and sequence search. A Java `null` return (no room, no
    position) becomes `None`. */
module Common {

  datatype Option<+T> = None | Some(value: T)

  /** Item and feature tokens are plain strings in the game. */
  type Item = string

  /** 1 for true, 0 for false: what a Java `if (flag) count++` adds. */
  function Tally(b: bool): nat
  {
    if b then 1 else 0
  }

  /** Index of the first occurrence of `x` in `s`, or -1 when there is none. */
  function IndexOf<T(==)>(s: seq<T>, x: T): (r: int)
    ensures -1 <= r < |s|
    ensures r == -1 <==> x !in s
    ensures r >= 0 ==> s[r] == x && forall j :: 0 <= j < r ==> s[j] != x
  {
    if s == [] then -1
    else if s[0] == x then 0
    else
      var k := IndexOf(s[1..], x);
      if k == -1 then -1 else k + 1
  }
}
