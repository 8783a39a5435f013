/** What the components do with sequences alike. */
module Sequences {

  /** The sequence without position `i`. */
  function Dropped<T>(s: seq<T>, i: nat): (r: seq<T>)
    requires i < |s|
    ensures |r| == |s| - 1
    ensures forall a :: 0 <= a < |r| ==> r[a] == s[if a < i then a else a + 1]
  {
    s[..i] + s[i + 1..]
  }
}
