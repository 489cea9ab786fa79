/** Searching a JavaScript array, as the controllers and the ordered map do */
module Sequences {

  /**
   * `Array.prototype.indexOf` and jQuery's `$.inArray`: the first index of
   * `x`, or -1. Elements are compared by value.
   */
  function FirstIndex<T(==)>(s: seq<T>, x: T): (r: int)
    ensures -1 <= r < |s|
    ensures r == -1 <==> x !in s
    ensures r != -1 ==> s[r] == x && x !in s[..r]
  {
    if |s| == 0 then -1
    else if s[0] == x then 0
    else
      var i := FirstIndex(s[1..], x);
      if i == -1 then -1
      else
        assert s[..i + 1] == [s[0]] + s[1..][..i];
        i + 1
  }
}
