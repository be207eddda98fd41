/** Strings as several components see them: decimal keys, substrings, splitting and joining. */
module Text {

  function Digit(n: nat): char
    requires n < 10
  {
    '0' + n as char
  }

  /** The property name of an array index. */
  function IndexKey(n: nat): (key: string)
    ensures |key| > 0
    ensures |key| == 1 <==> n < 10
  {
    if n < 10 then [Digit(n)] else IndexKey(n / 10) + [Digit(n % 10)]
  }

  lemma {:induction false} IndexKeyInjective(a: nat, b: nat)
    requires IndexKey(a) == IndexKey(b)
    ensures a == b
    decreases a + b
  {
    var s, t := IndexKey(a), IndexKey(b);
    assert s[|s| - 1] == t[|t| - 1];
    assert s[..|s| - 1] == t[..|t| - 1];
    if a >= 10 && b >= 10 {
      assert s[..|s| - 1] == IndexKey(a / 10) && t[..|t| - 1] == IndexKey(b / 10);
      IndexKeyInjective(a / 10, b / 10);
    }
  }

  lemma IndexKeysDistinct()
    ensures forall a: nat, b: nat :: IndexKey(a) == IndexKey(b) ==> a == b
  {
    forall a: nat, b: nat | IndexKey(a) == IndexKey(b) ensures a == b {
      IndexKeyInjective(a, b);
    }
  }

  /** The key is an index of an array of n items. */
  ghost predicate IsIndex(key: string, n: nat) {
    exists i: nat :: i < n && key == IndexKey(i)
  }

  /** The properties of an array spread into an object. */
  function SpreadArray<T>(items: seq<T>): (spread: map<string, T>)
    ensures forall i :: 0 <= i < |items| ==> IndexKey(i) in spread && spread[IndexKey(i)] == items[i]
    ensures forall key :: key in spread <==> IsIndex(key, |items|)
  {
    if items == [] then map[]
    else
      var last := |items| - 1;
      IndexKeysDistinct();
      SpreadArray(items[..last])[IndexKey(last) := items[last]]
  }
}
