/** Small shared vocabulary: optional values, results, currencies and `min`. */
module Common {

  /** A currency symbol such as "BTC"; compared case-sensitively. */
  type Currency = string

  datatype Option<+T> = None | Some(value: T)

  datatype Result<+R, +E> = Success(value: R) | Failure(error: E)

  /** No element occurs twice. */
  predicate Distinct<T(==)>(s: seq<T>) {
    forall i, j :: 0 <= i < j < |s| ==> s[i] != s[j]
  }

  /** The values a sequence holds. */
  function Elements<T>(s: seq<T>): set<T> {
    set x | x in s
  }

  /** Every indexed element is among the values. */
  lemma ElementAt<T>(s: seq<T>, i: nat)
    requires i < |s|
    ensures s[i] in Elements(s)
  {
  }

  /** PHP's `min` on two numbers. */
  function Min(a: real, b: real): (m: real)
    ensures m <= a && m <= b
    ensures m == a || m == b
  {
    if a <= b then a else b
  }

  /** The share of a positive demand `a` that a non-negative supply `d` covers. */
  lemma CoveredShare(a: real, d: real)
    ensures a > 0.0 && d >= 0.0 ==>
              && 0.0 <= Min(a, d) / a <= 1.0
              && (Min(a, d) / a == 1.0 <==> d >= a)
              && (Min(a, d) / a == 0.0 <==> d == 0.0)
  {
    if a > 0.0 && d >= 0.0 {
      var f := Min(a, d) / a;
      assert f * a == Min(a, d);
    }
  }
}
