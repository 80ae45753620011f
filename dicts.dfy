/** Python dictionaries keyed by category name, as Dafny maps and key sequences. */
module Dicts {

  /** No key occurs twice: the key order of a dictionary. */
  predicate Distinct(s: seq<string>)
  {
    forall i, j :: 0 <= i < j < |s| ==> s[i] != s[j]
  }

  /** `d.get(k, 0)`: the value of `k`, or 0 when `k` is not a key. */
  function Get(m: map<string, real>, k: string): real
  {
    if k in m then m[k] else 0.0
  }

  /** Sum of the values of the keys `ks`, added in the order of `ks`. */
  function SumOver(ks: seq<string>, m: map<string, real>): real
  {
    if ks == [] then 0.0 else SumOver(ks[..|ks| - 1], m) + Get(m, ks[|ks| - 1])
  }
}
