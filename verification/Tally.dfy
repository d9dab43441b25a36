/** Counting and averaging along a list, as the reports' figures are stated. */
module Tally {
  import opened Contracts

  ghost function CountIf<T>(s: seq<T>, p: T -> bool): (n: nat)
    ensures n <= |s|
  {
    if s == [] then 0 else (if p(s[0]) then 1 else 0) + CountIf(s[1..], p)
  }

  ghost function SumOf<T>(s: seq<T>, value: T -> Option<real>): real {
    if s == [] then 0.0 else (if value(s[0]).Some? then value(s[0]).value else 0.0) + SumOf(s[1..], value)
  }

  /** How many elements have a value. */
  ghost function Valued<T>(s: seq<T>, value: T -> Option<real>): nat {
    if s == [] then 0 else (if value(s[0]).Some? then 1 else 0) + Valued(s[1..], value)
  }

  /** The mean of the values that are there; None if there are none. */
  ghost predicate MeanOver<T>(s: seq<T>, value: T -> Option<real>, mean: Option<real>) {
    if Valued(s, value) == 0 then mean.None?
    else mean == Some(SumOf(s, value) / Valued(s, value) as real)
  }

  /** Three conditions of which exactly one holds of each element. */
  lemma {:induction false} CountsPartition<T>(s: seq<T>, p: T -> bool, q: T -> bool, r: T -> bool)
    requires forall i :: 0 <= i < |s| ==> p(s[i]) != (q(s[i]) || r(s[i])) && !(q(s[i]) && r(s[i]))
    ensures CountIf(s, p) + CountIf(s, q) + CountIf(s, r) == |s|
    decreases |s|
  {
    if s != [] {
      assert forall i :: 0 <= i < |s[1..]| ==> s[1..][i] == s[i + 1];
      CountsPartition(s[1..], p, q, r);
      assert p(s[0]) != (q(s[0]) || r(s[0]));
    }
  }
}
