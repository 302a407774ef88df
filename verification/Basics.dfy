/** Small datatypes and facts shared by the other modules. */
module Basics {

  datatype Option<+T> = None | Some(value: T)

  /** Two to the power n, as in the worker's backoff expression. */
  function Pow2(n: nat): (r: nat)
    ensures r >= 1
  {
    if n == 0 then 1 else 2 * Pow2(n - 1)
  }

  /** No value occurs at two positions. */
  ghost predicate Distinct(s: seq<nat>) {
    forall i, j :: 0 <= i < j < |s| ==> s[i] != s[j]
  }

  /** The concatenation of the first n parts. */
  function Joined<T>(part: nat -> seq<T>, n: nat): seq<T> {
    if n == 0 then [] else Joined(part, n - 1) + part(n - 1)
  }

  lemma {:induction false} PartInJoined<T>(part: nat -> seq<T>, n: nat, p: nat, x: T)
    requires p < n && x in part(p)
    ensures x in Joined(part, n)
  {
    if p < n - 1 {
      PartInJoined(part, n - 1, p, x);
    }
  }

  lemma {:induction false} JoinedHasPart<T>(part: nat -> seq<T>, n: nat, x: T) returns (p: nat)
    requires x in Joined(part, n)
    ensures p < n && x in part(p)
  {
    if x in part(n - 1) {
      p := n - 1;
    } else {
      p := JoinedHasPart(part, n - 1, x);
    }
  }

  /** Step k appends its part to the log. */
  predicate Appends<T(==)>(log: nat -> seq<T>, part: nat -> seq<T>, k: nat) {
    log(k + 1) == log(k) + part(k)
  }

  lemma {:induction false} LogJoined<T>(log: nat -> seq<T>, part: nat -> seq<T>, n: nat)
    requires forall k: nat :: k < n ==> Appends(log, part, k)
    ensures log(n) == log(0) + Joined(part, n)
  {
    if n == 0 {
      assert log(0) + [] == log(0);
    } else {
      LogJoined(log, part, n - 1);
      assert Appends(log, part, n - 1);
      assert (log(0) + Joined(part, n - 1)) + part(n - 1) == log(0) + (Joined(part, n - 1) + part(n - 1));
    }
  }
}
