/** First match and filtering on sequences: the two searches every table operation is built from. */
module Sequences {

  datatype Option<T> = None | Some(value: T)

  /** The first index satisfying p, or |es| when there is none. */
  function First<E>(es: seq<E>, p: E -> bool): (k: nat)
    ensures k <= |es|
    ensures forall j :: 0 <= j < k ==> !p(es[j])
    ensures k < |es| ==> p(es[k])
  {
    if es == [] || p(es[0]) then 0 else 1 + First(es[1..], p)
  }

  /** The elements satisfying p, in order. */
  function Filter<E>(es: seq<E>, p: E -> bool): (r: seq<E>) {
    if es == [] then [] else (if p(es[0]) then [es[0]] else []) + Filter(es[1..], p)
  }

  function Without<E>(es: seq<E>, k: nat): (r: seq<E>)
    requires k < |es|
  {
    es[..k] + es[k + 1..]
  }

  ghost predicate Distinct<E>(es: seq<E>) {
    forall i, j :: 0 <= i < j < |es| ==> es[i] != es[j]
  }

  lemma {:induction false} FilterMembers<E>(es: seq<E>, p: E -> bool)
    ensures forall e :: e in Filter(es, p) <==> e in es && p(e)
  {
    if es != [] {
      FilterMembers(es[1..], p);
      assert es == [es[0]] + es[1..];
    }
  }

  /** Removing an element that p rejects is invisible to Filter; removing one it accepts shortens the result. */
  lemma {:induction false} FilterWithout<E>(es: seq<E>, k: nat, p: E -> bool)
    requires k < |es|
    ensures !p(es[k]) ==> Filter(Without(es, k), p) == Filter(es, p)
    ensures p(es[k]) ==> |Filter(Without(es, k), p)| == |Filter(es, p)| - 1
  {
    if k == 0 {
      assert Without(es, k) == es[1..];
    } else {
      FilterWithout(es[1..], k - 1, p);
      assert Without(es, k)[1..] == Without(es[1..], k - 1);
    }
  }

  lemma {:induction false} FilterKeepsAll<E>(es: seq<E>, p: E -> bool)
    requires forall e :: e in es ==> p(e)
    ensures Filter(es, p) == es
  {
    if es != [] {
      FilterKeepsAll(es[1..], p);
    }
  }

  lemma {:induction false} FilterKeepsNone<E>(es: seq<E>, p: E -> bool)
    requires forall e :: e in es ==> !p(e)
    ensures Filter(es, p) == []
  {
    if es != [] {
      FilterKeepsNone(es[1..], p);
    }
  }
}
