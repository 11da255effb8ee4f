/**
 * Elementary random primitives, choice records and the lookup of a choice
 * by name in a trace (`findChoice`).
 *
 * The engine is generic in the program store `S`, the continuation `K`
 * resumed after a choice, the ERP parameters `P` and the sampled values `V`.
 */
module Traces {
  import opened Options
  import opened Numbers

  /**
   * An elementary random primitive: its log-density `score(params, value)`
   * and, for a drift ERP, `proposalParams(params, previousValue)`, the
   * parameters of the kernel that proposes a new value near the previous one.
   * Its sampler draws randomness and is not part of the datatype: each draw
   * is passed to the engine as a parameter.
   */
  datatype Erp<!P, !V> = Erp(score: (P, V) -> Num, proposalParams: Option<(P, V) -> P>)

  /** `isDriftERP`: the ERP carries a proposal-parameter function. */
  predicate IsDriftErp<P, V>(erp: Erp<P, V>)
  {
    erp.proposalParams.Some?
  }

  /**
   * One entry of a trace: the continuation and store to regenerate from,
   * the site's name, ERP and parameters, the running score before the site,
   * the forward and reverse proposal scores and the value.
   */
  datatype Choice<S, K, !P, !V> = Choice(
    k: K,
    name: string,
    erp: Erp<P, V>,
    params: P,
    score: Num,
    forwardChoiceScore: Num,
    reverseChoiceScore: Num,
    val: V,
    store: S)

  /** The index of the first record of `trace` named `name`, if any, found front to back. */
  function Lookup<S, K, P, V>(trace: seq<Choice<S, K, P, V>>, name: string): (r: Option<nat>)
    ensures r.Some? ==> r.value < |trace| && trace[r.value].name == name
  {
    if trace == [] then None
    else if trace[0].name == name then Some(0)
    else
      match Lookup(trace[1..], name)
      case None => None
      case Some(i) => Some(i + 1)
  }

  /**
   * `Lookup` finds the first match: no record before the index found has
   * the name, and there is no index exactly when no record has the name.
   */
  lemma {:induction false} LookupFindsFirst<S, K, P, V>(trace: seq<Choice<S, K, P, V>>, name: string)
    ensures Lookup(trace, name).Some? ==> forall j :: 0 <= j < Lookup(trace, name).value ==> trace[j].name != name
    ensures Lookup(trace, name).None? <==> forall j :: 0 <= j < |trace| ==> trace[j].name != name
  {
    if trace != [] && trace[0].name != name {
      LookupFindsFirst(trace[1..], name);
      forall j | 1 <= j < |trace|
        ensures trace[j].name == trace[1..][j - 1].name
      {
      }
    }
  }

  /** What `findChoice(trace, name)` returns: undefined for an undefined trace. */
  function Previous<S, K, P, V>(trace: Option<seq<Choice<S, K, P, V>>>, name: string): Option<Choice<S, K, P, V>>
  {
    if trace.None? then None
    else
      match Lookup(trace.value, name)
      case None => None
      case Some(i) => Some(trace.value[i])
  }

  /** `findChoice`: a front-to-back search for the first record named `name`. */
  method FindChoice<S, K, P, V>(trace: Option<seq<Choice<S, K, P, V>>>, name: string)
    returns (r: Option<Choice<S, K, P, V>>)
    ensures r == Previous(trace, name)
  {
    if trace.None? {
      return None;
    }
    var t := trace.value;
    LookupFindsFirst(t, name);
    var i := 0;
    while i < |t|
      invariant 0 <= i <= |t|
      invariant forall j :: 0 <= j < i ==> t[j].name != name
    {
      if t[i].name == name {
        return Some(t[i]);
      }
      i := i + 1;
    }
    return None;
  }
}
