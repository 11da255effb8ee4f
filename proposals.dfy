/**
 * The drift proposal kernels: the Gaussian kernel centred on the previous
 * value with a shrunken spread, and the Dirichlet kernel with scaled-down
 * concentrations, and the two drift ERPs built from them.
 */
module Proposals {
  import opened Options
  import opened Numbers
  import opened Traces

  /** `params[i]` read as a number: past the end it is `undefined`, which arithmetic turns into NaN. */
  function At(params: seq<Num>, i: nat): Num
  {
    if i < |params| then params[i] else NaN
  }

  /** `gaussianProposalParams`: mean is the previous value, spread is 0.7 times the prior's. */
  function GaussianProposalParams(params: seq<Num>, prevVal: Num): (r: seq<Num>)
    ensures |r| == 2 && r[0] == prevVal
    ensures r[1] == Scale(At(params, 1), 0.7)
  {
    [prevVal, Scale(At(params, 1), 0.7)]
  }

  /** `dirichletProposalParams`: every concentration scaled by 0.1; the previous value is not used. */
  function DirichletProposalParams<V>(params: seq<Num>, prevVal: V): (r: seq<Num>)
    ensures |r| == |params|
    ensures forall i :: 0 <= i < |params| ==> r[i] == Scale(params[i], 0.1)
  {
    seq(|params|, i requires 0 <= i < |params| => Scale(params[i], 0.1))
  }

  /** A Gaussian prior with positive spread gets a kernel centred on the old value and strictly narrower than the prior. */
  lemma GaussianDriftIsLocal(params: seq<Num>, prevVal: Num, sigma: real)
    requires |params| >= 2 && params[1] == Fin(sigma) && 0.0 < sigma
    ensures var q := GaussianProposalParams(params, prevVal);
      q[0] == prevVal && q[1].Fin? && 0.0 < q[1].r < sigma
  {
  }

  /** The Dirichlet kernel is the same whatever the previous value was (the kernel is not centred on it). */
  lemma DirichletDriftIgnoresPrevious<V>(params: seq<Num>, a: V, b: V)
    ensures DirichletProposalParams(params, a) == DirichletProposalParams(params, b)
  {
  }

  /** `gaussianDriftERP`: the Gaussian score with the Gaussian drift kernel. */
  function GaussianDriftErp(score: (seq<Num>, Num) -> Num): (e: Erp<seq<Num>, Num>)
    ensures IsDriftErp(e)
    ensures forall p, v :: e.score(p, v) == score(p, v)
    ensures forall p, v :: e.proposalParams.value(p, v) == GaussianProposalParams(p, v)
  {
    Erp(score, Some(GaussianProposalParams))
  }

  /** `dirichletDriftERP`: the Dirichlet score with the Dirichlet drift kernel. */
  function DirichletDriftErp(score: (seq<Num>, seq<Num>) -> Num): (e: Erp<seq<Num>, seq<Num>>)
    ensures IsDriftErp(e)
    ensures forall p, v :: e.score(p, v) == score(p, v)
    ensures forall p, v :: e.proposalParams.value(p, v) == DirichletProposalParams(p, v)
  {
    Erp(score, Some((p: seq<Num>, v: seq<Num>) => DirichletProposalParams(p, v)))
  }
}
