/**
 * The Metropolis-Hastings acceptance probability (`acceptProb`): the
 * forward score over the regenerated suffix of the new trace, the reverse
 * score over the sites of the old suffix that still exist by name, the
 * `-log(length)` corrections for choosing the regeneration site, and the
 * always-accept case at initialisation.
 */
module Acceptance {
  import opened Options
  import opened Numbers
  import opened Traces

  /** `s.slice(from)` */
  function Slice<T>(s: seq<T>, from: nat): seq<T>
  {
    if from <= |s| then s[from..] else []
  }

  /** The forward scores of the sites, in order. */
  function ForwardScores<S, K, P, V>(sites: seq<Choice<S, K, P, V>>): seq<Num>
  {
    if sites == [] then []
    else ForwardScores(sites[..|sites| - 1]) + [sites[|sites| - 1].forwardChoiceScore]
  }

  /** The reverse scores of the sites, in order. */
  function ReverseScores<S, K, P, V>(sites: seq<Choice<S, K, P, V>>): seq<Num>
  {
    if sites == [] then []
    else ReverseScores(sites[..|sites| - 1]) + [sites[|sites| - 1].reverseChoiceScore]
  }

  /** The sites, in order, whose name still occurs in `trace`. */
  function Surviving<S, K, P, V>(sites: seq<Choice<S, K, P, V>>, trace: seq<Choice<S, K, P, V>>)
    : (r: seq<Choice<S, K, P, V>>)
    ensures |r| <= |sites|
  {
    if sites == [] then []
    else
      var last := sites[|sites| - 1];
      Surviving(sites[..|sites| - 1], trace) + (if Lookup(trace, last.name).Some? then [last] else [])
  }

  /** Exactly the sites whose name occurs in `trace` survive; sites that vanished contribute nothing. */
  lemma {:induction false} SurvivingSites<S, K, P, V>(sites: seq<Choice<S, K, P, V>>, trace: seq<Choice<S, K, P, V>>)
    ensures forall i :: 0 <= i < |Surviving(sites, trace)| ==>
      Surviving(sites, trace)[i] in sites && Lookup(trace, Surviving(sites, trace)[i].name).Some?
    ensures forall j :: 0 <= j < |sites| && Lookup(trace, sites[j].name).Some? ==> sites[j] in Surviving(sites, trace)
  {
    if sites != [] {
      var init, last := sites[..|sites| - 1], sites[|sites| - 1];
      assert sites == init + [last];
      SurvivingSites(init, trace);
      var r0 := Surviving(init, trace);
      var r := Surviving(sites, trace);
      assert r == r0 + (if Lookup(trace, last.name).Some? then [last] else []);
      forall i | 0 <= i < |r|
        ensures r[i] in sites && Lookup(trace, r[i].name).Some?
      {
        if i < |r0| {
          assert r[i] == r0[i];
          assert r0[i] in init && Lookup(trace, r0[i].name).Some?;
        } else {
          assert Lookup(trace, last.name).Some? && r[i] == last;
        }
      }
      forall j | 0 <= j < |sites| && Lookup(trace, sites[j].name).Some?
        ensures sites[j] in r
      {
        if j < |init| {
          assert sites[j] == init[j];
          assert sites[j] in r0;
        } else {
          assert r[|r| - 1] == last;
        }
      }
    }
  }

  /** Left-to-right accumulation `init + xs[0] + ... + xs[n-1]`, as the engine's `+=` loops do it. */
  function SumFrom(init: Num, xs: seq<Num>): Num
  {
    if xs == [] then init else Add(SumFrom(init, xs[..|xs| - 1]), xs[|xs| - 1])
  }

  /** `fw`: minus the log of the old trace's length, plus the forward scores from `regenFrom` on. */
  function Forward<S, K, P, V>(m: Math, trace: seq<Choice<S, K, P, V>>, prior: seq<Choice<S, K, P, V>>, regenFrom: nat): Num
  {
    SumFrom(Neg(Log(m, |prior|)), ForwardScores(Slice(trace, regenFrom)))
  }

  /** `bw`: minus the log of the new trace's length, plus the reverse scores of surviving old sites from `regenFrom` on. */
  function Backward<S, K, P, V>(m: Math, trace: seq<Choice<S, K, P, V>>, prior: seq<Choice<S, K, P, V>>, regenFrom: nat): Num
  {
    SumFrom(Neg(Log(m, |trace|)), ReverseScores(Surviving(Slice(prior, regenFrom), trace)))
  }

  /** `currScore - oldScore + bw - fw`, evaluated left to right. */
  function LogRatio<S, K, P, V>(m: Math, trace: seq<Choice<S, K, P, V>>, prior: seq<Choice<S, K, P, V>>,
                                regenFrom: nat, currScore: Num, oldScore: Num): Num
  {
    Sub(Add(Sub(currScore, oldScore), Backward(m, trace, prior, regenFrom)), Forward(m, trace, prior, regenFrom))
  }

  /** `Math.min(1, p)` for a `p` that is not NaN and not minus infinity. */
  function MinOne(p: Num): real
    requires p.Fin? || p.PosInf?
  {
    if p.PosInf? then 1.0 else if p.r < 1.0 then p.r else 1.0
  }

  /**
   * `acceptProb`: `None` stands for the failed `assert.ok(!isNaN(p))`,
   * which aborts the run.
   */
  function AcceptProb<S, K, P, V>(m: Math, trace: seq<Choice<S, K, P, V>>, oldTrace: Option<seq<Choice<S, K, P, V>>>,
                                  regenFrom: nat, currScore: Num, oldScore: Num): (r: Option<real>)
    ensures oldTrace.None? || oldScore == NegInf ==> r == Some(1.0)
    ensures oldTrace.Some? && oldScore != NegInf ==>
      (r.None? <==> LogRatio(m, trace, oldTrace.value, regenFrom, currScore, oldScore) == NaN)
  {
    if oldTrace.None? || oldScore == NegInf then Some(1.0)
    else
      var p := Exp(m, LogRatio(m, trace, oldTrace.value, regenFrom, currScore, oldScore));
      if p.NaN? then None else Some(MinOne(p))
  }

  lemma {:induction false} SumFromSnoc(init: Num, xs: seq<Num>, x: Num)
    ensures SumFrom(init, xs + [x]) == Add(SumFrom(init, xs), x)
  {
    assert (xs + [x])[..|xs|] == xs;
  }

  /** The loop behind `trace.slice(regenFrom).map(s => fw += s.forwardChoiceScore)`. */
  method AccumulateForward<S, K, P, V>(init: Num, sites: seq<Choice<S, K, P, V>>) returns (fw: Num)
    ensures fw == SumFrom(init, ForwardScores(sites))
  {
    fw := init;
    var i := 0;
    while i < |sites|
      invariant 0 <= i <= |sites|
      invariant fw == SumFrom(init, ForwardScores(sites[..i]))
    {
      assert sites[..i + 1][..i] == sites[..i];
      assert ForwardScores(sites[..i + 1]) == ForwardScores(sites[..i]) + [sites[i].forwardChoiceScore];
      SumFromSnoc(init, ForwardScores(sites[..i]), sites[i].forwardChoiceScore);
      fw := Add(fw, sites[i].forwardChoiceScore);
      i := i + 1;
    }
    assert sites[..i] == sites;
  }

  /** The loop behind `oldTrace.slice(regenFrom).map(...)`: a reverse score counts only if `findChoice(trace, s.name)` finds the site. */
  method AccumulateReverse<S, K, P, V>(init: Num, oldSites: seq<Choice<S, K, P, V>>, trace: seq<Choice<S, K, P, V>>)
    returns (bw: Num)
    ensures bw == SumFrom(init, ReverseScores(Surviving(oldSites, trace)))
  {
    bw := init;
    var i := 0;
    while i < |oldSites|
      invariant 0 <= i <= |oldSites|
      invariant bw == SumFrom(init, ReverseScores(Surviving(oldSites[..i], trace)))
    {
      var nc := FindChoice(Some(trace), oldSites[i].name);
      assert oldSites[..i + 1][..i] == oldSites[..i];
      ghost var before := Surviving(oldSites[..i], trace);
      if nc.Some? {
        assert Surviving(oldSites[..i + 1], trace) == before + [oldSites[i]];
        assert ReverseScores(before + [oldSites[i]]) == ReverseScores(before) + [oldSites[i].reverseChoiceScore];
        SumFromSnoc(init, ReverseScores(before), oldSites[i].reverseChoiceScore);
        bw := Add(bw, oldSites[i].reverseChoiceScore);
      } else {
        assert Surviving(oldSites[..i + 1], trace) == before;
      }
      i := i + 1;
    }
    assert oldSites[..i] == oldSites;
  }

  /** `acceptProb` as the source computes it, with its two accumulation loops. */
  method ComputeAcceptProb<S, K, P, V>(m: Math, trace: seq<Choice<S, K, P, V>>, oldTrace: Option<seq<Choice<S, K, P, V>>>,
                                       regenFrom: nat, currScore: Num, oldScore: Num) returns (r: Option<real>)
    ensures r == AcceptProb(m, trace, oldTrace, regenFrom, currScore, oldScore)
  {
    if oldTrace.None? || oldScore == NegInf {
      return Some(1.0);
    }
    var prior := oldTrace.value;
    var fw := AccumulateForward(Neg(Log(m, |prior|)), Slice(trace, regenFrom));
    var bw := AccumulateReverse(Neg(Log(m, |trace|)), Slice(prior, regenFrom), trace);
    var p := Exp(m, Sub(Add(Sub(currScore, oldScore), bw), fw));
    if p.NaN? {
      return None;
    }
    return Some(MinOne(p));
  }

  /** The acceptance probability never exceeds 1 and is never negative. */
  lemma {:induction false} AcceptProbInUnitInterval<S, K, P, V>(m: Math, trace: seq<Choice<S, K, P, V>>, oldTrace: Option<seq<Choice<S, K, P, V>>>,
                                             regenFrom: nat, currScore: Num, oldScore: Num)
    requires Lawful(m)
    ensures var r := AcceptProb(m, trace, oldTrace, regenFrom, currScore, oldScore);
      r.Some? ==> 0.0 <= r.value <= 1.0
  {
  }

  /** A proposal is accepted for sure exactly when its log-ratio is not negative. */
  lemma {:induction false} AcceptProbIsOneIff<S, K, P, V>(m: Math, trace: seq<Choice<S, K, P, V>>, prior: seq<Choice<S, K, P, V>>,
                                       regenFrom: nat, currScore: Num, oldScore: Num)
    requires Lawful(m)
    requires oldScore != NegInf
    requires AcceptProb(m, trace, Some(prior), regenFrom, currScore, oldScore).Some?
    ensures var x := LogRatio(m, trace, prior, regenFrom, currScore, oldScore);
      AcceptProb(m, trace, Some(prior), regenFrom, currScore, oldScore) == Some(1.0)
      <==> x.PosInf? || (x.Fin? && 0.0 <= x.r)
  {
    var x := LogRatio(m, trace, prior, regenFrom, currScore, oldScore);
    if x.Fin? && x.r < 0.0 {
      assert m.exp(x.r) < m.exp(0.0);
    }
  }

  /** A proposal whose score is minus infinity (a `factor(-Infinity)`) has acceptance 0, so it is always rejected. */
  lemma {:induction false} RuledOutProposalRejected<S, K, P, V>(m: Math, trace: seq<Choice<S, K, P, V>>, prior: seq<Choice<S, K, P, V>>,
                                             regenFrom: nat, oldScore: Num)
    requires oldScore.Fin?
    requires Backward(m, trace, prior, regenFrom).Fin? || Backward(m, trace, prior, regenFrom).NegInf?
    requires Forward(m, trace, prior, regenFrom).Fin? || Forward(m, trace, prior, regenFrom).PosInf?
    ensures AcceptProb(m, trace, Some(prior), regenFrom, NegInf, oldScore) == Some(0.0)
  {
    NegInfDominates(oldScore, Backward(m, trace, prior, regenFrom), Forward(m, trace, prior, regenFrom));
  }

  lemma {:induction false} NegInfDominates(o: Num, bw: Num, fw: Num)
    requires o.Fin? && (bw.Fin? || bw.NegInf?) && (fw.Fin? || fw.PosInf?)
    ensures Sub(Add(Sub(NegInf, o), bw), fw) == NegInf
  {
  }

  ghost predicate AllFinite(xs: seq<Num>)
  {
    forall i :: 0 <= i < |xs| ==> xs[i].Fin?
  }

  /** The real sum of finite scores, accumulated from the front. */
  ghost function RealSum(xs: seq<Num>): real
    requires AllFinite(xs)
  {
    if xs == [] then 0.0 else xs[0].r + RealSum(xs[1..])
  }

  lemma {:induction false} RealSumSnoc(xs: seq<Num>)
    requires AllFinite(xs) && xs != []
    ensures RealSum(xs) == RealSum(xs[..|xs| - 1]) + xs[|xs| - 1].r
  {
    if |xs| > 1 {
      RealSumSnoc(xs[1..]);
      assert xs[1..][..|xs[1..]| - 1] == xs[..|xs| - 1][1..];
    }
  }

  /** Accumulating finite scores onto a finite start is the real sum. */
  lemma {:induction false} SumFromFinite(a: real, xs: seq<Num>)
    requires AllFinite(xs)
    ensures SumFrom(Fin(a), xs) == Fin(a + RealSum(xs))
  {
    if xs != [] {
      SumFromFinite(a, xs[..|xs| - 1]);
      RealSumSnoc(xs);
    }
  }

  /**
   * With finite scores and non-empty traces the log acceptance ratio is the
   * score difference, plus the surviving reverse scores, minus the forward
   * scores, plus the site-choice correction `log |old| - log |new|`.
   */
  lemma {:induction false} LogRatioWhenFinite<S, K, P, V>(m: Math, trace: seq<Choice<S, K, P, V>>, prior: seq<Choice<S, K, P, V>>,
                                       regenFrom: nat, currScore: real, oldScore: real)
    requires |trace| > 0 && |prior| > 0
    requires AllFinite(ForwardScores(Slice(trace, regenFrom)))
    requires AllFinite(ReverseScores(Surviving(Slice(prior, regenFrom), trace)))
    ensures LogRatio(m, trace, prior, regenFrom, Fin(currScore), Fin(oldScore))
         == Fin(currScore - oldScore
                + RealSum(ReverseScores(Surviving(Slice(prior, regenFrom), trace)))
                - RealSum(ForwardScores(Slice(trace, regenFrom)))
                + m.log(|prior| as real) - m.log(|trace| as real))
  {
    var lt, lp := m.log(|trace| as real), m.log(|prior| as real);
    var rs := RealSum(ReverseScores(Surviving(Slice(prior, regenFrom), trace)));
    var fs := RealSum(ForwardScores(Slice(trace, regenFrom)));
    var bw, fw := Backward(m, trace, prior, regenFrom), Forward(m, trace, prior, regenFrom);
    CorrectedSumWhenFinite(m, |trace|, ReverseScores(Surviving(Slice(prior, regenFrom), trace)));
    CorrectedSumWhenFinite(m, |prior|, ForwardScores(Slice(trace, regenFrom)));
    assert bw == Fin(-lt + rs) && fw == Fin(-lp + fs);
    FiniteRatio(currScore, oldScore, lt, lp, rs, fs);
    calc {
      LogRatio(m, trace, prior, regenFrom, Fin(currScore), Fin(oldScore));
      Sub(Add(Sub(Fin(currScore), Fin(oldScore)), bw), fw);
      Sub(Add(Sub(Fin(currScore), Fin(oldScore)), Fin(-lt + rs)), Fin(-lp + fs));
      Fin(currScore - oldScore + rs - fs + lp - lt);
    }
  }

  /** Accumulating finite scores onto `-log n`, for a positive length `n`, is a real sum. */
  lemma {:induction false} CorrectedSumWhenFinite(m: Math, n: nat, xs: seq<Num>)
    requires n > 0
    requires AllFinite(xs)
    ensures SumFrom(Neg(Log(m, n)), xs) == Fin(-m.log(n as real) + RealSum(xs))
  {
    SumFromFinite(-m.log(n as real), xs);
  }

  lemma {:induction false} FiniteRatio(c: real, o: real, lt: real, lp: real, rs: real, fs: real)
    ensures Sub(Add(Sub(Fin(c), Fin(o)), Fin(-lt + rs)), Fin(-lp + fs)) == Fin(c - o + rs - fs + lp - lt)
  {
  }
}
