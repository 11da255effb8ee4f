/**
 * The MH inference object: the handler that the program's `sample` and
 * `factor` effects are routed to, and the step machine run each time the
 * program finishes (`exit`).
 *
 * Program execution itself is outside the model: `Sample` returns the value
 * the continuation is resumed with, and `Exit` returns the continuation and
 * store to regenerate from, or the final histogram.  The uniform draws of
 * `Math.random()` and the values drawn by `erp.sample` are parameters.
 */
module Engine {
  import opened Options
  import opened Numbers
  import opened Traces
  import opened Acceptance
  import opened Histograms

  /** The process-wide slot of the active effect handler (`env.coroutine`). */
  class Env {
    var coroutine: object?

    constructor (current: object?)
      ensures coroutine == current
    {
      coroutine := current;
    }
  }

  /** Why a run stops with an exception: the failed NaN assertion, or `regen.score` of an empty trace. */
  datatype Failure = AcceptanceIsNaN | NoRandomChoices

  /** What `exit` hands back to the program substrate. */
  datatype Exited<S, K, V> =
    | Resumed(store: S, k: K, val: V)
    | Finished(store: S, k: K, hist: map<string, Bin<V>>)
    | Aborted(failure: Failure)

  /** The site index `exit` draws for regeneration: `Math.floor(Math.random() * length)`. */
  function RegenIndex(w: real, n: nat): (i: nat)
    requires 0.0 <= w < 1.0
    ensures n == 0 ==> i == 0
    ensures n > 0 ==> i < n
    ensures i as real <= w * n as real < i as real + 1.0
  {
    var x := w * n as real;
    assert 0.0 <= x;
    assert n > 0 ==> x < n as real;
    x.Floor
  }

  /**
   * The record `sample` appends when forced to propose a new value `draw` at
   * the site `site`, whose earlier value under the same name is `prev`: the
   * drift kernel's forward and reverse scores for a drift ERP, the prior's
   * otherwise.  Everything else is copied from the site.
   */
  function ForcedChoice<S, K, P, V>(site: Choice<S, K, P, V>, prev: V, draw: V): Choice<S, K, P, V>
  {
    var erp := site.erp;
    var forward := if IsDriftErp(erp) then erp.score(erp.proposalParams.value(site.params, prev), draw)
                   else erp.score(site.params, draw);
    var reverse := if IsDriftErp(erp) then erp.score(erp.proposalParams.value(site.params, draw), prev)
                   else erp.score(site.params, prev);
    Choice(site.k, site.name, erp, site.params, site.score, forward, reverse, draw, site.store)
  }

  class MH<S, K, !P, !V> {
    var trace: seq<Choice<S, K, P, V>>
    var oldTrace: Option<seq<Choice<S, K, P, V>>>
    var currScore: Num
    var oldScore: Num
    var oldVal: Option<V>
    var regenFrom: nat
    var returnHist: map<string, Bin<V>>
    var iterations: int
    var acceptedProposals: nat
    var rejectedProposals: nat
    var vals: seq<Option<V>>
    /** The continuation and store that receive the marginal once the iterations are used up. */
    const k: K
    const oldStore: S
    const diagnostics: bool
    const burn: int
    const env: Env
    const oldCoroutine: object?
    /** `Math.exp` and `Math.log` */
    const math: Math
    /** `JSON.stringify`, not assumed injective */
    const stringify: Option<V> -> string
    /** The iteration count the run was created with. */
    ghost const numIterations: int

    /**
     * The counters agree with the iterations used up, the old trace exists
     * once a step has been taken, and the histogram and the diagnostics
     * buffer hold one count per step past the burn-in.
     */
    ghost predicate Valid()
      reads this`iterations, this`acceptedProposals, this`rejectedProposals, this`oldTrace, this`returnHist, this`vals
    {
      && Accounted()
      && (oldTrace.None? <==> acceptedProposals + rejectedProposals == 0)
    }

    /** The counting part of `Valid`: iterations used up against steps taken, and the histogram. */
    ghost predicate Accounted()
      reads this`iterations, this`acceptedProposals, this`rejectedProposals, this`returnHist, this`vals
    {
      var steps := acceptedProposals + rejectedProposals;
      && (if numIterations <= 0 then iterations == numIterations && steps == 0
          else 0 <= iterations && steps + iterations == numIterations)
      && Counted(returnHist, vals, steps)
    }

    /**
     * The state inside a step of `exit`: one more iteration has been used up
     * than steps have been taken.
     */
    ghost predicate Pending()
      reads this`iterations, this`acceptedProposals, this`rejectedProposals, this`oldTrace, this`returnHist, this`vals
    {
      var steps := acceptedProposals + rejectedProposals;
      && 0 < numIterations && 0 <= iterations && steps + iterations + 1 == numIterations
      && (oldTrace.None? <==> steps == 0)
      && Counted(returnHist, vals, steps)
    }

    /** The histogram and the diagnostics buffer hold one count per step past the burn-in, for `steps` steps. */
    ghost predicate Counted(returnHist: map<string, Bin<V>>, vals: seq<Option<V>>, steps: nat)
    {
      && Total(returnHist) == Recorded(burn, steps)
      && (forall key :: key in returnHist ==> returnHist[key].prob >= 1)
      && |vals| == (if diagnostics then Recorded(burn, steps) else 0)
    }

    /**
     * The state regeneration leaves, starting from the trace `t` with running
     * score `score`, having recorded `rec` while the old value was
     * `priorOldVal`.  The whole of `t` becomes the old trace.  An empty `t`
     * aborts (`regen.score` of undefined) once the index, old trace, truncated
     * trace and old score are set; otherwise the trace is the prefix before
     * the drawn site plus the forced record there, and the program resumes
     * from the site's continuation and store with the new value.
     */
    ghost predicate Regenerated(t: seq<Choice<S, K, P, V>>, score: Num, rec: Option<V>, w: real, draw: V,
                                priorOldVal: Option<V>, out: Exited<S, K, V>)
      requires 0.0 <= w < 1.0
      reads this`regenFrom, this`oldTrace, this`trace, this`oldScore, this`currScore, this`oldVal
    {
      && regenFrom == RegenIndex(w, |t|)
      && oldTrace == Some(t) && oldScore == score
      && if |t| == 0 then
           && out == Aborted(NoRandomChoices)
           && trace == [] && currScore == score && oldVal == priorOldVal
         else
           var site := t[regenFrom];
           && Previous(Some(t), site.name).Some?
           && trace == t[..regenFrom] + [ForcedChoice(site, Previous(Some(t), site.name).value.val, draw)]
           && currScore == Add(site.score, site.erp.score(site.params, draw))
           && oldVal == rec
           && out == Resumed(site.store, site.k, draw)
    }

    /**
     * The state one step of `exit` leaves, given the state before it (trace
     * `t0` and score `s0`, old trace, score and value, histogram and
     * diagnostics buffer) and the acceptance probability `p`: accept when
     * `u < p`, otherwise roll back to the old trace, score and value; past the
     * burn-in tally the value kept; then regenerate.
     */
    ghost predicate Stepped(t0: seq<Choice<S, K, P, V>>, s0: Num, oldTrace0: Option<seq<Choice<S, K, P, V>>>,
                            oldScore0: Num, oldVal0: Option<V>, hist0: map<string, Bin<V>>, vals0: seq<Option<V>>,
                            val: V, p: real, u: real, w: real, draw: V, out: Exited<S, K, V>)
      requires 0.0 <= w < 1.0
      requires u >= p ==> oldTrace0.Some?
      reads this`returnHist, this`vals, this`acceptedProposals, this`rejectedProposals
      reads this`regenFrom, this`oldTrace, this`trace, this`oldScore, this`currScore, this`oldVal
    {
      var accepted := u < p;
      var rec := if accepted then Some(val) else oldVal0;
      var recorded := burn < acceptedProposals + rejectedProposals;
      && returnHist == (if recorded then Tally(hist0, stringify(rec), rec) else hist0)
      && vals == (if recorded && diagnostics then vals0 + [rec] else vals0)
      && Regenerated(if accepted then t0 else oldTrace0.value, if accepted then s0 else oldScore0, rec, w, draw, oldVal0, out)
    }

    /** The `MH` constructor: the empty state, the burn-in default, and this object installed as the handler. */
    constructor (s: S, k: K, env: Env, numIterations: int, burn: Option<int>, diagnostics: Option<bool>,
                 math: Math, stringify: Option<V> -> string)
      modifies env
      ensures Valid()
      ensures trace == [] && oldTrace == None && oldVal == None && regenFrom == 0
      ensures currScore == Fin(0.0) && oldScore == NegInf
      ensures returnHist == map[] && vals == []
      ensures iterations == numIterations && acceptedProposals == 0 && rejectedProposals == 0
      ensures this.diagnostics == (diagnostics == Some(true))
      ensures this.burn == if burn.Some? then burn.value else DefaultBurn(numIterations)
      ensures this.k == k && this.oldStore == s
      ensures this.env == env && this.math == math && this.stringify == stringify
      ensures oldCoroutine == old(env.coroutine) && env.coroutine == this
    {
      trace := [];
      oldTrace := None;
      currScore := Fin(0.0);
      oldScore := NegInf;
      oldVal := None;
      regenFrom := 0;
      returnHist := map[];
      iterations := numIterations;
      acceptedProposals := 0;
      rejectedProposals := 0;
      vals := [];
      this.diagnostics := if diagnostics.Some? then diagnostics.value else false;
      this.burn := if burn.Some? then burn.value else DefaultBurn(numIterations);
      this.k := k;
      this.oldStore := s;
      this.env := env;
      this.math := math;
      this.stringify := stringify;
      this.numIterations := numIterations;
      oldCoroutine := env.coroutine;
      new;
      env.coroutine := this;
    }

    /** `factor`: the weight is added to the running score; the trace is untouched. */
    method Factor(score: Num)
      modifies this`currScore
      ensures currScore == Add(old(currScore), score)
      ensures trace == old(trace)
    {
      currScore := Add(currScore, score);
    }

    /**
     * `sample`: resolve the site against the previous trace (fresh draw,
     * forced proposal or reuse), append one record holding the running score
     * before the site, and add the site's prior score to the running score.
     * `draw` is what `erp.sample` returns for the parameters it is given.
     */
    method Sample(s: S, cont: K, name: string, erp: Erp<P, V>, params: P, forceSample: bool, draw: V)
      returns (val: V)
      modifies this`trace, this`currScore
      ensures |trace| == |old(trace)| + 1 && trace[..|old(trace)|] == old(trace)
      ensures trace[|old(trace)|]
           == Choice(cont, name, erp, params, old(currScore),
                     trace[|old(trace)|].forwardChoiceScore, trace[|old(trace)|].reverseChoiceScore, val, s)
      ensures currScore == Add(old(currScore), erp.score(params, val))
      ensures Previous(oldTrace, name).None? ==>
        && val == draw
        && trace[|old(trace)|].forwardChoiceScore == erp.score(params, draw)
        && trace[|old(trace)|].reverseChoiceScore == Fin(0.0)
      ensures Previous(oldTrace, name).Some? && !forceSample ==>
        && val == Previous(oldTrace, name).value.val
        && trace[|old(trace)|].forwardChoiceScore == Fin(0.0)
        && trace[|old(trace)|].reverseChoiceScore == Fin(0.0)
      ensures Previous(oldTrace, name).Some? && forceSample && !IsDriftErp(erp) ==>
        && val == draw
        && trace[|old(trace)|].forwardChoiceScore == erp.score(params, draw)
        && trace[|old(trace)|].reverseChoiceScore == erp.score(params, Previous(oldTrace, name).value.val)
      ensures Previous(oldTrace, name).Some? && forceSample && IsDriftErp(erp) ==>
        && val == draw
        && trace[|old(trace)|].forwardChoiceScore
           == erp.score(erp.proposalParams.value(params, Previous(oldTrace, name).value.val), draw)
        && trace[|old(trace)|].reverseChoiceScore
           == erp.score(erp.proposalParams.value(params, draw), Previous(oldTrace, name).value.val)
    {
      var prev := FindChoice(oldTrace, name);
      var forwardChoiceScore, reverseChoiceScore;
      if prev.None? {
        val := draw;
        forwardChoiceScore := erp.score(params, val);
        reverseChoiceScore := Fin(0.0);
      } else if forceSample {
        if IsDriftErp(erp) {
          var proposalParams := erp.proposalParams.value(params, prev.value.val);
          val := draw;
          forwardChoiceScore := erp.score(proposalParams, val);
          var nextProposalParams := erp.proposalParams.value(params, val);
          reverseChoiceScore := erp.score(nextProposalParams, prev.value.val);
        } else {
          val := draw;
          forwardChoiceScore := erp.score(params, val);
          reverseChoiceScore := erp.score(params, prev.value.val);
        }
      } else {
        val := prev.value.val;
        forwardChoiceScore := Fin(0.0);
        reverseChoiceScore := Fin(0.0);
      }
      trace := trace + [Choice(cont, name, erp, params, currScore, forwardChoiceScore, reverseChoiceScore, val, s)];
      currScore := Add(currScore, erp.score(params, val));
    }

    /**
     * The verdict in `exit`: given the acceptance probability `p`, accept when the
     * uniform draw `u` falls below it, otherwise roll back to the old trace,
     * score and value.  Returns the value to record.
     */
    method Judge(val: V, p: real, u: real) returns (recorded: Option<V>)
      requires oldTrace.None? ==> p == 1.0
      requires 0.0 <= u < 1.0
      modifies this`trace, this`currScore, this`acceptedProposals, this`rejectedProposals
      ensures u >= p ==>
        && oldTrace.Some?
        && recorded == oldVal
        && trace == oldTrace.value && currScore == oldScore
        && rejectedProposals == old(rejectedProposals) + 1 && acceptedProposals == old(acceptedProposals)
      ensures u < p ==>
        && recorded == Some(val)
        && trace == old(trace) && currScore == old(currScore)
        && acceptedProposals == old(acceptedProposals) + 1 && rejectedProposals == old(rejectedProposals)
    {
      if u >= p {
        rejectedProposals := rejectedProposals + 1;
        trace := oldTrace.value;
        currScore := oldScore;
        recorded := oldVal;
      } else {
        acceptedProposals := acceptedProposals + 1;
        recorded := Some(val);
      }
    }

    /** The recording in `exit`: past the burn-in, count the value under its serialised key (and keep it for diagnostics). */
    method Record(v: Option<V>)
      requires acceptedProposals + rejectedProposals > 0
      requires Counted(returnHist, vals, acceptedProposals + rejectedProposals - 1)
      modifies this`returnHist, this`vals
      ensures returnHist == if burn < acceptedProposals + rejectedProposals then Tally(old(returnHist), stringify(v), v) else old(returnHist)
      ensures vals == if burn < acceptedProposals + rejectedProposals && diagnostics then old(vals) + [v] else old(vals)
      ensures Counted(returnHist, vals, acceptedProposals + rejectedProposals)
    {
      assert Recorded(burn, acceptedProposals + rejectedProposals)
          == Recorded(burn, acceptedProposals + rejectedProposals - 1)
             + (if burn < acceptedProposals + rejectedProposals then 1 else 0);
      if burn < acceptedProposals + rejectedProposals {
        if diagnostics {
          vals := vals + [v];
        }
        var key := stringify(v);
        TallyAddsOne(returnHist, key, v);
        returnHist := Tally(returnHist, key, v);
      }
    }

    /**
     * The regeneration in `exit`: pick the site to regenerate, keep the whole trace as the
     * old trace, truncate the trace before the site, restart the running
     * score from the site's recorded score and force a new value there.
     */
    method Regenerate(v: Option<V>, w: real, draw: V) returns (out: Exited<S, K, V>)
      requires 0.0 <= w < 1.0
      modifies this`regenFrom, this`oldTrace, this`trace, this`oldScore, this`currScore, this`oldVal
      ensures Regenerated(old(trace), old(currScore), v, w, draw, old(oldVal), out)
    {
      var prior := trace;
      regenFrom := RegenIndex(w, |prior|);
      oldTrace := Some(prior);
      trace := prior[..regenFrom];
      oldScore := currScore;
      if |prior| == 0 {
        return Aborted(NoRandomChoices);
      }
      var regen := prior[regenFrom];
      currScore := regen.score;
      oldVal := v;
      LookupFindsFirst(prior, regen.name);
      var val := Sample(regen.store, regen.k, regen.name, regen.erp, regen.params, true, draw);
      assert trace == prior[..regenFrom] + [trace[regenFrom]];
      out := Resumed(regen.store, regen.k, val);
    }

    /**
     * The accept-or-roll-back and record part of one step of `exit`, once
     * the iteration is used up and the acceptance probability `p` is known.
     * Returns the value recorded.
     */
    method Advance(val: V, p: real, u: real) returns (recorded: Option<V>)
      requires Pending()
      requires oldTrace.None? ==> p == 1.0
      requires 0.0 <= u < 1.0
      modifies this`trace, this`currScore, this`acceptedProposals, this`rejectedProposals, this`returnHist, this`vals
      ensures u >= p ==> old(oldTrace).Some?
      ensures recorded == if u < p then Some(val) else old(oldVal)
      ensures trace == if u < p then old(trace) else old(oldTrace).value
      ensures currScore == if u < p then old(currScore) else old(oldScore)
      ensures u < p ==> acceptedProposals == old(acceptedProposals) + 1 && rejectedProposals == old(rejectedProposals)
      ensures u >= p ==> rejectedProposals == old(rejectedProposals) + 1 && acceptedProposals == old(acceptedProposals)
      ensures returnHist == if burn < acceptedProposals + rejectedProposals
                            then Tally(old(returnHist), stringify(recorded), recorded) else old(returnHist)
      ensures vals == if burn < acceptedProposals + rejectedProposals && diagnostics
                      then old(vals) + [recorded] else old(vals)
      ensures Accounted() && acceptedProposals + rejectedProposals > 0
    {
      recorded := Judge(val, p, u);
      Record(recorded);
    }

    /**
     * One step of `exit` once the iteration is used up and the acceptance
     * probability `p` is known: accept or roll back, record the value past
     * the burn-in, and regenerate.
     */
    method Step(val: V, p: real, u: real, w: real, draw: V) returns (out: Exited<S, K, V>)
      requires Pending()
      requires oldTrace.None? ==> p == 1.0
      requires 0.0 <= u < 1.0 && 0.0 <= w < 1.0
      modifies this
      ensures Valid()
      ensures iterations == old(iterations)
      ensures u < p ==> acceptedProposals == old(acceptedProposals) + 1 && rejectedProposals == old(rejectedProposals)
      ensures u >= p ==> rejectedProposals == old(rejectedProposals) + 1 && acceptedProposals == old(acceptedProposals)
      ensures Stepped(old(trace), old(currScore), old(oldTrace), old(oldScore), old(oldVal), old(returnHist), old(vals),
                      val, p, u, w, draw, out)
    {
      var recorded := Advance(val, p, u);
      out := Regenerate(recorded, w, draw);
    }

    /**
     * `exit`: while iterations remain, use one up, compute the acceptance
     * probability (a NaN aborts the run) and take one MH step; afterwards,
     * reinstate the previous handler and hand back the histogram for the
     * marginal.
     */
    method Exit(val: V, u: real, w: real, draw: V) returns (out: Exited<S, K, V>)
      requires Valid()
      requires 0.0 <= u < 1.0 && 0.0 <= w < 1.0
      modifies this, env
      ensures old(iterations) <= 0 ==>
        out == Finished(oldStore, k, returnHist) && env.coroutine == oldCoroutine && unchanged(this)
      ensures old(iterations) > 0 ==>
        iterations == old(iterations) - 1 && env.coroutine == old(env.coroutine)
      ensures old(iterations) > 0 ==>
        (out == Aborted(AcceptanceIsNaN)
         <==> AcceptProb(math, old(trace), old(oldTrace), old(regenFrom), old(currScore), old(oldScore)).None?)
      ensures old(iterations) > 0 && out == Aborted(AcceptanceIsNaN) ==>
        && trace == old(trace) && currScore == old(currScore) && oldTrace == old(oldTrace)
        && oldScore == old(oldScore) && oldVal == old(oldVal) && regenFrom == old(regenFrom)
        && acceptedProposals == old(acceptedProposals) && rejectedProposals == old(rejectedProposals)
        && returnHist == old(returnHist) && vals == old(vals)
      ensures old(iterations) > 0 && out != Aborted(AcceptanceIsNaN) ==>
        && Valid()
        && var acceptance := AcceptProb(math, old(trace), old(oldTrace), old(regenFrom), old(currScore), old(oldScore));
           && (if u < acceptance.value
               then acceptedProposals == old(acceptedProposals) + 1 && rejectedProposals == old(rejectedProposals)
               else rejectedProposals == old(rejectedProposals) + 1 && acceptedProposals == old(acceptedProposals))
           && Stepped(old(trace), old(currScore), old(oldTrace), old(oldScore), old(oldVal), old(returnHist), old(vals),
                      val, acceptance.value, u, w, draw, out)
      ensures old(iterations) > 0 && old(oldTrace).None? ==> acceptedProposals == 1 && rejectedProposals == 0
    {
      if iterations > 0 {
        iterations := iterations - 1;
        var acceptance := ComputeAcceptProb(math, trace, oldTrace, regenFrom, currScore, oldScore);
        if acceptance.None? {
          return Aborted(AcceptanceIsNaN);
        }
        out := Step(val, acceptance.value, u, w, draw);
      } else {
        env.coroutine := oldCoroutine;
        out := Finished(oldStore, k, returnHist);
      }
    }
  }

  /** With no burn-in, the histogram holds one count per step taken; at the end, one per iteration. */
  lemma NoBurnCountsEveryStep<S, K, P, V>(mh: MH<S, K, P, V>)
    requires mh.Valid() && mh.burn == 0
    ensures Total(mh.returnHist) == mh.acceptedProposals + mh.rejectedProposals
    ensures mh.iterations == 0 && mh.numIterations >= 0 ==> Total(mh.returnHist) == mh.numIterations
  {
    RecordedAfterBurn(0, mh.acceptedProposals + mh.rejectedProposals);
  }
}
