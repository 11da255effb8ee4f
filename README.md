# Lightweight MH, modelled in Dafny

This project models the single-site, trace-based Metropolis-Hastings engine of
`src/inference/mh.js`. It covers the following parts of the engine:

- `findChoice` searches a given trace by name: `sample` searches the previous trace,
  `acceptProb` the new one.
- `acceptProb` computes the acceptance probability. It builds a forward score and a
  reverse score, applies the `-log(length)` corrections and has an always-accept case
  at initialisation.
- `isDriftERP` tells whether an ERP carries its own proposal kernel.
- The Gaussian and Dirichlet drift kernels.
- The `MH` handler object: its constructor and its `factor`, `sample` and `exit` methods.

The modules are:

- `Numbers` (`numbers.dfy`) models JavaScript numbers as they are used for log-scores.
  A number is a real, one of the two infinities, or NaN, and addition follows the
  IEEE 754 rules. `Math.exp` and `Math.log` are parameters of the model.
- `Traces` (`traces.dfy`) holds the ERP and choice-record datatypes and `findChoice`.
  `findChoice` is a loop method proved against the first-match function `Lookup`.
- `Proposals` (`proposals.dfy`) holds the drift kernels and the two drift ERPs.
- `Acceptance` (`acceptance.dfy`) defines `acceptProb` as a function, then proves the
  two-loop computation of the source equal to it. It also proves what the
  probability means:
  - it lies in [0, 1];
  - it is 1 exactly when the log-ratio is not negative;
  - a proposal scored minus infinity is rejected;
  - with finite scores, the log-ratio is the closed-form sum.
- `Histograms` (`histogram.dfy`) covers the return-value histogram, the burn-in gate and
  the default burn-in.
- `Engine` (`mh.dfy`) is the `MH` object as a class whose methods update its fields.
  `exit` is split into these steps:
  - `Judge`: accept or roll back;
  - `Record`: update the histogram;
  - `Advance`: `Judge` then `Record`;
  - `Regenerate`: truncate the trace and force a new value at one site;
  - `Step`: `Advance` then `Regenerate`, for a known acceptance probability.

  `Valid` is the invariant that every step keeps. It ties together the iteration count,
  the accepted and rejected counters, the old trace and the histogram total.

Randomness enters as parameters. `u` is the `Math.random()` draw against the
acceptance probability. `w` is the `Math.random()` draw that picks the site to
regenerate. `draw` is the value `erp.sample` returns. Running the probabilistic
program is not modelled. `Sample` returns the value the continuation would be
resumed with. `Exit` returns one of the following:

- the store, continuation and value to resume from (`Resumed`);
- the store, continuation and histogram that the original continuation receives (`Finished`);
- an abort (`Aborted`).

There are two kinds of abort:

- the failed `assert.ok(!isNaN(p))` in `acceptProb`;
- the exception thrown when a program has no random choices. The trace is then empty,
  so `regen` is undefined and reading `regen.score` on line 186 fails. By then lines
  181-185 have already updated the state, and the model keeps those updates.

## Model

| member | source | states |
|---|---|---|
| Traces.Lookup | src/inference/mh.js:39-44 | the index found lies in the trace and holds a record with the name |
| Traces.LookupFindsFirst | src/inference/mh.js:39-44 | no record before the index found has the name; the search finds nothing exactly when no record of the trace has the name |
| Traces.FindChoice | src/inference/mh.js:35-45 | the search loop returns nothing for an undefined trace, otherwise the first record with the name, or nothing when none has it |
| Traces.IsDriftErp | src/inference/mh.js:68-70 | an ERP is a drift ERP exactly when it carries a proposal kernel |
| Proposals.GaussianProposalParams | src/inference/mh.js:13-17 | the kernel parameters are the previous value as mean and 0.7 times the prior's spread |
| Proposals.GaussianDriftIsLocal | src/inference/mh.js:13-17 | with a positive prior spread, the kernel is centred on the previous value and strictly narrower than the prior |
| Proposals.DirichletProposalParams | src/inference/mh.js:19-23 | the kernel has one concentration per prior concentration, each scaled by 0.1 |
| Proposals.DirichletDriftIgnoresPrevious | src/inference/mh.js:19-23 | the Dirichlet kernel does not depend on the previous value |
| Proposals.GaussianDriftErp | src/inference/mh.js:25-28 | the ERP is a drift ERP, with the Gaussian score and the Gaussian kernel |
| Proposals.DirichletDriftErp | src/inference/mh.js:30-33 | the ERP is a drift ERP, with the Dirichlet score and the Dirichlet kernel |
| Acceptance.SurvivingSites | src/inference/mh.js:56-61 | an old site contributes its reverse score exactly when `findChoice` finds its name in the new trace |
| Acceptance.AcceptProb | src/inference/mh.js:47-66 | the acceptance is 1 at initialisation or when the old score is minus infinity; otherwise it is undefined (the NaN assertion fails) exactly when the log-ratio is NaN |
| Acceptance.AccumulateForward | src/inference/mh.js:51-54 | the `fw +=` loop ends with the start value plus every forward score of the new trace from `regenFrom` on, added left to right |
| Acceptance.AccumulateReverse | src/inference/mh.js:55-61 | the `bw +=` loop ends with the start value plus the reverse scores of exactly the old sites from `regenFrom` on whose name is still in the new trace |
| Acceptance.ComputeAcceptProb | src/inference/mh.js:47-66 | the source's computation, with its two accumulation loops, returns exactly the acceptance probability |
| Acceptance.AcceptProbInUnitInterval | src/inference/mh.js:62-65 | whenever it is defined, the acceptance probability lies in [0, 1] |
| Acceptance.AcceptProbIsOneIff | src/inference/mh.js:62-64 | outside initialisation, the proposal is accepted for sure exactly when the log-ratio is plus infinity or a non-negative real |
| Acceptance.RuledOutProposalRejected | src/inference/mh.js:62-64 | a proposal whose score is minus infinity gets acceptance 0, so any draw rejects it |
| Acceptance.SumFromFinite | src/inference/mh.js:51-61 | accumulating finite scores onto a finite start gives their real sum |
| Acceptance.CorrectedSumWhenFinite | src/inference/mh.js:51-59 | `-log n` plus finite scores, for a trace length n > 0, is a finite real |
| Acceptance.LogRatioWhenFinite | src/inference/mh.js:51-62 | with finite scores and non-empty traces, the exponent is `currScore - oldScore` plus the sum of the surviving reverse scores, minus the sum of the forward scores, plus the log of the old trace's length, minus the log of the new trace's length |
| Histograms.TallyEntries | src/inference/mh.js:174-178 | tallying adds the key if it is new, counts one more under it, keeps the first value stored there and leaves every other entry alone |
| Histograms.TotalWithout | src/inference/mh.js:175-178 | the total count splits at any key into that key's count and the rest |
| Histograms.TallyAddsOne | src/inference/mh.js:175-178 | each tally adds exactly one to the total count |
| Histograms.RecordedAfterBurn | src/inference/mh.js:170 | after `steps` steps, the burn-in gate has let through none of them, all of them (burn < 0), or `steps - burn` |
| Histograms.DefaultBurn | src/inference/mh.js:87 | the default burn-in is at most 500 and at most half the iterations, and it is 500 or the floor of half the iterations |
| Engine.RegenIndex | src/inference/mh.js:181 | the index is the floor of `w * length`, so it lies in `[0, length)` for a non-empty trace |
| Engine.MH.constructor | src/inference/mh.js:72-97 | the fields start empty, with score 0 and old score minus infinity; the burn-in and diagnostics defaults apply; the previous handler is saved and this object is installed as the handler; the invariant holds |
| Engine.MH.Factor | src/inference/mh.js:103-106 | the weight is added to the running score and the trace is untouched |
| Engine.MH.Sample | src/inference/mh.js:108-150 | exactly one record is appended and earlier ones are kept; the record's score is the running score before the call, which then grows by the site's prior score; in each of the three branches (fresh draw, reuse, forced non-drift or drift proposal), the value, forward score and reverse score are those of that branch |
| Engine.MH.Judge | src/inference/mh.js:160-168 | a draw below the acceptance accepts and records the new value; otherwise the trace, score and value roll back to the old ones; exactly one counter goes up |
| Engine.MH.Record | src/inference/mh.js:170-179 | past the burn-in, the value is tallied under its serialised key (and kept for diagnostics), otherwise nothing changes; the histogram keeps one count per recorded step |
| Engine.MH.Advance | src/inference/mh.js:160-179 | a draw below the acceptance accepts the new trace and value, otherwise trace, score and value roll back; exactly one counter goes up; past the burn-in the recorded value is tallied (and kept for diagnostics); the histogram keeps one count per step |
| Engine.MH.Regenerate | src/inference/mh.js:181-189 | the site index is the floor of `w` times the trace length; the whole trace becomes the old trace and its score the old score; the run aborts with no random choices exactly when the trace is empty, leaving an empty trace; otherwise the recorded value becomes the old value, the trace is the prefix before the site plus the site's record with the forced value and the forward and reverse scores of the drift or non-drift proposal against the site's previous value, the running score is the site's recorded score plus the new value's prior score, and the continuation resumes at the site with the new value |
| Engine.MH.Step | src/inference/mh.js:160-189 | one step with a known acceptance keeps the invariant and uses up no iteration; exactly the counter its verdict names goes up; the histogram and `vals` record the accepted value or the rolled-back old value past the burn-in; regeneration then starts from the accepted trace or the rolled-back old trace, as `Regenerate` states |
| Engine.MH.Exit | src/inference/mh.js:153-205 | while iterations remain, one is used up; the run aborts, with nothing else changed, exactly when the acceptance is NaN; otherwise the draw against the acceptance decides which counter goes up, the invariant holds and the whole new state is that of `Step` with that acceptance; the first step is always accepted; once no iterations remain, the previous handler is reinstated, nothing else changes and the histogram goes to the original continuation and store |
| Engine.NoBurnCountsEveryStep | src/inference/mh.js:170-179 | with no burn-in, the histogram total equals the number of steps taken, and at the end the number of iterations |

## Left out

- Running the program is not modelled: `run`, the exported `mh` entry, `wpplFn` and the
  resumption of continuations (`k(s)`, `cont(s, val)`). `Sample`, `Factor` and `Exit`
  return what the continuation would receive instead.
- `erp.makeMarginalERP` is not part of this model, nor is the way it normalises the
  histogram. `Exit` hands back the raw histogram.
- The diagnostics output is left out: `console.log` and `diagnostics.run` are I/O. The
  `vals` buffer they read is modelled.
- `src/inference/mh-diagnostics/graph.py` is left out. It is plotting and file I/O.
- Floating-point rounding is left out: finite scores are exact reals. `Math.exp` and
  `Math.log` are arbitrary functions. Only the bound lemmas assume that exp is
  positive, increasing and 1 at 0.
- `Math.random()` and `erp.sample` are parameters. The model does not use their
  distributions.
- `erp.score` and the ERP constructor of `../erp.js` are not part of this model. An ERP
  is its score function and an optional proposal kernel.
- `_.clone` of the store is a value copy. Stores are values, so no aliasing is modelled.
- `JSON.stringify` is an arbitrary key function. It need not be injective.
- JavaScript coercions are left out. `numIterations` and `burn` are integers. The
  Gaussian helper reads a missing `params[1]` as NaN, since `undefined * 0.7` is NaN.
- Engine.MH.Step: requires the acceptance probability passed in to be 1 whenever there is
  no old trace. That is what `acceptProb` returns there, and `Exit` passes it in.
