/**
 * The return-value histogram (`returnHist`) and the burn-in gate.  Keys are
 * the serialised return values; several values may share a key.
 */
module Histograms {
  import opened Options

  /** One histogram entry: the occurrence count (`prob`, normalised only later) and the first value seen under the key. */
  datatype Bin<V> = Bin(prob: nat, val: Option<V>)

  /** The histogram update in `exit`: create the entry with count 0 if the key is new, then add 1 to it. */
  function Tally<V>(hist: map<string, Bin<V>>, key: string, v: Option<V>): map<string, Bin<V>>
  {
    var bin := if key in hist then hist[key] else Bin(0, v);
    hist[key := bin.(prob := bin.prob + 1)]
  }

  /**
   * Tallying adds the key if it is new, counts one more under it, keeps the
   * first value seen there, and leaves every other entry alone.
   */
  lemma {:induction false} TallyEntries<V>(hist: map<string, Bin<V>>, key: string, v: Option<V>)
    ensures Tally(hist, key, v).Keys == hist.Keys + {key}
    ensures Tally(hist, key, v)[key].prob == (if key in hist then hist[key].prob else 0) + 1
    ensures Tally(hist, key, v)[key].val == (if key in hist then hist[key].val else v)
    ensures forall k :: k in hist && k != key ==> Tally(hist, key, v)[k] == hist[k]
  {
  }

  /** The sum of all counts. */
  ghost function Total<V>(hist: map<string, Bin<V>>): nat
    decreases |hist|
  {
    if hist == map[] then 0
    else
      var key :| key in hist;
      hist[key].prob + Total(hist - {key})
  }

  /** The total may be taken apart at any key. */
  lemma {:induction false} TotalWithout<V>(hist: map<string, Bin<V>>, key: string)
    requires key in hist
    ensures Total(hist) == hist[key].prob + Total(hist - {key})
    decreases |hist|
  {
    var k :| k in hist && Total(hist) == hist[k].prob + Total(hist - {k});
    if k != key {
      TotalWithout(hist - {k}, key);
      TotalWithout(hist - {key}, k);
      assert hist - {k} - {key} == hist - {key} - {k};
    }
  }

  /** Each recorded step adds exactly one to the total count. */
  lemma {:induction false} TallyAddsOne<V>(hist: map<string, Bin<V>>, key: string, v: Option<V>)
    ensures Total(Tally(hist, key, v)) == Total(hist) + 1
  {
    var r := Tally(hist, key, v);
    TotalWithout(r, key);
    if key in hist {
      TotalWithout(hist, key);
      assert r - {key} == hist - {key};
    } else {
      assert r - {key} == hist;
    }
  }

  /** The number of the first `steps` steps that pass the gate `burn < step` in `exit`. */
  function Recorded(burn: int, steps: nat): nat
  {
    if steps == 0 then 0
    else Recorded(burn, steps - 1) + (if burn < steps then 1 else 0)
  }

  /** Every step past the burn-in is recorded; with no burn-in every step is. */
  lemma {:induction false} RecordedAfterBurn(burn: int, steps: nat)
    ensures Recorded(burn, steps) == if steps <= burn then 0 else if burn < 0 then steps else steps - burn
  {
    if steps > 0 {
      RecordedAfterBurn(burn, steps - 1);
    }
  }

  /** The `MH` constructor's default burn-in is `min(500, floor(numIterations / 2))`. */
  function DefaultBurn(numIterations: int): (b: int)
    ensures b <= 500 && 2 * b <= numIterations
    ensures b == 500 || numIterations <= 2 * b + 1
  {
    var half := numIterations / 2;
    if half < 500 then half else 500
  }
}
