/**
 * Convergence monitoring of a high-level iterative algorithm such as Picard
 * or Uzawa (cs_iter_algo_t), and its reset between two runs.  The
 * convergence settings and the algorithm context are carried along
 * unchanged; they are type parameters here.
 */
module IterAlgo {

  /** "Big" residual value set by a reset (cs_math_big_r). */
  const BigR: real := 1.0e12

  /** Convergence states of an iterative solver (cs_sles_convergence_state_t). */
  datatype SlesConvergence = Diverged | Breakdown | MaxIteration | Iterating | Converged

  /** Value view of the whole record. */
  datatype IterState<P, C> = IterState(
    verbosity: int,
    cvgParam: P,
    context: C,
    cvgStatus: SlesConvergence,
    normalization: real,
    tol: real,
    prevRes: real,
    res: real,
    res0: real,
    nAlgoIter: int,
    nInnerIter: int,
    lastInnerIter: int)

  /** The monitoring part is in its initial state: iterating, big residuals, no iteration yet. */
  predicate IsReset<P, C>(s: IterState<P, C>)
  {
    && s.cvgStatus == Iterating
    && s.res0 == BigR && s.prevRes == BigR && s.res == BigR
    && s.nAlgoIter == 0 && s.nInnerIter == 0 && s.lastInnerIter == 0
  }

  /**
   * cs_iter_algo_reset on a value: the monitoring part is back to its
   * initial state; verbosity, settings, context, normalization and
   * tolerance are those of s.
   */
  function ResetState<P, C>(s: IterState<P, C>): (r: IterState<P, C>)
    ensures IsReset(r)
    ensures r.verbosity == s.verbosity && r.cvgParam == s.cvgParam && r.context == s.context
    ensures r.normalization == s.normalization && r.tol == s.tol
  {
    s.(cvgStatus := Iterating, res0 := BigR, prevRes := BigR, res := BigR,
       nAlgoIter := 0, nInnerIter := 0, lastInnerIter := 0)
  }

  /** Resetting twice is resetting once. */
  lemma ResetIdempotent<P, C>(s: IterState<P, C>)
    ensures ResetState(ResetState(s)) == ResetState(s)
  {
  }

  /** The states a reset leaves unchanged are exactly the reset ones. */
  lemma ResetFixpoint<P, C>(s: IterState<P, C>)
    ensures ResetState(s) == s <==> IsReset(s)
  {
    if IsReset(s) {
      assert ResetState(s) == s;
    }
  }

  /**
   * Two states that differ only in their monitoring part are the same once
   * reset: a reset forgets the whole history of the previous run.
   */
  lemma ResetForgetsHistory<P, C>(s: IterState<P, C>, t: IterState<P, C>)
    requires s.verbosity == t.verbosity && s.cvgParam == t.cvgParam && s.context == t.context
    requires s.normalization == t.normalization && s.tol == t.tol
    ensures ResetState(s) == ResetState(t)
  {
  }

  class IterAlgo<P, C> {
    var verbosity: int
    var cvgParam: P
    var context: C
    var cvgStatus: SlesConvergence
    var normalization: real
    var tol: real
    var prevRes: real
    var res: real
    var res0: real
    var nAlgoIter: int
    var nInnerIter: int
    var lastInnerIter: int

    /** The record as a value. */
    function State(): IterState<P, C>
      reads this
    {
      IterState(verbosity, cvgParam, context, cvgStatus, normalization, tol,
                prevRes, res, res0, nAlgoIter, nInnerIter, lastInnerIter)
    }

    /**
     * A record with the given settings, context, normalization and
     * tolerance, its monitoring part in the state a reset gives.
     */
    constructor(verbosity: int, cvgParam: P, context: C, normalization: real, tol: real)
      ensures IsReset(State())
      ensures this.verbosity == verbosity && this.cvgParam == cvgParam && this.context == context
      ensures this.normalization == normalization && this.tol == tol
    {
      this.verbosity, this.cvgParam, this.context := verbosity, cvgParam, context;
      cvgStatus, this.normalization, this.tol := Iterating, normalization, tol;
      prevRes, res, res0 := BigR, BigR, BigR;
      nAlgoIter, nInnerIter, lastInnerIter := 0, 0, 0;
    }

    /**
     * cs_iter_algo_reset: nothing happens without a record; otherwise its
     * monitoring part is reset in place and the other fields keep their
     * values.
     */
    static method Reset(algo: IterAlgo?<P, C>)
      modifies algo
      ensures algo != null ==> algo.State() == ResetState(old(algo.State()))
    {
      if algo == null {
        return;
      }
      algo.cvgStatus := Iterating;
      algo.res0 := BigR;
      algo.prevRes := BigR;
      algo.res := BigR;
      algo.nAlgoIter := 0;
      algo.nInnerIter := 0;
      algo.lastInnerIter := 0;
    }
  }
}
