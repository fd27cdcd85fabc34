/**
 * The computational domain of the CDO/HHO schemes (cs_domain_t): its
 * default settings, the computation stage and the CDO activation mode, and
 * the two decisions of the time loop (one more iteration, a log now).
 */
module CdoDomain {

  /** Activation modes of the CDO/HHO module: off, alongside finite volumes, alone. */
  const CDO_MODE_OFF: int := -1
  const CDO_MODE_WITH_FV: int := 1
  const CDO_MODE_ONLY: int := 2

  /** Stages of a computation run (cs_domain_stage_t). */
  datatype Stage =
    | BeforeSteadyComputation
    | BeforeTimeLoop
    | TimeStepBegin
    | TimeStepSubIteration
    | TimeStepEnd
    | AfterTimeLoop

  /** The time step counters and times read by the time loop decisions. */
  datatype TimeStep = TimeStep(ntPrev: int, ntCur: int, ntMax: int, tCur: real, tMax: real)

  /** Time stepping options (cs_time_step_options_t). */
  datatype TimeOptions = TimeOptions(
    iptlro: int,
    idtvar: int,
    coumax: real,
    cflmmx: real,
    foumax: real,
    varrdt: real,
    dtmin: real,
    dtmax: real,
    relxst: real)

  /** The time options set by cs_domain_create: a constant time step. */
  const DefaultTimeOptions: TimeOptions :=
    TimeOptions(0, 0, 1.0, 0.99, 10.0, 0.1, -1.0e13, -1.0e13, 0.7)

  /** The context of the CDO/HHO schemes: the activation mode and a flag per family of schemes. */
  class CdoContext {
    var mode: int
    var vbSchemeFlag: nat
    var vcbSchemeFlag: nat
    var ebSchemeFlag: nat
    var fbSchemeFlag: nat
    var cbSchemeFlag: nat
    var hhoSchemeFlag: nat

    /** _create_cdo_context: the given mode, no scheme of any family. */
    constructor(mode: int)
      ensures this.mode == mode
      ensures vbSchemeFlag == 0 && vcbSchemeFlag == 0 && ebSchemeFlag == 0
      ensures fbSchemeFlag == 0 && cbSchemeFlag == 0 && hhoSchemeFlag == 0
    {
      this.mode := mode;
      vbSchemeFlag, vcbSchemeFlag, ebSchemeFlag := 0, 0, 0;
      fbSchemeFlag, cbSchemeFlag, hhoSchemeFlag := 0, 0, 0;
    }
  }

  class Domain {
    var onlySteady: bool
    var isLastIter: bool
    var stage: Stage
    var timeStep: TimeStep
    var timeOptions: TimeOptions
    var restartNt: int
    var outputNt: int
    var verbosity: int
    var cdoContext: CdoContext?

    /**
     * cs_domain_create with ts as the global time step: a steady
     * computation before its start, constant time step options, no restart,
     * no periodic output, verbosity 1 and the CDO module off, with a new
     * CDO context that has no scheme flag set.
     */
    constructor(ts: TimeStep)
      ensures onlySteady && !isLastIter && stage == BeforeSteadyComputation
      ensures timeStep == ts && timeOptions == DefaultTimeOptions
      ensures restartNt == 0 && outputNt == -1 && verbosity == 1
      ensures cdoContext != null && fresh(cdoContext) && GetCdoMode(this) == CDO_MODE_OFF
      ensures cdoContext.vbSchemeFlag == 0 && cdoContext.vcbSchemeFlag == 0 && cdoContext.ebSchemeFlag == 0
      ensures cdoContext.fbSchemeFlag == 0 && cdoContext.cbSchemeFlag == 0 && cdoContext.hhoSchemeFlag == 0
    {
      onlySteady, isLastIter, stage := true, false, BeforeSteadyComputation;
      timeStep, timeOptions := ts, DefaultTimeOptions;
      restartNt, outputNt, verbosity := 0, -1, 1;
      cdoContext := new CdoContext(CDO_MODE_OFF);
    }

    /**
     * cs_domain_set_cdo_mode: the mode of the CDO context, which is created
     * (with no scheme) when there is none yet; an existing context keeps its
     * scheme flags.
     */
    method SetCdoMode(mode: int)
      modifies this, cdoContext
      ensures cdoContext != null && GetCdoMode(this) == mode
      ensures old(cdoContext) == null ==>
                && fresh(cdoContext)
                && cdoContext.vbSchemeFlag == 0 && cdoContext.vcbSchemeFlag == 0 && cdoContext.ebSchemeFlag == 0
                && cdoContext.fbSchemeFlag == 0 && cdoContext.cbSchemeFlag == 0 && cdoContext.hhoSchemeFlag == 0
      ensures old(cdoContext) != null ==>
                && cdoContext == old(cdoContext)
                && cdoContext.vbSchemeFlag == old(cdoContext.vbSchemeFlag)
                && cdoContext.vcbSchemeFlag == old(cdoContext.vcbSchemeFlag)
                && cdoContext.ebSchemeFlag == old(cdoContext.ebSchemeFlag)
                && cdoContext.fbSchemeFlag == old(cdoContext.fbSchemeFlag)
                && cdoContext.cbSchemeFlag == old(cdoContext.cbSchemeFlag)
                && cdoContext.hhoSchemeFlag == old(cdoContext.hhoSchemeFlag)
      ensures onlySteady == old(onlySteady) && isLastIter == old(isLastIter) && stage == old(stage)
      ensures timeStep == old(timeStep) && timeOptions == old(timeOptions)
      ensures restartNt == old(restartNt) && outputNt == old(outputNt) && verbosity == old(verbosity)
    {
      if cdoContext == null {
        cdoContext := new CdoContext(mode);
      } else {
        cdoContext.mode := mode;
      }
    }

    /** cs_domain_get_cdo_mode: off for a missing domain or a missing CDO context. */
    static function GetCdoMode(domain: Domain?): (mode: int)
      reads domain, if domain != null then {domain.cdoContext} else {}
      ensures domain == null || domain.cdoContext == null ==> mode == CDO_MODE_OFF
      ensures domain != null && domain.cdoContext != null ==> mode == domain.cdoContext.mode
    {
      if domain == null then CDO_MODE_OFF
      else if domain.cdoContext == null then CDO_MODE_OFF
      else domain.cdoContext.mode
    }

    /** cs_domain_set_stage: the stage is the one given; nothing else changes. */
    method SetStage(s: Stage)
      modifies this
      ensures GetStage() == s
      ensures onlySteady == old(onlySteady) && isLastIter == old(isLastIter)
      ensures timeStep == old(timeStep) && timeOptions == old(timeOptions)
      ensures restartNt == old(restartNt) && outputNt == old(outputNt) && verbosity == old(verbosity)
      ensures cdoContext == old(cdoContext)
    {
      stage := s;
    }

    /** cs_domain_get_stage: the current stage of the run, the one SetStage last set. */
    function GetStage(): (s: Stage)
      reads this
      ensures s == stage
    {
      stage
    }

    /**
     * cs_domain_needs_iteration, with maxNt the maximal number of time
     * steps after synchronisation with coupled applications.  No more
     * iteration for a steady computation, once a set limit on time steps or
     * on time is reached, or when no limit is set at all; one more in every
     * other case.
     */
    method NeedsIteration(maxNt: int) returns (oneMoreIter: bool)
      ensures onlySteady ==> !oneMoreIter
      ensures maxNt > 0 && timeStep.ntCur >= maxNt ==> !oneMoreIter
      ensures timeStep.tMax > 0.0 && timeStep.tCur >= timeStep.tMax ==> !oneMoreIter
      ensures maxNt <= 0 && timeStep.tMax <= 0.0 ==> !oneMoreIter
      ensures oneMoreIter <==>
                && !onlySteady
                && (maxNt > 0 || timeStep.tMax > 0.0)
                && (maxNt <= 0 || timeStep.ntCur < maxNt)
                && (timeStep.tMax <= 0.0 || timeStep.tCur < timeStep.tMax)
    {
      oneMoreIter := true;
      var ts := timeStep;
      if maxNt > 0 {
        if ts.ntCur >= maxNt {
          oneMoreIter := false;
        }
      }
      if ts.tMax > 0.0 {
        if ts.tCur >= ts.tMax {
          oneMoreIter := false;
        }
      }
      if onlySteady {
        oneMoreIter := false;
      }
      if !onlySteady && maxNt <= 0 && ts.tMax <= 0.0 {
        oneMoreIter := false;
      }
    }

    /**
     * The time step to consider for a log: the current one, or the next
     * one when oneplus holds.
     */
    function LogStep(oneplus: bool): int
      reads this
    {
      if oneplus then timeStep.ntCur + 1 else timeStep.ntCur
    }

    /**
     * cs_domain_needs_log: never when the verbosity is negative; otherwise
     * always for a steady computation; for periodic output, at the first
     * two time steps and every outputNt steps from ntPrev; at the last
     * iteration; and never in any other case.
     */
    method NeedsLog(oneplus: bool) returns (log: bool)
      ensures verbosity < 0 ==> !log
      ensures verbosity >= 0 && onlySteady ==> log
      ensures verbosity >= 0 && outputNt > 0 && LogStep(oneplus) < 2 ==> log
      ensures verbosity >= 0 && outputNt > 0 && (LogStep(oneplus) - timeStep.ntPrev) % outputNt == 0 ==> log
      ensures verbosity >= 0 && isLastIter ==> log
      ensures log <==>
                && verbosity >= 0
                && (|| onlySteady
                    || (outputNt > 0 && (LogStep(oneplus) < 2 || (LogStep(oneplus) - timeStep.ntPrev) % outputNt == 0))
                    || isLastIter)
    {
      if verbosity < 0 {
        return false;
      }
      if onlySteady {
        return true;
      }
      if outputNt > 0 {
        var ntCur := if oneplus then timeStep.ntCur + 1 else timeStep.ntCur;
        if ntCur < 2 {
          return true;
        }
        if (ntCur - timeStep.ntPrev) % outputNt == 0 {
          return true;
        }
      }
      if isLastIter {
        return true;
      }
      return false;
    }
  }
}
