/**
 * Settings of a sparse linear equation solver (cs_param_sles_t): their
 * defaults, their copy, their validation, the choice of a solver library
 * according to the libraries of the build, and the definition of a solver
 * of code_saturne's own family from the settings.
 *
 * The enumerations hold the values that the settings code names.  An
 * error raised by the code (which stops the run) is a Fail outcome here.
 */
module ParamSles {

  datatype Option<T> = None | Some(value: T)

  /** Errors detected while setting a solver. */
  datatype SlesError =
    | MumpsUnavailable          // a MUMPS solver without any library providing it
    | MumpsClassInconsistent    // the MUMPS class with a solver that is not a MUMPS one
    | RestartTooSmall           // GMRES or GCR restarted every less than 2 iterations
    | InvalidAmgType            // an AMG that code_saturne's own solvers do not provide
    | InvalidSolver             // a solver that code_saturne's own family does not provide
    | PrecondWithoutIterative   // an AMG preconditioner without an iterative solver to attach it to
    | PetscUnavailable          // PETSc or HYPRE solvers on a build without PETSc
    | BlockAmgUnavailable       // a block AMG preconditioner with neither GAMG nor BoomerAMG

  datatype Result<T> = Ok(value: T) | Fail(error: SlesError)

  /** Families of solvers (cs_param_sles_class_t); NClasses stands for "none available". */
  datatype SlesClass = Cs | Petsc | Hypre | Mumps | NClasses

  /** Iterative or direct solvers (cs_param_itsol_type_t). */
  datatype Itsol =
    | None | Amg | Bicg | Bicgstab2 | Cg | Cr3 | Fcg | Fgmres | GaussSeidel | Gcr
    | GkbCg | GkbGmres | Gmres | Jacobi | Minres | Mumps | MumpsFloat | MumpsFloatLdlt
    | MumpsLdlt | SymGaussSeidel | UserDefined

  /** Preconditioners (cs_param_precond_type_t). */
  datatype Precond =
    | None | Amg | BjacobIlu0 | BjacobSgs | Diag | GkbCg | GkbGmres | Icc0 | Ilu0 | Lu
    | Poly1 | Poly2 | Ssor

  /** Algebraic multigrid variants (cs_param_amg_type_t). */
  datatype AmgType =
    | None | HouseV | HouseK | HypreBoomerV | HypreBoomerW | PetscGamgV | PetscGamgW | PetscPcmg

  /** Block preconditioning (cs_param_precond_block_t). */
  datatype PrecondBlock =
    | None | Diag | FullDiag | FullLowerTriangular | FullSymGaussSeidel | FullUpperTriangular
    | LowerTriangular | SymGaussSeidel | UpperTriangular

  /** Normalisation of the residual (cs_param_resnorm_type_t). */
  datatype Resnorm = None | FilteredRhs | Norm2Rhs | WeightedRhs

  /** Every setting of the record but its name. */
  datatype SlesSettings = SlesSettings(
    setupDone: bool,
    verbosity: int,
    fieldId: int,
    solverClass: SlesClass,
    precond: Precond,
    solver: Itsol,
    amgType: AmgType,
    pcdBlockType: PrecondBlock,
    restart: int,
    nMaxIter: int,
    eps: real,
    resnormType: Resnorm)

  /** The settings of a new record for the given field: a restarted GMRES with a diagonal preconditioner. */
  function DefaultSettings(fieldId: int): SlesSettings
  {
    SlesSettings(false, 0, fieldId, SlesClass.Cs, Precond.Diag, Itsol.Gmres, AmgType.None,
                 PrecondBlock.None, 15, 10000, 1.0e-8, Resnorm.None)
  }

  // ----- solver families -----

  /** _mumps_is_needed: the solver is one of the MUMPS variants. */
  predicate MumpsIsNeeded(s: Itsol)
  {
    s == Itsol.Mumps || s == Itsol.MumpsLdlt || s == Itsol.MumpsFloat || s == Itsol.MumpsFloatLdlt
  }

  /** _system_should_be_sym: the solver requires a symmetric system. */
  predicate SystemShouldBeSym(s: Itsol)
  {
    match s
    case Cg | Fcg | GkbCg | GkbGmres | Minres | MumpsLdlt | MumpsFloatLdlt => true
    case _ => false
  }

  /**
   * The MUMPS solvers are exactly the four MUMPS variants; the solvers that
   * need a symmetric system are exactly CG, FCG, the two GKB solvers,
   * MINRES and the two LDLT factorisations, which are also the MUMPS
   * solvers that need one.
   */
  lemma SolverFamilies(s: Itsol)
    ensures MumpsIsNeeded(s) <==>
              s in {Itsol.Mumps, Itsol.MumpsLdlt, Itsol.MumpsFloat, Itsol.MumpsFloatLdlt}
    ensures SystemShouldBeSym(s) <==>
              s in {Itsol.Cg, Itsol.Fcg, Itsol.GkbCg, Itsol.GkbGmres, Itsol.Minres,
                    Itsol.MumpsLdlt, Itsol.MumpsFloatLdlt}
    ensures MumpsIsNeeded(s) && SystemShouldBeSym(s) <==>
              s == Itsol.MumpsLdlt || s == Itsol.MumpsFloatLdlt
  {
  }

  // ----- check_class -----

  /** The libraries of the build (HAVE_PETSC, PETSC_HAVE_HYPRE, HAVE_MUMPS, PETSC_HAVE_MUMPS). */
  datatype Build = Build(havePetsc: bool, petscHaveHypre: bool, haveMumps: bool, petscHaveMumps: bool)

  /** The build provides the family c itself. */
  predicate Available(b: Build, c: SlesClass)
  {
    match c
    case Cs => true
    case Petsc => b.havePetsc
    case Hypre => b.havePetsc && b.petscHaveHypre
    case Mumps => b.haveMumps
    case NClasses => false
  }

  /**
   * cs_param_sles_check_class: the family asked for when the build provides
   * it; otherwise PETSc when it provides HYPRE or MUMPS in its place;
   * otherwise none.
   */
  function CheckClass(b: Build, wanted: SlesClass): (c: SlesClass)
    ensures wanted == SlesClass.Cs ==> c == SlesClass.Cs
    ensures wanted == SlesClass.NClasses ==> c == SlesClass.NClasses
    ensures Available(b, wanted) ==> c == wanted
    ensures c != SlesClass.NClasses ==> Available(b, c)
    ensures c != wanted && c != SlesClass.NClasses ==>
              && c == SlesClass.Petsc
              && ((wanted == SlesClass.Hypre && b.havePetsc)
                  || (wanted == SlesClass.Mumps && b.havePetsc && b.petscHaveMumps))
    ensures c == SlesClass.NClasses ==>
              && !Available(b, wanted)
              && (wanted == SlesClass.Hypre ==> !b.havePetsc)
              && (wanted == SlesClass.Mumps ==> !(b.havePetsc && b.petscHaveMumps))
  {
    match wanted
    case Cs => SlesClass.Cs
    case Hypre =>
      if b.havePetsc then (if b.petscHaveHypre then SlesClass.Hypre else SlesClass.Petsc)
      else SlesClass.NClasses
    case Petsc => if b.havePetsc then SlesClass.Petsc else SlesClass.NClasses
    case Mumps =>
      if b.haveMumps then SlesClass.Mumps
      else if b.havePetsc && b.petscHaveMumps then SlesClass.Petsc
      else SlesClass.NClasses
    case NClasses => SlesClass.NClasses
  }

  /** Checking the family obtained gives it back. */
  lemma CheckClassIdempotent(b: Build, wanted: SlesClass)
    ensures CheckClass(b, CheckClass(b, wanted)) == CheckClass(b, wanted)
  {
  }

  // ----- _check_settings -----

  /** The MUMPS part of _check_settings: a MUMPS solver gets the family able to run it. */
  function MumpsChecked(b: Build, s: SlesSettings): Result<SlesSettings>
  {
    if MumpsIsNeeded(s.solver) then
      var c := CheckClass(b, SlesClass.Mumps);
      if c == SlesClass.NClasses then Fail(MumpsUnavailable) else Ok(s.(solverClass := c))
    else if s.solverClass == SlesClass.Mumps then Fail(MumpsClassInconsistent)
    else Ok(s)
  }

  /** The restart part of _check_settings. */
  function RestartChecked(s: SlesSettings): Result<SlesSettings>
  {
    if (s.solver == Itsol.Gmres || s.solver == Itsol.Gcr) && s.restart < 2 then Fail(RestartTooSmall)
    else Ok(s)
  }

  /** _check_settings: the MUMPS checks, then the restart check. */
  function Checked(b: Build, s: SlesSettings): Result<SlesSettings>
  {
    match MumpsChecked(b, s)
    case Fail(e) => Fail(e)
    case Ok(t) => RestartChecked(t)
  }

  /**
   * Each error of _check_settings occurs exactly in its own case, the MUMPS
   * ones taking precedence; settings free of all three are accepted.
   */
  lemma CheckedErrors(b: Build, s: SlesSettings)
    ensures Checked(b, s) == Fail(MumpsUnavailable) <==>
              MumpsIsNeeded(s.solver) && CheckClass(b, SlesClass.Mumps) == SlesClass.NClasses
    ensures Checked(b, s) == Fail(MumpsClassInconsistent) <==>
              !MumpsIsNeeded(s.solver) && s.solverClass == SlesClass.Mumps
    ensures Checked(b, s) == Fail(RestartTooSmall) <==>
              && (s.solver == Itsol.Gmres || s.solver == Itsol.Gcr) && s.restart < 2
              && s.solverClass != SlesClass.Mumps
    ensures Checked(b, s).Ok? <==>
              && (MumpsIsNeeded(s.solver) ==> CheckClass(b, SlesClass.Mumps) != SlesClass.NClasses)
              && (!MumpsIsNeeded(s.solver) ==> s.solverClass != SlesClass.Mumps)
              && ((s.solver == Itsol.Gmres || s.solver == Itsol.Gcr) ==> s.restart >= 2)
  {
  }

  /**
   * Accepted settings differ from the given ones at most in their family,
   * which is then consistent with the solver: a library of the build able
   * to run a MUMPS solver, and never MUMPS for another solver.
   */
  lemma CheckedConsistent(b: Build, s: SlesSettings)
    requires Checked(b, s).Ok?
    ensures var t := Checked(b, s).value;
      && t == s.(solverClass := t.solverClass)
      && (MumpsIsNeeded(s.solver) ==>
            t.solverClass in {SlesClass.Mumps, SlesClass.Petsc} && Available(b, t.solverClass))
      && (!MumpsIsNeeded(s.solver) ==> t.solverClass == s.solverClass != SlesClass.Mumps)
      && ((t.solver == Itsol.Gmres || t.solver == Itsol.Gcr) ==> t.restart >= 2)
  {
  }

  /** Checking settings that passed the check changes nothing more. */
  lemma CheckedIdempotent(b: Build, s: SlesSettings)
    requires Checked(b, s).Ok?
    ensures Checked(b, Checked(b, s).value) == Checked(b, s)
  {
  }

  // ----- _set_saturne_sles -----

  /** Multigrid cycles. */
  datatype Cycle = VCycle | KCycle

  /** Iterative solvers of code_saturne's own family (cs_sles_it_type_t). */
  datatype ItKind =
    | Bicgstab | Bicgstab2 | Pcg | Pcr3 | Ipcg | PGaussSeidel | Gcr | Gmres | Jacobi
    | PSymGaussSeidel | UserDefined

  /** The solver defined: a multigrid solver, or an iterative one with its preconditioning. */
  datatype SlesDefinition =
    | Multigrid(cycle: Cycle, nMaxCycles: int)
    | Iterative(kind: ItKind, polyDegree: int, nMaxIter: int, pc: Option<Cycle>)

  /** Degree of the polynomial preconditioning: 0 for DIAG, 1 and 2 for POLY1 and POLY2, -1 for none. */
  function PolyDegree(p: Precond): int
  {
    match p
    case Diag => 0
    case Poly1 => 1
    case Poly2 => 2
    case _ => -1
  }

  /** The multigrid preconditioner asked for, if any. */
  function MultigridPc(s: SlesSettings): Result<Option<Cycle>>
  {
    if s.precond == Precond.Amg then
      match s.amgType
      case HouseV => Ok(Some(VCycle))
      case HouseK => Ok(Some(KCycle))
      case _ => Fail(InvalidAmgType)
    else Ok(Option.None)
  }

  /** A K-cycle multigrid preconditioner turns CG into flexible CG. */
  function UpgradedSolver(s: SlesSettings): Itsol
  {
    if s.precond == Precond.Amg && s.amgType == AmgType.HouseK && s.solver == Itsol.Cg then Itsol.Fcg
    else s.solver
  }

  /** The solvers that do not take a preconditioner. */
  predicate Smoother(s: Itsol)
  {
    s == Itsol.GaussSeidel || s == Itsol.Jacobi || s == Itsol.SymGaussSeidel
  }

  /** The solver switch of _set_saturne_sles. */
  function SolverDefinition(solver: Itsol, amg: AmgType, degree: int, n: int, pc: Option<Cycle>): Result<SlesDefinition>
  {
    match solver
    case Amg =>
      (match amg
       case HouseV => Ok(Multigrid(VCycle, n))
       case HouseK => Ok(Multigrid(KCycle, n))
       case _ => Fail(InvalidAmgType))
    case Bicg => Ok(Iterative(Bicgstab, degree, n, pc))
    case Bicgstab2 => Ok(Iterative(ItKind.Bicgstab2, degree, n, pc))
    case Cg => Ok(Iterative(Pcg, degree, n, pc))
    case Cr3 => Ok(Iterative(Pcr3, degree, n, pc))
    case Fcg => Ok(Iterative(Ipcg, degree, n, pc))
    case GaussSeidel => Ok(Iterative(PGaussSeidel, -1, n, pc))
    case Gcr => Ok(Iterative(ItKind.Gcr, degree, n, pc))
    case GkbCg => Ok(Iterative(Ipcg, degree, n, pc))
    case GkbGmres => Ok(Iterative(ItKind.Gmres, degree, n, pc))
    case Gmres => Ok(Iterative(ItKind.Gmres, degree, n, pc))
    case Jacobi => Ok(Iterative(ItKind.Jacobi, -1, n, pc))
    case SymGaussSeidel => Ok(Iterative(PSymGaussSeidel, -1, n, pc))
    case UserDefined => Ok(Iterative(ItKind.UserDefined, degree, n, pc))
    case _ => Fail(InvalidSolver)
  }

  /**
   * _set_saturne_sles: the preconditioner switch, then the solver switch on
   * the solver as possibly upgraded, then the attachment of a multigrid
   * preconditioner to the iterative solver.
   */
  function SaturneDefinition(s: SlesSettings): Result<SlesDefinition>
  {
    match MultigridPc(s)
    case Fail(e) => Fail(e)
    case Ok(pc) =>
      match SolverDefinition(UpgradedSolver(s), s.amgType, PolyDegree(s.precond), s.nMaxIter, pc)
      case Fail(e) => Fail(e)
      case Ok(d) => if pc.Some? && d.Multigrid? then Fail(PrecondWithoutIterative) else Ok(d)
  }

  /** The degree of the polynomial preconditioning is 0, 1 or 2 exactly for DIAG, POLY1 and POLY2. */
  lemma PolyDegreeValues(p: Precond)
    ensures -1 <= PolyDegree(p) <= 2
    ensures PolyDegree(p) == 0 <==> p == Precond.Diag
    ensures PolyDegree(p) == 1 <==> p == Precond.Poly1
    ensures PolyDegree(p) == 2 <==> p == Precond.Poly2
  {
  }

  /**
   * CG is the only solver that changes, into FCG, and only under a K-cycle
   * multigrid preconditioner; the solver defined is then a flexible CG
   * preconditioned by that multigrid and nothing else.
   */
  lemma HouseKUpgrade(s: SlesSettings)
    ensures UpgradedSolver(s) != s.solver <==>
              s.precond == Precond.Amg && s.amgType == AmgType.HouseK && s.solver == Itsol.Cg
    ensures s.precond == Precond.Amg && s.amgType == AmgType.HouseK && s.solver == Itsol.Cg ==>
              && UpgradedSolver(s) == Itsol.Fcg
              && SaturneDefinition(s) == Ok(Iterative(Ipcg, -1, s.nMaxIter, Some(KCycle)))
  {
  }

  /**
   * What _set_saturne_sles defines for accepted settings: an iterative
   * solver gets the polynomial degree of the preconditioner (none for the
   * smoothers), the iteration limit, and a multigrid preconditioner exactly
   * when one is asked for; a multigrid solver gets the iteration limit as
   * its limit on cycles.
   */
  lemma SaturneDefinitionFacts(s: SlesSettings)
    requires SaturneDefinition(s).Ok?
    ensures var d := SaturneDefinition(s).value;
      && (d.Iterative? ==>
            && d.polyDegree == (if Smoother(s.solver) then -1 else PolyDegree(s.precond))
            && d.nMaxIter == s.nMaxIter
            && (d.pc.Some? <==> s.precond == Precond.Amg)
            && (d.pc == Some(VCycle) <==> s.precond == Precond.Amg && s.amgType == AmgType.HouseV)
            && (d.pc == Some(KCycle) <==> s.precond == Precond.Amg && s.amgType == AmgType.HouseK))
      && (d.Multigrid? <==> s.solver == Itsol.Amg)
      && (d.Multigrid? ==>
            && d.nMaxCycles == s.nMaxIter && s.precond != Precond.Amg
            && (d.cycle == VCycle <==> s.amgType == AmgType.HouseV))
  {
  }

  /**
   * The definition fails exactly for an AMG other than the two of code_saturne
   * where one is used, for a solver outside code_saturne's own family, and
   * for a multigrid solver under a multigrid preconditioner.
   */
  lemma SaturneDefinitionErrors(s: SlesSettings)
    ensures SaturneDefinition(s).Ok? <==>
              && (s.precond == Precond.Amg || s.solver == Itsol.Amg ==>
                    s.amgType == AmgType.HouseV || s.amgType == AmgType.HouseK)
              && s.solver !in {Itsol.None, Itsol.Fgmres, Itsol.Minres, Itsol.Mumps, Itsol.MumpsFloat,
                               Itsol.MumpsFloatLdlt, Itsol.MumpsLdlt}
              && !(s.precond == Precond.Amg && s.solver == Itsol.Amg)
  {
  }

  /** Defining the solver again from the upgraded settings gives the same solver. */
  lemma SaturneDefinitionStable(s: SlesSettings)
    ensures UpgradedSolver(s.(solver := UpgradedSolver(s))) == UpgradedSolver(s)
    ensures SaturneDefinition(s.(solver := UpgradedSolver(s))) == SaturneDefinition(s)
  {
  }

  // ----- cs_param_sles_set -----

  /** The settings once _check_settings has assigned the family, when it gets that far. */
  function AfterCheck(b: Build, s: SlesSettings): SlesSettings
  {
    if MumpsChecked(b, s).Ok? then MumpsChecked(b, s).value else s
  }

  /**
   * The errors of _set_petsc_hypre_sles: a build without PETSc, or a block
   * AMG preconditioner whose AMG is neither GAMG nor BoomerAMG.
   */
  function PetscHypreOutcome(b: Build, s: SlesSettings): Result<int>
  {
    if !b.havePetsc then Fail(PetscUnavailable)
    else if s.pcdBlockType != PrecondBlock.None && s.precond == Precond.Amg
         && s.amgType !in {AmgType.PetscGamgV, AmgType.PetscGamgW, AmgType.HypreBoomerV, AmgType.HypreBoomerW}
    then Fail(BlockAmgUnavailable)
    else Ok(0)
  }

  /**
   * cs_param_sles_set on a record: the check, then the definition of the
   * solver by its family.  Code_saturne's own family is defined here; the
   * other libraries fail when the build lacks them, and otherwise succeed.
   * An unknown family gives -1.
   */
  function SetOutcome(b: Build, s: SlesSettings): Result<int>
  {
    match Checked(b, s)
    case Fail(e) => Fail(e)
    case Ok(t) =>
      match t.solverClass
      case Cs => (match SaturneDefinition(t) case Fail(e) => Fail(e) case Ok(_) => Ok(0))
      case Mumps => if b.haveMumps then Ok(0) else Fail(MumpsUnavailable)
      case Petsc | Hypre => PetscHypreOutcome(b, t)
      case NClasses => Ok(-1)
  }

  /** The settings after cs_param_sles_set. */
  function SetSettings(b: Build, s: SlesSettings): SlesSettings
  {
    var t := AfterCheck(b, s);
    if Checked(b, s).Ok? && t.solverClass == SlesClass.Cs then t.(solver := UpgradedSolver(t)) else t
  }

  /**
   * The return codes of cs_param_sles_set: 0 or -1, and -1 exactly for
   * accepted settings with no family and a solver other than a MUMPS one
   * (which the check gives a family).
   */
  lemma SetReturnCodes(b: Build, s: SlesSettings)
    ensures SetOutcome(b, s).Ok? ==> SetOutcome(b, s).value in {0, -1}
    ensures SetOutcome(b, s) == Ok(-1) <==>
              Checked(b, s).Ok? && !MumpsIsNeeded(s.solver) && s.solverClass == SlesClass.NClasses
    ensures SetOutcome(b, s) == Fail(PetscUnavailable) <==>
              Checked(b, s).Ok? && Checked(b, s).value.solverClass in {SlesClass.Petsc, SlesClass.Hypre}
              && !b.havePetsc
    ensures SetOutcome(b, s) == Fail(BlockAmgUnavailable) <==>
              && Checked(b, s).Ok? && Checked(b, s).value.solverClass in {SlesClass.Petsc, SlesClass.Hypre}
              && b.havePetsc && s.pcdBlockType != PrecondBlock.None && s.precond == Precond.Amg
              && s.amgType !in {AmgType.PetscGamgV, AmgType.PetscGamgW, AmgType.HypreBoomerV, AmgType.HypreBoomerW}
  {
  }

  /**
   * The check gives the MUMPS family only on a build with MUMPS, so the
   * error branch of _set_mumps_sles is never taken after it.
   */
  lemma MumpsClassLinked(b: Build, s: SlesSettings)
    requires Checked(b, s).Ok? && Checked(b, s).value.solverClass == SlesClass.Mumps
    ensures b.haveMumps
    ensures SetOutcome(b, s) == Ok(0)
  {
  }

  /** The default settings pass the check and define a GMRES with a diagonal preconditioner. */
  lemma DefaultsAccepted(b: Build, fieldId: int)
    ensures Checked(b, DefaultSettings(fieldId)) == Ok(DefaultSettings(fieldId))
    ensures SaturneDefinition(DefaultSettings(fieldId)) == Ok(Iterative(ItKind.Gmres, 0, 10000, Option.None))
    ensures SetOutcome(b, DefaultSettings(fieldId)) == Ok(0)
  {
  }

  /** _set_petsc_hypre_sles on the settings s: the build and the block AMG are checked. */
  method SetPetscHypre(b: Build, s: SlesSettings) returns (r: Result<int>)
    ensures r == PetscHypreOutcome(b, s)
  {
    if !b.havePetsc {
      return Fail(PetscUnavailable);
    }
    if s.pcdBlockType != PrecondBlock.None && s.precond == Precond.Amg {
      match s.amgType {
        case PetscGamgV => r := Ok(0);
        case PetscGamgW => r := Ok(0);
        case HypreBoomerV => r := Ok(0);
        case HypreBoomerW => r := Ok(0);
        case _ => r := Fail(BlockAmgUnavailable);
      }
      return;
    }
    return Ok(0);
  }

  // ----- the record -----

  class Params {
    var name: Option<string>
    var setupDone: bool
    var verbosity: int
    var fieldId: int
    var solverClass: SlesClass
    var precond: Precond
    var solver: Itsol
    var amgType: AmgType
    var pcdBlockType: PrecondBlock
    var restart: int
    var nMaxIter: int
    var eps: real
    var resnormType: Resnorm

    /** The settings as a value. */
    function Values(): SlesSettings
      reads this
    {
      SlesSettings(setupDone, verbosity, fieldId, solverClass, precond, solver, amgType,
                   pcdBlockType, restart, nMaxIter, eps, resnormType)
    }

    /**
     * cs_param_sles_create: the default settings for the field, and a copy
     * of the system name when one is given.
     */
    constructor Create(fieldId: int, systemName: Option<string>)
      ensures name == systemName
      ensures verbosity == 0 && this.fieldId == fieldId && solverClass == SlesClass.Cs
      ensures precond == Precond.Diag && solver == Itsol.Gmres
      ensures amgType == AmgType.None && pcdBlockType == PrecondBlock.None
      ensures restart == 15 && nMaxIter == 10000 && eps == 1.0e-8
      ensures resnormType == Resnorm.None && !setupDone
      ensures Values() == DefaultSettings(fieldId)
    {
      verbosity := 0;
      this.fieldId := fieldId;
      solverClass := SlesClass.Cs;
      precond := Precond.Diag;
      solver := Itsol.Gmres;
      amgType := AmgType.None;
      pcdBlockType := PrecondBlock.None;
      restart := 15;
      nMaxIter := 10000;
      eps := 1.0e-8;
      resnormType := Resnorm.None;
      setupDone := false;
      name := systemName;
    }

    /**
     * cs_param_sles_copy_from: nothing without a destination; otherwise every
     * setting of src but the restart interval, the name of dst and its restart
     * interval being kept.
     */
    static method CopyFrom(src: Params, dst: Params?)
      modifies dst
      ensures dst != null ==> dst.Values() == old(src.Values()).(restart := old(dst.restart))
      ensures dst != null ==> dst.name == old(dst.name)
    {
      if dst == null {
        return;
      }
      dst.SetValues(src.Values().(restart := dst.restart));
    }

    /** The settings become v; the name is kept. */
    method SetValues(v: SlesSettings)
      modifies this
      ensures Values() == v && name == old(name)
    {
      setupDone, verbosity, fieldId, solverClass := v.setupDone, v.verbosity, v.fieldId, v.solverClass;
      precond, solver, amgType, pcdBlockType := v.precond, v.solver, v.amgType, v.pcdBlockType;
      restart, nMaxIter, eps, resnormType := v.restart, v.nMaxIter, v.eps, v.resnormType;
    }

    /**
     * _check_settings: the error found, if any; the family is assigned when
     * a MUMPS solver finds a library, and nothing else changes.
     */
    method CheckSettings(b: Build) returns (err: Option<SlesError>)
      modifies this
      ensures err == (if Checked(b, old(Values())).Fail? then Some(Checked(b, old(Values())).error) else Option.None)
      ensures Values() == AfterCheck(b, old(Values()))
      ensures name == old(name)
    {
      if MumpsIsNeeded(solver) {
        var c := CheckClass(b, SlesClass.Mumps);
        if c == SlesClass.NClasses {
          return Some(MumpsUnavailable);
        }
        solverClass := c;
      } else if solverClass == SlesClass.Mumps {
        return Some(MumpsClassInconsistent);
      }
      if solver == Itsol.Gmres || solver == Itsol.Gcr {
        if restart < 2 {
          return Some(RestartTooSmall);
        }
      }
      return Option.None;
    }

    /**
     * _set_saturne_sles: the solver defined, or the error found; CG becomes
     * FCG under a K-cycle multigrid preconditioner, and nothing else changes.
     */
    method SetSaturneSles() returns (r: Result<SlesDefinition>)
      modifies this
      ensures r == SaturneDefinition(old(Values()))
      ensures Values() == old(Values()).(solver := UpgradedSolver(old(Values())))
      ensures name == old(name)
    {
      var s := Values();
      var sol := s.solver;
      var degree: int;
      var pc: Option<Cycle> := Option.None;
      match s.precond {
        case Diag => degree := 0;
        case Poly1 => degree := 1;
        case Poly2 => degree := 2;
        case Amg =>
          degree := -1;
          match s.amgType {
            case HouseV => pc := Some(VCycle);
            case HouseK =>
              if sol == Itsol.Cg {
                sol := Itsol.Fcg;
                solver := sol;
              }
              pc := Some(KCycle);
            case _ => return Fail(InvalidAmgType);
          }
        case _ => degree := -1;
      }
      var d: SlesDefinition;
      var n := s.nMaxIter;
      match sol {
        case Amg =>
          match s.amgType {
            case HouseV => d := Multigrid(VCycle, n);
            case HouseK => d := Multigrid(KCycle, n);
            case _ => return Fail(InvalidAmgType);
          }
        case Bicg => d := Iterative(Bicgstab, degree, n, pc);
        case Bicgstab2 => d := Iterative(ItKind.Bicgstab2, degree, n, pc);
        case Cg => d := Iterative(Pcg, degree, n, pc);
        case Cr3 => d := Iterative(Pcr3, degree, n, pc);
        case Fcg => d := Iterative(Ipcg, degree, n, pc);
        case GaussSeidel => d := Iterative(PGaussSeidel, -1, n, pc);
        case Gcr => d := Iterative(ItKind.Gcr, degree, n, pc);
        case GkbCg => d := Iterative(Ipcg, degree, n, pc);
        case GkbGmres => d := Iterative(ItKind.Gmres, degree, n, pc);
        case Gmres => d := Iterative(ItKind.Gmres, degree, n, pc);
        case Jacobi => d := Iterative(ItKind.Jacobi, -1, n, pc);
        case SymGaussSeidel => d := Iterative(PSymGaussSeidel, -1, n, pc);
        case UserDefined => d := Iterative(ItKind.UserDefined, degree, n, pc);
        case _ => return Fail(InvalidSolver);
      }
      if s.precond == Precond.Amg && d.Multigrid? {
        return Fail(PrecondWithoutIterative);
      }
      return Ok(d);
    }

    /**
     * cs_param_sles_set: 0 without a record; otherwise the outcome of the
     * check followed by the definition of the solver by its family.
     */
    static method Set(b: Build, slesp: Params?) returns (r: Result<int>)
      modifies slesp
      ensures slesp == null ==> r == Ok(0)
      ensures slesp != null ==> r == SetOutcome(b, old(slesp.Values()))
      ensures slesp != null ==> slesp.Values() == SetSettings(b, old(slesp.Values()))
      ensures slesp != null ==> slesp.name == old(slesp.name)
    {
      if slesp == null {
        return Ok(0);
      }
      var err := slesp.CheckSettings(b);
      if err.Some? {
        return Fail(err.value);
      }
      match slesp.solverClass {
        case Cs =>
          var d := slesp.SetSaturneSles();
          if d.Fail? {
            return Fail(d.error);
          }
        case Mumps =>
          if !b.haveMumps {
            return Fail(MumpsUnavailable);
          }
        case Petsc =>
          r := SetPetscHypre(b, slesp.Values());
          return;
        case Hypre =>
          r := SetPetscHypre(b, slesp.Values());
          return;
        case NClasses => return Ok(-1);
      }
      return Ok(0);
    }
  }
}
