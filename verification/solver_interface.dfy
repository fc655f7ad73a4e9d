/** The solver overloads of svm.h whose bodies are not part of this model.
    Callers hand them one feature, label, penalty and margin per example and
    a starting coefficient per example; the solvers may rewrite the
    coefficients (and, for the overload with a primal vector, that vector).
    They appear in the models as function-typed parameters, so that only the
    bookkeeping around each call is stated and proved. */
module Solvers {
  import opened Vectors

  /** The per-example arguments of a solver call. */
  datatype Task = Task(feature: seq<Vec>, labels: seq<int>, penalty: seq<real>, margin: seq<real>)

  /** One label, penalty and margin per feature. */
  predicate TaskShape(t: Task)
  {
    |t.labels| == |t.feature| && |t.penalty| == |t.feature| && |t.margin| == |t.feature|
  }

  /** `LinearSVM(feature, label, penalty_coeff, margin, coeff, l2)`, the
      overload called by finite_contrast.cpp and sequential-finite.cpp: new
      coefficients from a `Task` and the starting coefficients. */
  type CoeffSolver = (Task, seq<real>) -> seq<real>

  /** Given one starting coefficient per example, the solver returns one
      coefficient per example. */
  ghost predicate KeepsShape(solve: CoeffSolver)
  {
    forall t, c :: TaskShape(t) && |c| == |t.feature| ==> |solve(t, c)| == |c|
  }

  /** What the svm.h overload with cached norms writes back. */
  datatype Solution = Solution(coeff: seq<real>, w: Vec)

  /** `LinearSVM(feature, feature_norm, label, penalty_coeff, margin, coeff,
      w, dim, l2)` of svm.h: task, squared feature norms, starting
      coefficients, starting primal vector of length dim. */
  type NormSolver = (Task, seq<real>, seq<real>, Vec) -> Solution

  /** Coefficients keep their length and the primal vector its dimension. */
  ghost predicate KeepsShapeW(solve: NormSolver)
  {
    forall t, norms, c, w :: TaskShape(t) && |norms| == |t.feature| && |c| == |t.feature| ==>
      |solve(t, norms, c, w).coeff| == |c| && |solve(t, norms, c, w).w| == |w|
  }
}
