/** A puzzle sample and the test of a predicted output against the expected one (lib/ArcPuzzle.ts). */
module ArcPuzzle {
  import opened Wrappers

  /** A grid as the puzzle files store it: a list of rows of colour numbers. */
  type Rows = seq<seq<int>>

  datatype ArcSample = ArcSample(input: Rows, output: Rows, solution: Option<Rows>)

  /** Every output cell equals the solution cell at the same place (a missing solution cell never does). */
  predicate CellsMatch(output: Rows, solution: Rows)
    requires |output| == |solution|
  {
    && (forall j :: 0 <= j < |output| ==> |output[j]| <= |solution[j]|)
    && (forall j, i :: 0 <= j < |output| && 0 <= i < |output[j]| <= |solution[j]| ==>
          output[j][i] == solution[j][i])
  }

  /**
   * `is_solution`: false without a solution or when the row counts or the
   * first rows' lengths differ; otherwise whether every output cell matches.
   * Two empty grids make the source read the length of a missing first row,
   * which throws.
   */
  method IsSolution(sample: ArcSample) returns (r: Result<bool>)
    ensures sample.solution.None? ==> r == Success(false)
    ensures sample.solution.Some? && |sample.output| != |sample.solution.value| ==> r == Success(false)
    ensures sample.solution.Some? && |sample.output| == |sample.solution.value| == 0 <==> r.Failure?
    ensures sample.solution.Some? && |sample.output| == |sample.solution.value| > 0 ==>
      r == Success(|sample.output[0]| == |sample.solution.value[0]| && CellsMatch(sample.output, sample.solution.value))
  {
    if sample.solution.None? || |sample.output| != |sample.solution.value| {
      return Success(false);
    }
    var output, solution := sample.output, sample.solution.value;
    if |output| == 0 {
      return Failure("TypeError: cannot read the length of an undefined row");
    }
    if |output[0]| != |solution[0]| {
      return Success(false);
    }
    var j := 0;
    while j < |output|
      invariant 0 <= j <= |output|
      invariant forall jj :: 0 <= jj < j ==> |output[jj]| <= |solution[jj]|
      invariant forall jj, i :: 0 <= jj < j && 0 <= i < |output[jj]| <= |solution[jj]| ==>
        output[jj][i] == solution[jj][i]
    {
      var outputRow, solutionRow := output[j], solution[j];
      var i := 0;
      while i < |outputRow|
        invariant 0 <= i <= |outputRow|
        invariant i <= |solutionRow|
        invariant forall ii :: 0 <= ii < i ==> outputRow[ii] == solutionRow[ii]
      {
        if i >= |solutionRow| || outputRow[i] != solutionRow[i] {
          return Success(false);
        }
        i := i + 1;
      }
      j := j + 1;
    }
    return Success(true);
  }


  /** Every row has the length of the first one. */
  predicate Rectangular(g: Rows)
  {
    forall j :: 0 <= j < |g| ==> |g[j]| == |g[0]|
  }

  /** On rectangular grids of the same size, the cell-wise test is equality of the grids. */
  lemma MatchIsEqualityOnRectangles(output: Rows, solution: Rows)
    requires |output| == |solution| > 0 && |output[0]| == |solution[0]|
    requires Rectangular(output) && Rectangular(solution)
    ensures CellsMatch(output, solution) <==> output == solution
  {
    if CellsMatch(output, solution) {
      forall j | 0 <= j < |output|
        ensures output[j] == solution[j]
      {
        assert |output[j]| == |solution[j]|;
      }
    }
  }
}
