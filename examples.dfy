/** Worked cells: the boundary case |z|^2 = 4 of the escape test, and a point where the
    library's R2 rule and the freeze-on-escape rule of the draft part ways. */
module Examples {
  import opened Numerics
  import Engine
  import View

  const Two: Complex := Complex(2.0, 0.0)
  const Three: Complex := Complex(3.0, 0.0)

  /** The squared norm of a point on the real axis is the square of its real part. */
  lemma NormOfReal(x: real)
    ensures NormSqr(Complex(x, 0.0)) == x * x
  {
    assert Square(0.0) == 0.0;
  }

  /** The second library step of c = 2, from z = 2 (not yet escaped), reaches z = 6 and
      escapes. */
  lemma SecondStepOfTwo(first: Engine.GridCell)
    requires first == Engine.NewCell(Two).(z := Two, iters := 1, hasEscaped := false)
    ensures Engine.Step(first).z == Complex(6.0, 0.0)
    ensures Engine.Step(first).hasEscaped && Engine.Step(first).iters == 2
  {
    NormOfReal(2.0);
    assert NormSqr(first.z) == 4.0;
    assert !(NormSqr(first.z) > Engine.R2 as real);
    var six := Add(Mul(first.z, first.z), first.c);
    assert six == Complex(6.0, 0.0);
    NormOfReal(6.0);
    assert NormSqr(six) == 36.0;
  }

  /** c = 2 does not escape on the first step (|2|^2 = 4 is not above 4) but on the second,
      where z = 6. */
  lemma TwoEscapesOnSecondStep()
    ensures !Engine.Step(Engine.NewCell(Two)).hasEscaped
    ensures Engine.Step(Engine.Step(Engine.NewCell(Two))).hasEscaped
    ensures Engine.Step(Engine.Step(Engine.NewCell(Two))).z == Complex(6.0, 0.0)
  {
    NormOfReal(2.0);
    Engine.FirstStepFromFresh(Two);
    SecondStepOfTwo(Engine.Step(Engine.NewCell(Two)));
  }

  /** The draft's second step of c = 2 from z = 2 escapes as well. */
  lemma ViewSecondStepOfTwo(first: Engine.GridCell)
    requires first == Engine.NewCell(Two).(z := Two, iters := 1, hasEscaped := false)
    ensures View.Step(first).hasEscaped && View.Step(first).iters == 2
  {
    assert Add(Mul(first.z, first.z), first.c) == Complex(6.0, 0.0);
    NormOfReal(6.0);
  }

  /** Under the freeze-on-escape rule c = 2 escapes on the second step too. */
  lemma ViewTwoEscapesOnSecondStep()
    ensures !View.Step(Engine.NewCell(Two)).hasEscaped
    ensures View.Step(View.Step(Engine.NewCell(Two))).hasEscaped
    ensures View.Step(View.Step(Engine.NewCell(Two))).iters == 2
  {
    NormOfReal(2.0);
    View.FirstStepFromFresh(Two);
    ViewSecondStepOfTwo(View.Step(Engine.NewCell(Two)));
  }

  /** The library's second step of c = 3: the cell escaped on step one (|3|^2 = 9 > 4) but
      9 is within R2, so it steps on to z = 12. */
  lemma LibrarySecondStepOfThree(first: Engine.GridCell)
    requires first == Engine.NewCell(Three).(z := Three, iters := 1, hasEscaped := true)
    ensures Engine.Step(first).iters == 2 && Engine.Step(first).z == Complex(12.0, 0.0)
    ensures Engine.Step(first).hasEscaped
  {
    NormOfReal(3.0);
    assert NormSqr(first.z) == 9.0;
    assert !(NormSqr(first.z) > Engine.R2 as real);
    assert Add(Mul(first.z, first.z), first.c) == Complex(12.0, 0.0);
  }

  /** Two library steps of a cell are the step applied twice. */
  lemma LibraryTwoSteps(cell: Engine.GridCell)
    ensures Engine.StepN(cell, 2) == Engine.Step(Engine.Step(cell))
  {
    assert Engine.StepN(cell, 1) == Engine.Step(cell);
  }

  /** Two steps of the draft are its step applied twice. */
  lemma ViewTwoSteps(cell: Engine.GridCell)
    ensures View.StepN(cell, 2) == View.Step(View.Step(cell))
  {
    assert View.StepN(cell, 1) == View.Step(cell);
  }

  /** Two library updates of c = 3: escaped, and two steps taken. */
  lemma LibraryTwoUpdatesOfThree()
    ensures Engine.StepN(Engine.NewCell(Three), 2).hasEscaped
    ensures Engine.StepN(Engine.NewCell(Three), 2).iters == 2
  {
    NormOfReal(3.0);
    Engine.FirstStepFromFresh(Three);
    var first := Engine.Step(Engine.NewCell(Three));
    LibrarySecondStepOfThree(first);
    LibraryTwoSteps(Engine.NewCell(Three));
  }

  /** Two draft updates of c = 3: escaped on the first and frozen at one step. */
  lemma ViewTwoUpdatesOfThree()
    ensures View.StepN(Engine.NewCell(Three), 2).hasEscaped
    ensures View.StepN(Engine.NewCell(Three), 2).iters == 1
  {
    NormOfReal(3.0);
    View.FirstStepFromFresh(Three);
    ViewTwoSteps(Engine.NewCell(Three));
  }

  /** After two updates of c = 3 both rules flag the cell as escaped, but the library keeps
      counting steps while the draft leaves the cell frozen at one: the two palettes see
      different iteration counts for the same point. */
  lemma RulesDivergeAtThree()
    ensures Engine.StepN(Engine.NewCell(Three), 2).hasEscaped
      && View.StepN(Engine.NewCell(Three), 2).hasEscaped
    ensures Engine.StepN(Engine.NewCell(Three), 2).iters
      != View.StepN(Engine.NewCell(Three), 2).iters
  {
    LibraryTwoUpdatesOfThree();
    ViewTwoUpdatesOfThree();
  }
}
