/** Sequences of user actions on the course page, and the invariants the
    wizard keeps along any of them. */
module Session {
  import opened Optional
  import opened Wizard
  import opened StepView
  import opened Grading

  /** One user action. */
  datatype Action =
    | Choose(course: Course)                                       // a course button
    | Back                                                         // "← Anterior"
    | Forward                                                      // "Siguiente →"
    | ToCourses                                                    // back to the course list
    | SendGrade(user: Option<User>, grade: Option<real>, insertError: Option<string>)

  /** Only the step buttons. */
  predicate IsMove(a: Action)
  {
    a.Back? || a.Forward?
  }

  function Apply(s: WizardState, a: Action): WizardState
  {
    match a
    case Choose(c) => SelectCourse(s, c)
    case Back => Previous(s)
    case Forward => Next(s)
    case ToCourses => BackToCourses(s)
    case SendGrade(u, g, e) => Submit(s, u, g, e).after
  }

  /** The state after performing `acts` in order. */
  function Run(s: WizardState, acts: seq<Action>): WizardState
    decreases |acts|
  {
    if acts == [] then s else Run(Apply(s, acts[0]), acts[1..])
  }

  /** Every action keeps the cursor on a step of the list. */
  lemma {:induction false} RunKeepsValid(s: WizardState, acts: seq<Action>)
    requires Valid(s)
    ensures Valid(Run(s, acts))
    decreases |acts|
  {
    if acts != [] {
      RunKeepsValid(Apply(s, acts[0]), acts[1..]);
    }
  }

  /** From page load, whatever the user does, the cursor names a step of
      `pasosCurso`, and whenever a course is selected the counter shows a
      step number no greater than the number of steps. */
  lemma RunFromInit(acts: seq<Action>)
    ensures Valid(Run(Init, acts))
    ensures StepAt(Run(Init, acts).cursor).Some?
    ensures Run(Init, acts).course.Some? ==>
              var v := Render(Run(Init, acts)).value;
              v.navigation.position == Run(Init, acts).cursor + 1 <= v.navigation.total == |Steps|
  {
    RunKeepsValid(Init, acts);
  }

  /** The step buttons never change the selected course or the certificate
      section. */
  lemma {:induction false} MovesKeepCourse(s: WizardState, acts: seq<Action>)
    requires forall i :: 0 <= i < |acts| ==> IsMove(acts[i])
    ensures Run(s, acts).course == s.course
    ensures Run(s, acts).certificateShown == s.certificateShown
    decreases |acts|
  {
    if acts != [] {
      MovesKeepCourse(Apply(s, acts[0]), acts[1..]);
    }
  }

  /** `n` presses of the same button. */
  function Repeat(a: Action, n: nat): (r: seq<Action>)
    ensures |r| == n && forall i :: 0 <= i < n ==> r[i] == a
  {
    if n == 0 then [] else [a] + Repeat(a, n - 1)
  }

  /** Pressing "next" `n` times from a valid cursor stops at the last step. */
  lemma {:induction false} ForwardClamps(s: WizardState, n: nat)
    requires Valid(s)
    ensures Run(s, Repeat(Forward, n)).cursor == if s.cursor + n < LastIndex then s.cursor + n else LastIndex
    decreases n
  {
    if n > 0 {
      assert Repeat(Forward, n)[1..] == Repeat(Forward, n - 1);
      ForwardClamps(Next(s), n - 1);
    }
  }

  /** Pressing "previous" `n` times from a valid cursor stops at the first step. */
  lemma {:induction false} BackClamps(s: WizardState, n: nat)
    requires Valid(s)
    ensures Run(s, Repeat(Back, n)).cursor == if s.cursor - n > 0 then s.cursor - n else 0
    decreases n
  {
    if n > 0 {
      assert Repeat(Back, n)[1..] == Repeat(Back, n - 1);
      BackClamps(Previous(s), n - 1);
    }
  }

  /** After choosing a course, any mix of step buttons leaves that course
      selected, the cursor on a step, and the page rendering. */
  lemma ChooseThenMove(s: WizardState, c: Course, moves: seq<Action>)
    requires forall i :: 0 <= i < |moves| ==> IsMove(moves[i])
    ensures var t := Run(s, [Choose(c)] + moves);
            && t.course == Some(c) && !t.certificateShown
            && Valid(t) && StepAt(t.cursor).Some? && Render(t).Some?
  {
    var u := SelectCourse(s, c);
    assert ([Choose(c)] + moves)[1..] == moves;
    MovesKeepCourse(u, moves);
    RunKeepsValid(u, moves);
  }
}
