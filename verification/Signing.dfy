/** Signing the subscription agreement of an investment application: two background tasks with external
    calls that may fail at any point. */
module Signing {
  datatype ApplicationStatus = Draft | Pending | Hold | Completed | Canceled | Expired | Error
  datatype AgreementStatus = Initial | Preparing | Prepared | Validating | Success | AgreementError
  datatype EnvelopeStatus = EnvelopeCompleted | Created | Declined | Delivered | Sent | Signed | Voided

  /** What the database holds about one application: its two statuses and its agreement rows. */
  datatype App = App(status: ApplicationStatus, agreement: AgreementStatus, rows: seq<EnvelopeStatus>)

  const CREATED := App(Draft, Initial, [])

  /** How `docu_sign_start_task` goes on after it has marked the application. */
  datatype StartOutcome = EnvelopePrepared | StartRaised | StartWorkerLost

  /** How `docu_sign_finish_task` goes on: no status, a status that cannot be stored, or a stored one with
      a notification that is sent, fails, or is never reached. */
  datatype FinishOutcome =
    | StatusRaised
    | StoreRaised
    | Stored(envelope: EnvelopeStatus, notificationFails: bool)
    | FinishWorkerLost

  /** The states one run of the start task saves, in order. */
  function StartSaves(a: App, outcome: StartOutcome): seq<App> {
    if a.status != Draft || a.agreement != Initial then []
    else
      var marked := a.(agreement := Preparing);
      match outcome
      case EnvelopePrepared =>
        // The agreement row is one-to-one with the application: a second one raises.
        if a.rows == [] then [marked, marked.(agreement := Prepared, rows := [Sent])]
        else [marked, marked.(agreement := AgreementError)]
      case StartRaised => [marked, marked.(agreement := AgreementError)]
      case StartWorkerLost => [marked]
  }

  /** The states one run of the finish task saves, in order. */
  function FinishSaves(a: App, outcome: FinishOutcome): seq<App> {
    if a.status != Draft || a.agreement != Prepared then []
    else
      var marked := a.(agreement := Validating);
      match outcome
      case StatusRaised => [marked, marked.(agreement := AgreementError)]
      case StoreRaised => [marked, marked.(agreement := AgreementError)]
      case FinishWorkerLost => [marked]
      case Stored(envelope, notificationFails) =>
        if a.rows == [] then [marked, marked.(agreement := AgreementError)]
        else
          var rows := a.rows[|a.rows| - 1 := envelope];
          if envelope == EnvelopeCompleted then
            var signed := App(Pending, Success, rows);
            [marked, signed] + if notificationFails then [signed.(agreement := AgreementError)] else []
          else [marked, App(a.status, AgreementError, rows)]
  }

  function LastOf(a: App, saves: seq<App>): App {
    if saves == [] then a else saves[|saves| - 1]
  }

  class Application {
    var status: ApplicationStatus
    var agreement: AgreementStatus
    var rows: seq<EnvelopeStatus>
    ghost var saves: seq<App>

    function State(): App
      reads this
    {
      App(status, agreement, rows)
    }

    /** The application as the API creates it. */
    constructor ()
      ensures State() == CREATED && saves == []
    {
      status, agreement, rows, saves := Draft, Initial, [], [];
    }

    method StartTask(outcome: StartOutcome)
      modifies this
      ensures saves == old(saves) + StartSaves(old(State()), outcome)
      ensures State() == LastOf(old(State()), StartSaves(old(State()), outcome))
    {
      assert saves + [] == saves;
      if status != Draft || agreement != Initial {
        return;
      }
      agreement := Preparing;
      saves := saves + [State()];
      if outcome == StartWorkerLost {
        return;
      }
      ghost var marked := State();
      if outcome == EnvelopePrepared && rows == [] {
        agreement := Prepared;
        rows := rows + [Sent];
        assert rows == [Sent];
      } else {
        agreement := AgreementError;
      }
      saves := saves + [State()];
      assert saves == old(saves) + [marked, State()];
    }

    method FinishTask(outcome: FinishOutcome)
      modifies this
      ensures saves == old(saves) + FinishSaves(old(State()), outcome)
      ensures State() == LastOf(old(State()), FinishSaves(old(State()), outcome))
    {
      if status != Draft || agreement != Prepared {
        return;
      }
      agreement := Validating;
      saves := saves + [State()];
      if outcome.FinishWorkerLost? {
        return;
      }
      if outcome.Stored? && rows != [] {
        rows := rows[|rows| - 1 := outcome.envelope];
        if rows[|rows| - 1] == EnvelopeCompleted {
          agreement := Success;
          status := Pending;
        } else {
          agreement := AgreementError;
        }
        saves := saves + [State()];
        if agreement == Success && outcome.notificationFails {
          agreement := AgreementError;
          saves := saves + [State()];
        }
      } else {
        agreement := AgreementError;
        saves := saves + [State()];
      }
    }
  }

  // ----- Whole runs -----

  /** Tasks may be delivered any number of times in any order; once out of draft the application also
      moves on by payments, refunds and expiry. */
  datatype Step = Start(start: StartOutcome) | Finish(finish: FinishOutcome) | MovesOn(status: ApplicationStatus)

  predicate Enabled(a: App, step: Step) {
    step.MovesOn? ==> a.status != Draft && step.status != Draft
  }

  function Saves(a: App, step: Step): seq<App> {
    match step
    case Start(outcome) => StartSaves(a, outcome)
    case Finish(outcome) => FinishSaves(a, outcome)
    case MovesOn(status) => [a.(status := status)]
  }

  predicate RunEnabled(steps: seq<Step>)
    decreases steps, 0
  {
    steps == [] ||
    var init := steps[..|steps| - 1];
    RunEnabled(init) && Enabled(Run(init), steps[|steps| - 1])
  }

  function Run(steps: seq<Step>): App
    requires RunEnabled(steps)
    decreases steps, 1
  {
    if steps == [] then CREATED
    else
      var before := Run(steps[..|steps| - 1]);
      LastOf(before, Saves(before, steps[|steps| - 1]))
  }

  function Rank(s: AgreementStatus): nat {
    match s
    case Initial => 0
    case Preparing => 1
    case Prepared => 2
    case Validating => 3
    case Success => 4
    case AgreementError => 4
  }

  /** An application is out of draft only with its one envelope completed, and it has an agreement row from
      preparation on. */
  predicate Sound(a: App) {
    && |a.rows| <= 1
    && (a.status != Draft ==> a.rows == [EnvelopeCompleted])
    && (a.agreement == Success ==> a.status != Draft)
    && (Rank(a.agreement) < Rank(Prepared) ==> a.rows == [] && a.status == Draft)
    && (a.agreement == Prepared || a.agreement == Validating ==> |a.rows| == 1 && a.status == Draft)
  }

  /** One save of a task: the rank rises, except that a failing notification turns success into error. */
  predicate Progress(before: App, after: App) {
    || Rank(before.agreement) < Rank(after.agreement)
    || (before.agreement == Success && after == before.(agreement := AgreementError))
  }

  /** Every save makes progress over the state before it. */
  predicate AllProgress(a: App, saves: seq<App>) {
    forall i :: 0 <= i < |saves| ==> Progress(([a] + saves)[i], saves[i])
  }

  lemma StepSound(a: App, step: Step)
    requires Sound(a) && Enabled(a, step)
    ensures forall i :: 0 <= i < |Saves(a, step)| ==> Sound(Saves(a, step)[i])
    ensures !step.MovesOn? ==> AllProgress(a, Saves(a, step))
  {
    var saves := Saves(a, step);
    if !step.MovesOn? {
      forall i | 0 <= i < |saves| ensures Progress(([a] + saves)[i], saves[i]) {
        assert i == 0 || i == 1 || i == 2;
      }
    }
  }

  /** In every state that any run saves, the application leaves draft only with its stored envelope
      completed, has at most one agreement row, and every save of a task makes progress. */
  lemma {:induction false} SigningIsSafe(steps: seq<Step>, step: Step)
    requires RunEnabled(steps) && Enabled(Run(steps), step)
    ensures Sound(Run(steps))
    ensures forall i :: 0 <= i < |Saves(Run(steps), step)| ==> Sound(Saves(Run(steps), step)[i])
    ensures !step.MovesOn? ==> AllProgress(Run(steps), Saves(Run(steps), step))
  {
    if steps != [] {
      SigningIsSafe(steps[..|steps| - 1], steps[|steps| - 1]);
    }
    StepSound(Run(steps), step);
  }

  /** What one run of the start task comes to: only a fresh draft is prepared, and exactly when its calls
      succeed. */
  lemma StartComesTo(a: App, outcome: StartOutcome)
    requires Sound(a)
    ensures var after := LastOf(a, Saves(a, Start(outcome)));
      if a.status == Draft && a.agreement == Initial then
        match outcome
        case EnvelopePrepared => after == App(Draft, Prepared, [Sent])
        case StartRaised => after == App(Draft, AgreementError, [])
        case StartWorkerLost => after == App(Draft, Preparing, [])
      else after == a
  {
  }

  /** What one run of the finish task comes to: a prepared draft becomes pending exactly when the envelope is
      completed, and its agreement succeeds exactly when the notification is sent as well. */
  lemma FinishComesTo(a: App, outcome: FinishOutcome)
    requires Sound(a)
    ensures var after := LastOf(a, Saves(a, Finish(outcome)));
      if a.status == Draft && a.agreement == Prepared then
        match outcome
        case StatusRaised => after == a.(agreement := AgreementError)
        case StoreRaised => after == a.(agreement := AgreementError)
        case FinishWorkerLost => after == a.(agreement := Validating)
        case Stored(envelope, notificationFails) =>
          && after.rows == [envelope]
          && (after.status == Pending <==> envelope == EnvelopeCompleted)
          && (after.status == Draft <==> envelope != EnvelopeCompleted)
          && after.agreement == if envelope == EnvelopeCompleted && !notificationFails then Success else AgreementError
      else after == a
  {
  }

  /** An application whose envelope is prepared and then completed ends up pending and agreed. */
  lemma SigningSucceeds()
    ensures var start, finish := Start(EnvelopePrepared), Finish(Stored(EnvelopeCompleted, false));
      RunEnabled([start, finish]) && Run([start, finish]) == App(Pending, Success, [EnvelopeCompleted])
  {
    var start, finish := Start(EnvelopePrepared), Finish(Stored(EnvelopeCompleted, false));
    assert RunEnabled([]) && Run([]) == CREATED;
    assert [start][..0] == [] && RunEnabled([start]) && Run([start]) == App(Draft, Prepared, [Sent]);
    assert [start, finish][..1] == [start];
  }

  /** How many saves the tasks of a run have made. */
  function TaskSaves(steps: seq<Step>): nat
    requires RunEnabled(steps)
  {
    if steps == [] then 0
    else
      var init, last := steps[..|steps| - 1], steps[|steps| - 1];
      TaskSaves(init) + if last.MovesOn? then 0 else |Saves(Run(init), last)|
  }

  /** The rank, an error counting one more than the success it may replace. */
  function Potential(s: AgreementStatus): nat {
    if s == AgreementError then 5 else Rank(s)
  }

  /** Each save of a task uses up potential. */
  lemma SavesRaisePotential(a: App, step: Step)
    requires Sound(a) && Enabled(a, step)
    ensures var after := LastOf(a, Saves(a, step));
      Potential(after.agreement) >= Potential(a.agreement) + if step.MovesOn? then 0 else |Saves(a, step)|
  {
  }

  /** However often the tasks are delivered, they save at most five times; an application whose worker was
      lost stays in preparation or in validation for good. */
  lemma {:induction false} TasksSettle(steps: seq<Step>)
    requires RunEnabled(steps)
    ensures TaskSaves(steps) <= Potential(Run(steps).agreement) <= 5
    ensures forall step: Step ::
      Run(steps).agreement in {Preparing, Validating} && !step.MovesOn? ==> Saves(Run(steps), step) == []
  {
    if steps != [] {
      var init, last := steps[..|steps| - 1], steps[|steps| - 1];
      TasksSettle(init);
      SigningIsSafe(init, last);
      SavesRaisePotential(Run(init), last);
      hide StartSaves, FinishSaves;
    }
  }
}
