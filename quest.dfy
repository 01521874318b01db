/**
 * The "Join the Quest" modal: a funnel through the steps steam, kickstarter and
 * email to complete, with a set of completed steps shown as "n/3 complete",
 * an email draft, and a submitting flag. Submitting the email is asynchronous:
 * the handler sets the flag, awaits the subscribe endpoint, and then reacts to
 * the reply, so other events (typing, closing) can happen in between.
 */
module JoinQuest {
  import opened Wrappers
  import opened EmailSyntax
  import Subscribe

  datatype Step = Steam | Kickstarter | Email | Complete

  /** The step shown after `step` is completed; completing `Complete` moves nowhere. */
  function NextStep(current: Step, step: Step): (next: Step)
    ensures step != Complete ==> next == FirstOpen(StepsBefore(step) + {step})
    ensures step == Complete ==> next == current
  {
    match step
    case Steam => Kickstarter
    case Kickstarter => Email
    case Email => Complete
    case Complete => current
  }

  /** The modal's state. */
  datatype Funnel = Funnel(currentStep: Step, completedSteps: set<Step>, email: string, isSubmitting: bool)

  const Initial: Funnel := Funnel(Steam, {}, "", false)

  /** handleStepComplete: add the step to the set, then move on. */
  function StepComplete(f: Funnel, step: Step): (g: Funnel)
    ensures g.completedSteps == f.completedSteps + {step}
    ensures step != Complete ==> g.currentStep == FirstOpen(StepsBefore(step) + {step})
    ensures g.email == f.email && g.isSubmitting == f.isSubmitting
  {
    f.(completedSteps := f.completedSteps + {step}, currentStep := NextStep(f.currentStep, step))
  }

  /** The first half of handleEmailSubmit, up to the await. */
  function BeginSubmit(f: Funnel): Funnel
  {
    f.(isSubmitting := true)
  }

  /** The request body the modal sends for its draft. */
  function RequestFor(f: Funnel): Subscribe.RequestBody
  {
    Subscribe.Body(Some(f.email), Some("quest_modal"), Some(["quest_complete"]))
  }

  /** The second half of handleEmailSubmit as written: an OK reply completes
      the email step whatever the modal shows by then. */
  function FinishSubmitAsWritten(f: Funnel, reply: Subscribe.Reply): (g: Funnel)
    ensures !g.isSubmitting && g.email == f.email
    ensures Subscribe.ReplyOk(reply) ==>
              g.currentStep == Complete && g.completedSteps == f.completedSteps + {Email}
    ensures !Subscribe.ReplyOk(reply) ==>
              g.currentStep == f.currentStep && g.completedSteps == f.completedSteps
  {
    var g := if Subscribe.ReplyOk(reply) then StepComplete(f, Email) else f;
    g.(isSubmitting := false)
  }

  /** The second half of handleEmailSubmit, corrected: an OK reply completes the
      email step only while the modal is still on it. A non-OK reply or a thrown
      fetch changes nothing but the submitting flag, which is always cleared. */
  function FinishSubmit(f: Funnel, reply: Subscribe.Reply): (g: Funnel)
    ensures !g.isSubmitting && g.email == f.email
    ensures Subscribe.ReplyOk(reply) && f.currentStep == Email ==>
              g.currentStep == Complete && g.completedSteps == f.completedSteps + {Email}
    ensures !(Subscribe.ReplyOk(reply) && f.currentStep == Email) ==>
              g.currentStep == f.currentStep && g.completedSteps == f.completedSteps
  {
    var g := if Subscribe.ReplyOk(reply) && f.currentStep == Email then StepComplete(f, Email) else f;
    g.(isSubmitting := false)
  }

  /** handleClose: back to the first step with nothing completed and an empty draft. */
  function Close(f: Funnel): (g: Funnel)
    ensures g.currentStep == Steam && g.completedSteps == {} && g.email == ""
    ensures g.isSubmitting == f.isSubmitting
  {
    f.(currentStep := Steam, completedSteps := {}, email := "")
  }

  /** The "n" of "n/3 complete"; the progress bar is n/3 of its width. */
  function Progress(f: Funnel): (n: nat)
    ensures n <= 4
  {
    assert forall x | x in f.completedSteps :: x == Steam || x == Kickstarter || x == Email || x == Complete;
    SubsetCard(f.completedSteps, {Steam, Kickstarter, Email, Complete});
    assert |{Steam, Kickstarter, Email, Complete}| == 4;
    |f.completedSteps|
  }

  /** The steps that come before `step` in the funnel. */
  function StepsBefore(step: Step): set<Step>
  {
    match step
    case Steam => {}
    case Kickstarter => {Steam}
    case Email => {Steam, Kickstarter}
    case Complete => {Steam, Kickstarter, Email}
  }

  /** The first of steam, kickstarter, email that is not done, or complete. */
  function FirstOpen(done: set<Step>): Step
  {
    if Steam !in done then Steam
    else if Kickstarter !in done then Kickstarter
    else if Email !in done then Email
    else Complete
  }

  /** The funnel's invariant: exactly the steps before the current one are done. */
  ghost predicate Consistent(f: Funnel)
  {
    f.completedSteps == StepsBefore(f.currentStep)
  }

  /** What the invariant gives the screen: the current step is the first one not
      done, `complete` is never in the set, and the count never exceeds 3. */
  lemma ConsistentMeansOrdered(f: Funnel)
    requires Consistent(f)
    ensures f.currentStep == FirstOpen(f.completedSteps)
    ensures Complete !in f.completedSteps
    ensures Progress(f) <= 3
    ensures Progress(f) == 3 <==> f.currentStep == Complete
  {
    match f.currentStep
    case Steam =>
    case Kickstarter =>
    case Email =>
      assert |{Steam, Kickstarter}| == 2;
    case Complete =>
      assert |{Steam, Kickstarter, Email}| == 3;
  }

  /** The events the screen offers. */
  datatype Event =
    | Wishlisted              // "I've wishlisted it!" on the steam step
    | BackLater               // "I'll back it later" on the kickstarter step
    | Type(text: string)      // editing the email field on the email step
    | Submit                  // submitting the form on the email step
    | Arrive(reply: Subscribe.Reply)    // the reply of the pending submission
    | CloseModal              // the close button, the dialog's own close, or "Continue Exploring"

  /** Whether the screen offers the event: a button exists only on its step, the
      submit button is disabled while submitting, and a reply arrives only for a
      pending submission. Closing is always possible. */
  predicate Enabled(f: Funnel, e: Event)
  {
    match e
    case Wishlisted => f.currentStep == Steam
    case BackLater => f.currentStep == Kickstarter
    case Type(_) => f.currentStep == Email
    case Submit => f.currentStep == Email && !f.isSubmitting
    case Arrive(_) => f.isSubmitting
    case CloseModal => true
  }

  /** One event, handled as written; an event the screen does not offer changes nothing. */
  function ApplyAsWritten(f: Funnel, e: Event): Funnel
  {
    if !Enabled(f, e) then f
    else match e
      case Wishlisted => StepComplete(f, Steam)
      case BackLater => StepComplete(f, Kickstarter)
      case Type(text) => f.(email := text)
      case Submit => BeginSubmit(f)
      case Arrive(reply) => FinishSubmitAsWritten(f, reply)
      case CloseModal => Close(f)
  }

  /** One event, with the corrected reply handler. */
  function Apply(f: Funnel, e: Event): Funnel
  {
    if !Enabled(f, e) then f
    else match e
      case Wishlisted => StepComplete(f, Steam)
      case BackLater => StepComplete(f, Kickstarter)
      case Type(text) => f.(email := text)
      case Submit => BeginSubmit(f)
      case Arrive(reply) => FinishSubmit(f, reply)
      case CloseModal => Close(f)
  }

  function RunAsWritten(f: Funnel, events: seq<Event>): Funnel
    decreases |events|
  {
    if |events| == 0 then f else RunAsWritten(ApplyAsWritten(f, events[0]), events[1..])
  }

  function Run(f: Funnel, events: seq<Event>): Funnel
    decreases |events|
  {
    if |events| == 0 then f else Run(Apply(f, events[0]), events[1..])
  }

  /** Every event keeps the invariant (with the corrected reply handler). */
  lemma ApplyKeepsConsistent(f: Funnel, e: Event)
    requires Consistent(f)
    ensures Consistent(Apply(f, e))
  {
  }

  /** From the initial state, whatever the user does and whenever replies arrive,
      the current step is the first one not done and the count stays within 3/3. */
  lemma {:induction false} RunKeepsConsistent(f: Funnel, events: seq<Event>)
    requires Consistent(f)
    ensures Consistent(Run(f, events))
    ensures Run(f, events).currentStep == FirstOpen(Run(f, events).completedSteps)
    ensures Progress(Run(f, events)) <= 3
    decreases |events|
  {
    if |events| == 0 {
      ConsistentMeansOrdered(f);
    } else {
      ApplyKeepsConsistent(f, events[0]);
      RunKeepsConsistent(Apply(f, events[0]), events[1..]);
    }
  }

  /** As written, no event ever puts `complete` into the set, so the count stays within 3/3. */
  lemma {:induction false} RunAsWrittenBoundsProgress(f: Funnel, events: seq<Event>)
    requires Complete !in f.completedSteps
    ensures Complete !in RunAsWritten(f, events).completedSteps
    ensures Progress(RunAsWritten(f, events)) <= 3
    decreases |events|
  {
    if |events| == 0 {
      forall x | x in f.completedSteps ensures x in {Steam, Kickstarter, Email} {
        assert x != Complete;
      }
      SubsetCard(f.completedSteps, {Steam, Kickstarter, Email});
    } else {
      RunAsWrittenBoundsProgress(ApplyAsWritten(f, events[0]), events[1..]);
    }
  }

  lemma SubsetCard(a: set<Step>, b: set<Step>)
    requires a <= b
    ensures |a| <= |b|
  {
    if a != {} {
      var x :| x in a;
      SubsetCard(a - {x}, b - {x});
    }
  }

  /** As written, a reply that lands after the modal was closed completes the
      email step of a funnel reset to its start: the reopened modal shows
      "Quest Complete" with 1/3 of the steps done. */
  lemma LateReplyBreaksFunnel()
    ensures var f := RunAsWritten(Initial, [Wishlisted, BackLater, Type("a@b.com"), Submit, CloseModal, Arrive(Subscribe.Responded(200))]);
      && !Consistent(f)
      && f.currentStep == Complete && f.completedSteps == {Email} && Progress(f) == 1
      && f.currentStep != FirstOpen(f.completedSteps)
  {
    var f := RunAsWritten(Initial, [Wishlisted, BackLater, Type("a@b.com"), Submit, CloseModal, Arrive(Subscribe.Responded(200))]);
    assert f == Funnel(Complete, {Email}, "", false);
  }

  /** Completing a step twice changes the set only once. */
  lemma StepCompleteIdempotentOnSet(f: Funnel, step: Step)
    ensures StepComplete(StepComplete(f, step), step).completedSteps == StepComplete(f, step).completedSteps
  {
  }

  /** The happy path: wishlist, kickstarter, and an OK email reply complete the quest. */
  lemma HappyPath(text: string)
    ensures Run(Initial, [Wishlisted, BackLater, Type(text), Submit, Arrive(Subscribe.Responded(200))])
         == Funnel(Complete, {Steam, Kickstarter, Email}, text, false)
  {
    var events := [Wishlisted, BackLater, Type(text), Submit, Arrive(Subscribe.Responded(200))];
    var f1 := Funnel(Kickstarter, {Steam}, "", false);
    var f2 := Funnel(Email, {Steam, Kickstarter}, "", false);
    var f3 := f2.(email := text);
    assert Apply(Initial, events[0]) == f1;
    assert Apply(f1, events[1]) == f2;
    assert Apply(f2, events[2]) == f3;
    var f4 := f3.(isSubmitting := true);
    assert Apply(f3, events[3]) == f4;
    assert Apply(f4, events[4]) == Funnel(Complete, {Steam, Kickstarter, Email}, text, false);
    var f5 := Funnel(Complete, {Steam, Kickstarter, Email}, text, false);
    assert Run(f5, events[5..]) == f5;
    assert Run(f4, events[4..]) == f5;
    assert Run(f3, events[3..]) == f5;
    assert Run(f2, events[2..]) == f5;
    assert Run(f1, events[1..]) == f5;
  }

  /** Closing from any step resets the funnel to its start (the flag of a pending submission stays). */
  lemma CloseResets(f: Funnel)
    ensures Run(f, [CloseModal]) == Initial.(isSubmitting := f.isSubmitting)
  {
  }

  /** Against the subscribe endpoint: a new valid email completes the quest, and
      the same email again (answered 409) leaves the funnel on the email step. */
  lemma SignupDrivesFunnel(table: Subscribe.Table, config: Subscribe.Config, f: Funnel, m1: Subscribe.MailerReply, m2: Subscribe.MailerReply)
    requires f.currentStep == Email && f.completedSteps == {Steam, Kickstarter} && !f.isSubmitting
    requires IsValidEmail(f.email) && f.email !in table
    ensures var h1 := Subscribe.Handle(table, config, RequestFor(f), Subscribe.Available, m1);
      && Run(f, [Submit, Arrive(Subscribe.Responded(h1.outcome.Status()))]).currentStep == Complete
      && var h2 := Subscribe.Handle(h1.table, config, RequestFor(f), Subscribe.Available, m2);
      && Run(f, [Submit, Arrive(Subscribe.Responded(h2.outcome.Status()))]) == f
  {
    var h1 := Subscribe.Handle(table, config, RequestFor(f), Subscribe.Available, m1);
    assert h1.outcome == Subscribe.Subscribed;
    var h2 := Subscribe.Handle(h1.table, config, RequestFor(f), Subscribe.Available, m2);
    assert h2.outcome == Subscribe.AlreadySubscribed;
    var pending := BeginSubmit(f);
    assert Run(f, [Submit, Arrive(Subscribe.Responded(h1.outcome.Status()))]) == Run(pending, [Arrive(Subscribe.Responded(200))]);
    assert Run(f, [Submit, Arrive(Subscribe.Responded(h2.outcome.Status()))]) == Run(pending, [Arrive(Subscribe.Responded(409))]);
  }

  /** The modal component, holding its four pieces of state. */
  class JoinQuestModal {
    var currentStep: Step
    var completedSteps: set<Step>
    var email: string
    var isSubmitting: bool

    function State(): Funnel
      reads this
    {
      Funnel(currentStep, completedSteps, email, isSubmitting)
    }

    constructor ()
      ensures State() == Initial
    {
      currentStep, completedSteps, email, isSubmitting := Steam, {}, "", false;
    }

    /** handleStepComplete: grow the set, then reassign the step. */
    method HandleStepComplete(step: Step)
      modifies this
      ensures State() == StepComplete(old(State()), step)
    {
      completedSteps := completedSteps + {step};
      if step == Steam {
        currentStep := Kickstarter;
      } else if step == Kickstarter {
        currentStep := Email;
      } else if step == Email {
        currentStep := Complete;
      }
    }

    /** The email input's onChange. */
    method SetEmail(text: string)
      modifies this
      ensures State() == old(State()).(email := text)
    {
      email := text;
    }

    /** handleEmailSubmit up to the await: raise the flag and build the request. */
    method BeginEmailSubmit() returns (request: Subscribe.RequestBody)
      modifies this
      ensures State() == BeginSubmit(old(State()))
      ensures request == RequestFor(old(State()))
    {
      isSubmitting := true;
      request := Subscribe.Body(Some(email), Some("quest_modal"), Some(["quest_complete"]));
    }

    /** handleEmailSubmit after the await (corrected: only while on the email step). */
    method FinishEmailSubmit(reply: Subscribe.Reply)
      modifies this
      ensures State() == FinishSubmit(old(State()), reply)
    {
      if Subscribe.ReplyOk(reply) && currentStep == Email {
        HandleStepComplete(Email);
      }
      isSubmitting := false;
    }

    /** handleClose. */
    method HandleClose()
      modifies this
      ensures State() == Close(old(State()))
    {
      currentStep := Steam;
      completedSteps := {};
      email := "";
    }
  }
}
