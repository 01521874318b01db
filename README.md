# Fruity Tales website: a verified model of its stateful core

The site is a Next.js marketing page for the game Fruity Tales. Almost all of it is animated
markup. This project models the few parts that hold real logic, one Dafny module per source file:

- `Subscribe` (`subscribe.dfy`, with the validator in `EmailSyntax`, `email.dfy`): the endpoint
  `POST /api/subscribe`. It validates the email against `^[^\s@]+@[^\s@]+\.[^\s@]+$` and fills in
  the defaults `source = "site"` and `tags = []`. It then inserts an unverified row into a
  `subscribers` table whose email column is unique, and answers 200, 400, 409 or 500. When a
  MailerLite key is configured, it also calls MailerLite on a best-effort basis.
- `JoinQuest` (`quest.dfy`): the "Join the Quest" modal. It has the steps steam, kickstarter,
  email and complete, a set of completed steps shown as "n/3 complete", an email draft and a
  submitting flag.
- `Carousel` (`carousel.dfy`): the screenshot carousel's index over five slides.
- `Faq` (`faq.dfy`): the accordion's `openIndex`, which is null or one of six questions.
- `Demo` (`demo.dfy`): the demo page. It splits a millisecond distance into days, hours, minutes
  and seconds, pads each with zeros to two digits, and runs an early-access form.

Each stateful component is a class with the component's own state fields. Its methods state the
new state as a pure function of the old one. The properties are proved as lemmas about those
functions.

Outside effects become parameters of the handler:

- the database's verdict on an insert (`Store`);
- MailerLite's reply (`MailerReply`);
- the reply a page's `fetch` receives (`Reply`);
- the distance to the release date.

The subscribers table is a map keyed by its unique email column.

A 409 reply is a failure for the modal, which stays on the email step
(components/join-quest-modal.tsx:65-73). The tags are an ordered array joined with commas
(app/api/subscribe/route.ts:51).

## Model

| member | source | states |
|---|---|---|
| `EmailSyntax.ValidEmailIffPattern` | app/api/subscribe/route.ts:11-14 | the validator (no whitespace, one '@', non-empty local part, a '.' inside the domain) accepts exactly the strings the regular expression matches |
| `EmailSyntax.ValidEmailMatches` | app/api/subscribe/route.ts:11 | every accepted string splits into the three `[^\s@]+` runs around an '@' and a '.' |
| `EmailSyntax.MatchesIsValidEmail` | app/api/subscribe/route.ts:11 | every string the regular expression matches is accepted |
| `EmailSyntax.ValidEmailHasOneAt` | app/api/subscribe/route.ts:11 | an accepted email holds exactly one '@' |
| `EmailSyntax.NotAnEmailRejected` | app/api/subscribe/route.ts:11-14 | "not-an-email" is refused |
| `EmailSyntax.ExampleEmailAccepted` | app/api/subscribe/route.ts:11-14 | "a@b.com" is accepted |
| `EmailSyntax.SplitJoin` | app/api/subscribe/route.ts:51 | the comma-joined tags string splits back into the tags when there is at least one tag and none holds a comma |
| `EmailSyntax.JoinMergesSeparatedTags` | app/api/subscribe/route.ts:51 | a tag holding a comma gives the same string as two tags |
| `EmailSyntax.IsValidEmail` | app/api/subscribe/route.ts:11-12 | an accepted email holds an '@' and at least five characters (the shortest match is "a@b.c") |
| `EmailSyntax.Join` | app/api/subscribe/route.ts:51 | no tags give the empty string; the joined string starts with the first tag, followed by the separator when there is a second |
| `Subscribe.Outcome.Status` | app/api/subscribe/route.ts:13-67 | every status is one of 200, 400, 409 and 500, and only success passes `response.ok` |
| `Subscribe.Outcome.Json` | app/api/subscribe/route.ts:13-67 | only success has a success body |
| `Subscribe.ResponsesDistinct` | app/api/subscribe/route.ts:13-67 | the four outcomes have four different statuses and four different bodies |
| `Subscribe.Handle` | app/api/subscribe/route.ts:6-69 | anything but success leaves the table alone and calls no one; the log holds at most one entry, and a subscription error exactly for a 500 |
| `Subscribe.MailerEnabled` | app/api/subscribe/route.ts:39 | the side call is enabled exactly when the key is present and not the empty string |
| `Subscribe.NewRow` | app/api/subscribe/route.ts:8-28 | the inserted row has the request's email, "site" for an absent source, [] for absent tags, and `verified` false |
| `Subscribe.SubscribeRoute.constructor` | app/api/subscribe/route.ts:4 | the route works on the table as it stands, earlier (possibly verified) subscribers included, provided each row sits under its own valid email |
| `Subscribe.SubscribeRoute.Post` | app/api/subscribe/route.ts:6-69 | one request gives the outcome, side call, log and new table of `Handle` on the old table, and keeps the table well formed |
| `Subscribe.HandlePreservesWellFormed` | app/api/subscribe/route.ts:17-28 | every row stays keyed by its own valid email, and every existing row, verified or not, is left as it was |
| `Subscribe.ValidationMatchesPattern` | app/api/subscribe/route.ts:11-14 | a request is answered 400 exactly when its email does not match the pattern, and then nothing is inserted or sent |
| `EmailSyntax.UndefinedRejected` | app/api/subscribe/route.ts:8-12 | "undefined", the string an absent email is tested as, is refused |
| `Subscribe.MissingEmailRejected` | app/api/subscribe/route.ts:8-14 | a body with no email is answered 400 (it is tested as "undefined") |
| `Subscribe.OutcomeCases` | app/api/subscribe/route.ts:6-69 | the status is 200 exactly for a valid new email on a working store, 409 exactly for a valid email already stored, 500 exactly for a malformed body or another store error, and 400 exactly for a refused email |
| `Subscribe.SuccessInsertsOneRow` | app/api/subscribe/route.ts:17-28 | success adds exactly one row, `{email, source, tags, verified: false}` with defaults, and the table grows by one; otherwise the table is unchanged |
| `Subscribe.SideCallOnlyAfterSuccess` | app/api/subscribe/route.ts:39-59 | MailerLite is called exactly after a success with a non-empty key, with the row's email and source and its tags joined by commas |
| `Subscribe.MailerCannotChangeResult` | app/api/subscribe/route.ts:39-64 | whatever MailerLite answers or throws, the outcome, the table and the side call are the same |
| `Subscribe.SecondSubmissionConflicts` | app/api/subscribe/route.ts:30-64 | the first submission of a new valid email returns 200 and `success: true`; a second one returns 409 and leaves the table as it was |
| `Subscribe.ExampleInvalidRequest` | app/api/subscribe/route.ts:11-14 | on an empty table, "not-an-email" is answered 400 |
| `Subscribe.ExampleSignupThenConflict` | app/api/subscribe/route.ts:17-64 | on an empty table, "a@b.com" from the demo page gets 200 and exactly its row; sending it again gets 409 |
| `JoinQuest.NextStep` | components/join-quest-modal.tsx:41-47 | completing steam, kickstarter or email moves to the first step not done once it and the steps before it are done; completing complete stays put |
| `JoinQuest.StepComplete` | components/join-quest-modal.tsx:29-48 | completing a step adds exactly that step to the set, moves to the first step not yet done after it (steam, kickstarter, email, complete), and changes neither draft nor flag |
| `JoinQuest.FinishSubmitAsWritten` | components/join-quest-modal.tsx:65-82 | (as written) an OK reply moves to complete and adds email whatever the current step; a non-OK reply or a thrown fetch changes neither step nor set; the flag is always cleared |
| `JoinQuest.Progress` | components/join-quest-modal.tsx:111-117 | the "n" of "n/3 complete" is the size of the set of completed steps, at most 4 for any set of steps |
| `JoinQuest.FinishSubmit` | components/join-quest-modal.tsx:65-82 | (corrected) an OK reply on the email step moves to complete and adds email; a non-OK reply or a thrown fetch changes neither step nor set; the flag is always cleared |
| `JoinQuest.Close` | components/join-quest-modal.tsx:85-90 | closing resets to steam, an empty set and an empty draft |
| `JoinQuest.ConsistentMeansOrdered` | components/join-quest-modal.tsx:108-121 | under the invariant, the current step is the first one not done, complete is never in the set, the count is at most 3, and it is 3 exactly on complete |
| `JoinQuest.ApplyKeepsConsistent` | components/join-quest-modal.tsx:29-90 | every on-screen event keeps "done = the steps before the current one" |
| `JoinQuest.RunKeepsConsistent` | components/join-quest-modal.tsx:22-90 | after any sequence of events from a consistent state, the current step is the first one not done and the count is at most 3 |
| `JoinQuest.RunAsWrittenBoundsProgress` | components/join-quest-modal.tsx:29-117 | with the handler as written, complete never enters the set and "n/3" never exceeds 3/3 |
| `JoinQuest.LateReplyBreaksFunnel` | components/join-quest-modal.tsx:50-90 | as written, an OK reply arriving after a close leaves the funnel on complete with only email done (1/3) |
| `JoinQuest.StepCompleteIdempotentOnSet` | components/join-quest-modal.tsx:30 | completing the same step twice changes the set only once |
| `JoinQuest.HappyPath` | components/join-quest-modal.tsx:41-82 | wishlist, kickstarter and an OK email reply end on complete with all three steps done |
| `JoinQuest.CloseResets` | components/join-quest-modal.tsx:85-90 | closing from any state gives the initial state (only a pending submission's flag survives) |
| `JoinQuest.SignupDrivesFunnel` | components/join-quest-modal.tsx:55-79 | against the endpoint, a new valid email completes the quest; the same email again (409) leaves the funnel unchanged |
| `JoinQuest.JoinQuestModal.constructor` | components/join-quest-modal.tsx:23-26 | the modal starts on steam, with nothing done, an empty draft and no submission |
| `JoinQuest.JoinQuestModal.HandleStepComplete` | components/join-quest-modal.tsx:29-48 | the fields become `StepComplete` of the old state |
| `JoinQuest.JoinQuestModal.SetEmail` | components/join-quest-modal.tsx:235 | only the draft changes |
| `JoinQuest.JoinQuestModal.BeginEmailSubmit` | components/join-quest-modal.tsx:50-63 | raises the flag and sends the draft with source "quest_modal" and tags ["quest_complete"] |
| `JoinQuest.JoinQuestModal.FinishEmailSubmit` | components/join-quest-modal.tsx:65-82 | the fields become the corrected `FinishSubmit` of the old state |
| `JoinQuest.JoinQuestModal.HandleClose` | components/join-quest-modal.tsx:85-90 | the fields become `Close` of the old state |
| `Carousel.Next` | components/screenshots.tsx:40-42 | next stays below 5 and wraps from 4 to 0 |
| `Carousel.Prev` | components/screenshots.tsx:44-46 | previous stays below 5 and wraps from 0 to 4 |
| `Carousel.NextPrevInverse` | components/screenshots.tsx:40-46 | next then previous, and previous then next, return the original index |
| `Carousel.NextTimesAdds` | components/screenshots.tsx:40-42 | n presses of next add n modulo 5 |
| `Carousel.NextFiveTimes` | components/screenshots.tsx:41 | five presses of next return to the start |
| `Carousel.Screenshots.constructor` | components/screenshots.tsx:38 | the index starts at 0 |
| `Carousel.Screenshots.NextSlide` | components/screenshots.tsx:40-42 | the index becomes `Next` of the old one and stays in range |
| `Carousel.Screenshots.PrevSlide` | components/screenshots.tsx:44-46 | the index becomes `Prev` of the old one and stays in range |
| `Carousel.Screenshots.IsHighlighted` | components/screenshots.tsx:115 | in a valid carousel only an existing thumbnail is highlighted |
| `Carousel.Screenshots.SelectThumbnail` | components/screenshots.tsx:113-115 | clicking thumbnail k sets the index to k, and only thumbnail k is highlighted |
| `Faq.Toggle` | components/faq.tsx:70 | clicking the open question closes everything; clicking any other question opens exactly that one |
| `Faq.OpeningClosesOthers` | components/faq.tsx:70-83 | opening a question closes every other answer |
| `Faq.ToggleTwice` | components/faq.tsx:41-70 | from all closed, or with that question open, two clicks on it return to the same state |
| `Faq.ClicksStayInRange` | components/faq.tsx:60-70 | after any clicks on questions, `openIndex` is null or below 6 (at most one answer open, which the single index guarantees) |
| `Faq.FaqSection.constructor` | components/faq.tsx:41 | every answer starts closed |
| `Faq.FaqSection.Click` | components/faq.tsx:70 | `openIndex` becomes `Toggle` of the old one and stays in range |
| `Demo.Decompose` | app/demo/page.tsx:31-37 | for a positive distance, hours < 24, minutes < 60 and seconds < 60, and days·86400 + hours·3600 + minutes·60 + seconds = ⌊d/1000⌋ |
| `Demo.DecomposeUnique` | app/demo/page.tsx:33-36 | any in-range reading with the same total seconds equals the split |
| `Demo.Tick` | app/demo/page.tsx:31-38 | a non-positive distance leaves the countdown unchanged; the countdown stays in range |
| `Demo.DecimalString` | app/demo/page.tsx:122 | `toString` gives at least one digit, exactly one below 10 and at most two below 100, and no leading zero from 10 on |
| `Demo.DecimalRoundTrip` | app/demo/page.tsx:122 | reading the decimal string back gives the number |
| `Demo.PadStart` | app/demo/page.tsx:122 | `padStart` keeps the string as the suffix and fills the front up to the width |
| `Demo.Display` | app/demo/page.tsx:122 | a cell shows at least two digits, exactly two below 100, and denotes the number; from 10 on it is the unpadded `toString` |
| `Demo.DemoPage.constructor` | app/demo/page.tsx:13-20 | the page starts with an empty draft, no submission and an all-zero countdown |
| `Demo.DemoPage.OnInterval` | app/demo/page.tsx:27-39 | the countdown becomes `Tick` of the old one for the distance, and nothing else changes |
| `Demo.DemoPage.SetEmail` | app/demo/page.tsx:144 | only the draft changes |
| `Demo.DemoPage.BeginEmailSubmit` | app/demo/page.tsx:44-57 | raises the flag and sends the draft with source "demo_page" and tags ["demo_early_access"] |
| `Demo.DemoPage.FinishEmailSubmit` | app/demo/page.tsx:59-76 | an OK reply clears the draft, any other outcome keeps it, and the flag is always cleared |

## Left out

- The Supabase client, the HTTP request and response objects, and the MailerLite `fetch` are foreign
  calls. The insert's verdict and MailerLite's reply are parameters. `console.error` is a log output.
- Atomicity of the unique constraint under concurrent requests belongs to the database. The model
  handles one request at a time.
- JSON values of other types in the request (a number, array or `null` email, `null` source or
  tags, tags that are not an array) are not modelled. Only strings, string arrays and absent fields
  are.
- `Subscribe.MailerCannotChangeResult`: the handler awaits the MailerLite `fetch` with no time-out
  (app/api/subscribe/route.ts:41), so a slow or never-settling MailerLite delays or withholds the 200
  after the row is inserted. In the model MailerLite's reply always arrives.
- Confirming a subscription (setting `verified`) belongs to a flow outside this endpoint. The model's
  table may hold verified rows, but nothing in the model verifies one.
- The row returned by `.select().single()` is never used and is not modelled.
- `setInterval`, `Date.now` and the release date are left out. The countdown is a function of the
  distance in whole milliseconds, and floating-point division is not modelled.
- Analytics (`window.gtag`, including the count at components/join-quest-modal.tsx:36), toasts,
  `window.open` and all animation are side channels with no effect on state.
- The browser's own form validation is not modelled. This covers `required`, `type="email"` and the
  terms checkbox. The model lets any draft be submitted, which includes every draft the browser lets
  through.
- Whether the dialog is open (`isOpen`, owned by app/page.tsx) is not part of the funnel's state. The
  model may offer an event while the dialog is closed, which includes every sequence the screen allows.
- `JoinQuest.JoinQuestModal.FinishEmailSubmit`: models the corrected reply handler. The handler as
  written is `JoinQuest.FinishSubmitAsWritten` (see Findings).
- components/hero.tsx's email form repeats the demo page's pattern and is not part of this model.
  Neither are the cursor, parallax, sticky button, navbar, footer, features, roadmap, social-proof,
  layout, page and analytics files. They hold layout, animation and static content.

## Findings

| source | as written | input that shows it | evidently intended | confidence | as-written member | corrected member |
|---|---|---|---|---|---|---|
| components/join-quest-modal.tsx:65-66 | An OK reply always calls `handleStepComplete("email")`. `handleClose` (lines 85-90) does not cancel the pending request, and the modal stays mounted while closed (app/page.tsx:60). | Complete steam and kickstarter, submit "a@b.com", close the dialog before the reply, then receive a 200 reply. The modal is left on complete with completedSteps = {email}, showing "Quest Complete" at 1/3. | The set always holds exactly the steps before the current one. A late reply completes the email step only while the modal is still on that step. | not executed; medium (needs the reply to arrive after the close) | `JoinQuest.LateReplyBreaksFunnel` | `JoinQuest.RunKeepsConsistent` |
