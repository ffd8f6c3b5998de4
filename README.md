# LionMatch client core in Dafny

LionMatch is a single-page dating client for León, Guanajuato. Its whole
behaviour lives in `app.js`, which talks to a hosted Postgres/auth backend.
This project models the client's decision logic and proves properties of it.
It covers:

- the **discovery queue**: which profiles `loadProfiles` installs, the cursor
  `renderCurrentProfile` tests, and what `handleSwipe` and `createMatch`
  write to `likes` and `matches`;
- the **card gesture**: the badge thresholds (±50 px) while dragging and the
  swipe thresholds (±100 px) on release;
- the **onboarding wizard**: the three steps, the required-field check and
  which buttons are visible;
- the **conversation list**: grouping the newest-first messages into one
  entry per other participant, in insertion order;
- the **match list's** choice of the other user;
- **`calculateAge`** on calendar dates, and **`formatTime`'s** relative time
  buckets;
- the **form guards** of registration, profile completion and profile edit,
  and the `profiles` row each accepted form writes.

Modules, by file:

| file | module | flavour |
|---|---|---|
| `rows.dfy` | `Rows` | table rows and the counterpart rule |
| `age.dfy` | `Age` | dates, `calculateAge`, the time-zone finding |
| `timebuckets.dfy` | `TimeBuckets` | `formatTime` |
| `forms.dfy` | `Forms` | form guards as functions over the tables |
| `onboarding.dfy` | `Onboarding` | the wizard step as a class |
| `gesture.dfy` | `Gesture` | the per-card drag state as a class |
| `discovery.dfy` | `Discovery` | the queue, cursor and tables as a class |
| `conversations.dfy` | `Conversations` | the grouping loop and its specification |

Backend calls are parameters. A query's answer is computed from a table
modelled as a sequence of rows, in table order, and `limit(20)` keeps the
first 20 eligible rows. Whether an insert was kept is a boolean. The inserts
of registration (app.js:267), of a swipe (app.js:693) and of a match
(app.js:723) are not checked by the source, so a lost insert leaves the row out of
the table but does not change the flow. The two `.single()` lookups, of a registered e-mail
(app.js:246-250) and of a reciprocal like (app.js:702-708), read a failed
query as "no row": `lookupOk` says whether the query succeeded. "Today" and "now" are parameters too. A column the backend leaves null
is the empty string, except `age`, whose null (and `NaN`) is `None`.

Two behaviours of the code are kept as written:

- The source ignores insert errors in `handleSwipe` and `createMatch`. A
  failed like insert therefore gives no error: the cursor still advances and
  the reciprocal lookup still runs.
- The source looks up the reciprocal like with `.single()`. Exactly one
  matching row must exist for it to be found, so duplicate reciprocal likes
  give no match (`Discovery.ReciprocalFound`).

## Model

| member | source | states |
|---|---|---|
| `Rows.OtherParty` | app.js:809 | the counterpart is one of the two parties; it is the second party when `me` is the first one, the first party when `me` is only the second one, and never `me` when `me` is a party of a record between two distinct users |
| `Rows.MatchPartner` | app.js:772 | for a match between two distinct users that includes `me`, the chosen user is not `me`, and together they are exactly the match's two users |
| `Age.DaysInMonth` | app.js:978-989 | a month has 28 to 31 days; February has 29 exactly in leap years (the calendar `Date` uses) |
| `Age.AgeOn` | app.js:978-989 | the year difference, less one exactly when the birthday has not come yet this year; equivalently, the unique number of whole years: its anniversary is reached and the next one is not |
| `Age.AgeIsUnique` | app.js:978-989 | any count of years whose anniversary is reached while the next one is not equals the computed age |
| `Age.AgeMonotone` | app.js:978-989 | of two birth dates, the earlier one is never younger |
| `Age.CalculateAge` | app.js:978-989 | the decrementing computation yields `AgeOn`, the number of whole years lived |
| `Age.PreviousDay` | app.js:980 | the previous calendar day: a valid date before the given one with no valid date in between |
| `Age.LocalBirthDate` | app.js:980 | west of UTC, the local date of a date-only string's UTC midnight is the day before the entered date; otherwise it is the entered date |
| `Age.AgeAsWritten` | app.js:978-989 | the age the source computes is never below the true age |
| `Age.AgeAsWrittenAtMostOneEarly` | app.js:978-989 | the source's age exceeds the true age by at most one year |
| `Age.AgeAsWrittenEarly` | app.js:978-989 | for a birth day other than the 1st of a month, the day before the n-th birthday, west of UTC, the source computes n while the true age is n − 1 |
| `Age.AgeAsWrittenAdmitsSeventeen` | app.js:978-989 | born 15 October 2008, on 14 October 2026 the source computes 18 while the true age is 17 |
| `TimeBuckets.FormatTime` | app.js:991-1005 | each bucket holds exactly on its range of elapsed milliseconds (under a minute, minutes, hours, days up to a week, older), and its count is the floored elapsed units, within the bucket's bounds |
| `TimeBuckets.FormatTimeMonotone` | app.js:991-1005 | as time passes a message's bucket never moves to a finer one, and within the minute bucket the count never decreases |
| `Forms.Login` | app.js:194-224 | refused for the unticked adult checkbox exactly when it is unticked, before any backend call; a refused sign-in is reported exactly when the box is ticked and the service refuses; otherwise the signed-in user is returned |
| `Forms.CheckRegistration` | app.js:234-242 | accepted exactly when the confirmation matches and the password has at least 6 characters; a mismatch is reported first, and a short password only when the two match |
| `Forms.CountEmail` | app.js:246-250 | the number of rows with the email is zero exactly when no row has it |
| `Forms.Register` | app.js:226-279 | password errors come first; the e-mail is taken exactly when the lookup succeeds and one row holds it (a failed lookup counts the e-mail as free); sign-up failure is reported exactly when it fails after those checks; registration is accepted exactly when every check passes and sign-up succeeds, and then appends the new row (when the backend keeps it) and nothing else |
| `Forms.CompleteWithAge` | app.js:380-390 | for a computed age, refused as under-age exactly when the age is known and below 18 (an unknown age, `NaN`, passes); refused for a missing choice exactly when seeking is empty and the age check passed; accepted exactly when both guards pass, and then keeps id and e-mail and writes the form's fields, that age (at least 18 when known) and León |
| `Forms.CompleteProfile` | app.js:369-418 | the same guards with the age `calculateAge` computes as written (`Age.AgeAsWritten`): refused as under-age exactly when a calendar birth date gives that age below 18, for a missing choice exactly when seeking is empty and the age check passed, accepted exactly when both pass; an accepted form writes the form's fields and that age, and whoever it accepts with a birth date has lived at least 17 whole years |
| `Forms.CompleteProfileCorrected` | app.js:369-390 | the guards with the whole years since the entered date: refused as under-age exactly when they are below 18, for a missing choice exactly when seeking is empty and the age check passed, accepted exactly when both pass; an accepted form writes the form's fields and that age, so whoever it accepts with a birth date has lived at least 18 whole years |
| `Forms.CompleteProfileAdmitsSeventeen` | app.js:369-390 | born 15 October 2008, on 14 October 2026 west of UTC, the source accepts the form and writes age 18 while the corrected guard refuses it as under-age |
| `Forms.UpdateProfile` | app.js:468-503 | refused exactly when seeking is empty; otherwise name, bio, interests and seeking are replaced and every other column is kept |
| `Forms.ApplyUpdate` | app.js:393-406 | updating a table by user id replaces exactly that user's rows with the given row (the stored row with the updated columns replaced, when the caller's row is the stored one), keeps the other rows and the length, and keeps ids distinct |
| `Onboarding.Buttons` | app.js:364-366 | prev shows after the first step; next shows before the last step; complete shows exactly on the last step; on every step exactly one of next and complete shows |
| `Onboarding.AllRequiredFilled` | app.js:318-333 | the step is valid exactly when no required value is empty |
| `Onboarding.Wizard.constructor` | app.js:18 | the wizard starts on step 1 |
| `Onboarding.Wizard.Next` | app.js:318-343 | validity as above; a valid step below the last advances by one; any other call keeps the step; the step stays within 1..3 |
| `Onboarding.Wizard.Prev` | app.js:345-350 | goes back one step unless on the first; the step stays within 1..3 |
| `Onboarding.Wizard.Visible` | app.js:352-367 | the visible buttons of the current step, with next and complete never both or neither shown |
| `Onboarding.WalkThrough` | app.js:318-367 | two valid nexts reach the last step, where only prev and complete show; further nexts keep the step; prev shows prev and next again |
| `Gesture.IndicatorsFor` | app.js:640-649 | LIKE shows exactly above +50 px, NOPE exactly below −50 px, and never both |
| `Gesture.Classify` | app.js:652-669 | a like exactly above +100 px, a dislike exactly below −100 px, otherwise a snap back; a swipe happens only where its own badge is showing |
| `Gesture.CardGesture.constructor` | app.js:611-613 | a fresh card starts at 0, 0 with no drag in progress |
| `Gesture.CardGesture.StartDrag` | app.js:623-627 | starts a drag at the pointer and leaves the last recorded position unchanged |
| `Gesture.CardGesture.StartDragResetting` | app.js:623-627 | starts a drag at the pointer with no displacement |
| `Gesture.CardGesture.Drag` | app.js:629-650 | ignored outside a drag; otherwise records the pointer and reports the badges for the displacement from the start |
| `Gesture.CardGesture.EndDrag` | app.js:652-669 | ignored outside a drag; otherwise ends it and classifies the last recorded displacement |
| `Gesture.TapOnFreshCard` | app.js:611-669 | as written, a tap at a `clientX` above 100 px on a fresh card dislikes the profile; a tap at a `clientX` from 0 to 100 px snaps back |
| `Gesture.TapOnFreshCardResetting` | app.js:611-669 | with the reset start, a tap on a fresh card always snaps back |
| `Gesture.TapResetting` | app.js:623-669 | with the reset start, a tap on any card, whatever was dragged before, snaps back |
| `Discovery.GenderFilter` | app.js:568-570 | no filter exactly for "Todos"; men exactly for "Hombres"; women for any other value |
| `Discovery.DecidedTargets` | app.js:552-557 | the targets of the user's own likes rows are exactly the users the user decided on |
| `Discovery.ExcludedIds` | app.js:552-558 | the exclusion list ends with the user's id and excludes exactly the user and, when the likes query succeeded, the users already decided on |
| `Discovery.Query` | app.js:561-572 | at most `limit` rows, each from the table and eligible; fewer than `limit` only when every eligible row came back; distinct ids are kept |
| `Discovery.Candidates` | app.js:547-583 | at most 20 profiles from León, never the user, only the sought gender, none already decided on (when the likes could be read), and every eligible row when fewer than 20 came back |
| `Discovery.LikeCount` | app.js:702-710 | the number of like rows from one user to another is positive exactly when such a row exists |
| `Discovery.ReciprocalFound` | app.js:702-710 | the `.single()` lookup finds the reciprocal like only when exactly one such row exists, so a found like is in the table |
| `Discovery.DuplicateLikesHideMatch` | app.js:702-710 | with two identical reciprocal like rows the lookup finds nothing, so no match is created |
| `Discovery.Session.constructor` | app.js:19-20 | an empty queue with the cursor at 0 over the given tables |
| `Discovery.Session.Current` | app.js:585-593 | no card exactly when the cursor has passed the queue; otherwise the profile at the cursor |
| `Discovery.Session.LoadProfiles` | app.js:547-583 | on success the queue becomes the candidates and the cursor 0, with nobody ahead already decided on when the likes query succeeded; on failure nothing changes; the tables are untouched |
| `Discovery.Session.CreateMatch` | app.js:721-733 | appends the row (me, partner) when the backend keeps it, and changes nothing else |
| `Discovery.Session.Swipe` | app.js:672-719 | on an exhausted queue nothing changes; otherwise the cursor advances, the decision is appended to likes, a dislike never matches, and a like matches exactly when the reciprocal lookup succeeds and finds one row, in which case the match row is appended; a match always has its reciprocal like; matches stay backed by likes both ways when the like row is stored; the queue ahead stays undecided when profile ids are distinct; the swiped profile had not been decided on when the queue was undecided |
| `Discovery.ExampleCandidates` | app.js:552-572 | over that table the candidate query drops the user's own row and keeps the other three in table order |
| `Discovery.LoadExample` | app.js:547-593 | a user liked by P2 and with no decisions, loading a León table that holds their own row and three others, gets the three others as the queue, with P2 first |
| `Discovery.SwipeExample` | app.js:672-733 | on that queue: like P2 matches, dislike P3 and like P4 do not, and the next swipe finds the queue exhausted; the only match row is (U1, P2) |
| `Conversations.OtherProfile` | app.js:813 | the joined profile of the counterpart, the receiver when the user sent the message |
| `Conversations.Entry` | app.js:812-817 | a new entry carries the counterpart, the message text and its time bucket |
| `Conversations.Group` | app.js:806-819 | the grouping has at most one entry per message |
| `Conversations.First` | app.js:808-811 | the first position of a participant: nobody earlier has that participant |
| `Conversations.FirstOfExtension` | app.js:808-811 | a later message does not move a participant's first position |
| `Conversations.GroupKeysDistinct` | app.js:806-819 | at most one entry per participant |
| `Conversations.GroupCoversAll` | app.js:806-819 | every participant of the messages has an entry |
| `Conversations.GroupKeepsFirst` | app.js:806-819 | each entry is built from the participant's first message in input order |
| `Conversations.GroupInFirstOccurrenceOrder` | app.js:806-819 | entries are in the order in which their participants first occur |
| `Conversations.GroupKeepsNewest` | app.js:799-819 | when the messages come newest first, as the query orders them, each entry's message is the newest one exchanged with its participant |
| `Conversations.LoadConversations` | app.js:789-826 | the loop computes the grouping (one entry per participant, covering them all); a failed query keeps the previous list |

## Left out

- Logout and password reset (app.js:281-316): they are backend calls with no client logic beyond displaying toasts. Of login (app.js:194-224), `Forms.Login` models the adult-checkbox guard and the sign-in outcome; the profile load after it is not modelled.
- Account deletion (app.js:505-542): it is a chain of backend deletions with no decision logic of its own.
- Loading and showing the user's own profile (app.js:423-466), the screens, the sidebar, toasts and every DOM update: these are presentation.
- Sending and loading chat messages (app.js:880-941): these are backend calls; the chat's other user comes from the conversation and match lists, which are modelled.
- The order and limit of the match and message queries (`order('created_at')`, `limit(50)`): the message list comes in as already fetched, newest first.
- The 300 ms timer in `handleSwipe` and the interleavings of the asynchronous calls: the cursor advance and the inserts are taken as one step.
- Card rotation, the progress bar percentage and other floating-point styling: these do not affect any decision.
- The simulated `online` flag of a conversation: it is `Math.random()`.
- `toLocaleDateString` for messages older than a week: the bucket `OlderDate` stands for it without the formatted text.
- `Forms.CheckRegistration`: counts password length in Dafny characters, while `String.length` counts UTF-16 code units. The two differ only for characters outside the Basic Multilingual Plane.
- `Forms.CompleteProfile`: the browser's time zone is reduced to whether it is west of Greenwich (`westOfUtc`). The form markup is not part of this model; the birth date is taken to arrive as a date-only "YYYY-MM-DD" string, as a date input gives it. The `birthdate` and `updated_at` columns are not modelled, and neither is `created_at` anywhere; a failed update (which shows an error toast) is not modelled, the row is returned as written.
- `Discovery.Session.LoadProfiles`: `currentUser.profile` being null, which makes the source throw into its error toast, is not modelled; the session always has a profile.
- `Age.AgeOn`: takes the calendar date. A birth date string that `Date` cannot parse is the `None` of `Forms.ProfileForm`, and it gives the `NaN` age that passes the `age < 18` guard. A `Some` that is not a calendar date is treated as `NaN` here too; how browsers parse such a string differs, and a date input never produces one.
- `Gesture.CardGesture`: coordinates are integer pixels, while `clientX` is a floating-point number; every threshold is a strict comparison with an integer, so the outcomes are the same on the integer points modelled.
- `TimeBuckets.FormatTime`: a timestamp in the future gives "Ahora" in the source and `Now` here; timestamps are integer milliseconds.

## Findings

| source | as written | input that shows it | evidently intended | confidence | as-written member | corrected member |
|---|---|---|---|---|---|---|
| app.js:611-669 | `startDrag` records `startX` but not `currentX`, and `endDrag` uses `currentX - startX`; a tap (press and release with no move) measures from `currentX`, 0 on a fresh card or the last position of an earlier drag | a tap at `clientX` = 300 on a fresh card: `diff` = 0 − 300 = −300 < −100, so the profile is disliked | a drag with no movement has no displacement and the card snaps back | not executed | `Gesture.TapOnFreshCard` (with `Gesture.CardGesture.StartDrag`) | `Gesture.TapOnFreshCardResetting`, `Gesture.TapResetting` (with `Gesture.CardGesture.StartDragResetting`) |
| app.js:978-989 | `new Date("YYYY-MM-DD")` is midnight UTC, while `getFullYear`/`getMonth`/`getDate` read local time; in León (UTC−6) the birth date is read as the previous day, so the age usually goes up a day early | born 2008-10-15, on 2026-10-14 the source computes 18 and accepts the profile, while the user is 17 | the age in whole years of the entered date, so that under-18 users are refused | not executed | `Age.AgeAsWritten`, `Age.AgeAsWrittenAdmitsSeventeen`, `Age.AgeAsWrittenEarly`, `Forms.CompleteProfile` (with `Forms.CompleteProfileAdmitsSeventeen`) | `Age.AgeOn`, `Forms.CompleteProfileCorrected` |
