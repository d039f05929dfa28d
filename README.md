# Gym membership-status lifecycle

A Dafny model of the membership logic of a gym administration web application. The application exists in two near-identical variants, `gymManagement.py` and `gymStreamlit.py`. Both work on the same MySQL tables: `member`, `payment`, `classes` and `login`.

The model keeps those tables in one `Tables.Store` object:

- `members`: a map from member id to the row's columns. These are email, trainer id, scheme id, class id, payment id, last payment date and `membership_status`.
- `payments` and `classes`: sequences of rows in insertion order.
- `logins`: a map from email to login category.
- One AUTO_INCREMENT counter per table. After an insert, `LAST_INSERT_ID()` returns the counter's old value.

Each SQL statement of a workflow becomes an update of these fields. The workflows are module-level methods that take the store and name, in `modifies`, exactly the fields they may change.

`GymManagement` models the first variant:

- **`months_between`.** Calendar-month arithmetic that ignores the day of the month.
- **`update_member_status`.** It finds the latest payment date. It writes Inactive when there is no payment or when the gap is more than 15 months, and Active otherwise. The write happens even when nothing changes.
- **Login.** The member row is looked up by email and re-evaluated.
- **Class and workout tabs.** Both are gated on Active status. They show the assigned class, or else the trainer's earliest class dated on or after today.
- **Submit Payment.** It inserts a payment equal to the scheme fee, links it and makes the member Active.
- **Add Class.** The new class goes to the trainer's Active members only.
- **Add Member.** New members start Inactive. An email already in `login` is refused.

`GymStreamlit` models the second variant:

- There is no status evaluation.
- The class tab is not gated. Its fallback is the trainer's latest-dated class.
- A payment of at least 100 is only linked to the member.
- A new class goes to every member of the trainer.
- A new member's status is whatever the column's default is. The model takes that default as a parameter.
- A height of 0 makes Add Member fail with a division by zero before anything is inserted.

`Variants` states where the two variants agree and where they differ, over the same tables.

"Today" is always a parameter. The dates stored and compared are `(year, month, day)` values, ordered year, then month, then day.

Two consequences of the first variant's code are worth stating:

- Passive evaluation also promotes. gymManagement.py:39-43 writes Active whenever the gap is at most 15 months, whatever the stored status was (`PassiveEvaluationPromotes`).
- The payment handler writes Active itself (gymManagement.py:294). The next page load re-evaluates (gymManagement.py:103), and both give the same status (`PayThenReevaluate`).

## Model

| member | source | states |
|---|---|---|
| `GymManagement.MonthsBetween` | gymManagement.py:23-25 | The month count equals the difference of the two dates' absolute month numbers (year*12 + month) |
| `GymManagement.MonthsBetweenIgnoresDay` | gymManagement.py:25 | Changing either date's day of month leaves the count unchanged |
| `GymManagement.MonthEndToNextMonthStart` | gymManagement.py:25 | Jan 31 to Feb 1 and Dec 31 to Jan 1 each count as one month |
| `GymManagement.MonthsBetweenFollowsOrder` | gymManagement.py:24-25 | For valid dates the count is >= 0 when d1 <= d2 and <= 0 when d2 <= d1; a negative count means d1 is after d2 |
| `GymManagement.MonthsBetweenCanBeNegative` | gymManagement.py:24 | Nothing enforces "d2 >= d1": a second date two months earlier gives -2 |
| `GymManagement.LatestPaymentDate` | gymManagement.py:29-30 | None exactly when the member has no payment; otherwise the date of one of the member's payments that is >= every payment date of that member |
| `GymManagement.Evaluate` | gymManagement.py:32-48 | Returns the member's latest payment date, and a status that is Active or Inactive, Active exactly when there is a latest payment at most 15 months old |
| `GymManagement.WithStatus` | gymManagement.py:36-46 | The status UPDATE keeps the same keys, changes only that member's status, and matches nothing for an unknown id |
| `GymManagement.UpdateMemberStatus` | gymManagement.py:28-48 | Returns the pair `Evaluate` gives for the current payments, writes that status to that member only; payments, classes, logins and counters are untouched (frame) |
| `GymManagement.NoPaymentIsInactive` | gymManagement.py:44-48 | With no payment for the member the result is (Inactive, None) |
| `GymManagement.LapseBoundary` | gymManagement.py:34-43 | A gap of exactly 15 gives Active, 16 gives Inactive, a negative gap gives Active; the latest payment's date is returned in each case |
| `GymManagement.LatestIgnoresOtherMembers` | gymManagement.py:29 | A payment appended for another member does not change this member's latest payment date |
| `GymManagement.LatestAfterOwnPayment` | gymManagement.py:29 | A payment appended for the member becomes its latest date unless an earlier row is dated on or after it |
| `GymManagement.PaidTodayIsActive` | gymManagement.py:280-296 | With valid dates, re-evaluating on the day of a payment yields Active whatever came before |
| `GymManagement.StatusWriteIsIdempotent` | gymManagement.py:36-46 | Writing any status a second time leaves the member table as the first write left it |
| `GymManagement.ReevaluateTwice` | gymManagement.py:102-103 | Two evaluations on the same day return the same pair and leave the same state as one |
| `GymManagement.PassiveEvaluationPromotes` | gymManagement.py:39-43 | A member stored Inactive with a payment 2 months old becomes Active on evaluation |
| `GymManagement.StatusScenarios` | gymManagement.py:32-48 | Gap 5 gives Active, gap 17 gives Inactive, no own payment gives (Inactive, None), Jan 31 to Feb 1 gives Active |
| `GymManagement.Login` | gymManagement.py:92-106 | Fails with MemberNotFound, changing nothing, exactly when no member row has the email; otherwise re-evaluates a member with that email as `UpdateMemberStatus` does |
| `Tables.ClassById` | gymManagement.py:195-200 | None exactly when no class has the id; otherwise a class of the table with that id |
| `Tables.ClassByIdFindsUnique` | gymManagement.py:195-200 | With increasing class ids, looking up a stored class's id finds that very row |
| `GymManagement.SelectedClass` | gymManagement.py:195-208 | For a member with a class id, the class with that id, or None only when no class has it; otherwise the trainer's class of least date on or after today, or None only when the trainer has none |
| `GymManagement.EarliestUpcoming` | gymManagement.py:203-208 | None exactly when the trainer has no class dated on or after today; otherwise such a class whose date is <= every other such class's date |
| `GymManagement.ClassView` | gymManagement.py:189-215 | Warning exactly when the member is not Active; otherwise the assigned class (id match), or else the trainer's earliest class from today on, and "no class" only when the chosen lookup finds none |
| `GymManagement.WorkoutPlan` | gymManagement.py:217-248 | Gated exactly when the class tab is; shows a workout exactly when the class tab shows a class, and it is that class's workout |
| `GymManagement.RecordPayment` | gymManagement.py:293-295 | Only the paying member's row changes: payment id, last payment date today, status Active; all its other columns and all other rows stay |
| `GymManagement.SubmitPayment` | gymManagement.py:272-296 | Without a nonzero scheme fee: NoSchemeFee and nothing changes; otherwise appends (fresh id, member, fee, today, method), advances the payment counter and applies `RecordPayment` |
| `GymManagement.PayThenReevaluate` | gymManagement.py:293-296 | After a successful payment, re-evaluation on the same day yields Active, matching the status the payment wrote |
| `GymManagement.AddClass` | gymManagement.py:372-386 | Appends the class with a fresh id from the class counter and sets that class id on the trainer's Active members only |
| `GymManagement.ScheduleReachesActiveOnly` | gymManagement.py:383-385 | Exactly the trainer's Active members get the new class id; no other column and no other member changes |
| `GymManagement.AddMember` | gymManagement.py:511-524 | A registered email yields EmailExists and nothing changes; otherwise adds a Member login and, under a fresh id, an Inactive row with no class, payment id or payment date |
| `GymManagement.NewMemberIsGated` | gymManagement.py:517-522 | A freshly added member sees the inactive warnings in both the class and the workout tab |
| `GymStreamlit.LatestClass` | gymStreamlit.py:139-145 | None exactly when the trainer has no class; otherwise one of its classes whose date is >= every other class of the trainer |
| `GymStreamlit.ClassView` | gymStreamlit.py:129-152 | Never gated; the assigned class (id match), or else the trainer's latest-dated class with no date filter, and "no class" only when the chosen lookup finds none |
| `GymStreamlit.LinkPayment` | gymStreamlit.py:217-218 | Only the paying member's payment id changes; its status and every other column and row stay |
| `GymStreamlit.SubmitPayment` | gymStreamlit.py:198-219 | For an amount >= 100, appends (fresh id, member, amount, today, method), advances the payment counter and applies `LinkPayment` |
| `GymStreamlit.AddClass` | gymStreamlit.py:285-303 | Appends the class with a fresh id and sets that class id on every member of the trainer |
| `GymStreamlit.ScheduleReachesAllOfTrainer` | gymStreamlit.py:296-298 | Every member of the trainer gets the class id regardless of status; members of other trainers are unchanged |
| `GymStreamlit.AddMember` | gymStreamlit.py:418-428 | A height of 0 yields ZeroHeight and nothing changes; a registered email yields EmailExists and nothing changes; otherwise adds a Member login and, under a fresh id, a row with the status column's default and no class, payment id or payment date |
| `Variants.ScheduleTargetsNest` | gymStreamlit.py:296-298 | The first variant's scheduled members are a subset of the second's; the difference is exactly the trainer's members that are not Active |
| `Variants.ScheduledTablesDiffer` | gymManagement.py:383-385 | After scheduling, the two variants' member tables agree on every row except the trainer's non-Active members, who get the class only in the second |
| `Variants.PaymentEffectsDiffer` | gymStreamlit.py:217-218 | Both variants link the payment id; only the first sets today's date and Active; other rows are the same in both |
| `Variants.SecondVariantLeavesStatusStale` | gymStreamlit.py:206-219 | In the second variant an Inactive member stays Inactive after paying today, while the first variant's rule gives Active and its payment writes exactly that |
| `Variants.ClassViewsAgreeOnAssignedClass` | gymStreamlit.py:132-137 | An Active member with an assigned class sees the same view in both variants |
| `Variants.ClassViewsDifferOnInactive` | gymManagement.py:192-193 | A non-Active member without a class gets the warning in the first variant but a class in the second whenever the trainer has one |
| `Variants.FallbackClassesDiffer` | gymStreamlit.py:139-145 | With past, next and later classes, the first variant shows the next class and the second the latest; with only a past class the first shows none and the second shows it |
| `Variants.NewMembersDifferInStatusOnly` | gymStreamlit.py:425-426 | New rows of the two variants differ only in the status column; they are equal exactly when the second variant's default status is Inactive, and that row passes the first variant's class gate exactly when the default is Active |

## Left out

- Page rendering, tabs, forms, buttons, `st.rerun`/`st.stop` and the session-state login flags are user interface, not logic.
- The MySQL connection, credentials, `commit` and `close` are I/O. Each statement is an update of the store, and a store that rejects a write is not modelled.
- Exceptions that are only displayed are left out. The refusals the code makes itself (unknown email at login, email already registered, no scheme fee), and the division by zero that aborts the second variant's Add Member, are `Result` failures.
- The password check against `login` is plaintext equality, and passwords are not stored. `logins` keeps only the category.
- The joins with `workouts` and `equipment` are left out. The model assumes every class's workout row exists. A class whose workout or equipment row is missing would be skipped by the SQL join but is shown by the model.
- Ties between classes, or payments, with the same date are settled by table order. SQL `LIMIT 1` may pick any one of them. For payments only the date is returned, so a tie makes no difference there.
- In the database `payment_date` could be NULL, which the code checks with `row[0] is not None`. Every payment in the model has a date.
- The scheme fee lookup is a parameter of `GymManagement.SubmitPayment`. The amount equal to `int(scheme_fee)` is a precondition, and floating-point fees are not modelled.
- `GymStreamlit.SubmitPayment`: the only input bound modelled is the widget's `min_value=100`. `step=50` only sets the widget's increment and does not limit typed values.
- `GymStreamlit.AddMember`: the status column of the new row gets the table's default. The code does not show it, so it is a parameter, with `Unset` standing for NULL.
- `GymManagement.Login`, `GymManagement.AddMember`, `GymStreamlit.AddMember`: emails are compared by exact string equality. The SQL `=` at gymManagement.py:94, gymManagement.py:513 and gymStreamlit.py:420 compares with the column's collation, and MySQL's default collations ignore letter case (the older PAD SPACE ones also ignore trailing spaces). So with "a@gym" registered, the application refuses "A@gym", but the model accepts it.
- The Trainer id and Membership id fields of Add Member are text inputs. They are modelled as integers.
- The BMI value is floating-point arithmetic and is not stored in the model. Only its failure is modelled: gymStreamlit.py:419 raises a division by zero for a height of 0, the form's default, before the email check, so nothing is inserted (`ZeroHeight`). A nonzero height so small that its square underflows to 0 fails the same way in floating point, which the model does not capture. gymManagement.py:512 guards the division and does not fail.
- The generic admin update/delete pages, the View pages, trainer salary and workout CRUD are single-row passthroughs with no rule.
- The second variant's workout tab (gymStreamlit.py:155-183) is not modelled. It makes the same selection as that variant's class tab.
- Concurrency is not modelled. Each workflow runs to completion, as in the application.
