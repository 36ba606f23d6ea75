# Product compliance status — a Dafny model

This project models the compliance core of the Odoo module
`sot_product_compliance_control`: how a product's checklist lines
("Test Reports", "Labeling", "Tracking on Item", each yes / no / n/a) and its
optional test and tracking dates give one of four statuses (`approved`,
`warning`, `not_approved`, `no_compliance`); how the stored pair
`compliance_status` / `previous_compliance_status` is updated and when a
degrade from `approved` to `not_approved` sends a notification; how the
recipient list of that notification is built; and which products the daily
cron job re-evaluates.

Modules, one per component of `models/product_compliance.py`:

- `Dates` — Python dates (years 1 to 9999), their comparison, and
  `relativedelta(months=±12)`: the month is kept, the year moves by one, and
  the day is clamped to the end of the month, which only changes 29 February.
- `Text` — ASCII `str.lower()`, `str.strip()` (Python's whitespace set),
  `str.split(',')` and `','.join(...)`, with the split/join round trips.
- `Compliance` — the evaluator as pure functions: the `compliance_dict` fold
  (last line wins), the three lookups defaulting to `no`, the five booleans
  and the priority-ordered decision table.
- `Transitions` — the stored status pair as a state machine, with the
  "fires once per approved → not_approved edge" property.
- `Notification` — the recipient list (setting entries, then group addresses
  not yet present) and the events one notification leaves behind.
- `Products` — `ProductTemplate` as a class whose methods overwrite the two
  status fields and append to an event log; the loop over a record set;
  the cron's selection and run.

Behaviour worth knowing, all as the code does it:

- The only failure of the evaluator: when both dates are set and the test
  date is in year 1 or 9999, `test_date ± relativedelta(months=12)` leaves the
  years a Python date holds and raises. The model returns
  `Failure(DateOutOfRange)`; the product's fields are then not written and the
  loop over the record set stops there.
- A product without lines gets `no_compliance` and skips the transition check,
  so `previous_compliance_status` keeps its old value. An approved product
  whose lines are all removed and then re-added with a failing status
  therefore notifies, although its displayed status went from
  `no_compliance` to `not_approved` (`Transitions.DegradeThroughNoCompliance`).
- Lines of other categories do not influence the decision, but a product with
  only such lines still has lines, so it is never `no_compliance`. Its
  tracking on item reads as `no`, so it is `not_approved` (or the evaluation
  fails on a date overflow), never `warning`
  (`Compliance.OnlyOtherCategoriesIsNotApproved`).
- The date window is anchored to the test date and the evaluator takes no
  clock, so elapsed time alone cannot change a status. The cron's docstring
  (`models/product_compliance.py` lines 214-218) says otherwise; the model
  follows the code.
- `warning` is given whenever tracking on item is yes or n/a and a tracking
  date is set, also to a product that was never approved
  (`Compliance.WarningWithoutApproval`); the manifest's description of
  `warning` as "previously approved but date range exceeded" does not match
  the code, and the model follows the code.
- Because of the clamp the window relation is not symmetric
  (`Dates.WindowIsNotSymmetric`).

## Model

| member | source | states |
|---|---|---|
| `Dates.NotAfterIsTotalOrder` | models/product_compliance.py:119 | Date comparison is a total order: reflexive, antisymmetric, transitive, total |
| `Dates.AddYears` | models/product_compliance.py:117-118 | ±12 months keeps the month, moves the year, fails outside years 1..9999, and changes the day only for 29 February in a non-leap target year (to 28) |
| `Dates.TwelveMonthWindow` | models/product_compliance.py:115-119 | Both bounds exist exactly when the test year is strictly between 1 and 9999; they are the test date minus and plus twelve months (`AddYears` by -1 and +1, with the 29 February clamp), lie one year either side and contain the test date |
| `Dates.WindowIsInclusive` | models/product_compliance.py:119 | For every test date whose window exists, both bounds are inside it, and the day before the lower bound and the day after the upper bound, where such days exist, are outside |
| `Dates.NextDayIsImmediate` | models/product_compliance.py:119 | No date lies strictly between a date and the next day, so "one day beyond the bound" is exact |
| `Dates.LeapDayClamps` | models/product_compliance.py:117-118 | 2024-02-29 ± 12 months is 2023-02-28 and 2025-02-28 |
| `Dates.WindowIsNotSymmetric` | models/product_compliance.py:116-119 | 2024-02-29 is outside the window of 2023-02-28 while 2023-02-28 is inside the window of 2024-02-29 |
| `Text.LowerIsIdempotent` | models/product_compliance.py:92 | Lower-casing twice is lower-casing once |
| `Text.StripSpec` | models/product_compliance.py:151 | `strip()` leaves no whitespace at either end and removes whitespace, and only whitespace, around the kept text |
| `Text.JoinSplit` | models/product_compliance.py:151 | Joining the pieces of `s.split(',')` with ',' gives back `s` |
| `Text.SplitJoin` | models/product_compliance.py:165 | Splitting the ','-join of comma-free pieces gives back the pieces |
| `Compliance.Key` | models/product_compliance.py:92 | A line with a type name is filed under the lower-cased name, one with an unset name under ''; keys are already lower case |
| `Compliance.CategoryMapKeys` | models/product_compliance.py:90-93 | A category is in `compliance_dict` exactly when some line is filed under it |
| `Compliance.LookupIsLastStatus` | models/product_compliance.py:90-98 | Looking a category up in the map (default `no`) gives the status of the last line filed under it |
| `Compliance.LastLineWins` | models/product_compliance.py:91-93 | When a category repeats, the last line's status is the one read |
| `Compliance.AbsentCategoryIsNo` | models/product_compliance.py:96-98 | A category no line is filed under reads as `no` |
| `Compliance.ChecklistIsLastStatuses` | models/product_compliance.py:96-98 | The three values read are the last statuses of "test reports", "labeling" and "tracking on item" |
| `Compliance.Decide` | models/product_compliance.py:100-128 | For a product with lines: fails exactly on a date overflow, never gives `no_compliance`, `approved` needs both dates, `warning` needs a tracking date and tracking yes/n/a |
| `Compliance.Evaluate` | models/product_compliance.py:84-128 | `no_compliance` exactly when there are no lines; failure exactly when there are lines and the window bounds cannot be computed |
| `Compliance.NoLinesIsNoCompliance` | models/product_compliance.py:85-87 | No lines gives `no_compliance` whatever the dates |
| `Compliance.ApprovedExactly` | models/product_compliance.py:105-123 | `approved` iff lines exist, test reports = yes, labeling and tracking in {yes, n/a}, both dates set and the tracking date inside the inclusive ±12-month window |
| `Compliance.WarningExactly` | models/product_compliance.py:124-126 | `warning` iff lines exist, no overflow, not approved, tracking in {yes, n/a} and a tracking date set |
| `Compliance.NotApprovedExactly` | models/product_compliance.py:127-128 | `not_approved` iff lines exist, no overflow, not approved, and tracking is `no` or the tracking date is unset |
| `Compliance.CaseInsensitive` | models/product_compliance.py:92 | Lines whose names differ only in ASCII case give the same status |
| `Compliance.OtherCategoriesAreInert` | models/product_compliance.py:96-98 | Two non-empty line lists with the same decisive lines give the same status |
| `Compliance.WarningWithoutTestDate` | models/product_compliance.py:124-126 | A missing test date does not block `warning` |
| `Compliance.DisplayNamesAreDecisive` | models/product_compliance.py:92-98 | "Test Reports", "TEST REPORTS", "Labeling", "Tracking on Item" lower-case to the three keys |
| `Compliance.ExampleChecklist` | models/product_compliance.py:90-98 | Lines yes/yes/n/a under the display names read as the checklist (yes, yes, n/a) |
| `Compliance.WorkedExample` | models/product_compliance.py:96-128 | Test 2024-01-15 with all categories met: tracking 2025-01-15 is `approved`, 2025-01-16 is `warning` |
| `Compliance.OnlyOtherCategoriesIsNotApproved` | models/product_compliance.py:96-128 | A product whose lines are all of other categories is `not_approved`, or fails on a date overflow; never `approved` or `warning` |
| `Compliance.WarningWithoutApproval` | models/product_compliance.py:124-126 | A product with only tracking = yes, a tracking date and no test date is `warning`, with no approval before |
| `Transitions.FiresExactly` | models/product_compliance.py:131-133 | The notifier fires iff there are lines, the new status is `not_approved`, and the previous status (or, when unset, the stored status) is `approved` |
| `Transitions.AfterWritesBothOrKeepsPrevious` | models/product_compliance.py:84-137 | With lines both fields become the new status; without lines the status becomes `no_compliance` and the previous status is kept |
| `Transitions.FirstEvaluationIsQuiet` | models/product_compliance.py:131 | With nothing stored there is no transition and no notification |
| `Transitions.RerunIsQuiet` | models/product_compliance.py:131-137 | Re-evaluating with the same result writes the same fields and never notifies |
| `Transitions.RememberedNonApprovedIsQuiet` | models/product_compliance.py:131-133 | When the previous status (or, when unset, the stored status) is not `approved`, no evaluation notifies |
| `Transitions.DegradeThroughNoCompliance` | models/product_compliance.py:85-137 | approved, then no lines, then `not_approved` notifies |
| `Transitions.PreviousStaysUnapproved` | models/product_compliance.py:131-137 | After a notification the previous status stays set and not `approved` until an evaluation with lines derives `approved` |
| `Transitions.OncePerEdge` | models/product_compliance.py:131-137 | Between two notifications of one product there is an evaluation that derived `approved` |
| `Notification.EntriesSpec` | models/product_compliance.py:151 | Each kept entry is stripped and non-empty and holds no character that no piece holds; every piece that strips to something non-empty is kept |
| `Notification.EntriesAppend` | models/product_compliance.py:151 | Entries keep the pieces' order: the entries of `a + b` are those of `a` followed by those of `b` |
| `Notification.SettingEntriesSpec` | models/product_compliance.py:147-151 | Setting entries are stripped, non-empty and free of commas, and every comma-separated piece that strips to something non-empty is one of them |
| `Notification.AddGroupEmailsSpec` | models/product_compliance.py:158-161 | The list built so far is a prefix; every appended address is non-empty, a group address and not already listed; every non-empty group address ends up listed |
| `Notification.AddGroupEmailsSnoc` | models/product_compliance.py:159-161 | Group members are taken in order: the last member's address is appended after all earlier ones' additions, exactly when non-empty and not yet listed |
| `Notification.NoDuplicatesPreserved` | models/product_compliance.py:160-161 | The group step never introduces a duplicate |
| `Notification.RecipientsSpec` | models/product_compliance.py:144-161 | Setting entries come first and in order; every non-empty stripped piece of the setting and every non-empty group address is a recipient; no recipient is empty |
| `Notification.RecipientsFollowGroupOrder` | models/product_compliance.py:158-161 | Adding a group member at the end appends its address after the others, if non-empty and not already listed |
| `Notification.EmailToRoundTrip` | models/product_compliance.py:164-165 | The joined `email_to` splits back into the recipient list when group addresses hold no comma |
| `Notification.NotificationEvents` | models/product_compliance.py:163-173 | Exactly one chatter note is always posted, last; exactly one e-mail, to the joined list, comes before it iff the list is non-empty, and there are no other events |
| `Notification.CollectRecipients` | models/product_compliance.py:144-161 | The extend-then-append loop builds exactly the recipient list; no entry is empty and every non-empty group address is in it |
| `Products.Product.SendNotification` | models/product_compliance.py:139-173 | The log grows by the notification events of the recipient list and ends with a chatter note |
| `Products.Product.Recompute` | models/product_compliance.py:84-137 | Succeeds iff the evaluation does; on failure nothing is written; on success the pair moves as the state machine says and a notification is logged iff it fires |
| `Products.BuildCategoryMap` | models/product_compliance.py:90-93 | The loop builds `compliance_dict`, whose lookups are the last status of each category |
| `Products.ComputeComplianceStatus` | models/product_compliance.py:83-137 | Each product is recomputed against its own stored pair; inputs are never written; on failure the products before the failing one are recomputed and the rest untouched |
| `Products.CronSelection` | models/product_compliance.py:219-223 | Exactly the products with at least one line and both dates are selected, without repeats |
| `Products.CronRecompute` | models/product_compliance.py:212-225 | Exactly the selected products are recomputed, the others untouched, and True is returned unless a selected product's evaluation fails |
| `Products.RecomputeTwiceIsRecomputeOnce` | models/product_compliance.py:130-137 | Evaluating twice with unchanged inputs leaves the product as one evaluation does: no second notification, and nothing written when the evaluation fails; only the stored pair and the log may change |

## Left out

- Odoo ORM machinery (`fields.*`, `@api.depends` triggers, `search`, `ensure_one`, `env.ref`, `ir.config_parameter`): the model takes plain inputs — the lines, optional dates, the setting as an optional string, and the group members' addresses, with '' for a user without one and an empty list when the group does not exist. The cron's search is modelled by its filter, `CronSelection`; the products it is given stand for the active (non-archived) product templates, since `search` also drops archived records. Field tracking of `compliance_status` (`tracking=True`) posts its own change messages in the mail thread; the model's log holds only what the notifier posts.
- Mail transport and templating (`_send_compliance_email`, `template.send_mail`, `mail.mail`, `message_post`, the HTML body, `%` formatting, `_()`): recorded as `EmailSent(emailTo)` and `ChatterNote` events; the choice between template and inline message and the message contents are not modelled.
- Transaction rollback: when a date overflow raises, Odoo rolls back the writes to earlier products of the batch; the model keeps them and says which product stopped the loop.
- Products.CronRecompute: on failure it states only that some selected product fails, not which selected products were already written; `ComputeComplianceStatus` states that part.
- Unicode case mapping: `str.lower()` is modelled on ASCII letters only; other characters are left as they are.
- Free-text fields (`notes`, `compliance_note`), the `active` flag and the unique-name constraint of compliance types, and `ResConfigSettings`: persistence declarations with no logic.
- Record sets with repeated records: the batch and the cron require distinct products, as `search` and the recompute triggers supply.
- Cron scheduling cadence and concurrent edit/cron races: scheduler and database concerns.
- `__manifest__.py`: static metadata.
