# Leave management: verified model

A Dafny model of the leave management service, with proofs of what its workflow,
ledger, calendar, equipment pool and notification dispatcher keep over every run.
`dafny verify dfyconfig.toml` checks it.

The leave system is one sequential state machine (`LeaveSystem`): an event is one
request, a refused request changes nothing, and the theorems speak of every run
from an empty installation. `LeaveDesk.Desk` is the same system as an object whose
methods follow the services statement by statement, with their loops over arrays
and tables; each method is proved to take the state exactly one step of the state
machine, and a desk is valid when its tables are those of some run.

| files | what they hold |
|---|---|
| `Basics`, `Totals` | optional values, roles and their seniority; sums of lists |
| `ApprovalLog`, `LogFrontier` | the approval log, rewritten in place; the frontier that cuts it in every state |
| `ApprovalFlow` | the validator of configured flows and the generation of logs |
| `LeaveRecord` | one leave: guards, actions, cancellation, the statements it issues |
| `Calendar`, `Months`, `Payroll`, `LeaveReport` | working days, figures taken month by month, the payroll loop, the report |
| `Books`, `BooksLaws`, `OfficeLoops` | staff, types, flows, balance rows and journals; what every office operation keeps; its loops |
| `LeaveSystem` | validation, the step relation, runs |
| `ActingLaws`, `AdmissionLaws`, `EntitlementLaws` | who may act, what is admitted and what is due, told on the tables alone |
| `WorkflowLaws`, `ChargeLaws`, `ProgressLaws`, `LedgerLaws`, `ReservationLaws`, `OpeningLaws` | the laws over all runs |
| `Scenarios` | concrete runs for what is false |
| `Accrual`, `AccrualLaws` | the accrual job with a fault for any pair; what it credits and counts |
| `LeaveDesk` | the class |
| `Equipment`, `EquipmentLaws`, `EquipmentEffects`, `Warehouse` | the pool and assignment rows; their accounting; what each request does to them; the class with its constraint checks |
| `Dispatcher`, `DispatcherLaws` | the dispatcher as interleaved steps, and the retry loop |

## What turned out to be false

Each item names a concrete run, or a concrete input of a function, and the exact
condition under which the law holds.

- A rejected or cancelled leave can stay charged. REJECT looks only at the actor's
  stage and cancellation accepts WITHDRAWAL_PENDING, so either may cut a withdrawal
  short without a refund (`Scenarios.RejectedButCharged`, `Scenarios.CancelledButCharged`).
  `ChargeLaws.ChargedExactly` says which leaves are charged.
- Withdrawals need not end. The guard lets a role that has withdrawn withdraw again, any
  number of times (`Scenarios.WithdrawnWithoutEnd`). `ProgressLaws.WithdrawalsOfRun`: the
  accepted withdrawals of a run are exactly its WITHDRAWN entries and its repetitions, so
  without repetitions they are at most the entries of the log.
- `used` can differ from the charged leaves. An edit can move a leave to a type for
  which the employee has no balance row (the edited leave's own days are added to the
  balance that is compared), and the debit of the final approval then updates nothing
  (`Scenarios.LedgerCanDisagree`). `LedgerLaws.LedgerEqualsHistory` is the exact law.
- A pending leave can overdraw its balance: after an edit, for the same reason, and after
  an office operation, because these lower balances without looking at pending leaves
  (`Scenarios.EditOverdraws`, `Scenarios.AdjustmentOverdraws`).
  `ReservationLaws.RunsReserveExactly` gives the condition to ask before each event.
- Equipment that was shared while it was out and is counted again, or that was resized
  below what is out, cannot be returned, and its holder cannot be deactivated
  (`EquipmentLaws.SharedAndBackStrands`, `EquipmentLaws.ResizedBelowStrands`).
  `EquipmentLaws.ReturnAccepted` is the exact condition of a return.
- An opening need not be the one its definition gives: an adjustment makes a missing row
  with the whole entitlement, the accrual job one with nothing (`Scenarios.AccruedOpening`),
  and so it stays until something recalculates the row. `OpeningLaws.OpeningsEqualDefinition` is the exact law.
- Payroll counts a half-day leave of several days twice (`Payroll.HalfDaysCountTwice`,
  `Payroll.GregorianMonthsCountBookedDays`).
- A cancelled context can leave events in the channel: every dispatcher has a run that
  does (`DispatcherLaws.CancelStrands`), in which all its workers quit; with one worker
  that returned otherwise the channel is empty (`DispatcherLaws.RestIsEmptyUnlessAllQuit`).

Where the code and its documentation differ, the model follows the code:
`schema_folder/schema.sql:165` adds accruals to the closing balance, the statements do
not; the rules in `internal/service/leave/leaveprocess/withdraw.go:44-53` ask for the
actor's stage to be APPROVED or WAITING and for higher stages to withdraw first, no
guard does; `pkg/notification/service.go:47-49` names a default for MaxRetries, none is
set, and below 1 nothing is delivered (`DispatcherLaws.NoRetriesNoDelivery`); `internal/repositories/repo.go:118-119` says that all assignments are removed, the
loop removes one per equipment; the flow in `schema_folder/schema.sql:364-369` would be
refused by the validator.

## Model

| member | source | states |
|---|---|---|
| ApprovalLog.FindStage | internal/service/leave/leaveprocess/process.go:86-93 | the first entry of the role, or none |
| ApprovalLog.StampStage | internal/service/leave/leaveprocess/process.go:143-149 | only the acting entry changes: its state and its stamp |
| ApprovalLog.SkipStages | internal/service/leave/leaveprocess/process.go:97-114 | in place, exactly the waiting entries of lower stages and of other roles of the same stage become SKIPPED |
| ApprovalLog.SkipAllWaitingStages | internal/service/leave/leaveprocess/process.go:115-124 | in place, every waiting entry becomes SKIPPED, whatever the stage number |
| ApprovalLog.ResetLogForWithdraw | internal/service/leave/leaveprocess/process.go:158-174 | in place, all but the actor and WITHDRAWN entries become SKIPPED up to the actor's stage and WAITING above |
| ApprovalLog.AllStagesSettled | internal/service/leave/leaveprocess/process.go:128-135 | true exactly when every entry is APPROVED or SKIPPED |
| ApprovalLog.AllStagesSettledForWithdraw | internal/service/leave/leaveprocess/process.go:177-184 | true exactly when every entry is WITHDRAWN or SKIPPED |
| LogFrontier.ApproveAdvances | internal/service/leave/leaveprocess/approved.go:17-37 | an approval by a waiting role moves the frontier strictly up to its stage, and settles the log exactly when that is the maximum stage |
| LogFrontier.ApprovalsBounded | internal/service/leave/leaveprocess/approved.go:15-52 | no sequence of approvals is longer than the number of distinct stages above the frontier |
| LogFrontier.WithdrawMoves | internal/service/leave/leaveprocess/withdraw.go:59-83 | a withdrawal by any role, whatever its state, puts the frontier at its stage, settles the log exactly from the maximum stage, and keeps WITHDRAWN entries |
| LogFrontier.ConfirmationsBounded | internal/service/leave/leaveprocess/withdraw.go:44-53 | under the documented rule that actors are WAITING, confirmations are bounded by the distinct stages above the frontier |
| LogFrontier.WithdrawAdds | internal/service/leave/leaveprocess/process.go:158-174 | a withdrawal by any role adds exactly its own entry to the WITHDRAWN ones, so it makes progress exactly when that entry had not withdrawn |
| LogFrontier.WithdrawalsCounted | internal/service/leave/leaveflow/leaveFlow.go:564-570 | any list of withdrawals the guard lets through is as long as its progress plus its repetitions; without repetitions, and only then, it equals the progress, and is no longer than the log |
| LogFrontier.RepeatedWithdrawalStalls | internal/service/leave/leaveflow/leaveFlow.go:564-570 | an immediate repetition by the same role changes no state at all |
| ProgressLaws.WithdrawalsOfRun | internal/service/leave/leaveflow/leaveFlow.go:564-570 | over every run, accepted withdrawals of a leave = WITHDRAWN entries of its log + repetitions, whatever happens in between |
| ProgressLaws.ApprovalsOfRun | internal/service/leave/leaveprocess/approved.go:15-52 | over every run, accepted approvals of a leave since its log was last generated are at most its distinct stage numbers, and while it is pending exactly its approved stages |
| ProgressLaws.FrontiersOfRun | internal/service/leave/leaveprocess/withdraw.go:57-100 | over every run, the log of a pending leave is cut at the stage of its last approval, that of a leave whose withdrawal is pending at the stage of its last withdrawal |
| ApprovalFlow.CollectStages | internal/service/leaveApprovalFlow.go:141-170 | the first loop accepts exactly flows of known, distinct roles with positive stages, tabulates them, and names the first fault truly |
| ApprovalFlow.CheckHierarchy | internal/service/leaveApprovalFlow.go:172-203 | the nested loops find a pair of the hierarchy out of order exactly if there is one |
| ApprovalFlow.AllowToCreateLeaveApprovalFlow | internal/service/leaveApprovalFlow.go:131-206 | accepted exactly when nonempty, clean and monotone in MANAGER, HR, ADMIN, SUPERADMIN; any refusal is explained truly |
| ApprovalFlow.GenerateApprovalLog | internal/service/leaveLogFlow.go:125-149 | the loop yields the generated log of the flow, or none without a flow |
| ApprovalFlow.GenerateSelects | internal/service/leaveLogFlow.go:135-146 | an entry is in the log exactly if the flow has it and its role outranks the applicant; all wait |
| ApprovalFlow.GenerateConcat | internal/service/leaveLogFlow.go:135-146 | generation distributes over concatenation, so the log keeps the order of the flow |
| ApprovalFlow.Seniority | internal/service/leaveLogFlow.go:33-44 | the order of the roles; a string that names none is below all |
| ApprovalFlow.GenerateUnique | internal/service/leaveLogFlow.go:135-146 | the log of an accepted flow has every role once and positive stages |
| ApprovalFlow.GenerateKeepsLastStage | internal/service/leaveLogFlow.go:125-149 | a nonempty log of an accepted flow has the flow's maximum stage, and nothing above it |
| ApprovalFlow.ShippedFlows | migration/20260616111650_tbl_leave_approver_flow.sql:16-31 | the migration's default flow is valid, the reference schema's is not |
| LeaveRecord.ApproveKeeps | internal/service/leave/leaveprocess/approved.go:15-52 | an accepted APPROVE keeps log and status consistent and makes the leave APPROVED exactly when the actor is at the maximum stage |
| LeaveRecord.RejectKeeps | internal/service/leave/leaveprocess/reject.go:15-40 | an accepted REJECT comes from Pending, WITHDRAWAL_PENDING or CANCELLED, ends in REJECTED with nothing waiting, and keeps the trace of a begun withdrawal |
| LeaveRecord.WithdrawKeeps | internal/service/leave/leaveprocess/withdraw.go:57-100 | an accepted WITHDRAW ends in WITHDRAWN exactly when the actor is at the maximum stage, else in WITHDRAWAL_PENDING with the withdrawal frontier at exactly the actor's stage |
| LeaveRecord.CancelKeeps | internal/service/leave/leaveflow/leaveFlow.go:197-213 | cancellation keeps the invariant, from Pending, WITHDRAWAL_PENDING or WITHDRAWN |
| LeaveRecord.ActPosts | internal/service/leave/leaveprocess/approved.go:44-49 | an action issues exactly the statements that take the leave from the history of its old shape to that of its new one |
| LeaveRecord.StrandedByReject | internal/service/leave/leaveflow/leaveFlow.go:556-562 | an action strands a charge exactly when it is a REJECT of a leave in WITHDRAWAL_PENDING |
| LeaveRecord.StrandedByCancel | internal/service/leave/leaveflow/leaveFlow.go:205-213 | a cancellation strands a charge exactly from WITHDRAWAL_PENDING |
| LeaveRecord.ActAges | internal/service/leave/leaveflow/leaveFlow.go:523-574 | statuses only advance; APPROVED comes from Pending only; what leaves Pending or APPROVED never re-enters them |
| ActingLaws.ActsExactly | internal/service/leave/leaveflow/leaveFlow.go:126-173 | an action is accepted exactly from an employee other than the applicant whose role has an entry that the action allows; otherwise nothing changes |
| ActingLaws.OwnLeaveUntouched | internal/service/leave/leaveflow/leaveFlow.go:131-133 | no action by the applicant changes anything |
| ActingLaws.RefusalIsTrue | internal/service/leave/leaveflow/leaveFlow.go:523-574 | the reason of each refusal is true of the leave |
| ActingLaws.CancelExactly | internal/service/leave/leaveflow/leaveFlow.go:197-213 | cancelled exactly from Pending, WITHDRAWAL_PENDING and WITHDRAWN, and nothing but the status changes |
| ActingLaws.ActMarks | internal/service/leave/leaveprocess/process.go:143-149 | an accepted action marks and stamps the entry of its role and no other, and makes the actor the approver, except by an approval that is not the last |
| ActingLaws.StampsComeFromActs | internal/service/leave/leaveflow/leaveFlow.go:126-173 | over every run each stamp was left by an accepted action of that actor in that role, and the approver is the actor of one |
| ActingLaws.NobodyDecidesOwnLeave | internal/service/leave/leaveflow/leaveFlow.go:131-133 | over every run no stamp of a leave, and no approver, is the applicant |
| AdmissionLaws.UnpaidExactly | internal/service/common.go:20-66 | unpaid leave only when the closings of paid types that are not early sum to at most 0 and no such request of this year is pending |
| AdmissionLaws.AdmittedExactly | internal/service/leave/leaveflow/leaveValidation.go:204-277 | a request is accepted exactly if it is admissible: its fields, the unpaid rule, balance beside pending days, one early leave a month, no shared day; and for the working days it books, halved for half a day |
| AdmissionLaws.AppliedExactly | internal/service/leave/leaveflow/leaveFlow.go:65-124 | an application is taken exactly if admissible; it is the last leave, pending, and its log holds exactly the stages of its type's flow whose role outranks the applicant |
| AdmissionLaws.EditedExactly | internal/service/leave/leaveflow/leaveFlow.go:303-368 | an edit is taken exactly from the applicant of a pending leave and if admissible; the log is drawn anew for an EMPLOYEE, unless nobody would decide |
| Calendar.MonthLength | internal/service/common.go:151-154 | every month has its length in the Gregorian calendar, and day 1 is the first of year 1 |
| Calendar.Weeks | internal/service/common.go:94-101 | Saturdays and Sundays are the weekend, counted from a known Monday |
| Calendar.MonthOfUnique | internal/repositories/leave.go:208-209 | the month found for a day is the only one that holds it |
| Calendar.WorkDaysCounts | internal/service/common.go:91-111 | the count is the number of days of the range that are neither weekend nor holiday |
| Calendar.WorkDaysSplit | internal/service/common.go:91-111 | the count is additive over adjoining ranges |
| Calendar.CalculateWorkingDays | internal/service/common.go:69-112 | the day loop returns that count, and fails exactly on a range the wrong way round |
| Calendar.CalculateWorkingDaysWithTiming | internal/service/common.go:117-143 | half days count half, a clock time overrides that, an unknown timing fails |
| Months.MonthsPartition | internal/service/common.go:207-239 | for any month starts and any additive count, consecutive months share out the count of their range |
| Months.RangeIsSum | internal/repositories/leaveReport.go:88-139 | a figure proportional to such a count is, over a range, the sum of its monthly figures |
| Payroll.DaysInMonth | internal/service/common.go:208-231 | the clamped day loop of one leave yields its shared working days, each worth a day or the booked half day |
| Payroll.CalculateAbsentDaysForMonth | internal/service/common.go:151-242 | paid and unpaid days are the sums over approved leaves that are not early; early leaves are summed whole |
| Payroll.SummaryIsTotal | internal/service/common.go:160-242 | leave by leave: an approved leave of the kind counts its missed working days in the month, whole unless a single half day; an early one its booked days in a month it touches; others nothing |
| Payroll.MonthsCountBookedDays | internal/service/common.go:208-239 | for any month starts, the months of a leave sum to its booked days, or to twice them for a half-day leave of several days |
| Payroll.HalfDaysCountTwice | internal/service/common.go:226-230 | a half-day leave on two working days, booked for one day, is counted for two |
| Payroll.GregorianMonthsCountBookedDays | internal/service/common.go:208-239 | the same for the calendar's months from the leave's first to its last |
| LeaveReport.ProratedIsShare | internal/repositories/leaveReport.go:121-139 | every case of the proration is the overlapping working days at the leave's daily rate |
| LeaveReport.ShareInProportion | internal/repositories/leaveReport.go:88-139 | the share of an approved leave is to its days as its missed days in the window are to all of them; otherwise 0 |
| LeaveReport.RangeIsSumOfMonths | internal/repositories/leaveReport.go:88-139 | a leave's share of a range is the sum of its monthly shares |
| LeaveReport.SharesAddUp | internal/repositories/leaveReport.go:88-139 | over months that cover a leave the shares sum to its days, to 0 if it has no working day |
| LeaveReport.ReportAgreesWithPayroll | internal/repositories/leaveReport.go:121-139 | for full-day leaves each window's share equals the payroll loop's count |
| LeaveReport.ColumnsBalance | internal/repositories/leaveReport.go:225-274 | total = paid + unpaid + early and used = paid + unpaid |
| LeaveReport.ColumnIsTotal | internal/repositories/leaveReport.go:225-274 | every column is the sum of the shares of its kind of leaves: paid, unpaid, early, used, all |
| LeaveReport.RangeReportIsSum | internal/repositories/leaveReport.go:225-274 | in every leave column a range report is the sum of its monthly reports |
| LeaveReport.AccruedRangeIsSum | internal/repositories/leaveReport.go:169-202 | the accrued column of a range is the sum of its months |
| LeaveReport.AccruedIsTotal | internal/repositories/leaveReport.go:169-202 | the accrued column is the sum of the employee's credits in the months of the range |
| LeaveReport.AccrualWindow | internal/repositories/leaveReport.go:179-198 | for a range in order the three-way condition selects exactly the months from first to last |
| Books.ProrationsAgree | internal/service/common.go:307-320 | the two proration functions agree exactly on months 1 to 12 (or an entitlement of 0); what they compute there is EntitlementLaws.ProratedExactly |
| OfficeLoops.AllocateForHire | internal/handler/employee.go:168-188 | the loop adds exactly one row per type that is not early, which opens and closes with what is due |
| OfficeLoops.AllocateForPolicy | internal/repositories/leaveBalance.go:310-327 | the loop adds exactly one row per active employee which opens and closes with what is due, none for an early type |
| OfficeLoops.ReopenType | internal/repositories/leaveBalance.go:181-260 | one pass reopens exactly the current rows of the type for interns, or for everybody else |
| OfficeLoops.ReopenPolicy | internal/service/leavePolicy.go:184-206 | both passes give every affected row the opening of its new definition and leave all others |
| OfficeLoops.ReopenTypes | internal/repositories/leaveBalance.go:337-362 | the pass over the types reopens exactly the employee's current rows of types that are not early |
| OfficeLoops.ReopenStaff | internal/repositories/leaveBalance.go:271-304 | after a change of role or date those rows have the opening of the new definition |
| OfficeLoops.AdjustRow | internal/handler/leaveBalance.go:146-185 | the row is made with the entitlement if missing and adjusted, closing following |
| BooksLaws.PerformKeeps | internal/repositories/leaveBalance.go:126-382 | every office operation keeps closing = opening - used + adjusted, both journals, valid flows, unique credits and openings equal to their definition |
| BooksLaws.StatementsKeep | internal/repositories/leaveBalance.go:160-169 | so do the debit and the refund |
| BooksLaws.PerformKeepsUsed | internal/repositories/leaveBalance.go:126-382 | no office operation changes used days, forgets a row or changes an early flag; new rows start unused |
| BooksLaws.ChangeRoleKeeps | internal/repositories/leaveBalance.go:271-304 | also with the early return when neither role is INTERN |
| BooksLaws.AccrueKeeps | internal/repositories/leaveAccrual.go:72-112 | a credit changes accrued and its journal only |
| EntitlementLaws.ProratedExactly | internal/repositories/leaveBalance.go:374-382 | the proration is the whole part of the share of the months from the joining month on; January gives everything |
| EntitlementLaws.ProratedFalls | internal/service/common.go:307-320 | who joins later in the year gets no more |
| EntitlementLaws.OpeningIsDue | internal/repositories/leaveBalance.go:310-327 | an opening is the entitlement, the interns' own if the type names one, prorated exactly if the joining date is in the year |
| EntitlementLaws.HireExactly | internal/handler/employee.go:157-190 | hiring adds the employee, one row per type that is not early, opening with what is due, and changes nothing else |
| EntitlementLaws.CreatePolicyExactly | internal/service/leavePolicy.go:52-99 | a new type is stored, with the shipped flow by default, and gives each active employee a row with what is due, none if early |
| EntitlementLaws.UpdatePolicyExactly | internal/service/leavePolicy.go:168-210 | an update recalculates this year's rows of the type, only interns' if early: opening due, closing with it, nothing else |
| EntitlementLaws.ChangeRoleExactly | internal/repositories/leaveBalance.go:271-304 | a new role is stored and recalculates the employee's rows of types that are not early exactly if an intern is involved |
| EntitlementLaws.ChangeJoiningExactly | internal/repositories/leaveBalance.go:337-362 | a new joining date is stored and recalculates those rows |
| EntitlementLaws.AdjustExactly | internal/handler/leaveBalance.go:146-192 | an adjustment moves adjusted and closing by the quantity, after making a missing row with the whole entitlement, and is entered in the journal |
| EntitlementLaws.OthersExactly | internal/repositories/leaveApprovalFlow.go:102-133 | what (de)activation and the flow operations change |
| OpeningLaws.OpeningsEqualDefinition | internal/repositories/leaveBalance.go:171-382 | on every run, a current row of a type that is not early has the opening that is due now by role, entitlement and joining date; or, if an adjustment or an accrual made it and no policy, role or date change has recalculated it since, exactly the one it was made with |
| WorkflowLaws.StepKeeps | internal/service/leave/leaveflow/leaveFlow.go:65-368 | every event keeps the system invariant |
| WorkflowLaws.RunKeeps | internal/service/leave/leaveflow/leaveFlow.go:65-368 | on every run each log fits its status and frontier, each leave's statements are those of its shape, active leaves of an employee share no day, early leaves no type and month, and the books are in order |
| WorkflowLaws.GeneratedLogOk | internal/service/leaveLogFlow.go:45-57 | logs generated from stored flows start pending with an empty frontier |
| WorkflowLaws.EditKeepsLeaves | internal/service/leave/leaveflow/leaveFlow.go:303-368 | edits that regenerate the log, or keep it because the new one is empty, preserve the frontier |
| WorkflowLaws.ApplyKeepsApart | internal/service/leave/leaveflow/leaveValidation.go:204-276 | an accepted request shares no day with active leaves, and an early one no month with active leaves of its type |
| WorkflowLaws.EditKeepsApart | internal/repositories/leave.go:103-143 | neither does an accepted edit |
| ChargeLaws.PostedOnce | internal/repositories/leaveFlow.go:366-398 | on every run a leave has issued nothing, one debit, or one debit and then one refund, of the days and bucket it still has; early leaves nothing |
| ChargeLaws.StepPosts | internal/service/leave/leaveprocess/withdraw.go:85-97 | a debit is issued exactly on becoming APPROVED, a refund exactly on becoming WITHDRAWN, nothing on any other event |
| ChargeLaws.ChargedExactly | internal/service/leave/leaveflow/leaveFlow.go:197-213 | a leave that is not early is charged exactly when APPROVED or WITHDRAWAL_PENDING, or rejected or cancelled by some event while WITHDRAWAL_PENDING |
| ChargeLaws.StepNeverGoesBack | internal/repositories/leaveFlow.go:366-398 | Pending is never re-entered, and days, type and dates are frozen outside it |
| ChargeLaws.WithdrawnEntriesStay | internal/service/leave/leaveprocess/process.go:166-172 | no event changes the state of a WITHDRAWN entry |
| LedgerLaws.LedgerEqualsHistory | internal/repositories/leaveBalance.go:160-169 | used equals the days of the charged leaves all along a run exactly if every final approval of the run found its balance row |
| LedgerLaws.StepAgreesExactly | internal/repositories/leaveBalance.go:160-163 | from agreement, an event keeps it exactly if its debit, if any, finds its row |
| LedgerLaws.StepCoversExactly | internal/service/leave/leaveflow/leaveValidation.go:180-197 | only an edit can leave a leave without a balance row, and does so exactly when its new bucket has none |
| LedgerLaws.ReadyEditsSuffice | internal/service/leave/leaveflow/leaveValidation.go:166-200 | so the ledger agrees on every run whose edits only go to buckets with a row |
| ReservationLaws.RunsReserveExactly | internal/service/leave/leaveflow/leaveValidation.go:166-200 | on runs of this year's requests, pending days stay at or below closing balances all along exactly if every edit and every office operation fits the tables it meets |
| ReservationLaws.StepReservesExactly | internal/service/leave/leaveflow/leaveValidation.go:166-200 | requests, actions and cancellations always keep reservations; edits and office operations exactly under the condition asked before them |
| ReservationLaws.HireCarries | internal/handler/employee.go:173-188 | hiring keeps reservations exactly if no entitlement of the role is negative |
| ReservationLaws.CreatePolicyCarries | internal/repositories/leaveBalance.go:310-327 | so does a new type, for the roles of the active employees; an intern entitlement may be negative |
| ReservationLaws.UpdatePolicyCarries | internal/service/leavePolicy.go:184-206 | a policy update keeps reservations exactly if on every row of the type the pending days fit the new opening - used + adjusted |
| ReservationLaws.ChangeRoleCarries | internal/repositories/leaveBalance.go:271-304 | so does a change of role, on the rows of the employee; without an intern on either side always |
| ReservationLaws.StaffCarries | internal/repositories/leaveBalance.go:337-362 | so does a change of joining date |
| ReservationLaws.AdjustCarries | internal/handler/leaveBalance.go:146-185 | an adjustment keeps reservations exactly if pending <= closing + quantity, or entitlement + quantity without a row |
| ReservationLaws.OthersCarry | internal/repositories/leaveAccrual.go:72-112 | accruals, (de)activations and flow operations always keep them |
| ReservationLaws.OverdraftExactly | internal/repositories/leaveBalance.go:160-163 | on every run, a final approval leaves the balance at zero or more exactly if it covered the days (or was so without a row) |
| ReservationLaws.NoOverdraft | internal/repositories/leaveBalance.go:160-163 | after such a run a final approval finds its row and leaves closing at zero or more |
| ReservationLaws.EditBound | internal/repositories/leave.go:70-90 | an accepted edit bounds its new bucket by closing plus the leave's previous days, and no other bucket is affected |
| Scenarios.RejectedButCharged | internal/service/leave/leaveflow/leaveFlow.go:556-562 | a run that ends with a REJECTED leave still charged |
| Scenarios.CancelledButCharged | internal/service/leave/leaveflow/leaveFlow.go:205-213 | a run that ends with a CANCELLED leave still charged |
| Scenarios.WithdrawnWithoutEnd | internal/service/leave/leaveflow/leaveFlow.go:564-570 | for every n, a run with n repeated withdrawals, all accepted, that stays where it was |
| Scenarios.EditOverdraws | internal/service/leave/leaveflow/leaveValidation.go:180-189 | a run that ends with a negative closing balance |
| Scenarios.AdjustmentOverdraws | internal/handler/leaveBalance.go:176-192 | a run in which an adjustment takes what is pending, and the approval overdraws |
| Scenarios.LedgerCanDisagree | internal/service/leave/leaveflow/leaveValidation.go:180-189 | a run after which used differs from the charged days |
| Scenarios.AccruedOpening | internal/repositories/leaveAccrual.go:72-112 | a run after which a row made by the accrual job opens with 0, not with the entitlement |
| Accrual.AllPairsAccruable | internal/repositories/leaveAccrual.go:22-44 | the two loops visit exactly the active employees times the paid types that are not early |
| Accrual.JobAccounts | internal/service/leaveAccrual.go:89-171 | whatever fails, the counters sum to employees times types, or to zero when these cannot be fetched; the journal grows by the credited ones, and nothing else of the books changes |
| Accrual.JobCredits | internal/service/leaveAccrual.go:115-167 | a month of a pair is credited after a job exactly if it was before or the job fetched its lists and reached the pair without a fault |
| Accrual.RepeatIsIdle | internal/repositories/leaveAccrual.go:48-64 | after a run without faults, running the month again credits nothing, whatever fails then |
| Accrual.JobsCreditOnce | internal/repositories/leaveAccrual.go:72-112 | over any sequence of runs with any faults no month of a pair is credited twice, and accrued is the sum of the journal |
| AccrualLaws.JobCreditsDays | internal/service/leaveAccrual.go:142-146 | every credit a job adds is for its month, of an active employee and a paid type that is not early, and of 1 day for an intern, 1.5 for anybody else |
| AccrualLaws.JobAccrues | internal/repositories/leaveAccrual.go:72-112 | a job adds those days to accrued of exactly the rows it reaches without a fault and that had no credit for the month |
| AccrualLaws.JobsAccrue | internal/service/leaveAccrual.go:89-171 | n jobs for different new months that do not fail for a pair add n days to an intern's accrued, 3n/2 to anybody else's |
| AccrualLaws.JobCounters | internal/service/leaveAccrual.go:109-171 | credited counts the pairs that gained, skipped those found finished, failed all others |
| LeaveDesk.Desk.FindOverlapping | internal/service/leave/leaveflow/leaveValidation.go:221-241 | refuses exactly when another active leave shares a day |
| LeaveDesk.Desk.FindEarlyThisMonth | internal/repositories/leave.go:191-222 | refuses exactly when an active early leave of the type starts in the month |
| LeaveDesk.Desk.Validate | internal/service/leave/leaveflow/leaveValidation.go:255-277 | the checks in their order return the days exactly when the request is valid |
| LeaveDesk.Desk.Create | internal/service/leave/leaveflow/leaveFlow.go:65-124 | one Apply step; succeeds exactly when the request is admissible, told on the tables (AdmissionLaws) |
| LeaveDesk.Desk.UpdateLeave | internal/service/leave/leaveflow/leaveFlow.go:303-368 | one Edit step; succeeds exactly when admissible and the leave is the employee's own and Pending |
| LeaveDesk.Desk.Cancel | internal/service/leave/leaveflow/leaveFlow.go:197-220 | one cancellation step; succeeds exactly from Pending, WITHDRAWAL_PENDING and WITHDRAWN |
| LeaveDesk.Desk.ActionValidator | internal/service/leave/leaveflow/leaveFlow.go:523-574 | the loop and the guards refuse for exactly the modelled reason |
| LeaveDesk.Desk.ApproveProcess | internal/service/leave/leaveprocess/approved.go:15-52 | stamping and skipping in place, then status and debit, come to the Approve action on leave, statements and balance |
| LeaveDesk.Desk.RejectProcess | internal/service/leave/leaveprocess/reject.go:15-40 | likewise for Reject |
| LeaveDesk.Desk.WithdrawProcess | internal/service/leave/leaveprocess/withdraw.go:57-100 | likewise for Withdraw |
| LeaveDesk.Desk.ActionLeave | internal/service/leave/leaveflow/leaveFlow.go:126-173 | one Process step; accepted exactly from an employee other than the applicant in a role the log allows |
| LeaveDesk.Desk.HireEmployee | internal/handler/employee.go:157-190 | one Hire step; succeeds exactly for a known role |
| LeaveDesk.Desk.CreateLeaveType | internal/service/leavePolicy.go:52-99 | one CreatePolicy step; succeeds exactly for an entitlement of at least 0 and a known flow |
| LeaveDesk.Desk.UpdateLeaveType | internal/service/leavePolicy.go:168-210 | one UpdatePolicy step; the early flag stays |
| LeaveDesk.Desk.UpdateEmployeeRole | internal/handler/employee.go:275-311 | one ChangeRole step |
| LeaveDesk.Desk.UpdateJoiningDate | internal/handler/employee.go:577-597 | one ChangeJoining step |
| LeaveDesk.Desk.AdjustLeaveBalance | internal/handler/leaveBalance.go:146-192 | one Adjust step with its journal entry |
| LeaveDesk.Desk.CreateApprovalFlow | internal/service/leaveApprovalFlow.go:45-56 | one CreateFlow step; succeeds exactly for valid flows |
| LeaveDesk.Desk.UpdateApprovalFlow | internal/repositories/leaveApprovalFlow.go:102-133 | one UpdateFlow step; the shipped flow cannot be changed |
| LeaveDesk.Desk.CreditMonthlyAccrual | internal/repositories/leaveAccrual.go:72-112 | upsert, accrued only, a journal entry unless the month has one; fails exactly for an unknown employee or type |
| LeaveDesk.Desk.RunAccrual | internal/service/leaveAccrual.go:89-171 | the fetches with their early returns, the nested loops and their counters come to the job of Accrual |
| LeaveDesk.Desk.AccrueAll | internal/service/leaveAccrual.go:114-168 | the nested loops visit the pairs in their order |
| EquipmentLaws.RunKeeps | internal/repositories/equipment.go:134-625 | on every run the pool is in bounds, row quantities are positive and refer to existing equipment and employees |
| EquipmentLaws.NothingIsLost | migration/20251215051640_tbl_equipment_assign.sql:32-39 | 0 <= remaining <= total, shared means remaining = total, remaining + assigned >= total, with equality for equipment never shared and never resized below its use |
| EquipmentLaws.SlackMoves | internal/repositories/equipment.go:247-272 | the exact movement of remaining + assigned - total under every request |
| EquipmentLaws.ReturnAccepted | internal/repositories/equipment.go:449-490 | a return is refused exactly when that slack exceeds what everybody else holds, so never for tracked equipment |
| EquipmentLaws.TrackedOnlyNeedsChecks | internal/repositories/equipment.go:494-625 | for tracked equipment the database bounds refuse nothing that the service's own checks allow |
| EquipmentLaws.SharedAndBackStrands | internal/repositories/equipment.go:262-272 | a run after which neither the return nor the deactivation is possible |
| EquipmentLaws.ResizedBelowStrands | internal/repositories/equipment.go:260-270 | a run after which equipment resized below what is out can neither be returned nor its holder be deactivated |
| EquipmentLaws.ReassignMoves | internal/repositories/equipment.go:515-586 | a reassignment moves exactly q from giver to receiver, merging or inserting, changes no other holding and not the pool, and is a no-op for one and the same employee |
| EquipmentEffects.AssignExactly | internal/repositories/equipment.go:305-339 | an assignment is accepted exactly for a known item and employee and, if counted, enough in the pool; it gives the employee a row of its own and changes nobody else's |
| EquipmentEffects.RemoveExactly | internal/repositories/equipment.go:449-490 | a return takes the holder's most recent row, whole, and nobody else's, unless the pool has no room for it |
| EquipmentEffects.SetQuantityExactly | internal/repositories/equipment.go:588-625 | a new quantity replaces that of the most recent row, the pool paying the difference if it can |
| EquipmentEffects.ReassignRows | internal/repositories/equipment.go:515-586 | units handed over leave the giver's most recent row and join the receiver's, or start one |
| EquipmentEffects.ReassignExactly | internal/repositories/equipment.go:515-586 | accepted exactly for a known receiver and at most the units of the giver's most recent row, if they fit the pool |
| EquipmentEffects.CreateExactly | internal/repositories/equipment.go:134-152 | new equipment is all in the pool |
| EquipmentEffects.ResizeExactly | internal/repositories/equipment.go:247-288 | the new total, and in the pool what is not out beside the slack, at least 0; all of it if shared |
| EquipmentEffects.DeleteExactly | internal/repositories/equipment.go:290-300 | exactly equipment that nobody has can be deleted |
| EquipmentEffects.StatusExactly | internal/repositories/repo.go:86-116 | reactivation gives nothing back |
| EquipmentLaws.DeactivationReturns | internal/repositories/repo.go:120-150 | deactivation takes exactly the most recent row of each equipment the employee holds and nothing from anybody else |
| EquipmentLaws.DeactivationRestores | internal/repositories/equipment.go:471-487 | the pool gets exactly those rows back |
| EquipmentLaws.DeactivationClears | internal/repositories/repo.go:118-150 | it leaves nothing exactly when the employee had at most one row per equipment |
| EquipmentLaws.DeactivationRefused | internal/repositories/repo.go:139-147 | it succeeds exactly if each return would on its own, whatever the order of the query, and else changes nothing |
| Warehouse.ReturnLatest | internal/repositories/equipment.go:453-487 | the statements of a return succeed exactly when accepted and come to its net effect |
| Warehouse.HandOver | internal/repositories/equipment.go:515-586 | so do the statements of a reassignment, through the pool and back |
| Warehouse.Stock.CreateEquipment | internal/repositories/equipment.go:134-152 | one Create step |
| Warehouse.Stock.UpdateEquipment | internal/repositories/equipment.go:247-288 | one Resize step, clamped at zero, never refused by the bounds |
| Warehouse.Stock.AssignEquipment | internal/repositories/equipment.go:305-339 | one Assign step |
| Warehouse.Stock.RemoveEquipment | internal/repositories/equipment.go:449-490 | one Remove step |
| Warehouse.Stock.UpdateAssignment | internal/repositories/equipment.go:494-625 | one Reassign or SetQuantity step; succeeds exactly when accepted |
| Warehouse.Stock.RestoreEmployeeEquipment | internal/repositories/repo.go:120-150 | the loop succeeds exactly when every return does, with their joint effect |
| Warehouse.Stock.DeleteEmployeeStatus | internal/repositories/repo.go:86-116 | one Toggle step, all or nothing; succeeds exactly for a known employee whose returns, on deactivation, all do |
| Dispatcher.NewConfig | pkg/notification/service.go:87-101 | workers and buffer as given, or 3 and 256 when below 1; MaxRetries is taken as given |
| Dispatcher.ProcessWithRetry | pkg/notification/service.go:179-214 | the loop with its doubling delay ends in the fate its attempts and pauses determine |
| Dispatcher.FateIsFirstSuccess | pkg/notification/service.go:179-214 | delivered exactly by the first successful attempt within the limit that no cancelled pause precedes, after pauses of base * (2^(k-1) - 1) |
| Dispatcher.BackOffSums | pkg/notification/service.go:206-212 | the pauses before attempt k sum up k - 1 pauses of which the first is base and each other twice the one before |
| DispatcherLaws.StepsFollowLoop | pkg/notification/service.go:158-214 | a worker that takes the steps of the loop, among any steps of others, settles its event for good with the fate that the loop returns, exactly if the pauses it cuts short are cut after a cancellation, whenever that came; else it keeps the event |
| DispatcherLaws.FatesFollowLoop | pkg/notification/service.go:158-214 | conversely, in every interleaving the fate of each event that was tried is what the loop returns for the successes and the cut pauses of that run |
| DispatcherLaws.EventsConserved | pkg/notification/service.go:107-214 | in every interleaving each published event is in exactly one place: channel, one worker, or its fate |
| DispatcherLaws.ChannelIsFifo | pkg/notification/service.go:107-117 | what was taken and what is buffered is what was accepted, in order, within capacity |
| DispatcherLaws.PublishDropsExactly | pkg/notification/service.go:107-117 | until Stop an event is accepted exactly while fewer than capacity accepted events wait, else dropped at once |
| DispatcherLaws.PausesBounded | pkg/notification/service.go:206-212 | attempts are at most MaxRetries and pauses at most base * (2^(MaxRetries-1) - 1) |
| DispatcherLaws.AfterAccepted | pkg/notification/service.go:107-117 | an event is dropped for a full channel exactly when it was not accepted |
| DispatcherLaws.WorkEnds | pkg/notification/service.go:158-174 | without new events every run of worker steps is finite, with a computed bound |
| DispatcherLaws.QuietMeansGone | pkg/notification/service.go:130-148 | after Stop workers can always move until all have returned |
| DispatcherLaws.QuitsCounted | pkg/notification/service.go:162-171 | as many workers quit on a cancellation as events are dropped before their first attempt |
| DispatcherLaws.RestIsEmptyUnlessAllQuit | pkg/notification/service.go:158-174 | at rest after Stop, cancelled or not, the channel is empty unless every worker quit |
| DispatcherLaws.RestDrains | pkg/notification/service.go:130-171 | and then every accepted event was attempted between 1 and MaxRetries times or dropped on the cancellation |
| DispatcherLaws.StopDrains | pkg/notification/service.go:130-171 | stopped and not cancelled, the workers rest only with an empty channel and every accepted event attempted between 1 and MaxRetries times |
| DispatcherLaws.CancelStrands | pkg/notification/service.go:162-171 | every configuration has a cancelled run that rests with an event in the channel |
| DispatcherLaws.NoRetriesNoDelivery | pkg/notification/service.go:87-101 | MaxRetries gets no default, and below 1 nothing is delivered |

## Left out

- HTTP parsing, role checks of handlers, authentication, configuration, e-mail and Slack delivery, templates, PDF, listings, logs, designations, categories and settings: plumbing or easy members.
- SQL execution: tables are sequences and maps, a transaction is all or nothing. Commit errors of requests are not modelled; `internal/config/database/transaction.go:29-37` would not report them. A commit failure of the accrual job leaves its pair uncredited.
- Races between the reads before a transaction and the transaction: requests are serial.
- Change of year and of a type's early flag: the current year is fixed and the flag of a type never changes.
- Deletion of leave types, which is refused while anything refers to them, and of employees, which does not exist; employees and types are keyed by position.
- A deleted flow keeps its position, so the model also accepts an update of it, or a type that names it, which the original refuses; no type refers to it otherwise.
- Leaves in the legacy status MANAGER_APPROVED: no modelled step produces it.
- The text of reasons and remarks; a stamp carries remarks but nothing is claimed about them.
- Actions on a leave without a flow row are refused; the original dereferences the missing row.
- Floating point: days, balances and delays are exact numbers.
- The branches of `internal/repositories/leaveBalance.go:202-205` and `internal/repositories/leaveBalance.go:249-252` that create a missing row: the query before them never reports a missing row.
- The claim that approvers outrank the applicant: an edit regenerates the log as for an EMPLOYEE (`internal/service/leave/leaveflow/leaveFlow.go:350`), so it is proved of generated logs only.
- Checks around operations that do not concern balances: unique e-mails, managers with subordinates, who may change whom.
- Requests that start outside the current year are not reserved: their days are not counted as pending, so the reservation law is about this year's requests.
- Equipment names, prices, dates and categories; which employee made an assignment; the most recent assignment is the last one inserted.
- The 30 second deadline of Stop, and Publish after Stop, which panics in the caller; workers exist from the start.
- ReservationLaws.NoOverdraft: is about runs whose edits and office operations fit, which the original does not ask of them; for all other runs there is ReservationLaws.OverdraftExactly.
- An actor who is not an employee is refused at once; in the original the reference of the leave to its approver refuses the request when it writes the approver, which an approval that is not the final one does not.
- LeaveReport.AccrualWindow: assumes a range in order, as the service checks before it queries.
