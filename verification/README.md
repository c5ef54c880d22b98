# Household finance, verified

A Dafny model of the calculations a personal finance app shares between its server and its
browser: the loan engine with its what-ifs, bill and recurring-payment schedules, the CSV a person
exports and imports, money texts, the net worth timeline, the names a restore gives, and the small
state kept for an account. `dafny verify dfyconfig.toml` verifies all of it.

The loan engine is the heart. A loan is paid month by month by a state machine that carries a
balance, the plan in force (installment, rate, end month) and the month since which the end is out
of reach. `LoanSchedule` says what a month does; `LoanEngine` holds the loops as they are, each
proved to compute it; the other `Loan…` modules prove what a borrower may rely on:

- an extra payment that finishes the loan sooner never costs anything, whatever the rates change
  to, whichever option a rate change follows and whatever else is paid (`ExtraNeverHurts`). The
  proof compares two runs by an invariant on both balances and both installments: the run that pays
  more owes no more, its balance counts no more installments, and it ends no later;
- money is conserved in every prefix of a schedule, keep-term loans are repaid within their term,
  and the never-repaid verdict is exact;
- the search for the least monthly extra finds the least one; a what-if leaves history alone.

Laws that compare runs say little of what one run is, so every calculation also has a law in plain
figures, fields or characters, which names none of its own steps: `LoanMeaning` for whole schedules,
`WhatIfSays` and `AnswerSays` for the what-ifs, `CsvFiles` and `CsvExport` for files, `ImportShapes`
for money texts, `AccountStateRules` for what an account's state accepts, and `SteppedDueDate`,
`NextOccurrenceSays`, `UpcomingRecurring` and `NamesSay` for the rest.

The engine's own description (shared/loanSchedule.ts:57-59) says that under keep-term an extra
payment of either mode never adds interest. That is not so for an added pay-less payment when a
finish-sooner one has left a part-full last installment: `PayLessCanHurt` is a loan where it costs
interest. `SpreadingExact` decides it for every keep-term loan, whatever its rates and its other
extra payments: no pay-less payment added in a month costs interest over the whole schedule if and
only if the month already has one, the installment in force is full (no more than the annuity
installment for the balance), the next month charges another rate, or the loan, spread anew in that
month with nothing paid for it, would owe nothing before any month that charges interest from two
months on. Both halves follow whole runs: the run with the payment never owes more than the one
spread anew, and a small enough payment leaves it as near to that one as wanted, while the loan
without it stays strictly below (`LoanOnward`). `PayLessNeverHurts` proves the sentence for every
loan whose own extra payments are all pay-less ones. The model follows the code.

Amounts of loans are reals, so the figures are what the formulas mean; cents elsewhere are integers.
Rates are 0 or more, which shared/loanSchema.ts:133-138 demands of every rate sent. Dates are
civil dates; day numbers count them, and `DateOrder` proves that texts compare as days do.

Every lemma turns automatic induction off, so each proof says all it uses.

## Model

| member | source | states |
|---|---|---|
| LoanMonotonicity.ExtraNeverHurts | shared/loanSchedule.ts:55-59 | Adding finish-sooner extras, dated or repeating, to any loan, or enlarging any of its own of either mode, leaves after every month no more owed, no more interest in all, no later payoff and no earlier never-repaid verdict, under both rate options and any rate periods |
| LoanMonotonicity.RunAhead | shared/loanSchedule.ts:506-587 | Of two runs of one loan, the one paying more each month stays ahead after every month: balance no higher, and either balance times the other's installment no higher and end month no later, or that of the other spread anew where keep-term makes the installment not matter |
| LoanMonotonicity.PaysMoreNoWorse | shared/loanSchedule.ts:489-495 | Paying at least as much extra every month leaves a loan no worse, where a pay-less extra the other run lacks falls on a full installment, or under keep-term before a month that charges another rate or would repay the balance spread anew |
| LoanPayLess.PayLessNeverHurts | shared/loanSchedule.ts:57-59 | Under keep-term, extras of either mode added to a loan whose own are all pay-less never leave it worse |
| LoanPayLess.PayLessCanHurt | shared/loanSchedule.ts:57-59 | A keep-term loan to which one added pay-less payment costs interest: the sentence fails without a condition |
| LoanSpreading.SpreadingExact | shared/loanSchedule.ts:57-59 | For any keep-term loan and any month still owing: pay-less payments of every size added in that month leave the total interest no higher, if and only if the month has one already, the installment is full, the next month charges another rate, or the balance spread anew in the month for nothing would be repaid before any month that charges interest from two months on |
| LoanSpreading.RepaidNextIsFree | shared/loanSchedule.ts:57-59 | The last of these holds whenever the next month would repay the balance spread anew |
| LoanOnward.StaysBelow | shared/loanSchedule.ts:506-587 | A keep-term loan going on from two states, one strictly below and ahead of the other, stays strictly below for as long as the other owes, through every installment, new rate, extra payment and spreading |
| LoanOnward.StaysClose | shared/loanSchedule.ts:506-587 | To stay within any distance of another state for k months, half-cent endings included, it is enough to start ahead of it and within a positive tolerance that depends on the other run alone |
| LoanRepayment.ScheduleConserves | shared/loanSchedule.ts:10-24 | In every prefix of the answered rows, principal parts plus extras plus what is owed make the principal, payments are principal plus interest, each month charges its rate on what was owed, and extras are never more than was owed |
| LoanRepayment.KeepTermRepaid | shared/loanSchedule.ts:49-53 | A usable keep-term loan ends at 0 within its term, owes strictly less after each month, and repays exactly principal plus interest |
| LoanRepayment.VerdictExact | shared/loanSchedule.ts:156-166 | A verdict is given if and only if the loan still owes at the end of the run; its month starts the unbroken stretch of months whose end month is past MAX_TERM_MONTHS, the rows are the months before it, and keep-term never has one |
| LoanInvariants.RunCarries | shared/loanSchedule.ts:20-24 | A balance carried out of any month is 0 or more than half a cent, its end month has not gone by, and while something is owed the loop goes on at the month's rate |
| LoanInvariants.AnnuityRepays | shared/loanSchedule.ts:221-232 | The annuity installment times the annuity factor is the principal |
| LoanSchedule.InstallmentCount | shared/loanSchedule.ts:440-458 | The count is the least number of installments after which at most half a cent is owed |
| LoanClosedForm.FixedRateSchedule | shared/loanSchedule.ts:525-578 | At one rate without extras: exactly term rows if and only if the term is 1 or the discounted installment exceeds half a cent; then every payment is the annuity installment, the last included, and every balance the present value of those left |
| LoanExtras.RulesAreTheirPayments | shared/loanSchedule.ts:36-40 | Listing every payment of every repeating rule as a dated extra, in rule order, gives the same rows, notes included, and the same verdict |
| LoanRates.PeriodsOf | shared/loanSchedule.ts:280-290 | The loop keeps the usable periods, stably sorted by start |
| LoanRates.RateIn | shared/loanSchedule.ts:297-303 | The loop answers the rate of the last listed period covering the month, else the base rate |
| LoanRates.SortedCovering | shared/loanSchedule.ts:279-303 | Reading the sorted list to its end finds what the unsorted list says: the covering period of latest start |
| LoanRates.CoveringIsLatest | shared/loanSchedule.ts:292-303 | The period charged covers the month, none covering starts later, and of equal starts it is the one listed last; none is charged only when none covers |
| LoanRates.RateStretches | shared/loanSchedule.ts:317-341 | The stretches follow one another without a gap from the first whole month not before `from`, month 1 at the earliest, the last is open, neighbours differ in rate, and each says the rate charged in every one of its months |
| LoanEngine.ExtrasOf | shared/loanSchedule.ts:362-374 | The map built by the loop answers, for every month, the dated extras added up by mode with their notes |
| LoanEngine.RulesOf | shared/loanSchedule.ts:387-406 | The loop keeps exactly the usable rules, in order |
| LoanEngine.ExtrasIn | shared/loanSchedule.ts:412-426 | The month's dated extras with every due rule added, in rule order |
| LoanEngine.PayMonth | shared/loanSchedule.ts:525-578 | One pass of the loop computes the month the specification describes |
| LoanEngine.PayExtra | shared/loanSchedule.ts:551-563 | One mode's extra: capped at what is owed, paying off within half a cent, the plan and the watch set anew when something is left |
| LoanEngine.AmortizeLoan | shared/loanSchedule.ts:506-587 | The loop answers the rows and the verdict of the run all the loan theorems are about |
| LoanMeaning.ScheduleFollows | shared/loanSchedule.ts:494-587 | The whole answer without the engine's steps: a principal that is not positive or a term outside 1 to 1,200 months has no schedule; any other loan goes through months each of which follows the one before (rate, terms, installment, extras, row), until nothing is owed or 1,200 are over, and rows and verdict are read off them |
| LoanMeaning.RowOfAnswer | shared/loanSchedule.ts:566-577 | Row k of an answer is month k + 1, dated the start date moved by k months on its day or a short month's last, at the rate in force; its interest is that rate of what was owed; its extras repay what its installment left, finish-sooner ones first, all of it from half a cent below; its note joins theirs while something was left |
| LoanMeaning.FirstDay | shared/loanSchedule.ts:254-260 | The first payment of a start date the calendar has is on that date |
| LoanMeaning.RateSays | shared/loanSchedule.ts:279-308 | A month is charged the rate of the listed period in force that starts latest, the last listed of equal starts, else the loan's own, 0 when that is no number; an end month that is empty, 0 or no number is open |
| LoanMeaning.ExtrasSay | shared/loanSchedule.ts:358-426 | A month's extras are, by mode, the positive amounts dated in it and those of the rules that reach it from their first month in whole steps, up to their last, with the notes that are not empty |
| LoanMeaning.ExtraSays | shared/loanSchedule.ts:489-495 | A finish-sooner payment keeps the installment and ends the loan in the month the balance is down to half a cent at it, or in its old end month; a pay-less one keeps the end month and sets the installment that repays the balance exactly by it |
| LoanMeaning.TermsSay | shared/loanSchedule.ts:460-481 | The first month, and every rate change under keep-term, sets the installment that repays the balance exactly by the end month; under keep-installment a rate change keeps it, and the loan ends where the balance runs out |
| LoanScenarios.RatesMoved | shared/loanScenarios.ts:52-69 | With the new periods every month before `from` charges what it did, and every later one the old rate moved by the points, never below 0 |
| LoanScenarios.ApplyWhatIf | shared/loanScenarios.ts:75-92 | The changed loan is the old one with the what-if's extras and rules appended in its mode and its rates moved |
| LoanScenarios.WhatIfSays | shared/loanScenarios.ts:71-92 | In every month the changed loan pays, in the what-if's mode, its own extras and the what-if's, in the other mode its own, with no note more, and is charged its old rate, or that moved by the points and never below 0 from the month named; nothing else differs |
| LoanScenarios.WhatIfKeepsHistory | shared/loanScenarios.ts:9-15 | When nothing in a what-if is dated before `from`, the rows before `from` that both schedules have are identical, and so is what is owed before it |
| LoanSearch.MonthlyExtraToFinishBy | shared/loanScenarios.ts:210-257 | None for nothing to ask, 0 when the loan already ends in time, else the least multiple of the step that ends it in time, exact when the step is whole cents and rounded to the cent otherwise; found whenever half the search limit repays what is owed in the first month, never when that month is past those the engine amortises |
| LoanSearch.AnswerSays | shared/loanScenarios.ts:210-257 | In figures: no answer for a step that is not positive, a month before the first or no schedule, 0 when the loan ends in time, else the least count of steps that does it, in cents; found whenever at most 5e14 is owed after the first month's installment, and without one all up to more than 5e14 fall short |
| LoanSearch.TriedPays | shared/loanScenarios.ts:219-233 | The loan tried pays that multiple of the step more in every month from the first, finish-sooner, and is otherwise the loan |
| LoanSearch.OwedInSays | shared/loanScenarios.ts:219-240 | What is owed after the first month's installment is what stood before that month less its row's principal |
| LoanSearch.FindLeast | shared/loanScenarios.ts:244-255 | Doubling and halving end, and what they find is enough while every smaller number of steps is not; without one, an amount over half the limit and all smaller ones fall short |
| LoanSearch.EnoughAtOnce | shared/loanScenarios.ts:223-240 | A monthly extra of at least what is owed after the installment of `from` ends the loan in that month |
| LoanSearch.MoreEndsNoLater | shared/loanScenarios.ts:215-216 | More each month never ends a loan later, whatever extras it has |
| LoanSearch.WholeCentsExact | shared/loanScenarios.ts:44-45 | Rounding to the cent leaves an amount of whole cents as it is |
| CalendarMonths.DateOrder | shared/calendarMonths.ts:50-56 | Dates compare as their day numbers do, and different dates are different days |
| CalendarMonths.MonthLengths | shared/calendarMonths.ts:11-15 | Every month's length by name, and 365 or 366 days to its year |
| CalendarMonths.MonthlyNeverDrifts | shared/calendarMonths.ts:34-48 | k steps of a monthly rule land k months on, on its own day or that month's last, short months between them or not |
| CalendarMonths.NextOccurrenceSays | shared/calendarMonths.ts:58-79 | The next date is 1, 7 or 14 days on for daily, weekly and biweekly rules, the same day next year or 28 February for yearly ones, and for the others the next month on the date's day, or on the rule's when a short month had moved it |
| CalendarMonths.NextOccurrenceLater | shared/calendarMonths.ts:64-79 | Every frequency, known or not, moves strictly forward |
| BillSchedule.DueDateNeverMovesBack | shared/billSchedule.ts:132-173 | With no payment after the earlier day, the next due date of any bill is no earlier on a later day |
| BillSchedule.DueDatePlace | shared/billSchedule.ts:132-173 | Paid up, a bill is due strictly after today; otherwise in today's period or on its first due date; never before its first due date |
| BillSchedule.PayingToday | shared/billSchedule.ts:97-126 | A payment dated today pays the bill up and never moves its next due date earlier |
| BillSchedule.SteppedKeepsItsDays | shared/billSchedule.ts:136-161 | A daily, weekly or biweekly bill with a due date is always due a multiple of 1, 7 or 14 days after it |
| BillSchedule.SteppedDueDate | shared/billSchedule.ts:102-161 | Exactly when such a bill is paid up and due: unpaid on its last date on or before today, or its first; paid, one step after the last date on or before the payment, and after its first date for a payment up to a step before that |
| BillSchedule.SteppedWithoutDate | shared/billSchedule.ts:80-161 | One without a due date counts from its last payment: paid up for a step, due a step after it, then on every step; today while it has none |
| BillSchedule.ByCalendarPaidUp | shared/billSchedule.ts:113-126 | A monthly bill is paid up by a payment in this month or later, a yearly one by a payment in this year or later |
| BillSchedule.ByCalendarDate | shared/billSchedule.ts:162-173 | A monthly or yearly bill is next due in this period's month if unpaid and the next one's if paid, or its first due date's when later, on its due date's day, else its day of the month, else the 1st, or a short month's last |
| RecurringUpcoming.DatesOf | shared/recurringUpcoming.ts:60-79 | The loops end, and list today once for a date due or missed and then exactly the rule's own dates up to the end, in order |
| RecurringUpcoming.UpcomingRecurring | shared/recurringUpcoming.ts:52-113 | Over 30 days, there is an answer if and only if no item's category has a name every object inherits; it is the first twenty items by day, those of one day as they came, each category exactly its items and their sum under its own name or "Uncategorized", categories by falling total, and their totals adding up to the grand total |
| RecurringUpcoming.InheritedNames | shared/recurringUpcoming.ts:97-105 | Those names are the twelve of what every object inherits |
| RecurringUpcoming.ConstructorBreaksOff | shared/recurringUpcoming.ts:97-105 | A rule due today in a category named "constructor" leaves the list without an answer |
| Text.SpaceSays | shared/importCsv.ts:42 | The white space trimmed is the 25 characters the runtime trims |
| Csv.ParseImportCsv | shared/importCsv.ts:29-99 | The index loop answers what the scanner's specification says of the text, step by step |
| CsvFiles.FileReads | shared/importCsv.ts:29-99 | Any file of well-formed cells, lines ended by LF, CR LF or CR, the last one or not, reads as its rows with some text, headers first: bare cells trimmed, quotes within them kept, quoted cells as what stands inside and after their quotes, white space before them dropped |
| CsvFiles.MarkIsNoText | shared/importCsv.ts:30-34 | A byte-order mark before a text changes nothing |
| CsvExport.CellSays | shared/exportColumns.ts:97-121 | A cell is its value's own text (1 or 0 for true and false, nothing for a missing one), after a single quote exactly when it is a text that starts with =, +, -, @, a tab or a carriage return and is no number; so no cell starts like a formula but numbers |
| CsvExport.HeadersAre | shared/exportColumns.ts:123-130 | Every kind's columns, by name and in order, read back from its file |
| CsvExport.ExportGrows | shared/exportColumns.ts:124-130 | Every further row is a line of its own after a line feed |
| CsvExport.LineGrows | shared/exportColumns.ts:120-129 | Every further cell follows a comma, between quotes exactly when it holds a quote, a comma or a line feed |
| CsvExport.QuotesDoubled | shared/exportColumns.ts:120 | Every quote inside is doubled |
| CsvRoundTrip.ExportReadsBack | shared/exportColumns.ts:112-130 | An export reads back as its columns and the guarded text of every cell, if and only if every row has some text and every unquoted cell has no carriage return and no white space around it |
| CsvRoundTrip.WholeFileReads | shared/importCsv.ts:81-93 | A file of whole cells reads the same with any of the three line endings: its columns, then its rows that hold some text, unquoted cells trimmed |
| CsvRoundTrip.BrokenFileLoses | shared/importCsv.ts:81-93 | A table with a carriage return in an unquoted cell never reads back |
| ImportNumber.ParseImportNumberDetailed | shared/importNumber.ts:100-170 | The parser that cuts one text down step by step computes the reading the laws below are about |
| ImportShapes.ReadsIfNumber | shared/importNumber.ts:100-170 | A text reads as an amount if and only if, trimmed, it is a sign or accounting brackets around a number: a whole part of digits, or of one to three and groups of three after the other mark or a space, and a decimal mark with digits after it or none; without a decimal mark, the other one does not stand alone |
| ImportShapes.ReadsExactly | shared/importNumber.ts:18-26 | And it reads as floor(100 x + 1/2) cents of the digits' amount x with its sign, ambiguous exactly when its only dot or comma has three digits after it, rounded exactly when more than two do and it moved by a twentieth of a cent |
| ImportShapes.UngroupSays | shared/importNumber.ts:53-66 | A whole part is read, as its digits, if and only if it is digits or has a separator at every fourth place from its end and digits at all others |
| ImportShapes.SpaceIsIgnored | shared/importNumber.ts:108 | White space around a text changes nothing |
| ImportShapes.TrueMinusReads | shared/importNumber.ts:108 | The minus sign U+2212 reads as a hyphen |
| ImportNumber.PrintedReadsBack | shared/importNumber.ts:8-22 | Any cents amount printed with groups of three in dot, comma or a space, another decimal mark, and any sign or accounting brackets reads back exactly, unflagged |
| ImportNumber.PrintedRoundsHalfUp | shared/importNumber.ts:24-26 | The same amount with any number of decimals parses to floor(100 x + 1/2) cents, flagged as ambiguous exactly when its mark is the only dot or comma and three digits follow, and as rounded exactly when more than two do and it moved by a twentieth of a cent |
| ImportNumber.RoundsHalfUp | shared/importNumber.ts:68-75 | Digits of any length round to floor(100 x + 1/2) cents |
| ImportNumber.ParsedIsRounded | shared/importNumber.ts:100-170 | Whatever parses, its cents are the exact amount of its digits rounded half up, with its sign |
| ImportNumber.FlagMarksMisreading | shared/importNumber.ts:18-22 | A whole amount grouped by dot or comma without decimals is flagged as ambiguous exactly when it is read as another amount, which is when it has one group separator |
| NetWorthTimeline.NetWorthTimeline | shared/netWorthTimeline.ts:46-65 | The sweep gives one point for each day some snapshot with a balance was recorded on and no other, oldest first, each the sum over the accounts seen by then, and no others, of their latest balance |
| NetWorthTimeline.UsableExactly | shared/netWorthTimeline.ts:51-52 | Every snapshot with a day and a balance counts, debts too, and no other |
| NetWorthTimeline.OneMoreAccount | shared/netWorthTimeline.ts:60-61 | The sum of no account is 0, and every further one adds its latest balance, or nothing before its first snapshot |
| NetWorthTimeline.LatestIsLatest | shared/netWorthTimeline.ts:5-9 | The balance that counts is a snapshot of the account on or before the day, and none such is later by day and id |
| ProfileNames.DistinctProfileNames | shared/profileSchema.ts:123-146 | Each name comes back as it was unless an earlier one is the same, and then with the first number from 2 whose name neither the file nor the names given hold |
| ProfileNames.NamesSay | shared/profileSchema.ts:130-145 | A name comes back as it was when blank or none before it is the same but for case and surrounding space; else trimmed, with a space and the first number from 2 in brackets whose name neither the file nor the names given before it hold |
| ProfileNames.FreeNumber | shared/profileSchema.ts:139-144 | The open-ended numbering ends: there are only so many taken names, and different numbers make different names |
| ProfileNames.NamesApart | shared/profileSchema.ts:123-146 | No two names given that are not blank differ only in case and surrounding space |
| ProfileNames.NewNamesAreNew | shared/profileSchema.ts:123-128 | A numbered name is no name of the file, the first holder of the repeated name kept it verbatim, and blank names stay blank |
| ProfileNames.RestoredAgain | shared/profileSchema.ts:123-128 | Restoring the names of a restore changes none of them |
| AccountState.PrintedReads | shared/accountState.ts:123-182 | Every value a lenient reader can give is read back unchanged from its printed text |
| AccountStateRules.WizardRead | shared/accountState.ts:128-143 | A stored wizard record is read if and only if both its times are times or null and, without a finish time, its outcome is null; a step or outcome not known reads as none, everything else as stored |
| AccountStateRules.ListAndCardRead | shared/accountState.ts:145-158 | A tours row is read if and only if it holds a list, as its well-formed ids, each once, in the order they first come; a card's if and only if it says true or false |
| AccountStateRules.WritesNeed | shared/accountState.ts:314-333 | A write is refused as unreadable exactly when there is a row that cannot be read, and else takes an object only |
| AccountStateRules.ToursWritten | shared/accountState.ts:271-286 | Tours are stored, kept ones first and each once, exactly when `seen` is a list of tour ids, empty or not, `reset` is true, false or left out, and the value fits 1,024 bytes; else the fields at fault are named |
| AccountStateRules.CardWritten | shared/accountState.ts:287-295 | The card is stored exactly when `hidden` is true or false, hidden once it was or is sent so |
| AccountStateRules.WizardWritten | shared/accountState.ts:225-251 | The wizard's record is stored exactly when it is sent a known step, `completed` or `skipped`, or both: a finished one as it was, else the further step, started and finished by the server's time; else the fields at fault are named |
| AccountStateWrites.WriteHolds | shared/accountState.ts:225-333 | After an accepted write the row reads as the answered value, which holds what was sent, is stamped with the server's time, fits the cap when stored, and takes back nothing |
| AccountStateWrites.ResetReplaces | shared/accountState.ts:273-289 | A reset sent with a list of tour ids, empty or not, leaves exactly those tours, unless they do not fit |
| AccountStateWrites.StoresAlone | worker/src/routes/account-state.ts:41-82 | A request that stores over the row it read makes of it what its write alone would |
| AccountStateWrites.RunIsSerial | worker/src/routes/account-state.ts:41-82 | However the steps of any number of requests interleave, the row is what some answered requests, none twice, would leave writing one after another |
| AccountStateWrites.NothingIsUndone | worker/src/routes/account-state.ts:41-47 | In every interleaving the row keeps its `started_at`, its step never falls, a finished record and an unreadable row stay byte for byte, the tours only grow at the end, hidden stays hidden, and every answered value holds to the end |
| AccountStateWrites.NeverGoesBack | worker/src/routes/account-state.ts:41-47 | The same between any two moments of a run |
| AccountStateWrites.StoredFits | shared/accountState.ts:4-8 | From an empty row, whatever is ever stored is within 1024 bytes, reads back as printed, and has `finished_at` and its outcome together |
| AccountStateWrites.RowSumsUp | shared/accountState.ts:11-26 | At the end of any interleaving without a reset the tours are those held and those of the answered requests and no others, the card is hidden if and only if it was or one hid it, and an unfinished wizard's step is the furthest held or sent |
| AccountStateWrites.RequestEnds | worker/src/routes/account-state.ts:38-86 | A request ends after at most six steps of its own, whatever the others do |
| AccountStateWrites.LosesToOthers | worker/src/routes/account-state.ts:38-86 | A request ends unavailable only after three attempts, in each of which another request stored between its read and its write |
| AccountStateWrites.RefusalHasCause | worker/src/routes/account-state.ts:56-60 | In every interleaving a request is refused for fields only when its write over a row it read named them, and as unreadable only when a row it read was |

## Left out

- PaysMoreNoWorse: one direction only, since it compares every month's balance and any pair of loans; SpreadingExact has both for the interest one added pay-less payment costs.
- UpcomingRecurring: one call on objects nobody has added to. A call that breaks off writes a total on what it found, which a later call in the same process would inherit.
- DueDateNeverMovesBack: asks that the last payment is not after the earlier day, since a payment in the future pays up periods that have not begun.
- ParseImportNumberDetailed: texts only. A cell that already holds a number (shared/importNumber.ts:101-105) is rounded to cents in floating point, and flagged when that moved it.
- DistinctProfileNames: lower-casing is any character-by-character mapping that keeps digits, spaces and brackets; the one letter of Unicode whose lower case depends on its place in a word is not covered.
- WriteHolds: JSON printing and parsing are any pair of functions where what is printed reads back, and the length in bytes any number.
- Floating point: the rounding of IEEE doubles, the slack of 1e-9 (shared/loanSchedule.ts:457) and the rounding of moved rates to 1e-9 (shared/loanScenarios.ts:64). The logarithms of the installment count stand as the count they compute.
- Negative rates: they are refused in what is sent (shared/loanSchema.ts:133-138), though a period a stored loan already holds is kept as it is (shared/loanSchema.ts:232-246).
- Date texts: reading and formatting YYYY-MM-DD, years outside four digits and the reading of years 0 to 99 as 1900 to 1999 by the date library. The model has a date or none, so text that is no date is outside it: a recurring rule with such a `next_date` is compared as text (shared/recurringUpcoming.ts:71-79), and one that sorts after the end lists nothing, while a rule without a date is listed from today.
- Numbers from texts: fields are taken as the numbers `Number` makes of them.
- Instants and time zones: which day a snapshot or a payment belongs to.
- Ties in the recurring categories' order, which the runtime breaks by the order of object keys.
- Database errors and time in the account state route: a step is a read or a guarded write that happens at once.
- `summarize`, `loanStatus`, `runScenario` and `compareScenarios`, which add up and compare rows.
- Presets and wording: `niceAmount`, `templateOptions`, `buildWhatIf`, `describeImportNumberFlags`, messages.
- Tag rules (shared/tagRules.ts): a conjunction or disjunction of independent tests, pre-filtered by some of them.
- Budgets, subscriptions, retirement and the balance of a day: short sums with little to prove.
- Bank adapters, storage, spreadsheets, network and the user interface.
