# Transacker core, modelled in Dafny

Transacker is a small web app for recording credit and debit transactions.
A credit transaction picks an entry of a fixed catalog ("Weekly", "Monthly",
"115💎", ...). Each entry carries an integer `index`, and the profit is
`amount - rate * index`. A debit transaction has the sub-type eSewa or Bank and
records a quantity instead.

This project models four parts of the app:

- **Record shape** (`schema.dfy`). The stored `Transaction` and the `InsertTransaction` draft. The four nullable columns are `Option` fields.
  - `Stamp` is the server's `{...draft, id, createdAt}`.
- **In-memory storage** (`storage.dfy`). `MemStorage` is a class whose `transactions` map field is updated in place by its methods.
  - `GetAllTransactions` is a loop that inserts every stored row into a list kept newest first. Its contract says the result is sorted newest first and is a permutation of the stored rows.
- **The creation page** (`credit_catalog.dfy`, `create_transaction.dfy`). This covers:
  - the credit and debit catalogs;
  - the page's React state and form values as a `FormState` value;
  - the handlers, as transition functions;
  - the profit effect, as `ProfitEffect`;
  - user events, as `Step` and `Run`, together with what each type selector shows (neither is given a `value`, so a same-type reset leaves the earlier pick on display and picking it again calls no handler);
  - the `formSchema` validation;
  - the draft built by `onSubmit`.

  React runs the effect after any render in which its inputs changed. The effect is idempotent and leaves the state unchanged once profit is up to date. So running it after every event, as `Step` does, reaches the same states.
- **The history page** (`transaction_history.dfy`). This covers:
  - the search-by-day filter and the current-month filter;
  - the month's total profit and row count;
  - the relative date labels ("Today", "Yesterday", "N days ago", "N week(s) ago").

Supporting modules:

- `wrappers.dfy` (`Option`);
- `sequences.dfy` (`Array.prototype.filter` and order-preserving subsequences);
- `decimal.dfy` (rendering an integer in decimal, as a template literal does, and reading it back).

The form validates `rate` and `quantity` as optional-but-positive for every transaction type (`create-transaction.tsx:46-47`), although each type's form renders only one of them; see Findings.

## Model

| member | source | states |
|---|---|---|
| Schema.Stamp | server/storage.ts:29-34 | the stored row carries the given id and creation time, and every draft field unchanged |
| Schema.StampDraft | server/storage.ts:30-34 | stamping a row's own draft with its own id and time gives back that row |
| Storage.MemStorage.constructor | server/storage.ts:14-16 | a new store is empty and every row is filed under its own id |
| Storage.MemStorage.GetTransaction | server/storage.ts:18-20 | the lookup finds a row exactly when the id is stored, and then it is the stored row, whose id is the one asked for |
| Storage.InsertNewestFirst | server/storage.ts:22-26 | inserting a row into a list adds exactly that row (as a multiset) |
| Storage.InsertKeepsNewestFirst | server/storage.ts:23-25 | inserting into a list sorted newest first keeps it sorted newest first |
| Storage.MemStorage.GetAllTransactions | server/storage.ts:22-26 | the result is sorted by creation time, newest first, and is a permutation of the stored rows |
| Storage.MemStorage.CreateTransaction | server/storage.ts:28-37 | the new row has the draft's fields, the given id and time; the map gains exactly that entry, every other entry unchanged; the size grows by one exactly when the id was fresh |
| Storage.MemStorage.DeleteTransaction | server/storage.ts:39-41 | the result is true exactly when the id was stored; afterwards the map is the old one without that id |
| Storage.CreateGetDelete | server/storage.ts:18-41 | after a create the lookup returns the created row; the first delete succeeds, the lookup then finds nothing and a second delete fails |
| Sequences.Filter | client/src/pages/transaction-history.tsx:28-31 | `filter` keeps exactly the elements satisfying the predicate, each as often as in the input |
| Decimal.IntToString | client/src/pages/transaction-history.tsx:60 | `${n}`: digits that read back as `n`, with no leading zero, after a minus sign when `n` is negative |
| Decimal.NoLeadingZero | client/src/pages/transaction-history.tsx:60 | a positive number's rendering does not start with 0, so it is the shortest one |
| CreditCatalog.FindCreditType | client/src/pages/create-transaction.tsx:152 | `find` returns nothing exactly when no entry has the value, otherwise the first entry that has it |
| CreditCatalog.CatalogWellFormed | client/src/pages/create-transaction.tsx:16-36 | every credit entry has a label, a positive index, and a selector value that is its index in decimal |
| CreditCatalog.CatalogIndicesDistinct | client/src/pages/create-transaction.tsx:16-36 | no two credit entries share an index |
| CreditCatalog.CatalogValuesDistinct | client/src/pages/create-transaction.tsx:16-36 | no two credit entries share a selector value |
| CreditCatalog.FindCreditTypeOfEntry | client/src/pages/create-transaction.tsx:152 | looking up an entry's own value finds that entry |
| CreditCatalog.EntryLabelled | client/src/pages/create-transaction.tsx:16-36 | every credit entry has a non-empty label |
| CreateTransaction.KindText | client/src/pages/create-transaction.tsx:123 | the stored type is "credit" exactly for credit and "debit" exactly for debit |
| CreateTransaction.RealOrZero | client/src/pages/create-transaction.tsx:127 | `x \|\| 0` keeps a positive number and turns an unset or unreadable one into 0 |
| CreateTransaction.IntOrZero | client/src/pages/create-transaction.tsx:129 | `x \|\| 0` keeps a positive count and turns an unset or unreadable one into 0 |
| CreateTransaction.DerivedProfit | client/src/pages/create-transaction.tsx:110-111 | a profit is derived exactly when rate and amount are both positive numbers, and then profit plus `rate * index` is the amount |
| CreateTransaction.ProfitEffect | client/src/pages/create-transaction.tsx:105-119 | afterwards the profit is up to date; it changes only the profit, only for a credit with a selected type, and nothing once profit is up to date |
| CreateTransaction.ProfitEffectIdempotent | client/src/pages/create-transaction.tsx:105-119 | running the effect twice is running it once |
| CreateTransaction.DerivedProfitOfPositive | client/src/pages/create-transaction.tsx:110-111 | with a positive rate and amount the profit is `amount - rate * index` |
| CreateTransaction.NegativeProfitIsKept | client/src/pages/create-transaction.tsx:110-111 | the profit is not clamped: it is negative when `rate * index` exceeds the amount |
| CreateTransaction.DefaultValues | client/src/pages/create-transaction.tsx:63-71 | the defaults (also those of the reset at lines 138-146) carry the type, index and profit 0, and every field the schema checks starts out rejected |
| CreateTransaction.SwitchType | client/src/pages/create-transaction.tsx:135-149 | switching type sets the type, resets every form value to its default and clears the selection and the profit |
| CreateTransaction.SwitchToResets | client/src/pages/create-transaction.tsx:135-149 | from any state, switching type (then the effect) lands on that type's reset form; the selector keeps showing its earlier pick exactly when the type did not change, since only a type change remounts the form block |
| CreateTransaction.PickCreditType | client/src/pages/create-transaction.tsx:151-156 | picking a catalog value selects that entry and copies its label and index; an unknown value clears them; nothing else changes |
| CreateTransaction.PickCreditTypeOfEntry | client/src/pages/create-transaction.tsx:151-156 | picking an entry's own value gives exactly the state with that entry, label and index set |
| CreateTransaction.PickDebitType | client/src/pages/create-transaction.tsx:262 | the debit selector writes the chosen label into `subType` and changes nothing else |
| CreateTransaction.Enabled | client/src/pages/create-transaction.tsx:202-296 | the rate input is on screen only when rate is not the hidden field, and the quantity input only when quantity is not; the credit selector offers only values the catalog lookup finds; a selector calls its handler only for a pick other than the one it shows |
| CreateTransaction.Handle | client/src/pages/create-transaction.tsx:202-292 | each control changes only what it is bound to: a debit pick the label, each input its own value; only a type switch changes the type and profit, and only switches and credit picks the selection; a pick becomes what its selector shows, a switch to the other type empties the selector and a switch to the same type leaves it |
| CreateTransaction.Step | client/src/pages/create-transaction.tsx:105-119 | after any event and the effect, the profit is up to date |
| CreateTransaction.Errors | client/src/pages/create-transaction.tsx:43-48 | `formSchema` rejects an empty type label, a non-positive amount, and a rate or quantity that is set but not positive, each field exactly then |
| CreateTransaction.ErrorsFor | client/src/pages/create-transaction.tsx:43-48 | the corrected validation is the schema's, without the field the current form does not render |
| CreateTransaction.StepKeepsHiddenFieldZero | client/src/pages/create-transaction.tsx:61-72 | no event whose control is on screen changes the hidden field's default 0 |
| CreateTransaction.RunKeepsHiddenFieldZero | client/src/pages/create-transaction.tsx:135-149 | after any sequence of on-screen events, the hidden field still holds 0 |
| CreateTransaction.AsWrittenRejectsEveryReachableForm | client/src/pages/create-transaction.tsx:43-48 | as written, the schema rejects the hidden field of every form the page can reach |
| CreateTransaction.BuildDraft | client/src/pages/create-transaction.tsx:121-133 | a credit draft carries index, rate and profit and no quantity; a debit draft carries a quantity and none of the others; type, label and amount come from the form |
| CreateTransaction.Submit | client/src/pages/create-transaction.tsx:121-133 | a draft is sent exactly when the rendered fields validate; it is then well shaped, labelled, with a positive amount |
| CreateTransaction.SubmittedCreditProfit | client/src/pages/create-transaction.tsx:121-130 | a submitted credit draft with a selected entry and a positive rate stores profit `amount - rate * index` and the entry's index |
| CreateTransaction.PickOnFreshCreditForm | client/src/pages/create-transaction.tsx:151-156 | on the reset credit form, a catalog entry's pick reaches the handler exactly when the selector does not already show it, and selects it with no profit yet |
| CreateTransaction.RateBeforeAmount | client/src/pages/create-transaction.tsx:105-119 | entering a rate while the amount is still 0 derives no profit |
| CreateTransaction.AmountAfterRate | client/src/pages/create-transaction.tsx:105-119 | entering a positive amount after a positive rate derives `amount - rate * index` into both the state and the form |
| CreateTransaction.CreditSelection | client/src/pages/create-transaction.tsx:135-156 | switching to credit and picking a catalog entry select that entry on a reset form; both reach their handlers exactly when the page was not already on credit with that entry showing in the selector |
| CreateTransaction.SelectionOf | client/src/pages/create-transaction.tsx:151-156 | for any entry the lookup finds by its own value, switching to credit and picking it select it on a reset form, reaching the handlers exactly when the selector did not already show it; the entry has a label |
| CreateTransaction.CreditEntry | client/src/pages/create-transaction.tsx:105-119 | with an entry selected, entering a positive rate then a positive amount ends with the derived profit |
| CreateTransaction.CreditFlowState | client/src/pages/create-transaction.tsx:105-156 | for a catalog entry, the four-event credit flow ends in the state with the entry, the inputs and the derived profit, and reaches every handler exactly when the page was not already on credit with that entry showing |
| CreateTransaction.CreditFlowSubmits | client/src/pages/create-transaction.tsx:121-133 | for a catalog entry, the credit flow submits the draft with the entry's label and index, the rate, the amount and profit `amount - rate * index`; the user can perform it exactly when the page is not already on credit with that entry showing |
| CreateTransaction.DebitFlowSubmits | client/src/pages/create-transaction.tsx:121-133 | switching to debit, picking a debit type and entering a positive quantity and amount submits a debit draft with no rate, index or profit; the user can perform it exactly when the page is not already on debit with that type showing |
| CreateTransaction.WeeklyExample | client/src/pages/create-transaction.tsx:17 | from the page as first shown, the flow for the Weekly entry (index 161) at rate 2 for 500 reaches every handler and stores profit 178 |
| TransactionHistory.FilteredTransactions | client/src/pages/transaction-history.tsx:18-22 | an empty search keeps every row in order; otherwise exactly the rows of the searched day, in order |
| TransactionHistory.MonthlyTransactions | client/src/pages/transaction-history.tsx:28-31 | exactly the rows in the current month and year, in order |
| TransactionHistory.MonthlyCount | client/src/pages/transaction-history.tsx:190-193 | the count shown is the number of rows in the current month |
| TransactionHistory.TotalProfit | client/src/pages/transaction-history.tsx:33-35 | the total of no rows is 0 |
| TransactionHistory.TotalProfitIsCreditSum | client/src/pages/transaction-history.tsx:33-35 | the total is the sum of the credit rows' profits, a missing profit counting 0; other rows add nothing |
| TransactionHistory.TotalProfitAppend | client/src/pages/transaction-history.tsx:33-35 | the total of two lists joined is the sum of their totals |
| TransactionHistory.DebitRowAddsNothing | client/src/pages/transaction-history.tsx:34 | a row that is not a credit adds nothing to the total, wherever it stands |
| TransactionHistory.DiffDays | client/src/pages/transaction-history.tsx:44-45 | the elapsed days are the whole days in the elapsed time, rounded down |
| TransactionHistory.BucketOf | client/src/pages/transaction-history.tsx:47-71 | "Today" exactly at 0 days, "Yesterday" exactly at 1, days below 7 otherwise, weeks `w >= 1` with `7w <= days < 7w + 7` from 7 days on |
| TransactionHistory.DayLabel | client/src/pages/transaction-history.tsx:47-70 | the fixed words "Today" and "Yesterday"; a "days ago" label whose leading digits (after a minus for a future instant) read back as the day count, with no leading zero; a week label ending in " ago" |
| TransactionHistory.DaysLabelReadsBack | client/src/pages/transaction-history.tsx:60 | the count in front of " days ago" reads back as the number of days, after a minus sign when it is negative, and has no leading zero |
| TransactionHistory.FormatDate | client/src/pages/transaction-history.tsx:41-72 | a row from today is labelled "Today, " and the time, one from yesterday "Yesterday, " and the time |
| TransactionHistory.WeekLabelPlural | client/src/pages/transaction-history.tsx:66 | a week label says "weeks" exactly when the count is above one |
| TransactionHistory.WeekLabelCount | client/src/pages/transaction-history.tsx:66 | a week label is the digits of the number of weeks, which read back as that number, followed by " week ago" for one week and " weeks ago" for more |
| TransactionHistory.WeeksLabel | client/src/pages/transaction-history.tsx:45-66 | a row between `w` and `w + 1` weeks old is labelled `w` weeks ago |

## Left out

- The HTTP routes, the PostgreSQL store (`server/dbStorage.ts`), the database setup and view scripts, and the `IStorage` interface are not part of this model. Only the in-memory store is modelled, as a class, and there is no interface over it.
- The global `storage` instance is left out. A store is whatever `MemStorage` value is passed in.
- `randomUUID()` and the clock become parameters of `CreateTransaction`.
- Storage.MemStorage.CreateTransaction: does not require the id to be fresh. A repeated id overwrites the old row, as `Map.set` does. The contract states the size change in both cases.
- Storage.MemStorage.GetAllTransactions: does not fix the order of rows created at the same instant. JavaScript's stable sort keeps the map's insertion order for them, and a Dafny map has no order.
- Rendering, toasts, react-query caching and loading states are left out. So are the `isSaved` flag and the 1.5 s `setTimeout` reset after a save: they are presentation or asynchronous work.
- The time of day in a date label (`toLocaleTimeString`) is a parameter. `NPR`/`₹` amount formatting is left out.
- `Date` parsing, time zones and the calendar are left out. What the page reads from an instant is a `Calendar` value of functions (the UTC day string, the local month and year). The current time is a parameter.
- JavaScript numbers are modelled as `real` (amounts, rates, profits) and `int` (index, quantity, milliseconds). Floating-point rounding is not modelled.
- A fractional quantity typed into the quantity input is not modelled.
- A NaN value in a stored row is not modelled.
- The React render cycle is not modelled. Events are applied one at a time, each followed by the profit effect.
- The select component's behaviour (`@/components/ui/select`) is not part of this model's sources. The model takes it to keep its own pick while mounted and to call `onValueChange` only when the pick changes, as an uncontrolled Radix select does.

## Findings

| source | as written | input that shows it | evidently intended | confidence | as-written member | corrected member |
|---|---|---|---|---|---|---|
| client/src/pages/create-transaction.tsx:46-47, 61-72 | `rate` and `quantity` are validated as `.positive().optional()` for every type. The defaults set both to 0. Only the current type's input is rendered, so the other field keeps 0, and react-hook-form passes default values to the resolver. | Any submission, e.g. credit: pick Weekly, rate 2, amount 500. Quantity is still 0 and fails `.positive()`. | Validate only the field the current form renders (rate for credit, quantity for debit). | medium, not executed (depends on react-hook-form passing unregistered default values to the resolver) | CreateTransaction.AsWrittenRejectsEveryReachableForm | CreateTransaction.Submit |
