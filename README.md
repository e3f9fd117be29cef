# AA expense calculator — a verified model

This project models the core of an AA ("split the bill evenly") expense calculator in Dafny:

- **The calculator** (`calculatePersonSummary`, `calculateSettlement`). Each person's total paid, fair share and balance are rounded to cents. The balances are then settled by a greedy two-cursor matcher that pairs creditors with debtors.
- **The application state.** People, expenses and the next person id. It covers adding, renaming and deleting people (deleting cascades to their expenses), and adding, editing and deleting expenses.
- **The spreadsheet import.** Sheet rows are normalised into people and expenses, using header fallbacks, participant lists split on commas, and filters that drop incomplete rows. The application then turns imported names into ids, gives new people ids after the largest existing one, and skips expenses whose payer or participants are unknown.
- **The test-data generator and its validation report.** This is a twin of the calculator keyed by name. The model covers the generator's invariants (distinct names, and the payer is always a participant), the report's zero-sum check, and its post-settlement check.

Money is an exact `real`. `Math.round(x * 100) / 100` is `Money.Round2`, and it rounds halves up, as JavaScript does. Floating-point drift is not modelled.

The greedy loop has two forms:

- a specification function, `Calculator.Run`, made of repeated `Calculator.Step`s over a `Matching` state;
- the imperative matcher, `Calculator.MatchGreedy`, which decreases the records' balances in place in two arrays and is proved equal to `Run`.

`Step` takes the emission threshold as a parameter. The program's threshold is one cent. The corrected threshold, under which every move is recorded, is zero.

Key order in the balances object follows JavaScript's rules:

- integer-like keys (person ids) come out in ascending numeric order (`Calculator.UpsertById`);
- name keys come out in first-insertion order, holding the last value written (`Calculator.UpsertByName`). JavaScript would list an index-like name such as "7" first, in numeric order; the generator's names are two Chinese characters and never index-like.

Module layout:

| file | module | models |
|---|---|---|
| money.dfy | Money | cent rounding |
| records.dfy | Records | people and expenses as the application stores them |
| calculator.dfy | Calculator | `src/utils/calculator.js` |
| summary_facts.dfy | SummaryFacts | what the per-person summary means |
| settlement_facts.dfy | SettlementFacts | what the partition and the greedy loop guarantee |
| table_facts.dfy | TableFacts | the balances table's key order and rows |
| excel_import.dfy | ExcelImport | `src/components/ExcelImport.jsx`, the row normalisation |
| app.dfy | App | `src/App.jsx`, the state and its handlers, as a class |
| test_data.dfy | TestData | `tests/generate-test-data.js` |

## Model

| member | source | states |
|---|---|---|
| Money.Round2 | src/utils/calculator.js:16-18 | the rounded amount is a whole number of cents within (x − 0.005, x + 0.005] |
| Money.Round2Unique | src/utils/calculator.js:16-18 | the rounded amount is the only whole number of cents in that window |
| Money.Round2OfCents | src/utils/calculator.js:16-18 | rounding a whole number of cents leaves it unchanged |
| Money.Round2Monotone | src/utils/calculator.js:16-18 | rounding never reverses the order of two amounts |
| Calculator.CalculatePersonSummary | src/utils/calculator.js:1-20 | the `forEach` accumulation followed by one rounding of each figure yields `Summary` |
| Calculator.ChargesOf | src/utils/calculator.js:5-13 | each expense is read as its amount, its payer id and its participant list, in order |
| SummaryFacts.PaidSumIsTotalOfPaidBy | src/utils/calculator.js:5-8 | total paid before rounding is the sum of exactly the expenses the person paid |
| SummaryFacts.ShareSumIsSharesOfSharedBy | src/utils/calculator.js:10-12 | fair share before rounding is the sum of equal shares of exactly the expenses the person takes part in |
| SummaryFacts.UninvolvedSummaryIsZero | src/utils/calculator.js:1-20 | a person who neither paid nor took part has summary 0 / 0 / 0 |
| SummaryFacts.NotInvolvedSumsZero | src/utils/calculator.js:5-13 | neither sum grows for a person who is not involved |
| SummaryFacts.TotalsNonNegative | src/utils/calculator.js:5-17 | with non-negative amounts, total paid and fair share are non-negative, before and after rounding |
| SummaryFacts.BalanceIsNotDifferenceOfRoundedTotals | src/utils/calculator.js:16-18 | the balance is rounded from the unrounded difference, so it can differ from totalPaid − totalShould (0.00 versus −0.01) |
| SummaryFacts.PaidAcrossIsTotal | src/utils/calculator.js:5-8 | when every payer is among distinct people, their unrounded payments add up to the total spent |
| SummaryFacts.ShareAcrossIsTotal | src/utils/calculator.js:10-12 | when every participant list is distinct and drawn from distinct people, their unrounded shares add up to the total spent |
| SummaryFacts.NetAcrossIsDifference | src/utils/calculator.js:18 | the people's unrounded nets sum to total paid minus total share |
| SummaryFacts.BalanceAcrossNearNet | src/utils/calculator.js:18 | the sum of n rounded balances is within n × 0.005 of the sum of the unrounded nets |
| SummaryFacts.BalancesSumToZero | src/utils/calculator.js:1-20 | for well-referenced data the unrounded nets sum to exactly zero, and the rounded balances to within n × 0.005 |
| TableFacts.UpsertByIdRows | src/utils/calculator.js:27-30 | after `balances[id] = …` the new row is present, every other row is an old one, and the key set gains the id |
| TableFacts.UpsertByIdKeepsOrder | src/utils/calculator.js:27-30 | writing an id keeps the rows in strictly ascending key order, as `Object.entries` lists integer keys |
| TableFacts.UpsertByIdAboveAppends | src/utils/calculator.js:27-30 | writing an id above every present key appends the row |
| TableFacts.TableByIdKeys | src/utils/calculator.js:25-31 | the id-keyed table is sorted by key and has exactly the people's ids as keys |
| TableFacts.LastName | src/utils/calculator.js:27-30 | the name stored for an id is that of the last person with that id |
| TableFacts.TableByIdRows | src/utils/calculator.js:25-31 | every row carries one person's id, the last name written for that id, and that id's summary balance |
| TableFacts.TableFollowsIncreasingIds | src/utils/calculator.js:25-31 | with strictly increasing ids the table is the people, in order, each with their balance |
| TableFacts.UpsertByNameAppendsNewKey | tests/generate-test-data.js:64-67 | writing a new name appends a row |
| TableFacts.UpsertByNameOverwrites | tests/generate-test-data.js:64-67 | writing a name already present overwrites its row in place |
| Calculator.Partition | src/utils/calculator.js:33-42 | the loop over the entries builds exactly `Creditors` and `Debtors` |
| SettlementFacts.CreditorsAreAboveDeadZone | src/utils/calculator.js:36-42 | a row is a creditor iff its balance is above 0.01 |
| SettlementFacts.DebtorsAreBelowDeadZone | src/utils/calculator.js:36-42 | every row below −0.01 becomes a debtor owing its magnitude, and every debtor comes from such a row |
| SettlementFacts.PartitionAppend | src/utils/calculator.js:36-42 | the partition of a table split in two is the partition of each part, concatenated: creditors and debtors keep the table's order, each row at most once |
| TableFacts.PartitionKeepsKeyOrder | src/utils/calculator.js:36-42 | a table in ascending id order yields creditors and debtors in ascending id order |
| TableFacts.PartiesInIdOrder | src/utils/calculator.js:25-42 | whatever the order of the people, creditors and debtors are visited in ascending id order |
| SettlementFacts.PartitionSize | src/utils/calculator.js:36-42 | creditors and debtors together are at most as many as the rows: no row is both |
| SettlementFacts.SettledTableHasNoParties | src/utils/calculator.js:36-42 | when every balance lies in [−0.01, 0.01] there are no creditors and no debtors |
| SettlementFacts.SettledTableNeedsNoTransfer | src/utils/calculator.js:33-68 | when every balance lies in [−0.01, 0.01] the settlement is empty |
| SettlementFacts.PartitionKeepsNamesApart | src/utils/calculator.js:25-42 | with distinct names, creditors and debtors have distinct names, drawn from the table, and no name is on both sides |
| SettlementFacts.PartitionNamesFromTable | src/utils/calculator.js:36-42 | every creditor's and debtor's name is a name in the table |
| SettlementFacts.DeadZoneIsNoParty | src/utils/calculator.js:36-42 | a name whose balance lies in [−0.01, 0.01] is neither a creditor nor a debtor |
| SettlementFacts.RowAboveIsCreditor | src/utils/calculator.js:37-38 | a row above 0.01 is among the creditors |
| SettlementFacts.RowBelowIsDebtor | src/utils/calculator.js:39-40 | a row below −0.01 is, negated, among the debtors |
| SettlementFacts.PartiesAreOpen | src/utils/calculator.js:36-42 | from whole-cent balances, every creditor and every debtor holds more than one cent, in whole cents |
| Calculator.Step | src/utils/calculator.js:48-65 | one iteration keeps both lists' lengths and advances at least one cursor, by at most one each |
| Calculator.Run | src/utils/calculator.js:47-66 | the loop ends exactly when one list is exhausted, with the cursors in range |
| Calculator.MatchOnce | src/utils/calculator.js:48-65 | the loop body on the two arrays leaves the state `Step` describes |
| Calculator.MatchGreedy | src/utils/calculator.js:44-68 | the in-place matcher returns exactly the transfers of `Run` from both cursors at 0 |
| Calculator.CalculateSettlement | src/utils/calculator.js:22-69 | `calculateSettlement` returns `Settle` of the id-keyed balances table |
| SettlementFacts.RunKeepsParties | src/utils/calculator.js:47-66 | the loop keeps every party's key and name and only adds transfers |
| SettlementFacts.RunTransferCount | src/utils/calculator.js:47-66 | the loop records at most (creditors + debtors − 1) transfers |
| SettlementFacts.RunRemainders | src/utils/calculator.js:51-62 | remaining balances stay non-negative and never grow |
| SettlementFacts.RunConserves | src/utils/calculator.js:51-62 | total remaining credit minus total remaining debt is unchanged by the loop |
| SettlementFacts.RunKeepsCents | src/utils/calculator.js:51-62 | whole-cent remainders stay whole cents |
| SettlementFacts.RunPassesSettledOnly | src/utils/calculator.js:64-65 | a cursor passes a party only once it has less than one cent left |
| SettlementFacts.RunTransfersWellFormed | src/utils/calculator.js:53-59 | every recorded transfer runs from a debtor to a creditor, with at least the rounded threshold |
| SettlementFacts.ResidualsVanishWhenBalanced | src/utils/calculator.js:47-66 | with whole-cent balances and credit equal to debt, every party ends at exactly zero |
| SettlementFacts.RunKeepsLedger | src/utils/calculator.js:47-66 | when every move is recorded, each party's recorded transfers account for exactly what it has moved so far |
| SettlementFacts.FullEmissionAccounts | src/utils/calculator.js:47-66 | when every move is recorded and credit equals debt, each creditor receives exactly its balance and each debtor sends exactly its debt |
| SettlementFacts.RowSettles | src/utils/calculator.js:36-66 | a row's balance after such transfers is zero, unless it lay in the dead zone, where it is unchanged |
| SettlementFacts.FullEmissionSettles | src/utils/calculator.js:44-66 | with distinct names, whole cents and credit equal to debt, the full-emission matcher settles every party outside the dead zone exactly |
| SettlementFacts.SettleBounds | src/utils/calculator.js:44-68 | the settlement is empty without creditors or debtors, has at most (creditors + debtors − 1) transfers, and every transfer runs from a debtor to a creditor and is at least 0.01 |
| App.AppState.constructor | src/App.jsx:13-15 | the state starts with no people, no expenses and next id 1 |
| App.AppState.AddPerson | src/App.jsx:28-35 | the person is appended with the next id and the given name (or the generated one when the name is empty), the next id grows by one, ids stay strictly increasing and below the next id |
| App.Renamed | src/App.jsx:37-41 | renaming keeps every id and order, and changes the name of exactly the people with that id |
| App.RenamedKeepsIds | src/App.jsx:37-41 | renaming keeps the id set |
| App.AppState.UpdatePerson | src/App.jsx:37-41 | the people become `Renamed`; the expenses and next id are untouched; references stay valid |
| App.WithoutPerson | src/App.jsx:44 | the people kept are exactly those with another id |
| App.WithoutPersonKeepsOrder | src/App.jsx:44 | removing a person keeps the ids strictly increasing |
| App.WithoutPersonsExpenses | src/App.jsx:45-47 | the expenses kept are exactly those the person neither paid nor takes part in |
| App.WithoutPersonsExpensesAppend | src/App.jsx:45-47 | the filter distributes over concatenation, so the kept expenses stay in their order, each as often as before |
| App.DeleteKeepsReferences | src/App.jsx:43-48 | after the cascade, every expense still refers only to people in the list |
| App.AppState.DeletePerson | src/App.jsx:43-48 | the person and every expense paid by or shared with them are removed; no remaining expense mentions the id |
| App.AppState.AddExpense | src/App.jsx:50-57 | the expense is appended with the given id and timestamp and the form's fields; it keeps references valid when its ids are known |
| App.Patched | src/App.jsx:61 | the edited expense keeps its id and stale timestamp and takes all six of the form's fields: amount, description, payer, participants, date and time |
| App.PatchedAll | src/App.jsx:59-63 | exactly the expenses with that id are patched; order and length are kept |
| App.AppState.UpdateExpense | src/App.jsx:59-63 | the expenses become `PatchedAll`; the people are untouched |
| App.WithoutExpense | src/App.jsx:65-67 | the expenses kept are exactly those with another id |
| App.WithoutExpenseAppend | src/App.jsx:65-67 | the filter distributes over concatenation, so the other expenses stay in their order |
| App.AppState.DeleteExpense | src/App.jsx:65-67 | the expenses become `WithoutExpense`; references stay valid |
| App.MaxId | src/App.jsx:75 | the result is at least 0 and at least every id, and is 0 or one of the ids |
| App.NewPersons | src/App.jsx:76-79 | the k-th imported person gets id maxId + k + 1 and keeps its name |
| App.ImportedIdsAreFresh | src/App.jsx:74-84 | imported people get consecutive ids above every existing id |
| App.FindByName | src/App.jsx:92 | the result is None iff no one has the name; otherwise it is the first person with that name |
| App.FindByNamePrefersEarlier | src/App.jsx:80-92 | existing people win a name clash with imported ones; a name that only an imported person has resolves to the first of them |
| App.ResolveNames | src/App.jsx:99-107 | every resolved id is the id of someone in the list |
| App.ResolveNamesMembers | src/App.jsx:99-107 | an id is resolved iff some participant name resolves to it; unknown names are skipped |
| App.ResolveNamesAppend | src/App.jsx:99-107 | resolving two runs of names concatenates their ids: one id per resolving name, in name order, so a repeated name gives its id twice |
| App.ResolveParticipants | src/App.jsx:99-107 | the loop over the names builds `ResolveNames` |
| App.ResolveExpense | src/App.jsx:90-124 | an expense is skipped iff its payer is unknown or no participant is known; otherwise the record has the given id, the first matching payer's id, exactly `ResolveNames` of the participant names (unknown names dropped), the imported amount, description and date, time 12:00:00 and the noon timestamp of its date |
| App.ResolveAll | src/App.jsx:88-125 | every valid imported expense refers only to people in the list |
| App.ResolveAllSource | src/App.jsx:90-124 | every imported record is the resolution of the input expense at some position, with that position's id |
| App.ResolveAllHas | src/App.jsx:90-124 | every input expense that resolves is imported |
| App.ResolveAllMembers | src/App.jsx:88-125 | a record is imported iff some input expense resolves to it |
| App.ResolveAllPrefix | src/App.jsx:88-125 | the records of the first n input expenses come first: input order is kept |
| App.ResolveImported | src/App.jsx:88-125 | the `forEach` builds `ResolveAll` |
| App.AppState.ImportData | src/App.jsx:69-131 | imported people are appended with fresh ids and the next id becomes maxId + count + 1; valid expenses are resolved against old plus new people and appended; ids stay increasing and references valid |
| App.AppState.Settlement | src/App.jsx:133 | the settlement shown is `calculateSettlement` of the current state |
| App.ValidStateTable | src/App.jsx:133 | in a valid state the balances table is the people in list order, each with their balance |
| App.ResolvesInMore | src/App.jsx:80-92 | an expense that resolves against the old people still resolves after people are appended |
| ExcelImport.Pick | src/components/ExcelImport.jsx:40-44 | `row[a] \|\| row[b]` picks the cell under the first header holding a truthy value, and is None iff there is none |
| ExcelImport.TrimStart | src/components/ExcelImport.jsx:36 | drops exactly the leading white space |
| ExcelImport.TrimEnd | src/components/ExcelImport.jsx:36 | drops exactly the trailing white space |
| ExcelImport.Trim | src/components/ExcelImport.jsx:36 | the result has no white space at either end |
| ExcelImport.TrimIsSlice | src/components/ExcelImport.jsx:36 | the trimmed text is a slice of the input with only white space cut from either side |
| ExcelImport.TrimOfTrimmed | src/components/ExcelImport.jsx:36 | trimming trimmed text changes nothing |
| ExcelImport.Split | src/components/ExcelImport.jsx:36 | splitting on commas yields at least one piece and no piece holds a comma |
| ExcelImport.JoinSplit | src/components/ExcelImport.jsx:36 | joining the pieces with commas gives back the text |
| ExcelImport.SplitJoin | tests/generate-test-data.js:174 | comma-free names joined with commas split back into the same names |
| ExcelImport.SplitCommaFree | src/components/ExcelImport.jsx:36 | comma-free text is one piece |
| ExcelImport.SplitAfterPrefix | src/components/ExcelImport.jsx:36 | a comma-free prefix before a comma becomes the first piece |
| ExcelImport.TrimAll | src/components/ExcelImport.jsx:36 | each piece is replaced by its trim, in order |
| ExcelImport.NonEmpty | src/components/ExcelImport.jsx:36 | the filter keeps only non-empty strings |
| ExcelImport.NonEmptySource | src/components/ExcelImport.jsx:36 | each kept string comes from a position at or after its own |
| ExcelImport.NonEmptyMembers | src/components/ExcelImport.jsx:36 | a string is kept iff it is non-empty and present |
| ExcelImport.NonEmptyAppend | src/components/ExcelImport.jsx:36 | the filter distributes over concatenation: non-empty strings keep their order and every occurrence |
| ExcelImport.NonEmptyOfFilled | src/components/ExcelImport.jsx:36 | a list without empty strings passes unchanged |
| ExcelImport.TrimNonEmpty | src/components/ExcelImport.jsx:35-37 | every name read is non-empty and trimmed, and there are at most as many as pieces |
| ExcelImport.TrimKeepsCommaFree | src/components/ExcelImport.jsx:36 | trimming comma-free text leaves it comma-free |
| ExcelImport.TrimNonEmptyNames | src/components/ExcelImport.jsx:35-37 | names read from comma-split pieces are non-empty, trimmed and comma-free |
| ExcelImport.TrimNonEmptyMembers | src/components/ExcelImport.jsx:35-37 | a name is read iff it is the non-empty trim of some piece |
| ExcelImport.TrimAllAppend | src/components/ExcelImport.jsx:36 | trimming two runs of pieces trims each, in order |
| ExcelImport.TrimNonEmptyAppend | src/components/ExcelImport.jsx:35-37 | the names of two runs of pieces are the names of each, concatenated, duplicates kept |
| ExcelImport.TrimNonEmptyOfNames | src/components/ExcelImport.jsx:35-37 | names already non-empty, trimmed and comma-free are read unchanged |
| ExcelImport.SplitNames | src/components/ExcelImport.jsx:35-37 | every participant name read is non-empty, trimmed and comma-free |
| ExcelImport.SplitNamesAfterPrefix | src/components/ExcelImport.jsx:34-37 | the text before the first comma gives the first names read and the rest follows in order; a name written twice is read twice |
| ExcelImport.SplitNamesOfJoin | tests/generate-test-data.js:174 | participant names written as the generator joins them are read back as the same list |
| ExcelImport.NormalizePersons | src/components/ExcelImport.jsx:21-27 | at most one person per row |
| ExcelImport.NormalizePersonsAppend | src/components/ExcelImport.jsx:24-26 | the map and filter keep row order |
| ExcelImport.NormalizePersonsMembers | src/components/ExcelImport.jsx:24-26 | a person is read iff some row has a truthy name cell with that text |
| ExcelImport.ExpenseRow | src/components/ExcelImport.jsx:33-46 | a row throws iff its participant cell is a number; it is kept only with a positive amount, a truthy description and at least one non-empty, trimmed, comma-free participant name; otherwise it is dropped for one of those reasons; a kept row's participant names are `SplitNames` of its text cell, its description and payer are the cells' text, and its date is the date cell's text or `today` when there is none |
| ExcelImport.Outcomes | src/components/ExcelImport.jsx:33-45 | every row's outcome, in row order |
| ExcelImport.KeptOf | src/components/ExcelImport.jsx:46 | an expense is kept iff some row's outcome keeps it |
| ExcelImport.KeptOfAppend | src/components/ExcelImport.jsx:46 | the filter keeps row order |
| ExcelImport.KeptExpenses | src/components/ExcelImport.jsx:33-46 | every expense kept has a positive amount and at least one participant |
| ExcelImport.KeptExpensesMembers | src/components/ExcelImport.jsx:33-46 | an expense is read iff some row is kept as that expense |
| ExcelImport.KeptExpensesAppend | src/components/ExcelImport.jsx:33-46 | expenses from consecutive runs of rows follow each other |
| ExcelImport.NormalizeExpenses | src/components/ExcelImport.jsx:30-47 | the sheet fails iff some row throws |
| ExcelImport.ReadWorkbook | src/components/ExcelImport.jsx:18-47 | the import fails iff the expense sheet throws; each list is present iff its sheet is, and holds that sheet's normalised rows |
| TestData.ChargesByName | tests/generate-test-data.js:43-50 | each generated expense is read by payer name and participant names |
| TestData.TableByNameRows | tests/generate-test-data.js:61-67 | the name-keyed table has one row per distinct name, in order of first appearance, with that name's balance |
| TestData.NameTableRow | tests/generate-test-data.js:64-67 | each person's name has a row carrying that name's balance |
| TestData.NameTableWellFormed | tests/generate-test-data.js:61-67 | the name-keyed table has distinct names and whole-cent balances |
| TestData.CalculateSettlementByName | tests/generate-test-data.js:61-105 | the twin returns `Settle` of the name-keyed table |
| TestData.SettlementNamesArePersons | tests/generate-test-data.js:61-105 | every transfer runs between two of the people's names |
| TestData.ZeroSumCheck | tests/generate-test-data.js:212-219 | the report sums the rounded balances and passes iff the sum's magnitude is below 0.01 |
| TestData.BalancesByName | tests/generate-test-data.js:234-238 | the map holds every person's name with that name's balance |
| TestData.ApplyTransfers | tests/generate-test-data.js:240-243 | each name's balance grows by what it sent and shrinks by what it received |
| TestData.AllBelowCent | tests/generate-test-data.js:245-247 | the verdict is true iff every listed balance has magnitude below 0.01 |
| TestData.SettlementCheck | tests/generate-test-data.js:233-247 | the report's map holds each name's post-settlement balance, and the verdict is `SettlementCheckPasses` |
| TestData.FloorIndex | tests/generate-test-data.js:109-110 | `Math.floor(r * n)` for r in [0, 1) is an index below n |
| TestData.GeneratePersons | tests/generate-test-data.js:113-124 | the people are the first distinct names drawn, as many as requested or as are available, with no repeats |
| TestData.Shuffled | tests/generate-test-data.js:137 | the shuffle is the people's names reordered by a permutation |
| TestData.ShuffledFacts | tests/generate-test-data.js:137-138 | shuffling adds no name and keeps names distinct |
| TestData.GenerateExpense | tests/generate-test-data.js:129-153 | the amount is a cent value of at least 10; the payer is one of the people and always a participant; there are 1 to n distinct participants, all people |
| TestData.GenerateTestData | tests/generate-test-data.js:108-157 | 3 to 10 people and 10 to 100 expenses, as the draws decide, and the data is well formed: distinct names, every payer a person and a participant, participant lists distinct and drawn from the people |
| TestData.WellFormedIsReferenced | tests/generate-test-data.js:136-145 | generated data refers only to the people, with distinct participant lists |
| TestData.GeneratedBalancesSumWithinRounding | tests/generate-test-data.js:212-219 | on generated data the unrounded nets sum to zero and the rounded balances to within n × 0.005 |
| TestData.TwoThreeWaySplitsBalances | tests/generate-test-data.js:39-58 | two separate 10.00 expenses, each split three ways, round to +6.67 for each payer and −3.33 for each other participant |
| TestData.ZeroSumCheckRejectsTwoSplits | tests/generate-test-data.js:212-219 | on well-formed data of six people and those two expenses the balances sum to 0.02 and the zero-sum check as written fails |
| TestData.SuppressedCentsLeaveResidue | src/utils/calculator.js:53-62 | with credit equal to debt, a one-cent move that is deducted but not recorded leaves A at +0.02, and the post-settlement check fails |
| TestData.DeadZoneFailsSettlementCheck | tests/generate-test-data.js:234-247 | well-formed data with balances +0.01 / −0.01 yields no transfer and fails the check as written, but passes the corrected one |
| TestData.FullEmissionPassesCorrectedCheck | tests/generate-test-data.js:234-247 | when credit equals debt, recording every move settles each person outside the dead zone exactly, and every post-settlement balance is at most 0.01 |

## Left out

- Reading the file (`FileReader`, `XLSX.read`, `sheet_to_json`) is not modelled. A workbook is given as its sheets' rows, and a row as a map from header to a text or number cell. Boolean and date cells are not modelled.
- `parseFloat` is a parameter of the import, with None standing for NaN. How a number cell reads as text (`render`) is a parameter too.
- ExcelImport.ReadWorkbook: a number in the payer, name, description or date column stays a number in the program. It then never equals a person's name under `===` (unless the person's name cell was a number too). The model reads it as text through `render`.
- `console.warn`, `alert` and the modal dialog are not modelled. Neither is the rest of the user interface (React state hooks, the forms, the lists, `Summary` and `Settlement` display).
- Clocks and randomness are parameters:
  - `Date.now()` and `Date.now() + Math.random()` are the expense ids passed in (`now`, `expenseId`);
  - the ISO timestamp is a parameter (`timestamp`, `stamp`), including the `Invalid Date` that `toISOString` would throw on;
  - `generateRandomName` is the `generated` name passed to `AddPerson`;
  - the generator's `Math.random()` draws are the `ExpenseDraw` and name-draw arguments.
- `src/utils/nameGenerator` is not part of this model.
- `ExcelExport`, `manual-verification.js`, `createExcelFile` and the report's Markdown text are not modelled. The comma join of the export side appears only as `ExcelImport.Join`.
- TestData.GeneratePersons: the `do … while` that redraws until a new name appears is given a finite list of draws. When the draws run out of new names, fewer people are produced. The program would loop forever instead when fewer than `personCount` distinct names exist (the 400 names of the library make that impossible for up to 10 people).
- TestData.ApplyTransfers: requires every transfer's names to be keys of the map. In the program a missing key would make the entry `NaN`, but every transfer's names are people's names (`TestData.SettlementNamesArePersons`).
- App.AppState.ImportData: appends every resolved expense with whatever `stamp` returns. In the program an unparsable date makes `toISOString` throw inside the expense loop, after the people and the next id have been set; the error is caught by the import dialog, so the people are imported, no expense is, and the failure alert is shown.
- App.AppState.UpdateExpense: keeps the expense's old timestamp even when the date or time changes, as the program does.
- Floating-point arithmetic: money is exact. The second and third findings below show on their inputs in double arithmetic too. The first holds in exact arithmetic only: in doubles a one-cent move is suppressed only when a remainder is exactly the double nearest 0.01, and on the example's input 0.04 − 0.03 comes out just above 0.01, so the program records those moves.
- App.AppState.AddExpense: does not require the payer and participants to be known, as the program does not. Reference validity is stated only for forms that use known ids.

## Findings

| source | as written | input that shows it | evidently intended | confidence | as-written member | corrected member |
|---|---|---|---|---|---|---|
| src/utils/calculator.js:53-62 (also tests/generate-test-data.js:89-98) | a move of exactly 0.01 is deducted from both parties but not recorded as a transfer | in exact arithmetic, balances Z +0.03, A +0.05, E +0.02, B −0.04, C −0.03, D −0.03: the transfers are B→Z 0.03, C→A 0.03, D→E 0.02, and A is left owed 0.02 although credit equals debt; in double arithmetic this input records the one-cent moves (0.04 − 0.03 > 0.01), so the program shows the behaviour only where a remainder is exactly the double 0.01 | every deducted move is recorded, so that a balanced table settles exactly | low, not executed; exact arithmetic only | TestData.SuppressedCentsLeaveResidue | SettlementFacts.FullEmissionSettles |
| tests/generate-test-data.js:245-247 | the post-settlement check demands a residue below 0.01, while the calculator leaves balances of exactly ±0.01 unsettled | A pays 10.02 and B pays 10.00, both for [A, B]: balances +0.01 and −0.01, no transfer, check fails | the check allows what the calculator's dead zone leaves, a residue of at most 0.01 | high, not executed | TestData.DeadZoneFailsSettlementCheck | TestData.FullEmissionPassesCorrectedCheck |
| tests/generate-test-data.js:212-219 | the zero-sum check demands that the rounded balances sum to below 0.01 | A pays 10.00 for [A, B, C] and D pays 10.00 for [D, E, F]: +6.67, −3.33, −3.33 twice, sum 0.02 (0.0199999999999996 in double arithmetic) | the sum of n rounded balances is allowed the rounding error of n × 0.005 | high, not executed | TestData.ZeroSumCheckRejectsTwoSplits | TestData.GeneratedBalancesSumWithinRounding |

The application's `Calculator.CalculateSettlement` and `App.AppState.Settlement` keep the program's one-cent emission threshold. The corrected matcher is `Calculator.Run` with threshold 0, through `TestData.FullSettlementByName`. The corrected checks are `TestData.CorrectedSettlementCheckPasses` and `TestData.ZeroSumWithinRounding`.
