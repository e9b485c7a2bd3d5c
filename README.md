# Ajuste de Cuentas: a verified model of the ledger store

Ajuste de Cuentas is a browser bookkeeping application. It keeps a company's
double-entry books in one IndexedDB database. The database has five object
stores:

- `companyConfig`: the company profile, always under key 1.
- `chartOfAccounts`: the accounts, keyed by account code.
- `accountingEntries`: journal entries, with keys from a key generator.
- `entryLines`: the debit and credit lines of each entry, keyed the same way.
- `auditLog`: an append-only log of events.

Two browser modules work on this database. `Script.js` is the application: it
validates the entry form, writes entries, deletes entries, lists them and
builds reports. `db.js` is a data-layer class that wraps the same stores in
promise-based CRUD calls. Each module has its own copy of the version-gated
schema migration.

This project models the storage and consistency logic of both modules as one
in-memory ledger state, `Ledger.AccountingDatabase`. The class holds:

- the schema version and the set of (store, index) pairs that exist;
- one map per store;
- the two key generators;
- the audit log.

Every operation becomes a method (where the source changes state or loops) or
a function (where it only reads). Each one is atomic, with its contract stated
over the stores.

## Modules

- `text.dfy` (`Text`):
  - the character order used to compare string keys, which is IndexedDB's order for characters up to U+FFFF;
  - ASCII lower-casing and substring search;
  - decimal rendering of ids.
- `records.dfy` (`Records`): the record types (account, entry, entry line, audit record, company profile, posting), the debit, credit and net sums over lines, and the line checks.
- `keyed.dfy` (`Keyed`):
  - the generic `add` (insert-only), `put` (upsert) and `delete` on a store;
  - `getAll()` order for stores with generated keys.
- `schema.dfy` (`Schema`):
  - the stores and indexes each migration step creates, in both copies of the migration;
  - the layout reached from any old version;
  - the indexes declared in `DB_SCHEMA` that no step creates.
- `seed.dfy` (`Seed`): the nineteen-account chart loaded on first run, and the default company profile.
- `queries.dfy` (`Queries`): the read side as pure functions:
  - index reads;
  - balances, including dated balances;
  - concept search, the date range, and the stable date sort;
  - the entry listing, the account-name join, and report totals;
  - the trial balance.
- `validation.dfy` (`Validation`): the entry form's checks, as a specification function and as the form's loop.
- `integrity.dfy` (`Integrity`): what a consistent ledger is, and why saving a validated entry or deleting an entry with its lines keeps it so.
- `ledger.dfy` (`Ledger`): the database object with every operation of both modules.

Behaviours of the code a reader may not expect, which the model follows:

- Account existence is not checked. Saving an entry does not check that its accounts exist (`Script.js:228-246` reads only the code's presence).
- Negative amounts are accepted. A line with negative amounts passes the line checks, since only a missing code, two zeros, or two positive amounts are refused (`Script.js:233-241`). `Validation.NegativeAmountsAccepted` exhibits one.
- Entries with the same date are listed in ascending key order. The date sort is JavaScript's stable sort over a read in key order (`Script.js:296-321`).
- The data layer's delete needs no entry. `deleteAccountingEntry` (`db.js:254-263`) runs whether or not the entry exists and writes no audit record. The application's `deleteEntry` reads `entry.concept` of the entry it fetched, so it needs the entry to exist.

## Model

The pure functions that compute an operation's result carry no contract of their own; the lemma rows about them state what they promise:

- `Validation.Validate` (`saveAccountingEntry`'s checks): `Validation.ValidateAcceptsIff` and `Validation.ValidateRefusesFirstFailure`.
- `Queries.FilterLinesByDate` and `Queries.BalanceAsOf` (`filterLinesByDate`, `calculateAccountBalance`): `Queries.DatedOwnBalance` and `Queries.AccountBalanceSpec`.
- `Queries.ListEntries` (`loadAccountingEntries`): `Queries.ListEntriesSpec`.
- `Queries.EntryDetails` (`viewEntryDetails`): `Queries.EntryDetailsSpec`.
- `Queries.NonZeroBalances` (`calculateBalances`): `Queries.NonZeroBalancesSpec`.

The members of `Ledger.AccountingDatabase` for those operations (`SaveAccountingEntry`, `CalculateAccountBalance`, `LoadAccountingEntries`, `ViewEntryDetails`, `CalculateBalances`) apply those functions to the stores. Their own rows give what their contracts state.

| member | source | states |
|---|---|---|
| Keyed.Add | db.js:329-335 | `create` is insert-only: it is refused exactly when the key exists; otherwise it adds the record under the key and leaves every other record as it was |
| Keyed.Put | db.js:364-370 | `update` replaces or inserts the record under its key and changes no other key |
| Keyed.PutIdempotent | db.js:364-370 | putting the same record twice is the same as putting it once |
| Keyed.Delete | db.js:372-378 | `delete` removes exactly the given key, and a missing key is no error |
| Keyed.DeleteKeys | Script.js:452-458 | deleting a list of keys one at a time keeps exactly the records whose key is not listed, each unchanged |
| Keyed.DeleteThenRead | db.js:372-378 | after `delete(k)` nothing is stored under k, and deleting again changes nothing |
| Keyed.AscendingMembers | db.js:345-351 | every record `getAll()` returns is stored under some key, and every stored record is returned |
| Keyed.AscendingCount | db.js:345-351 | `getAll()` returns as many records as there are stored keys, so with key order no stored record is returned twice |
| Keyed.AscendingIncreasing | db.js:345-351 | `getAll()` returns the records in increasing primary-key order |
| Keyed.AscendingPush | db.js:329-335 | adding a record under the next generated key appends it to the end of `getAll()` |
| Schema.StepExtendsLayout | Script.js:15-60 | step k applied to a version k-1 layout creates no store or index that exists, and yields a version k layout, in both copies of the step |
| Schema.UpgradeReaches | db.js:91-191 | running steps v+1 to hi from a version v layout creates nothing that exists and reaches the version hi layout; nothing is deleted |
| Schema.StepContents | db.js:91-191 | an upgrade from oldVersion creates the stores and indexes of step N exactly for the N above oldVersion |
| Schema.StepRunsIff | db.js:93-189 | step N is part of an upgrade iff oldVersion < N; an upgrade at version 3 creates nothing |
| Schema.DeclaredLayoutNotCreated | db.js:6-58 | the `createdAt` and `entryId_accountCode` indexes of `DB_SCHEMA` are created by no step, so neither migration yields the declared table; the application's step 3 creates a strict subset of the data layer's indexes |
| Schema.LayoutLacksUncreated | db.js:40-44 | at any version the database lacks those two declared indexes |
| Seed.SeedChartWellFormed | Script.js:89-121 | the seed chart stores 19 accounts, each under its own code, and every non-root parent code names a seeded account |
| Seed.SeedCodesDistinct | db.js:441-474 | the nineteen seed codes are pairwise distinct |
| Seed.ChartPrefixMapContents | Script.js:126-128 | inserting the chart's accounts in order stores exactly those accounts, each under its code |
| Seed.SeedChartStored | db.js:440-479 | after the seed chart is put over any store, every seed account is stored under its own code |
| Seed.ChartMapDisjoint | Script.js:123-134 | the seed chart can be added to a store exactly when no seed code is stored there |
| Queries.ForAccountMembers | Script.js:769-770 | the `accountCode` index returns exactly the lines posted to that code |
| Queries.ForEntryMembers | Script.js:369 | the `entryId` index returns exactly the lines of that entry |
| Queries.SelectionsKeepIdOrder | db.js:353-362 | an index read returns equal-key records in primary-key order |
| Queries.SelectionsAppend | db.js:353-362 | an index read over two runs of records is the concatenation of the reads |
| Queries.InCodeRange | db.js:286-297 | the inclusive key range over account codes keeps exactly the lines whose code lies between the bounds |
| Queries.InCodeRangeKeepsIdOrder | db.js:286-297 | that range read keeps primary-key order |
| Queries.BalanceWithoutLines | db.js:396-409 | an account with no lines has balance 0 |
| Queries.BalanceOrderIndependent | db.js:396-409 | the balance does not depend on the order in which the lines are read |
| Queries.BalanceAppend | db.js:404-407 | the reduce over two runs of lines is the sum of the reduces |
| Queries.DatedOwnBalance | db.js:411-423 | filtering an account's lines by the date of their entries and then summing gives the sum of debit minus credit over the account's lines whose entry is dated on or before endDate |
| Queries.AccountBalanceSpec | db.js:396-423 | with no end date the balance is the sum over all the account's lines; with one, it fails exactly when a line of the account has no entry, and otherwise counts only lines whose entry is dated on or before endDate |
| Queries.SearchByConcept | db.js:247-252 | exactly the entries whose lower-cased concept contains the lower-cased term, in `readAll` order |
| Queries.InDateRange | Script.js:301-306 | exactly the entries whose date lies in the inclusive range, in store order |
| Queries.SortByDate | Script.js:321 | the sort is a permutation of its input |
| Queries.SortOrdered | Script.js:321 | the sort puts entries in date order (most recent first for the listing); entries with the same date keep their key order |
| Queries.InsertOrdered | Script.js:321 | inserting one entry into an ordered run keeps it ordered |
| Queries.ReadStageSpec | Script.js:301-309 | the read holds exactly the stored entries in the inclusive date range (all of them when no date is given), with equal dates in key order |
| Queries.MatchStageSpec | Script.js:315-318 | the concept filter keeps exactly the read entries whose concept contains the term regardless of case; an empty term keeps all |
| Queries.ListEntriesSpec | Script.js:296-321 | the listing fails only when the date range is inverted; otherwise it shows exactly the stored entries in the range (defaults '0000-00-00' and '9999-99-99') whose concept matches case-insensitively, ordered most recent first |
| Queries.JoinAccountsLines | Script.js:371-379 | every line is kept in order and labelled with its account's name, or with 'Cuenta desconocida' when the account is missing or unnamed |
| Queries.EntryDetailsSpec | Script.js:360-382 | the detail view exists exactly for stored entries and lists the entry's lines from the `entryId` index, each joined to its account name |
| Queries.NonZeroBalancesSpec | Script.js:761-789 | each reported balance is a given account's nonzero balance; each given account with a nonzero balance is reported; an empty list gives [] |
| Queries.WithBalanceTotal | Script.js:521-529 | dropping zero balances does not change a total |
| Queries.WithBalanceKeepsNonZero | Script.js:521-524 | the zero filter keeps every balance that is already nonzero |
| Queries.TotalIsNetOfAccounts | Script.js:526-529 | the total of the nonzero balances of distinct accounts is debit minus credit over every line posted to one of them |
| Queries.EntryNetOfLines | Script.js:243-248 | an entry's net is the net of the lines the `entryId` index returns for it |
| Queries.NetSplitByEntry | Script.js:446-467 | the net of all lines is that entry's net plus the net of the lines left after deleting it |
| Queries.RemovalEntryNet | Script.js:446-467 | deleting an entry's lines zeroes its net and leaves every other entry's net unchanged |
| Queries.ForEntryAfterRemoval | Script.js:446-467 | deleting one entry's lines leaves the lines of every other entry as they were |
| Queries.WithoutEntryShorter | Script.js:452-458 | the cascade removes at least one line when the entry has lines |
| Queries.TrialBalance | Script.js:211-294 | when every line belongs to a balanced entry, total debits equal total credits |
| Validation.FirstRejected | Script.js:228-246 | the index of the first line that fails the line checks: every earlier line passes |
| Validation.ValidateAcceptsIff | Script.js:218-254 | an entry is accepted iff date and concept are present, it has lines, every line passes the line checks and debits equal credits; the totals are the sums |
| Validation.ValidateRefusesFirstFailure | Script.js:218-254 | a refusal names the first failing check in the order the form runs them: missing fields, then each line in order (incomplete before both-columns), then the balance |
| Validation.NegativeAmountsAccepted | Script.js:233-241 | a line with both amounts negative passes, and an entry made of it is accepted |
| Validation.ValidateEntry | Script.js:218-254 | the form's loop computes exactly the validation verdict |
| Integrity.StampedPostings | Script.js:266-267 | stamping the lines with the entry id keeps the form's postings in order |
| Integrity.StampedBalanced | Script.js:243-267 | the stamped lines of validated postings balance their entry: the totals are the lines' sums and equal |
| Integrity.SaveKeepsConsistent | Script.js:256-277 | saving a validated entry with its stamped lines keeps every line attached to an entry and every entry balanced; the `entryId` index then returns exactly the stamped lines |
| Integrity.DeleteKeepsConsistent | Script.js:446-467 | deleting an entry with all its lines leaves no line of it and keeps the ledger consistent |
| Integrity.SaveThenDeleteRestores | db.js:254-263 | deleting an entry just saved, with its lines, restores the entries and lines as they were |
| Integrity.ConsistentLedgerBalances | Script.js:243-248 | in a consistent ledger total debits equal total credits |
| Ledger.AuditFor | db.js:311-317 | the audit records of one entry are exactly the logged ones carrying that entry id |
| Ledger.AddInTransaction | Script.js:123-129 | the chart's adds all succeed iff none of its codes is stored, and then the pending store is the old one plus the chart |
| Ledger.AppUpgradeSteps | Script.js:15-60 | the application's version-gated steps, from any version-v layout, add exactly the stores and indexes of the steps above v and reach the version 3 layout |
| Ledger.DbUpgradeSteps | db.js:91-191 | the data layer's steps, with step 2 taking its transaction from the upgrade event (the code as written throws there, see `UpgradeDbAsWritten`), add exactly the stores and data-layer indexes of the steps above v and reach the version 3 layout |
| Ledger.InCodeOrder | db.js:353-362 | taking the least remaining code each time yields exactly the selected accounts, each once, in increasing code order |
| Ledger.DeleteOwnLines | Script.js:452-458 | deleting by key the lines the `entryId` index lists for an entry leaves exactly the lines of other entries |
| Ledger.OpenFresh | db.js:68-88 | a fresh database upgraded with the corrected step 2 opens at version 3 with every store and the data layer's indexes |
| Ledger.OpenFreshAsWritten | db.js:145-162 | a fresh database upgraded by the migration as written never opens |
| Ledger.AccountingDatabase.LinesListed | db.js:345-351 | `getAll()` on the lines lists exactly the stored lines, in key order |
| Ledger.AccountingDatabase.EntriesListed | db.js:345-351 | `getAll()` on the entries lists exactly the stored entries, in key order |
| Ledger.AccountingDatabase.ConsistentBooksBalance | Script.js:243-248 | a consistent database's lines have equal debit and credit totals |
| Ledger.AccountingDatabase.constructor | db.js:62-66 | a database never opened has no stores and no records |
| Ledger.AccountingDatabase.UpgradeApp | Script.js:15-60 | the application's upgrade runs steps above the old version in order, reaches version 3, and adds exactly their stores and indexes to what exists |
| Ledger.AccountingDatabase.UpgradeDb | db.js:91-191 | the data layer's upgrade (with step 2 as the application writes it) does the same with the data layer's indexes |
| Ledger.AccountingDatabase.UpgradeDbAsWritten | db.js:145-162 | as written, the upgrade completes iff the old version is at least 2; otherwise the version, stores and indexes stay as they were |
| Ledger.AccountingDatabase.GetCompanyConfig | db.js:194-196 | the profile under key 1, if stored |
| Ledger.AccountingDatabase.SaveCompanyConfig | db.js:198-201 | the profile is stored under key 1 whatever its id, and reading it back returns it |
| Ledger.AccountingDatabase.FinalizeSaveConfig | Script.js:197-208 | the profile is upserted under its own id, and one system audit record is appended |
| Ledger.AccountingDatabase.LogAudit | Script.js:791-800 | appends one system record with the message and no entry |
| Ledger.AccountingDatabase.LogAuditEvent | db.js:300-309 | appends one record with the next key and returns that key |
| Ledger.AccountingDatabase.GetAuditLogByEntry | db.js:311-317 | fails exactly when the audit `entryId` index is absent; otherwise returns exactly the records of that entry |
| Ledger.AccountingDatabase.GetAccount | db.js:204-206 | the account under that code, if stored |
| Ledger.AccountingDatabase.SaveAccount | db.js:224-226 | upsert by code; reading the code back returns the account |
| Ledger.AccountingDatabase.AddAccount | db.js:329-335 | adding an account is refused with ConstraintError and changes nothing when the code is taken; otherwise it stores the account |
| Ledger.AccountingDatabase.AccountsInCodeOrder | db.js:353-362 | an index read over the chart returns exactly the selected accounts, in increasing code order |
| Ledger.AccountingDatabase.GetAccountsByType | db.js:216-222 | exactly the stored accounts of that type, in code order |
| Ledger.AccountingDatabase.GetAccountsByParent | db.js:208-214 | exactly the stored accounts with that parent code, in code order |
| Ledger.AccountingDatabase.GetAccountingEntry | db.js:234-236 | the entry under that id, if stored |
| Ledger.AccountingDatabase.AddEntry | Script.js:259-260 | the entry gets the next generated key, which was unused, and is appended to `getAll()` |
| Ledger.AccountingDatabase.CreateAccountingEntry | db.js:229-232 | the same, with the creation time stamped |
| Ledger.AccountingDatabase.CreateEntryLine | db.js:266-268 | the line gets the next generated key and is appended to `getAll()` |
| Ledger.AccountingDatabase.GetEntryLinesByEntry | db.js:270-276 | exactly the stored lines of the entry, in key order |
| Ledger.AccountingDatabase.GetEntryLinesByAccount | db.js:278-284 | exactly the stored lines posted to the account, in key order |
| Ledger.AccountingDatabase.GetEntryLinesByEntryAndAccountAsWritten | db.js:286-297 | reading through the compound index fails exactly when the index is absent; if it existed, the read would return the entry's lines whose code lies in [code, code + U+FFFF] |
| Ledger.AccountingDatabase.EntryAndAccountReadFails | db.js:40-44 | on any opened database that read fails with NotFoundError |
| Ledger.AccountingDatabase.GetEntryLinesByEntryAndAccount | db.js:286-297 | the corrected read returns exactly the entry's lines whose code lies in the range; each has the code as a prefix; they are in key order |
| Ledger.AccountingDatabase.CreateEntryLines | Script.js:266-267 | the postings are stored in order as lines of the entry, under consecutive fresh keys |
| Ledger.AccountingDatabase.WriteEntry | Script.js:256-277 | an accepted entry is appended under the next entry key, its lines are appended under consecutive line keys, then one `create_entry` record is appended |
| Ledger.AccountingDatabase.SaveAccountingEntry | Script.js:211-294 | the verdict is the validation verdict, and a refused entry writes nothing. An accepted entry is stored with the form's totals under a fresh key, then its lines stamped with that key, then one `create_entry` record naming the entry and its concept. The entry is balanced by its lines, its lines read back are the form's lines, and a consistent ledger stays consistent |
| Ledger.AccountingDatabase.DeleteLinesOf | Script.js:452-458 | deleting the entry's lines one by one leaves exactly the other lines, and no line of the entry |
| Ledger.AccountingDatabase.DeleteEntry | Script.js:433-478 | lines of the entry, then the entry, are removed; other entries and lines are unchanged; one `delete_entry` record quoting the concept is appended; consistency is kept |
| Ledger.AccountingDatabase.DeleteAccountingEntry | db.js:254-263 | the same cascade without an audit record; an absent entry is no error |
| Ledger.AccountingDatabase.LoadAccountingEntries | Script.js:296-321 | fails only on an inverted range; otherwise exactly the stored entries the filter selects, most recent first and in key order within a date |
| Ledger.AccountingDatabase.SearchAccountingEntriesByConcept | db.js:247-252 | exactly the stored entries whose concept contains the term regardless of case, as a subsequence of `readAll` |
| Ledger.AccountingDatabase.GetAccountingEntriesByDateRange | db.js:238-245 | an inverted range is a DataError; otherwise exactly the stored entries in the inclusive range, in date order |
| Ledger.AccountingDatabase.ViewEntryDetails | Script.js:360-382 | exists exactly for stored entries; lists the entry's lines in index order, each with its account name or the unknown-account text |
| Ledger.AccountingDatabase.CalculateAccountBalance | db.js:396-423 | with no end date, debit minus credit over the account's lines. With one, it fails exactly when a line of the account has no entry, and otherwise counts only lines dated on or before endDate. A consistent ledger never fails |
| Ledger.AccountingDatabase.CalculateBalances | Script.js:761-789 | the loop yields, in the order given, each account with its nonzero balance |
| Ledger.AccountingDatabase.BalancesOfType | Script.js:748-789 | exactly the stored accounts of the type with a nonzero balance, each with that balance; the total is the net of every line posted to an account of that type |
| Ledger.AccountingDatabase.GenerateBalanceGeneral | Script.js:500-529 | for assets, liabilities and equity: exactly the accounts with nonzero balance, and totals equal to the net of their lines |
| Ledger.AccountingDatabase.CalculateBalanceSummary | Script.js:702-724 | the same three totals without the zero filter |
| Ledger.AccountingDatabase.AddAccounts | Script.js:123-134 | a transaction of adds commits iff no code is taken, storing the whole chart; otherwise nothing is written |
| Ledger.AccountingDatabase.PutAccounts | db.js:477-479 | putting the chart stores every account of it over what was there |
| Ledger.AccountingDatabase.AddSeedChart | Script.js:123-129 | the seed chart is added iff none of its codes is stored |
| Ledger.AccountingDatabase.PutSeedChart | db.js:440-479 | the chart store becomes what it held, overwritten at the seed codes by the seed accounts |
| Ledger.AccountingDatabase.LoadChartOfAccounts | Script.js:88-136 | when no seed code is taken, the seed chart is added and the load is logged; otherwise nothing changes |
| Ledger.AccountingDatabase.CheckInitialData | Script.js:76-86 | an empty chart gets exactly the seed chart and a log record; a non-empty one is untouched |
| Ledger.AccountingDatabase.InitializeSampleData | db.js:426-483 | with a stored profile nothing changes; otherwise the default profile is stored under key 1, the seed chart is put over the chart store, and one `init` record is appended |

## Left out

- The user interface: DOM rendering, form reading, `alert`/`confirm`, event listeners and section switching. Only what they write to or read from the stores is modelled. The form's fields become parameters.
- PDF export with jsPDF, report file names, and loading the logo with FileReader: foreign libraries and file I/O.
- Asynchronous sequencing:
  - The model omits IndexedDB request callbacks, promises, the `linesSaved` and `processed` completion counters, and the open and upgrade events.
  - Each operation is one atomic step on the state, which is what each single transaction gives.
  - The data layer's `executeRequest` (db.js:381-393) runs its own transaction per call, so several calls are not atomic. The model does not capture interleavings between those transactions.
- The generic `create`, `read`, `readAll`, `readAllByIndex`, `update` and `delete` wrappers: they are modelled at each call site. `Keyed.Add`, `Keyed.Put`, `Keyed.Delete` and `Keyed.Ascending` give their semantics.
- Floating-point amounts, `parseFloat` and `toFixed(2)`: amounts are integer cents, so the comparison at two decimals is exact equality.
- Date parsing with `new Date(...)`: dates are strings compared in `Text.LexLe` order. That order is the order of the dates for well-formed `YYYY-MM-DD` dates.
- Timestamps from `new Date()` are an opaque integer parameter `now`.
- `getAuditLogByDateRange` (db.js:319-327) ranges over those opaque timestamps and is not modelled.
- `toLowerCase` is modelled for ASCII letters only; Unicode case mapping is left out.
- Strings are sequences of Unicode scalar values, not of UTF-16 code units. `Text.LexLe` agrees with IndexedDB's key order only for strings without characters above U+FFFF. A character above U+FFFF sorts after U+FFFD in the model but before it in IndexedDB (its first surrogate is below U+E000). So the prefix range [code, code + U+FFFF] of `GetEntryLinesByEntryAndAccount` and its as-written read omits keys that continue with such a character, which the source's range holds.
- `loadCompanyConfig` (Script.js:139-169) only fills in the form from `getCompanyConfig`, which is modelled.
- `window.app` and `window.accountingDB`: global singletons.
- Ledger.AccountingDatabase.DeleteEntry: requires the entry to exist. With no entry the source throws on `entry.concept` after the line cursor finishes, and the transaction aborts; that abort is not modelled.
- Ledger.AccountingDatabase.GetEntryLinesByEntryAndAccount: the corrected read returns the lines in key order. It does not give the account-code order the compound index would give within one entry.
- Ledger.AccountingDatabase.CalculateBalances: the results follow the order of the given accounts. That is the order in which requests on one transaction complete, so completion order is not modelled separately.
- Every data operation requires `Open()`: the database is at version 3 with a valid layout. This stands for the data layer awaiting its `initPromise` before each request.

## Findings

| source | as written | input that shows it | evidently intended | confidence | as-written member | corrected member |
|---|---|---|---|---|---|---|
| db.js:145-162 | step 2 of `createObjectStores` takes its transaction from `request`, a name not in scope inside `createObjectStores` (db.js:147), so the upgrade handler throws and the version change aborts | opening the data layer's database for the first time (oldVersion 0) or from version 1 | take the transaction from the upgrade event, as the application's step 2 does (Script.js:45-51) | not executed | Ledger.OpenFreshAsWritten | Ledger.OpenFresh |
| db.js:286-297 | `getEntryLinesByEntryAndAccount` reads through the `entryId_accountCode` index, which `DB_SCHEMA` declares (db.js:40-44) but no migration step creates, so every call fails | any call, for example entry 1 and account code "57" | a read of the entry's lines whose account code starts with the given code | not executed | Ledger.AccountingDatabase.EntryAndAccountReadFails | Ledger.AccountingDatabase.GetEntryLinesByEntryAndAccount |
