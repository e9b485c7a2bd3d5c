/** The ledger database as one object: the schema it has been upgraded to,
    and the five object stores as maps (entries and lines under keys from
    their stores' key generators, the audit log as the sequence its key
    generator numbers from 1). The operations of the application class and
    of the data-layer class become methods on it, each one atomic. */
module Ledger {
  import opened Text
  import opened Records
  import opened Keyed
  import opened Schema
  import opened Seed
  import opened Queries
  import opened Validation
  import opened Integrity

  /** The outcome of a read through an index that may not exist. */
  datatype Read<T> = Found(value: T) | Failed(error: StoreError)

  /** The audit records of one entry, in log order (the audit `entryId`
      index; system events carry no entry and are not indexed). */
  function AuditFor(log: seq<AuditRecord>, entryId: nat): (r: seq<AuditRecord>)
    ensures forall a :: a in r <==> a in log && a.entryId == Some(entryId)
    ensures |r| <= |log|
  {
    if log == [] then []
    else
      var init, last := log[..|log| - 1], log[|log| - 1];
      assert log == init + [last];
      AuditFor(init, entryId) + (if last.entryId == Some(entryId) then [last] else [])
  }

  /** The codes of the accounts of type `t`. */
  function CodesOfType(accounts: map<string, Account>, t: AccountType): (r: set<string>)
    ensures forall c :: c in r <==> c in accounts && accounts[c].accountType == t
  {
    set c | c in accounts && accounts[c].accountType == t
  }

  /** The codes of a list holding exactly the stored accounts of type `t`
      are the codes of that type. */
  lemma CodesOfTypeListed(accounts: map<string, Account>, t: AccountType, accs: seq<Account>)
    requires forall c :: c in accounts ==> accounts[c].code == c
    requires forall a :: a in accs <==> a.code in accounts && accounts[a.code] == a && a.accountType == t
    ensures Codes(accs) == CodesOfType(accounts, t)
  {
    CodesMembers(accs);
    forall c | c in CodesOfType(accounts, t) ensures c in Codes(accs) {
      assert accounts[c] in accs;
    }
  }

  /** The pending writes of a transaction that adds `chart` in order to
      the store `stored`: the first add under an existing code fails, and
      the transaction is then aborted. */
  method AddInTransaction(stored: map<string, Account>, chart: seq<Account>)
    returns (ok: bool, pending: map<string, Account>)
    requires CodesDistinct(chart)
    ensures ok <==> forall i :: 0 <= i < |chart| ==> chart[i].code !in stored
    ensures ok ==> pending == stored + ChartPrefixMap(chart, |chart|)
  {
    pending := stored;
    var i := 0;
    assert stored + ChartPrefixMap(chart, 0) == pending;
    while i < |chart|
      invariant 0 <= i <= |chart|
      invariant pending == stored + ChartPrefixMap(chart, i)
      invariant forall j :: 0 <= j < i ==> chart[j].code !in stored
    {
      ghost var prefix := ChartPrefixMap(chart, i);
      assert ChartPrefixMap(chart, i + 1) == prefix[chart[i].code := chart[i]];
      match Add(pending, chart[i].code, chart[i])
      case Rejected(_) =>
        ChartPrefixMapLacks(chart, i, chart[i].code);
        assert chart[i].code in stored;
        return false, pending;
      case Written(m) =>
        UnionUpdate(stored, prefix, chart[i].code, chart[i]);
        pending := m;
        i := i + 1;
    }
    return true, pending;
  }

  /** The application's (`initDB`) upgrade steps run from `oldVersion`: step
      N runs when `oldVersion < N`, in increasing order, and never creates
      a name that exists. */
  method AppUpgradeSteps(oldVersion: nat, stores: set<StoreName>, indexes: set<IndexName>)
    returns (newStores: set<StoreName>, newIndexes: set<IndexName>)
    requires LayoutAt(oldVersion, stores, indexes)
    ensures newStores == stores + StoresBetween(oldVersion, DbVersion)
    ensures newIndexes == indexes + AppIndexesBetween(oldVersion, DbVersion)
    ensures LayoutAt(DbVersion, newStores, newIndexes)
  {
    newStores, newIndexes := stores, indexes;
    if oldVersion < 1 {
      StepExtendsLayout(1, newStores, newIndexes);
      newStores := newStores + StepStores(1);
      newIndexes := newIndexes + AppStepIndexes(1);
    }
    assert newStores == stores + StoresBetween(oldVersion, 1) && newIndexes == indexes + AppIndexesBetween(oldVersion, 1);
    if oldVersion < 2 {
      StepExtendsLayout(2, newStores, newIndexes);
      newIndexes := newIndexes + AppStepIndexes(2);
    }
    assert newStores == stores + StoresBetween(oldVersion, 2) && newIndexes == indexes + AppIndexesBetween(oldVersion, 2);
    if oldVersion < 3 {
      StepExtendsLayout(3, newStores, newIndexes);
      newStores := newStores + StepStores(3);
      newIndexes := newIndexes + AppStepIndexes(3);
    }
  }

  /** The data layer's (`createObjectStores`) upgrade steps run from `oldVersion`: step
      N runs when `oldVersion < N`, in increasing order, and never creates
      a name that exists. Step 2 is the corrected one, taking its
      transaction from the upgrade event; as written it throws, which
      `AccountingDatabase.UpgradeDbAsWritten` models. */
  method DbUpgradeSteps(oldVersion: nat, stores: set<StoreName>, indexes: set<IndexName>)
    returns (newStores: set<StoreName>, newIndexes: set<IndexName>)
    requires LayoutAt(oldVersion, stores, indexes)
    ensures newStores == stores + StoresBetween(oldVersion, DbVersion)
    ensures newIndexes == indexes + DbIndexesBetween(oldVersion, DbVersion)
    ensures LayoutAt(DbVersion, newStores, newIndexes)
  {
    newStores, newIndexes := stores, indexes;
    if oldVersion < 1 {
      StepExtendsLayout(1, newStores, newIndexes);
      newStores := newStores + StepStores(1);
      newIndexes := newIndexes + DbStepIndexes(1);
    }
    assert newStores == stores + StoresBetween(oldVersion, 1) && newIndexes == indexes + DbIndexesBetween(oldVersion, 1);
    if oldVersion < 2 {
      StepExtendsLayout(2, newStores, newIndexes);
      newIndexes := newIndexes + DbStepIndexes(2);
    }
    assert newStores == stores + StoresBetween(oldVersion, 2) && newIndexes == indexes + DbIndexesBetween(oldVersion, 2);
    if oldVersion < 3 {
      StepExtendsLayout(3, newStores, newIndexes);
      newStores := newStores + StepStores(3);
      newIndexes := newIndexes + DbStepIndexes(3);
    }
  }

  /** The accounts stored under the `selected` codes, taken least code
      first. */
  method InCodeOrder(accounts: map<string, Account>, selected: set<string>) returns (r: seq<Account>)
    requires selected <= accounts.Keys
    requires forall c :: c in accounts ==> accounts[c].code == c
    ensures |r| == |selected|
    ensures forall a :: a in r <==> a.code in selected && accounts[a.code] == a
    ensures forall i, j :: 0 <= i < j < |r| ==> LexLt(r[i].code, r[j].code)
  {
    r := [];
    var rest := selected;
    while rest != {}
      invariant rest <= selected
      invariant |r| + |rest| == |selected|
      invariant forall a :: a in r <==> a.code in selected - rest && accounts[a.code] == a
      invariant forall i, c :: 0 <= i < |r| && c in rest ==> LexLt(r[i].code, c)
      invariant forall i, j :: 0 <= i < j < |r| ==> LexLt(r[i].code, r[j].code)
      decreases |rest|
    {
      LeastExists(rest);
      var c :| c in rest && forall d :: d in rest ==> LexLe(c, d);
      r := r + [accounts[c]];
      rest := rest - {c};
    }
  }

  /** Deleting, key by key, the lines the `entryId` index lists for an
      entry leaves the lines map without exactly that entry's lines. */
  method DeleteOwnLines(lines: map<nat, EntryLine>, own: seq<EntryLine>, entryId: nat) returns (r: map<nat, EntryLine>)
    requires forall l :: l in own <==> l.id in lines && lines[l.id] == l && l.entryId == entryId
    requires forall k :: k in lines ==> lines[k].id == k
    ensures r == LinesWithout(lines, entryId)
  {
    var ids := seq(|own|, j requires 0 <= j < |own| => own[j].id);
    r := DeleteKeys(lines, ids);
    forall k | k in lines
      ensures k in ids <==> lines[k].entryId == entryId
    {
      if lines[k].entryId == entryId {
        assert lines[k] in own;
        var j :| 0 <= j < |own| && own[j] == lines[k];
        assert ids[j] == k;
      }
    }
    assert r == LinesWithout(lines, entryId);
  }

  /** The database a fresh data-layer object opens at version 3 when the
      migration step 2 reads its transaction from the upgrade event. */
  method OpenFresh() returns (db: AccountingDatabase)
    ensures db.Open()
    ensures db.stores == StoresBetween(0, DbVersion) && db.indexes == DbIndexesBetween(0, DbVersion)
  {
    db := new AccountingDatabase();
    db.UpgradeDb();
  }

  /** Opening the data layer's database for the first time, with the
      migration as written: the upgrade never completes. */
  method OpenFreshAsWritten() returns (ready: bool)
    ensures !ready
  {
    var db := new AccountingDatabase();
    ready := db.UpgradeDbAsWritten();
  }

  class AccountingDatabase {
    var version: nat
    var stores: set<StoreName>
    var indexes: set<IndexName>
    var companyConfig: map<int, CompanyConfig>
    var accounts: map<string, Account>
    var entries: map<nat, Entry>
    var nextEntryId: nat
    var lines: map<nat, EntryLine>
    var nextLineId: nat
    var audit: seq<AuditRecord>

    /** The layout matches the version. */
    ghost predicate SchemaValid()
      reads this`version, this`stores, this`indexes
    {
      LayoutAt(version, stores, indexes)
    }

    /** Every record sits under its own key; generated keys start at 1 and
        stay below the next key; audit records are numbered from 1. */
    ghost predicate ConfigKeyed()
      reads this`companyConfig
    {
      forall k :: k in companyConfig ==> companyConfig[k].id == k
    }

    ghost predicate AccountsKeyed()
      reads this`accounts
    {
      forall c :: c in accounts ==> accounts[c].code == c
    }

    ghost predicate EntriesKeyed()
      reads this`entries, this`nextEntryId
    {
      1 <= nextEntryId && forall k :: k in entries ==> 1 <= k < nextEntryId && entries[k].id == k
    }

    ghost predicate LinesKeyed()
      reads this`lines, this`nextLineId
    {
      1 <= nextLineId && forall k :: k in lines ==> 1 <= k < nextLineId && lines[k].id == k
    }

    ghost predicate AuditNumbered()
      reads this`audit
    {
      forall i :: 0 <= i < |audit| ==> audit[i].id == i + 1
    }

    ghost predicate Valid()
      reads this
    {
      SchemaValid() && ConfigKeyed() && AccountsKeyed() && EntriesKeyed() && LinesKeyed() && AuditNumbered()
    }

    /** Open at the current version: every operation below needs this. */
    ghost predicate Open()
      reads this
    {
      Valid() && version == DbVersion
    }

    /** No orphan line and every entry balanced by its own lines. */
    ghost predicate Consistent()
      reads this
    {
      Open() && LedgerConsistent(entries, AllLines())
    }

    /** `getAll()` on the lines store. */
    function AllLines(): seq<EntryLine>
      reads this`lines, this`nextLineId
    {
      Ascending(lines, nextLineId)
    }

    /** `getAll()` on the entries store. */
    function AllEntries(): seq<Entry>
      reads this`entries, this`nextEntryId
    {
      Ascending(entries, nextEntryId)
    }

    lemma LinesListed()
      requires Valid()
      ensures forall l :: l in AllLines() <==> l.id in lines && lines[l.id] == l
      ensures LineIdsIncreasing(AllLines())
    {
      AscendingMembers(lines, nextLineId);
      AscendingIncreasing(lines, nextLineId, (l: EntryLine) => l.id);
    }

    lemma EntriesListed()
      requires Valid()
      ensures forall e :: e in AllEntries() <==> e.id in entries && entries[e.id] == e
      ensures forall i, j :: 0 <= i < j < |AllEntries()| ==> AllEntries()[i].id < AllEntries()[j].id
    {
      AscendingMembers(entries, nextEntryId);
      AscendingIncreasing(entries, nextEntryId, (e: Entry) => e.id);
    }

    /** In a consistent ledger the debits of all stored lines equal their
        credits. */
    lemma ConsistentBooksBalance()
      requires Consistent()
      ensures Debits(Postings(AllLines())) == Credits(Postings(AllLines()))
    {
      ConsistentLedgerBalances(entries, AllLines());
    }

    /** A database that has never been opened: no stores, no records. */
    constructor()
      ensures Valid() && version == 0 && stores == {} && indexes == {}
      ensures companyConfig == map[] && accounts == map[] && entries == map[] && lines == map[] && audit == []
      ensures nextEntryId == 1 && nextLineId == 1
    {
      version, stores, indexes := 0, {}, {};
      companyConfig, accounts, entries, lines, audit := map[], map[], map[], map[], [];
      nextEntryId, nextLineId := 1, 1;
    }

    // ----- Schema migration -----

    /** The application's upgrade handler: each step runs when the old
        version is below its number, in increasing order; a step never
        creates a name that exists and nothing is deleted. */
    method UpgradeApp()
      requires Valid()
      modifies this`version, this`stores, this`indexes
      ensures Open()
      ensures stores == old(stores) + StoresBetween(old(version), DbVersion)
      ensures indexes == old(indexes) + AppIndexesBetween(old(version), DbVersion)
    {
      stores, indexes := AppUpgradeSteps(version, stores, indexes);
      version := DbVersion;
    }

    /** The data layer's upgrade handler with step 2 reading its
        transaction from the upgrade event, as the application does. */
    method UpgradeDb()
      requires Valid()
      modifies this`version, this`stores, this`indexes
      ensures Open()
      ensures stores == old(stores) + StoresBetween(old(version), DbVersion)
      ensures indexes == old(indexes) + DbIndexesBetween(old(version), DbVersion)
    {
      stores, indexes := DbUpgradeSteps(version, stores, indexes);
      version := DbVersion;
    }

    /** The data layer's upgrade handler as written: step 2 names a
        `request` that is not in scope, so whenever it runs the handler
        throws, the version-change transaction aborts and everything the
        upgrade created is rolled back. */
    method UpgradeDbAsWritten() returns (upgraded: bool)
      requires Valid()
      modifies this`version, this`stores, this`indexes
      ensures Valid()
      ensures upgraded <==> old(version) >= 2
      ensures upgraded ==>
        version == DbVersion && stores == old(stores) + StoresBetween(old(version), DbVersion)
        && indexes == old(indexes) + DbIndexesBetween(old(version), DbVersion)
      ensures !upgraded ==> version == old(version) && stores == old(stores) && indexes == old(indexes)
    {
      var newStores, newIndexes := stores, indexes;
      if version < 1 {
        StepExtendsLayout(1, newStores, newIndexes);
        newStores := newStores + StepStores(1);
        newIndexes := newIndexes + DbStepIndexes(1);
      }
      if version < 2 {
        return false;
      }
      if version < 3 {
        StepExtendsLayout(3, newStores, newIndexes);
        newStores := newStores + StepStores(3);
        newIndexes := newIndexes + DbStepIndexes(3);
      }
      stores, indexes, version := newStores, newIndexes, DbVersion;
      return true;
    }

    // ----- Company profile -----

    /** `getCompanyConfig()`: the row under key 1, if any. */
    function GetCompanyConfig(): (r: Option<CompanyConfig>)
      requires Open()
      reads this
      ensures r.Some? <==> 1 in companyConfig
      ensures r.Some? ==> r.value == companyConfig[1] && r.value.id == 1
    {
      if 1 in companyConfig then Some(companyConfig[1]) else None
    }

    /** `saveCompanyConfig(config)`: forces the id to 1 and upserts. */
    method SaveCompanyConfig(c: CompanyConfig)
      requires Open()
      modifies this`companyConfig
      ensures Open()
      ensures companyConfig == old(companyConfig)[1 := c.(id := 1)]
      ensures GetCompanyConfig() == Some(c.(id := 1))
    {
      var stored := c.(id := 1);
      companyConfig := Put(companyConfig, stored.id, stored);
    }

    /** `finalizeSaveConfig(config)`: upsert under the profile's own id,
        then log a system event. */
    method FinalizeSaveConfig(c: CompanyConfig, now: int)
      requires Open()
      modifies this`companyConfig, this`audit
      ensures Open()
      ensures companyConfig == old(companyConfig)[c.id := c]
      ensures c.id == 1 ==> GetCompanyConfig() == Some(c)
      ensures audit == old(audit) + [AuditRecord(|old(audit)| + 1, SystemAction, None, now, "Configuración de empresa actualizada")]
    {
      ghost var oldAudit := audit;
      companyConfig := Put(companyConfig, c.id, c);
      assert audit == oldAudit;
      LogAudit("Configuración de empresa actualizada", now);
    }

    // ----- Audit log -----

    /** `logAudit(message)`: a system event with no entry. */
    method LogAudit(message: string, now: int)
      requires Open()
      modifies this`audit
      ensures Open()
      ensures audit == old(audit) + [AuditRecord(|old(audit)| + 1, SystemAction, None, now, message)]
    {
      audit := audit + [AuditRecord(|audit| + 1, SystemAction, None, now, message)];
    }

    /** `logAuditEvent(action, details, entryId)`: returns the generated key. */
    method LogAuditEvent(action: string, details: string, entryId: Option<nat>, now: int) returns (id: nat)
      requires Open()
      modifies this`audit
      ensures Open()
      ensures id == |old(audit)| + 1
      ensures audit == old(audit) + [AuditRecord(id, action, entryId, now, details)]
    {
      id := |audit| + 1;
      audit := audit + [AuditRecord(id, action, entryId, now, details)];
    }

    /** `getAuditLogByEntry(entryId)`: only the data layer's migration
        creates the audit `entryId` index; without it the read fails. */
    function GetAuditLogByEntry(entryId: nat): (r: Read<seq<AuditRecord>>)
      requires Open()
      reads this
      ensures r.Failed? <==> (AuditStore, ByEntryId) !in indexes
      ensures r.Failed? ==> r.error == NotFoundError
      ensures r.Found? ==> forall a :: a in r.value <==> a in audit && a.entryId == Some(entryId)
    {
      if (AuditStore, ByEntryId) in indexes then Found(AuditFor(audit, entryId)) else Failed(NotFoundError)
    }

    // ----- Chart of accounts -----

    /** `getAccount(code)`. */
    function GetAccount(code: string): (r: Option<Account>)
      requires Open()
      reads this
      ensures r.Some? <==> code in accounts
      ensures r.Some? ==> r.value == accounts[code] && r.value.code == code
    {
      if code in accounts then Some(accounts[code]) else None
    }

    /** `saveAccount(account)`: an upsert keyed by the account's code. */
    method SaveAccount(a: Account)
      requires Open()
      modifies this`accounts
      ensures Open()
      ensures accounts == old(accounts)[a.code := a]
      ensures GetAccount(a.code) == Some(a)
    {
      accounts := Put(accounts, a.code, a);
    }

    /** `add(account)` on the chart: refused when the code exists, which
        leaves the stored account as it was. */
    method AddAccount(a: Account) returns (err: Option<StoreError>)
      requires Open()
      modifies this`accounts
      ensures Open()
      ensures a.code in old(accounts) ==> err == Some(ConstraintError) && accounts == old(accounts)
      ensures a.code !in old(accounts) ==> err == None && accounts == old(accounts)[a.code := a]
    {
      match Add(accounts, a.code, a)
      case Written(m) =>
        accounts := m;
        err := None;
      case Rejected(e) =>
        err := Some(e);
    }

    /** An index read over the chart: the accounts whose codes are in
        `selected`, in increasing code order (equal index keys come back in
        primary-key order). */
    method AccountsInCodeOrder(selected: set<string>) returns (r: seq<Account>)
      requires Open() && selected <= accounts.Keys
      ensures |r| == |selected|
      ensures forall a :: a in r <==> a.code in selected && accounts[a.code] == a
      ensures forall i, j :: 0 <= i < j < |r| ==> LexLt(r[i].code, r[j].code)
    {
      r := InCodeOrder(accounts, selected);
    }

    /** `getAccountsByType(type)`. */
    method GetAccountsByType(t: AccountType) returns (r: seq<Account>)
      requires Open()
      ensures forall a :: a in r <==> a.code in accounts && accounts[a.code] == a && a.accountType == t
      ensures forall i, j :: 0 <= i < j < |r| ==> LexLt(r[i].code, r[j].code)
    {
      r := AccountsInCodeOrder(set c | c in accounts && accounts[c].accountType == t);
    }

    /** `getAccountsByParent(parentCode)`. */
    method GetAccountsByParent(parentCode: string) returns (r: seq<Account>)
      requires Open()
      ensures forall a :: a in r <==> a.code in accounts && accounts[a.code] == a && a.parentCode == parentCode
      ensures forall i, j :: 0 <= i < j < |r| ==> LexLt(r[i].code, r[j].code)
    {
      r := AccountsInCodeOrder(set c | c in accounts && accounts[c].parentCode == parentCode);
    }

    // ----- Entries and lines -----

    /** `getAccountingEntry(id)`. */
    function GetAccountingEntry(id: nat): (r: Option<Entry>)
      requires Open()
      reads this
      ensures r.Some? <==> id in entries
      ensures r.Some? ==> r.value == entries[id] && r.value.id == id
    {
      if id in entries then Some(entries[id]) else None
    }

    /** `add(entry)` on the entries store: the record gets the next key. */
    method AddEntry(date: string, concept: string, totalDebit: int, totalCredit: int, createdAt: Option<int>)
      returns (id: nat)
      requires Open()
      modifies this`entries, this`nextEntryId
      ensures Open()
      ensures id == old(nextEntryId) && id !in old(entries) && nextEntryId == id + 1
      ensures entries == old(entries)[id := Entry(id, date, concept, totalDebit, totalCredit, createdAt)]
      ensures AllEntries() == old(AllEntries()) + [entries[id]]
    {
      id := nextEntryId;
      var e := Entry(id, date, concept, totalDebit, totalCredit, createdAt);
      AscendingPush(entries, id, e);
      entries := entries[id := e];
      nextEntryId := nextEntryId + 1;
    }

    /** `createAccountingEntry(entry)`: stamps `createdAt`, then adds. */
    method CreateAccountingEntry(date: string, concept: string, totalDebit: int, totalCredit: int, now: int)
      returns (id: nat)
      requires Open()
      modifies this`entries, this`nextEntryId
      ensures Open()
      ensures id == old(nextEntryId) && id !in old(entries) && nextEntryId == id + 1
      ensures entries == old(entries)[id := Entry(id, date, concept, totalDebit, totalCredit, Some(now))]
      ensures AllEntries() == old(AllEntries()) + [entries[id]]
    {
      id := AddEntry(date, concept, totalDebit, totalCredit, Some(now));
    }

    /** `createEntryLine(line)`: the line gets the next key of its store. */
    method CreateEntryLine(entryId: nat, accountCode: string, debit: int, credit: int) returns (id: nat)
      requires Open()
      modifies this`lines, this`nextLineId
      ensures Open()
      ensures id == old(nextLineId) && id !in old(lines) && nextLineId == id + 1
      ensures lines == old(lines)[id := EntryLine(id, entryId, accountCode, debit, credit)]
      ensures AllLines() == old(AllLines()) + [lines[id]]
    {
      id := nextLineId;
      var l := EntryLine(id, entryId, accountCode, debit, credit);
      AscendingPush(lines, id, l);
      lines := lines[id := l];
      nextLineId := nextLineId + 1;
    }

    /** `getEntryLinesByEntry(entryId)`: exactly the stored lines of the
        entry, in key order. */
    function GetEntryLinesByEntry(entryId: nat): (r: seq<EntryLine>)
      requires Open()
      reads this
      ensures forall l :: l in r <==> l.id in lines && lines[l.id] == l && l.entryId == entryId
      ensures LineIdsIncreasing(r)
    {
      LinesListed();
      ForEntryMembers(AllLines(), entryId);
      SelectionsKeepIdOrder(AllLines(), "", entryId);
      ForEntry(AllLines(), entryId)
    }

    /** `getEntryLinesByAccount(accountCode)`: exactly the stored lines
        posted to the account, in key order. */
    function GetEntryLinesByAccount(accountCode: string): (r: seq<EntryLine>)
      requires Open()
      reads this
      ensures forall l :: l in r <==> l.id in lines && lines[l.id] == l && l.accountCode == accountCode
      ensures LineIdsIncreasing(r)
    {
      LinesListed();
      ForAccountMembers(AllLines(), accountCode);
      SelectionsKeepIdOrder(AllLines(), accountCode, 0);
      ForAccount(AllLines(), accountCode)
    }

    /** `getEntryLinesByEntryAndAccount(entryId, accountCode)` as written:
        a key-range read of the entry's lines by account code through the
        compound `entryId_accountCode` index, which fails when the index
        does not exist. */
    function GetEntryLinesByEntryAndAccountAsWritten(entryId: nat, accountCode: string): (r: Read<seq<EntryLine>>)
      requires Open()
      reads this
      ensures r.Failed? <==> (LinesStore, ByEntryAndAccount) !in indexes
      ensures r.Failed? ==> r.error == NotFoundError
      ensures r.Found? ==> forall l :: l in r.value <==>
        l.id in lines && lines[l.id] == l && l.entryId == entryId
        && LexLe(accountCode, l.accountCode) && LexLe(l.accountCode, accountCode + [MaxCodeUnit])
    {
      if (LinesStore, ByEntryAndAccount) !in indexes then Failed(NotFoundError)
      else
        LinesListed();
        ForEntryMembers(AllLines(), entryId);
        Found(InCodeRange(ForEntry(AllLines(), entryId), accountCode, accountCode + [MaxCodeUnit]))
    }

    /** No migration step creates the compound index, so on any opened
        database the read above fails, whatever it asks for. */
    lemma EntryAndAccountReadFails(entryId: nat, accountCode: string)
      requires Open()
      ensures GetEntryLinesByEntryAndAccountAsWritten(entryId, accountCode) == Failed(NotFoundError)
    {
      LayoutLacksUncreated(version, stores, indexes);
    }

    /** `getEntryLinesByEntryAndAccount(entryId, accountCode)` through the
        `entryId` index, which exists, keeping the key range on the account
        code: the entry's lines posted to `accountCode` or to one of its
        sub-accounts, in key order. */
    function GetEntryLinesByEntryAndAccount(entryId: nat, accountCode: string): (r: seq<EntryLine>)
      requires Open()
      reads this
      ensures forall l :: l in r <==>
        l.id in lines && lines[l.id] == l && l.entryId == entryId
        && LexLe(accountCode, l.accountCode) && LexLe(l.accountCode, accountCode + [MaxCodeUnit])
      ensures forall l :: l in r ==> IsPrefix(accountCode, l.accountCode)
      ensures LineIdsIncreasing(r)
    {
      var own := GetEntryLinesByEntry(entryId);
      var hi := accountCode + [MaxCodeUnit];
      assert forall c :: LexLe(accountCode, c) && LexLe(c, hi) ==> IsPrefix(accountCode, c) by {
        forall c ensures LexLe(accountCode, c) && LexLe(c, hi) ==> IsPrefix(accountCode, c) {
          PrefixRange(accountCode, c);
        }
      }
      InCodeRangeKeepsIdOrder(own, accountCode, hi);
      InCodeRange(own, accountCode, hi)
    }

    // ----- Saving and deleting entries -----

    /** Adds the postings as lines of entry `entryId`, in order, each
        under the next key. */
    method CreateEntryLines(entryId: nat, ps: seq<Posting>)
      requires Open()
      modifies this`lines, this`nextLineId
      ensures Open()
      ensures nextLineId == old(nextLineId) + |ps|
      ensures AllLines() == old(AllLines()) + StampedLines(ps, entryId, old(nextLineId))
    {
      var i := 0;
      while i < |ps|
        invariant 0 <= i <= |ps|
        invariant Open()
        invariant nextLineId == old(nextLineId) + i
        invariant AllLines() == old(AllLines()) + StampedLines(ps[..i], entryId, old(nextLineId))
      {
        var p := ps[i];
        var _ := CreateEntryLine(entryId, p.accountCode, p.debit, p.credit);
        StampedSnoc(ps, i, entryId, old(nextLineId));
        i := i + 1;
      }
      assert ps[..i] == ps;
    }

    /** `saveAccountingEntry`: the form is validated; an accepted entry is
        stored without a creation time, then its lines in form order under
        fresh keys, each stamped with the entry's key, then one
        `create_entry` audit record. A refused entry writes nothing. The
        ledger stays consistent, and the entry's lines read back through
        the `entryId` index are the form's lines. */
    method SaveAccountingEntry(date: string, concept: string, ps: seq<Posting>, now: int)
      returns (v: Verdict, id: nat)
      requires Open()
      modifies this`entries, this`nextEntryId, this`lines, this`nextLineId, this`audit
      ensures Open()
      ensures v == Validate(date, concept, ps)
      ensures v.Refused? ==>
        entries == old(entries) && nextEntryId == old(nextEntryId) && lines == old(lines)
        && nextLineId == old(nextLineId) && audit == old(audit)
      ensures v.Accepted? ==>
        id == old(nextEntryId) && id !in old(entries) && nextEntryId == id + 1
        && entries == old(entries)[id := Entry(id, date, concept, v.totalDebit, v.totalCredit, None)]
        && AllEntries() == old(AllEntries()) + [entries[id]]
      ensures v.Accepted? ==>
        AllLines() == old(AllLines()) + StampedLines(ps, id, old(nextLineId))
        && nextLineId == old(nextLineId) + |ps|
      ensures v.Accepted? ==>
        audit == old(audit) + [AuditRecord(|old(audit)| + 1, CreateEntryAction, Some(id), now,
                                           "Asiento #" + Decimal(id) + ": " + concept)]
      ensures v.Accepted? ==> EntryBalanced(entries[id], StampedLines(ps, id, old(nextLineId)))
      ensures v.Accepted? && old(Consistent()) ==> Postings(GetEntryLinesByEntry(id)) == ps
      ensures old(Consistent()) ==> Consistent()
    {
      v := ValidateEntry(date, concept, ps);
      if v.Refused? {
        return v, 0;
      }
      ValidateAcceptsIff(date, concept, ps);
      ghost var oldEntries, oldLines := entries, AllLines();
      var firstLine := nextLineId;
      id := WriteEntry(date, concept, v.totalDebit, v.totalCredit, ps, now);
      StampedBalanced(entries[id], ps, firstLine);
      if LedgerConsistent(oldEntries, oldLines) {
        SaveKeepsConsistent(oldEntries, oldLines, entries[id], ps, firstLine);
        StampedPostings(ps, id, firstLine);
      }
    }

    /** The writes of an accepted entry: the entry without a creation
        time, its lines in form order under fresh keys, then one
        `create_entry` audit record. */
    method WriteEntry(date: string, concept: string, totalDebit: int, totalCredit: int, ps: seq<Posting>, now: int)
      returns (id: nat)
      requires Open()
      modifies this`entries, this`nextEntryId, this`lines, this`nextLineId, this`audit
      ensures Open()
      ensures id == old(nextEntryId) && id !in old(entries) && nextEntryId == id + 1
        && entries == old(entries)[id := Entry(id, date, concept, totalDebit, totalCredit, None)]
        && AllEntries() == old(AllEntries()) + [entries[id]]
      ensures AllLines() == old(AllLines()) + StampedLines(ps, id, old(nextLineId))
        && nextLineId == old(nextLineId) + |ps|
      ensures audit == old(audit) + [AuditRecord(|old(audit)| + 1, CreateEntryAction, Some(id), now,
                                                 "Asiento #" + Decimal(id) + ": " + concept)]
    {
      ghost var oldAudit := audit;
      id := AddEntry(date, concept, totalDebit, totalCredit, None);
      ghost var addedEntries, listedEntries := entries, AllEntries();
      CreateEntryLines(id, ps);
      assert audit == oldAudit;
      ghost var addedLines := AllLines();
      var details := "Asiento #" + Decimal(id) + ": " + concept;
      var _ := LogAuditEvent(CreateEntryAction, details, Some(id), now);
      assert audit == oldAudit + [AuditRecord(|oldAudit| + 1, CreateEntryAction, Some(id), now, details)];
      assert entries == addedEntries && AllEntries() == listedEntries && AllLines() == addedLines;
    }

    /** Deletes, one by one through the `entryId` index, every line of the
        entry: what is left is the lines map without them. */
    method DeleteLinesOf(entryId: nat)
      requires Open()
      modifies this`lines
      ensures Open()
      ensures lines == LinesWithout(old(lines), entryId)
      ensures AllLines() == WithoutEntry(old(AllLines()), entryId)
      ensures forall l :: l in AllLines() ==> l.entryId != entryId
    {
      var own := GetEntryLinesByEntry(entryId);
      lines := DeleteOwnLines(lines, own, entryId);
      AscendingLinesWithout(old(lines), nextLineId, entryId);
      WithoutEntryMembers(old(AllLines()), entryId);
    }

    /** `deleteEntry(entryId)`: the entry's lines are deleted through the
        `entryId` index, then the entry, then a `delete_entry` audit record
        naming its concept is written. No line of the entry remains, and a
        consistent ledger stays consistent. */
    method DeleteEntry(entryId: nat, now: int)
      requires Open() && entryId in entries
      modifies this`entries, this`lines, this`audit
      ensures Open()
      ensures entries == old(entries) - {entryId}
      ensures lines == LinesWithout(old(lines), entryId)
      ensures AllLines() == WithoutEntry(old(AllLines()), entryId)
      ensures forall l :: l in AllLines() ==> l.entryId != entryId
      ensures audit == old(audit) + [AuditRecord(|old(audit)| + 1, DeleteEntryAction, Some(entryId), now,
                                                 "Eliminado asiento #" + Decimal(entryId) + ": " + old(entries)[entryId].concept)]
      ensures old(Consistent()) ==> Consistent()
    {
      var details := "Eliminado asiento #" + Decimal(entryId) + ": " + entries[entryId].concept;
      ghost var oldEntries, oldLines, oldAudit := entries, AllLines(), audit;
      DeleteLinesOf(entryId);
      entries := Delete(entries, entryId);
      assert audit == oldAudit;
      var _ := LogAuditEvent(DeleteEntryAction, details, Some(entryId), now);
      assert audit == oldAudit + [AuditRecord(|oldAudit| + 1, DeleteEntryAction, Some(entryId), now, details)];
      if LedgerConsistent(oldEntries, oldLines) {
        DeleteKeepsConsistent(oldEntries, oldLines, entryId);
      }
    }

    /** `deleteAccountingEntry(id)`: the entry's lines, then the entry; no
        audit record, and an absent entry is no error. */
    method DeleteAccountingEntry(entryId: nat)
      requires Open()
      modifies this`entries, this`lines
      ensures Open()
      ensures entries == old(entries) - {entryId}
      ensures lines == LinesWithout(old(lines), entryId)
      ensures AllLines() == WithoutEntry(old(AllLines()), entryId)
      ensures forall l :: l in AllLines() ==> l.entryId != entryId
      ensures old(Consistent()) ==> Consistent()
    {
      ghost var oldEntries, oldLines := entries, AllLines();
      DeleteLinesOf(entryId);
      entries := Delete(entries, entryId);
      if LedgerConsistent(oldEntries, oldLines) {
        DeleteKeepsConsistent(oldEntries, oldLines, entryId);
      }
    }

    // ----- Entry queries -----

    /** `loadAccountingEntries(filter)`: fails only on an inverted date
        range; otherwise exactly the stored entries the filter selects,
        most recent first and, within one date, in key order. */
    function LoadAccountingEntries(f: EntryFilter): (r: Listing)
      requires Open()
      reads this
      ensures r.InvalidRange? <==> UsesRange(f) && !LexLe(LowerBound(f), UpperBound(f))
      ensures r.Listed? ==> OrderedBy(r.entries, true)
      ensures r.Listed? ==> forall e :: e in r.entries <==> e.id in entries && entries[e.id] == e && Selected(e, f)
    {
      EntriesListed();
      ListEntriesSpec(AllEntries(), f);
      ListEntries(AllEntries(), f)
    }

    /** `searchAccountingEntriesByConcept(term)`: the stored entries whose
        concept contains the term regardless of case, in key order. */
    function SearchAccountingEntriesByConcept(term: string): (r: seq<Entry>)
      requires Open()
      reads this
      ensures forall e :: e in r <==> e.id in entries && entries[e.id] == e && ConceptMatches(e, term)
      ensures IsSubsequence(r, AllEntries())
    {
      EntriesListed();
      SearchByConcept(AllEntries(), term)
    }

    /** `getAccountingEntriesByDateRange(from, to)`: a read of the `date`
        index over the inclusive range; an inverted range is a DataError. */
    function GetAccountingEntriesByDateRange(fromDate: string, toDate: string): (r: Read<seq<Entry>>)
      requires Open()
      reads this
      ensures r.Failed? <==> !LexLe(fromDate, toDate)
      ensures r.Failed? ==> r.error == DataError
      ensures r.Found? ==> OrderedBy(r.value, false)
      ensures r.Found? ==> forall e :: e in r.value <==>
        e.id in entries && entries[e.id] == e && LexLe(fromDate, e.date) && LexLe(e.date, toDate)
    {
      if !LexLe(fromDate, toDate) then Failed(DataError)
      else
        EntriesListed();
        var inRange := InDateRange(AllEntries(), fromDate, toDate);
        SubsequenceKeepsTies(inRange, AllEntries());
        SortOrdered(inRange, false);
        var sorted := SortByDate(inRange, false);
        assert forall e :: e in sorted <==> e in multiset(inRange);
        Found(sorted)
    }

    /** `viewEntryDetails(id)`: the entry with its lines as the `entryId`
        index returns them, each labelled with its account's name or, when
        the account is missing or unnamed, with the unknown-account text. */
    function ViewEntryDetails(id: nat): (r: Option<EntryDetail>)
      requires Open()
      reads this
      ensures r.Some? <==> id in entries
      ensures r.Some? ==> r.value.entry == entries[id] && |r.value.lines| == |GetEntryLinesByEntry(id)|
      ensures r.Some? ==> forall i :: 0 <= i < |r.value.lines| ==>
        r.value.lines[i].line == GetEntryLinesByEntry(id)[i]
        && r.value.lines[i].accountName == AccountName(accounts, GetEntryLinesByEntry(id)[i].accountCode)
    {
      JoinAccountsLines(ForEntry(AllLines(), id), accounts);
      EntryDetails(entries, AllLines(), accounts, id)
    }

    // ----- Balances and reports -----

    /** `calculateAccountBalance(code, endDate)`, with "" for no end date:
        debit minus credit over the account's lines, or over those whose
        entry is dated on or before `endDate`. Reading the date of a line's
        missing entry fails the call, which cannot happen in a consistent
        ledger. */
    function CalculateAccountBalance(code: string, endDate: string): (r: Option<int>)
      requires Open()
      reads this
      ensures endDate == "" ==> r == Some(Net(Postings(GetEntryLinesByAccount(code))))
      ensures r.None? <==>
        endDate != "" && exists l :: l in AllLines() && l.accountCode == code && l.entryId !in entries
      ensures endDate != "" && (forall l :: l in AllLines() ==> l.entryId in entries) ==>
        r == Some(DatedBalance(AllLines(), entries, code, endDate))
      ensures Consistent() ==> r.Some?
    {
      AccountBalanceSpec(AllLines(), entries, code, endDate);
      BalanceAsOf(AllLines(), entries, code, endDate)
    }

    /** `calculateBalances(accounts)`: each account's balance over its
        lines from the `accountCode` index, keeping the nonzero ones in
        the order given. */
    method CalculateBalances(accs: seq<Account>) returns (r: seq<AccountBalance>)
      requires Open()
      ensures r == NonZeroBalances(accs, AllLines())
    {
      r := [];
      var i := 0;
      while i < |accs|
        invariant 0 <= i <= |accs|
        invariant r == NonZeroBalances(accs[..i], AllLines())
      {
        var a := accs[i];
        var balance := Net(Postings(GetEntryLinesByAccount(a.code)));
        if balance != 0 {
          r := r + [AccountBalance(a, balance)];
        }
        assert accs[..i + 1][..i] == accs[..i];
        i := i + 1;
      }
      assert accs[..i] == accs;
    }

    /** Whether `bs` lists exactly the stored accounts of type `t` with a
        nonzero balance, each with that balance. */
    ghost predicate ReportsType(bs: seq<AccountBalance>, t: AccountType)
      reads this
    {
      forall b :: b in bs <==>
        b.account.code in accounts && accounts[b.account.code] == b.account && b.account.accountType == t
        && b.balance == Balance(AllLines(), b.account.code) && b.balance != 0
    }

    /** Debit minus credit over every line posted to an account of type `t`. */
    function NetOfType(t: AccountType): int
      reads this
    {
      Net(Postings(InCodes(AllLines(), CodesOfType(accounts, t))))
    }

    /** The balances of the accounts of one type: `getAccountsByType`
        followed by `calculateBalances`. */
    method BalancesOfType(t: AccountType) returns (bs: seq<AccountBalance>)
      requires Open()
      ensures ReportsType(bs, t)
      ensures Total(bs) == NetOfType(t)
    {
      var accs := GetAccountsByType(t);
      bs := CalculateBalances(accs);
      NonZeroBalancesSpec(accs, AllLines());
      TotalIsNetOfAccounts(accs, AllLines());
      CodesOfTypeListed(accounts, t, accs);
    }

    /** `generateBalanceGeneral`: for assets, liabilities and equity, the
        accounts with a nonzero balance and their total, which is the net
        of every line posted to an account of that type. */
    method GenerateBalanceGeneral()
      returns (assets: seq<AccountBalance>, liabilities: seq<AccountBalance>, equity: seq<AccountBalance>,
               assetTotal: int, liabilityTotal: int, equityTotal: int)
      requires Open()
      ensures ReportsType(assets, Asset) && ReportsType(liabilities, Liability) && ReportsType(equity, Equity)
      ensures assetTotal == NetOfType(Asset) && liabilityTotal == NetOfType(Liability) && equityTotal == NetOfType(Equity)
    {
      var a := BalancesOfType(Asset);
      var l := BalancesOfType(Liability);
      var e := BalancesOfType(Equity);
      WithBalanceKeepsNonZero(a);
      WithBalanceKeepsNonZero(l);
      WithBalanceKeepsNonZero(e);
      assets, liabilities, equity := WithBalance(a), WithBalance(l), WithBalance(e);
      assetTotal, liabilityTotal, equityTotal := Total(assets), Total(liabilities), Total(equity);
    }

    /** `calculateBalanceSummary`: the same three totals, summed without
        the zero filter. */
    method CalculateBalanceSummary() returns (assetTotal: int, liabilityTotal: int, equityTotal: int)
      requires Open()
      ensures assetTotal == NetOfType(Asset) && liabilityTotal == NetOfType(Liability) && equityTotal == NetOfType(Equity)
    {
      var a := BalancesOfType(Asset);
      var l := BalancesOfType(Liability);
      var e := BalancesOfType(Equity);
      assetTotal, liabilityTotal, equityTotal := Total(a), Total(l), Total(e);
    }

    // ----- First-run data -----

    /** Adds `chart` in order in one transaction: committed when every
        add succeeds, aborted (nothing written) when one fails. */
    method AddAccounts(chart: seq<Account>) returns (ok: bool)
      requires Open() && CodesDistinct(chart)
      modifies this`accounts
      ensures Open()
      ensures ok <==> forall i :: 0 <= i < |chart| ==> chart[i].code !in old(accounts)
      ensures ok ==> accounts == old(accounts) + ChartPrefixMap(chart, |chart|)
      ensures !ok ==> accounts == old(accounts)
    {
      var pending;
      ok, pending := AddInTransaction(accounts, chart);
      if ok {
        ChartPrefixMapCodes(chart, |chart|);
        accounts := pending;
      }
    }

    /** Puts `chart` in order, replacing what is stored under its codes. */
    method PutAccounts(chart: seq<Account>)
      requires Open()
      modifies this`accounts
      ensures Open()
      ensures accounts == old(accounts) + ChartPrefixMap(chart, |chart|)
    {
      var i := 0;
      assert old(accounts) + ChartPrefixMap(chart, 0) == accounts;
      while i < |chart|
        invariant 0 <= i <= |chart|
        invariant Open()
        invariant accounts == old(accounts) + ChartPrefixMap(chart, i)
      {
        ghost var prefix := ChartPrefixMap(chart, i);
        assert ChartPrefixMap(chart, i + 1) == prefix[chart[i].code := chart[i]];
        UnionUpdate(old(accounts), prefix, chart[i].code, chart[i]);
        SaveAccount(chart[i]);
        assert accounts == old(accounts) + ChartPrefixMap(chart, i + 1);
        i := i + 1;
      }
    }

    /** Adds the seed chart in one transaction. */
    method AddSeedChart() returns (ok: bool)
      requires Open()
      modifies this`accounts
      ensures Open()
      ensures ok <==> ChartMap().Keys !! old(accounts).Keys
      ensures ok ==> accounts == old(accounts) + ChartMap()
      ensures !ok ==> accounts == old(accounts)
    {
      SeedCodesDistinct();
      ChartMapDisjoint(accounts);
      ok := AddAccounts(Chart());
    }

    /** Puts the seed chart, replacing what is stored under its codes;
        `SeedChartStored` shows every seed account is then stored under
        its code. */
    method PutSeedChart()
      requires Open()
      modifies this`accounts
      ensures Open()
      ensures accounts == old(accounts) + ChartMap()
    {
      PutAccounts(Chart());
    }

    /** `loadChartOfAccounts`: adds the seed chart in one transaction;
        either every seed account is added and the load is logged, or some
        code was taken and nothing changes. */
    method LoadChartOfAccounts(now: int)
      requires Open()
      modifies this`accounts, this`audit
      ensures Open()
      ensures ChartMap().Keys !! old(accounts).Keys ==>
        accounts == old(accounts) + ChartMap()
        && audit == old(audit) + [AuditRecord(|old(audit)| + 1, SystemAction, None, now, "Plan de cuentas inicial cargado")]
      ensures !(ChartMap().Keys !! old(accounts).Keys) ==> accounts == old(accounts) && audit == old(audit)
    {
      var ok := AddSeedChart();
      if ok {
        LogAudit("Plan de cuentas inicial cargado", now);
      }
    }

    /** `checkInitialData`: loads the seed chart when the chart store is empty. */
    method CheckInitialData(now: int)
      requires Open()
      modifies this`accounts, this`audit
      ensures Open()
      ensures old(accounts) == map[] ==>
        accounts == ChartMap()
        && audit == old(audit) + [AuditRecord(|old(audit)| + 1, SystemAction, None, now, "Plan de cuentas inicial cargado")]
      ensures old(accounts) != map[] ==> accounts == old(accounts) && audit == old(audit)
    {
      if |accounts| == 0 {
        ghost var oldAudit := audit;
        assert accounts == map[];
        UnionWithEmpty(accounts, ChartMap());
        LoadChartOfAccounts(now);
        assert audit == oldAudit + [AuditRecord(|oldAudit| + 1, SystemAction, None, now, "Plan de cuentas inicial cargado")];
      }
    }

    /** `initializeSampleData`: when no company profile is stored, writes
        the default profile, puts every seed account (replacing any stored
        under the same code) and logs an `init` event; otherwise does
        nothing, so running it again changes nothing. */
    method InitializeSampleData(now: int)
      requires Open()
      modifies this`companyConfig, this`accounts, this`audit
      ensures Open()
      ensures 1 in old(companyConfig) ==>
        companyConfig == old(companyConfig) && accounts == old(accounts) && audit == old(audit)
      ensures 1 !in old(companyConfig) ==>
        companyConfig == old(companyConfig)[1 := DefaultConfig]
        && accounts == old(accounts) + ChartMap()
        && audit == old(audit) + [AuditRecord(|old(audit)| + 1, InitAction, None, now, "Datos iniciales cargados")]
      ensures 1 !in old(companyConfig) ==> GetCompanyConfig() == Some(DefaultConfig)
    {
      if GetCompanyConfig().Some? {
        return;
      }
      ghost var oldAudit := audit;
      SaveCompanyConfig(DefaultConfig);
      PutSeedChart();
      assert audit == oldAudit;
      ghost var seeded, profile := accounts, companyConfig;
      var _ := LogAuditEvent(InitAction, "Datos iniciales cargados", None, now);
      assert audit == oldAudit + [AuditRecord(|oldAudit| + 1, InitAction, None, now, "Datos iniciales cargados")];
      assert accounts == seeded && companyConfig == profile;
    }
  }
}
