/** The database layout and its version-gated migration steps. Both
    browser modules open the same database at version 3 and each carries
    its own copy of the steps: the application's (`initDB`) and the data
    layer's (`createObjectStores`). They agree on steps 1 and 2 and differ
    in step 3, where the data layer also indexes the audit log by action
    and by entry. */
module Schema {

  const DbVersion: nat := 3

  /** The object stores: 'companyConfig', 'chartOfAccounts',
      'accountingEntries', 'entryLines' and 'auditLog'. */
  datatype StoreName = ConfigStore | AccountsStore | EntriesStore | LinesStore | AuditStore

  /** The key paths indexes are built on: 'parentCode', 'accountType',
      'date', 'concept', 'createdAt', 'entryId', 'accountCode', the
      compound ['entryId', 'accountCode'], 'timestamp' and 'action'. */
  datatype IndexKey =
    | ByParentCode | ByAccountType | ByDate | ByConcept | ByCreatedAt
    | ByEntryId | ByAccountCode | ByEntryAndAccount | ByTimestamp | ByAction

  /** An index is named by its store and its key path. */
  type IndexName = (StoreName, IndexKey)

  /** The object stores step `n` creates. */
  function StepStores(n: nat): set<StoreName>
  {
    if n == 1 then {ConfigStore, AccountsStore, EntriesStore, LinesStore}
    else if n == 3 then {AuditStore}
    else {}
  }

  /** The indexes step `n` creates in the application's copy. */
  function AppStepIndexes(n: nat): set<IndexName>
  {
    if n == 1 then {(AccountsStore, ByParentCode), (EntriesStore, ByDate),
                    (LinesStore, ByEntryId), (LinesStore, ByAccountCode)}
    else if n == 2 then {(EntriesStore, ByConcept), (AccountsStore, ByAccountType)}
    else if n == 3 then {(AuditStore, ByTimestamp)}
    else {}
  }

  /** The indexes step `n` creates in the data layer's copy. */
  function DbStepIndexes(n: nat): set<IndexName>
  {
    if n == 3 then {(AuditStore, ByTimestamp), (AuditStore, ByAction), (AuditStore, ByEntryId)}
    else AppStepIndexes(n)
  }

  /** What steps `lo + 1` to `hi` create, in that order. */
  function StoresBetween(lo: nat, hi: nat): set<StoreName>
  {
    if hi <= lo then {} else StoresBetween(lo, hi - 1) + StepStores(hi)
  }

  function AppIndexesBetween(lo: nat, hi: nat): set<IndexName>
  {
    if hi <= lo then {} else AppIndexesBetween(lo, hi - 1) + AppStepIndexes(hi)
  }

  function DbIndexesBetween(lo: nat, hi: nat): set<IndexName>
  {
    if hi <= lo then {} else DbIndexesBetween(lo, hi - 1) + DbStepIndexes(hi)
  }

  /** The layout a database at version `v` may have: its stores are those
      of steps 1 to `v`, and its indexes are at least the application's and
      at most the data layer's (whichever module upgraded it). */
  predicate LayoutAt(v: nat, stores: set<StoreName>, indexes: set<IndexName>)
  {
    v <= DbVersion && stores == StoresBetween(0, v)
    && AppIndexesBetween(0, v) <= indexes <= DbIndexesBetween(0, v)
  }

  /** Step `k` applied to the layout of version `k - 1` creates no name
      that exists (so none of its calls fails) and yields the layout of
      version `k`, whichever module's copy of the step runs. */
  lemma StepExtendsLayout(k: nat, stores: set<StoreName>, indexes: set<IndexName>)
    requires 1 <= k <= DbVersion && LayoutAt(k - 1, stores, indexes)
    ensures stores !! StepStores(k) && indexes !! DbStepIndexes(k)
    ensures LayoutAt(k, stores + StepStores(k), indexes + AppStepIndexes(k))
    ensures LayoutAt(k, stores + StepStores(k), indexes + DbStepIndexes(k))
  {
    assert k == 1 || k == 2 || k == 3;
  }

  /** Running steps `v + 1` to `hi` from the layout of version `v` creates
      nothing that exists and yields the layout of version `hi`. */
  lemma {:induction false} UpgradeReaches(v: nat, hi: nat, stores: set<StoreName>, indexes: set<IndexName>)
    requires v <= hi <= DbVersion && LayoutAt(v, stores, indexes)
    ensures stores !! StoresBetween(v, hi) && indexes !! DbIndexesBetween(v, hi)
    ensures LayoutAt(hi, stores + StoresBetween(v, hi), indexes + AppIndexesBetween(v, hi))
    ensures LayoutAt(hi, stores + StoresBetween(v, hi), indexes + DbIndexesBetween(v, hi))
    decreases hi
  {
    if hi == v {
      assert stores + StoresBetween(v, hi) == stores;
      assert indexes + AppIndexesBetween(v, hi) == indexes;
      assert indexes + DbIndexesBetween(v, hi) == indexes;
    } else {
      UpgradeReaches(v, hi - 1, stores, indexes);
      var s := stores + StoresBetween(v, hi - 1);
      StepExtendsLayout(hi, s, indexes + AppIndexesBetween(v, hi - 1));
      StepExtendsLayout(hi, s, indexes + DbIndexesBetween(v, hi - 1));
      assert s + StepStores(hi) == stores + StoresBetween(v, hi);
      assert indexes + AppIndexesBetween(v, hi - 1) + AppStepIndexes(hi) == indexes + AppIndexesBetween(v, hi);
      assert indexes + DbIndexesBetween(v, hi - 1) + DbStepIndexes(hi) == indexes + DbIndexesBetween(v, hi);
    }
  }

  /** What an upgrade from each old version creates, step by step. */
  lemma StepContents(oldVersion: nat)
    ensures StoresBetween(oldVersion, DbVersion) ==
      (if oldVersion < 1 then StepStores(1) else {}) + (if oldVersion < 3 then StepStores(3) else {})
    ensures AppIndexesBetween(oldVersion, DbVersion) ==
      (if oldVersion < 1 then AppStepIndexes(1) else {}) + (if oldVersion < 2 then AppStepIndexes(2) else {})
      + (if oldVersion < 3 then AppStepIndexes(3) else {})
    ensures DbIndexesBetween(oldVersion, DbVersion) ==
      (if oldVersion < 1 then DbStepIndexes(1) else {}) + (if oldVersion < 2 then DbStepIndexes(2) else {})
      + (if oldVersion < 3 then DbStepIndexes(3) else {})
  {
    if oldVersion == 0 {
      assert StoresBetween(0, 3) == StoresBetween(0, 2) + StepStores(3);
    } else if oldVersion == 1 {
    } else if oldVersion == 2 {
    }
  }

  /** Step `n` is part of an upgrade from `oldVersion` exactly when
      `oldVersion < n`; at the current version an upgrade creates nothing. */
  lemma StepRunsIff(oldVersion: nat, n: nat)
    requires 1 <= n <= DbVersion
    ensures AppStepIndexes(n) <= AppIndexesBetween(oldVersion, DbVersion) <==> oldVersion < n
    ensures DbStepIndexes(n) <= DbIndexesBetween(oldVersion, DbVersion) <==> oldVersion < n
    ensures StoresBetween(DbVersion, DbVersion) == {}
    ensures AppIndexesBetween(DbVersion, DbVersion) == {} && DbIndexesBetween(DbVersion, DbVersion) == {}
  {
    StepContents(oldVersion);
    if n == 1 {
      assert (AccountsStore, ByParentCode) in AppStepIndexes(n);
    } else if n == 2 {
      assert (EntriesStore, ByConcept) in AppStepIndexes(n);
    } else {
      assert (AuditStore, ByTimestamp) in AppStepIndexes(n);
    }
  }

  /** The indexes the data layer's schema table declares (`DB_SCHEMA`). */
  const DeclaredIndexes: set<IndexName> :=
    {(AccountsStore, ByParentCode), (AccountsStore, ByAccountType),
     (EntriesStore, ByDate), (EntriesStore, ByConcept), (EntriesStore, ByCreatedAt),
     (LinesStore, ByEntryId), (LinesStore, ByAccountCode), (LinesStore, ByEntryAndAccount),
     (AuditStore, ByTimestamp), (AuditStore, ByAction), (AuditStore, ByEntryId)}

  /** No migration step creates the declared `createdAt` and
      `entryId_accountCode` indexes, so the declared table is not the
      layout either copy of the migration produces. */
  lemma DeclaredLayoutNotCreated()
    ensures (EntriesStore, ByCreatedAt) in DeclaredIndexes - DbIndexesBetween(0, DbVersion)
    ensures (LinesStore, ByEntryAndAccount) in DeclaredIndexes - DbIndexesBetween(0, DbVersion)
    ensures DbIndexesBetween(0, DbVersion) < DeclaredIndexes
    ensures AppIndexesBetween(0, DbVersion) < DbIndexesBetween(0, DbVersion)
  {
  }

  /** Whatever version a database is at, it has neither of the two
      declared indexes no step creates, so reading through them fails. */
  lemma LayoutLacksUncreated(v: nat, stores: set<StoreName>, indexes: set<IndexName>)
    requires LayoutAt(v, stores, indexes)
    ensures (LinesStore, ByEntryAndAccount) !in indexes
    ensures (EntriesStore, ByCreatedAt) !in indexes
  {
    assert v == 0 || v == 1 || v == 2 || v == 3;
  }
}
