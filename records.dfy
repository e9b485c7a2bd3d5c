/** The records the ledger stores, and the sums over their amounts.
    Amounts are integer cents, so the two-decimal comparison of the
    browser code is exact equality here. */
module Records {

  datatype Option<T> = None | Some(value: T)

  /** `accountType` of the chart: 'activo', 'pasivo', 'patrimonio',
      'gasto', 'ingreso'. */
  datatype AccountType = Asset | Liability | Equity | Expense | Income

  /** A row of `chartOfAccounts`, keyed by `code`; roots have parentCode "". */
  datatype Account = Account(
    code: string,
    name: string,
    parentCode: string,
    accountType: AccountType,
    editable: bool)

  /** One line as the entry form collects it, before it is stored. */
  datatype Posting = Posting(accountCode: string, debit: int, credit: int)

  /** A row of `accountingEntries`. `createdAt` is only set by the generic
      store path; timestamps are opaque numbers. */
  datatype Entry = Entry(
    id: nat,
    date: string,
    concept: string,
    totalDebit: int,
    totalCredit: int,
    createdAt: Option<int>)

  /** A row of `entryLines`: a posting stamped with its owning entry. */
  datatype EntryLine = EntryLine(
    id: nat,
    entryId: nat,
    accountCode: string,
    debit: int,
    credit: int)
  {
    function AsPosting(): Posting
    {
      Posting(accountCode, debit, credit)
    }
  }

  /** A row of `auditLog`; `entryId` is absent for system events. */
  datatype AuditRecord = AuditRecord(
    id: nat,
    action: string,
    entryId: Option<nat>,
    timestamp: int,
    details: string)

  /** The singleton row of `companyConfig`. */
  datatype CompanyConfig = CompanyConfig(
    id: int,
    name: string,
    phone: string,
    email: string,
    address: string,
    nif: string,
    logo: Option<string>)

  const CreateEntryAction := "create_entry"
  const DeleteEntryAction := "delete_entry"
  const SystemAction := "system"
  const InitAction := "init"

  /** Sum of the debits, accumulated front to back as the entry form does. */
  function Debits(ps: seq<Posting>): int
  {
    if ps == [] then 0 else Debits(ps[..|ps| - 1]) + ps[|ps| - 1].debit
  }

  function Credits(ps: seq<Posting>): int
  {
    if ps == [] then 0 else Credits(ps[..|ps| - 1]) + ps[|ps| - 1].credit
  }

  /** `reduce((sum, line) => sum + line.debit - line.credit, 0)`. */
  function Net(ps: seq<Posting>): int
  {
    if ps == [] then 0 else Net(ps[..|ps| - 1]) + ps[|ps| - 1].debit - ps[|ps| - 1].credit
  }

  function Postings(ls: seq<EntryLine>): (ps: seq<Posting>)
    ensures |ps| == |ls|
    ensures forall i :: 0 <= i < |ls| ==> ps[i] == ls[i].AsPosting()
  {
    if ls == [] then [] else Postings(ls[..|ls| - 1]) + [ls[|ls| - 1].AsPosting()]
  }

  /** The net of a sequence of postings is its debit total minus its credit total. */
  lemma {:induction false} NetIsDebitsMinusCredits(ps: seq<Posting>)
    ensures Net(ps) == Debits(ps) - Credits(ps)
  {
    if ps != [] {
      NetIsDebitsMinusCredits(ps[..|ps| - 1]);
    }
  }

  lemma {:induction false} NetAppend(a: seq<Posting>, b: seq<Posting>)
    ensures Net(a + b) == Net(a) + Net(b)
    decreases |b|
  {
    if b == [] {
      assert a + b == a;
    } else {
      assert (a + b)[..|a + b| - 1] == a + b[..|b| - 1];
      NetAppend(a, b[..|b| - 1]);
    }
  }

  lemma {:induction false} DebitsAppend(a: seq<Posting>, b: seq<Posting>)
    ensures Debits(a + b) == Debits(a) + Debits(b)
    decreases |b|
  {
    if b == [] {
      assert a + b == a;
    } else {
      assert (a + b)[..|a + b| - 1] == a + b[..|b| - 1];
      DebitsAppend(a, b[..|b| - 1]);
    }
  }

  lemma {:induction false} CreditsAppend(a: seq<Posting>, b: seq<Posting>)
    ensures Credits(a + b) == Credits(a) + Credits(b)
    decreases |b|
  {
    if b == [] {
      assert a + b == a;
    } else {
      assert (a + b)[..|a + b| - 1] == a + b[..|b| - 1];
      CreditsAppend(a, b[..|b| - 1]);
    }
  }

  lemma PostingsAppend(a: seq<EntryLine>, b: seq<EntryLine>)
    ensures Postings(a + b) == Postings(a) + Postings(b)
  {
  }

  /** The net of a non-empty run of lines is the net of all but the last
      line plus the last line's debit minus credit. */
  lemma NetLast(ls: seq<EntryLine>)
    requires ls != []
    ensures Net(Postings(ls)) == Net(Postings(ls[..|ls| - 1])) + ls[|ls| - 1].debit - ls[|ls| - 1].credit
  {
    var ps := Postings(ls);
    assert ps[..|ps| - 1] == Postings(ls[..|ls| - 1]);
  }

  lemma NetSnoc(ls: seq<EntryLine>, l: EntryLine)
    ensures Net(Postings(ls + [l])) == Net(Postings(ls)) + l.debit - l.credit
  {
    assert (ls + [l])[..|ls|] == ls;
    assert Postings(ls + [l]) == Postings(ls) + [l.AsPosting()];
    assert (Postings(ls) + [l.AsPosting()])[..|ls|] == Postings(ls);
  }

  /** The line checks of the entry form: an account code is given, the
      line is not all zero, and it is not both debited and credited with
      positive amounts. */
  predicate LineAccepted(p: Posting)
  {
    p.accountCode != "" && !(p.debit == 0 && p.credit == 0) && !(p.debit > 0 && p.credit > 0)
  }
}
