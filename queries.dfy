/** The read side of the ledger as pure functions over what the stores
    return: line selections by index, account balances (optionally up to a
    date), the concept search, the stable sort by date, the entry listing,
    the line-to-account join, and the per-account balances and totals of
    the balance sheet. Sequences passed in are in the order the store
    returns them. */
module Queries {
  import opened Text
  import opened Records

  // ----- Line selections (the `accountCode` and `entryId` indexes) -----

  /** `index('accountCode').getAll(code)`: equal index keys come back in
      primary-key order, so this keeps the store order. */
  function ForAccount(ls: seq<EntryLine>, code: string): seq<EntryLine>
  {
    if ls == [] then []
    else ForAccount(ls[..|ls| - 1], code) + (if ls[|ls| - 1].accountCode == code then [ls[|ls| - 1]] else [])
  }

  /** `index('entryId').getAll(id)`. */
  function ForEntry(ls: seq<EntryLine>, id: nat): seq<EntryLine>
  {
    if ls == [] then []
    else ForEntry(ls[..|ls| - 1], id) + (if ls[|ls| - 1].entryId == id then [ls[|ls| - 1]] else [])
  }

  /** The lines that survive deleting entry `id` with its lines. */
  function WithoutEntry(ls: seq<EntryLine>, id: nat): seq<EntryLine>
  {
    if ls == [] then []
    else WithoutEntry(ls[..|ls| - 1], id) + (if ls[|ls| - 1].entryId != id then [ls[|ls| - 1]] else [])
  }

  /** The lines posted to any of the accounts `codes`. */
  function InCodes(ls: seq<EntryLine>, codes: set<string>): seq<EntryLine>
  {
    if ls == [] then []
    else InCodes(ls[..|ls| - 1], codes) + (if ls[|ls| - 1].accountCode in codes then [ls[|ls| - 1]] else [])
  }

  /** Each selection over two runs of lines is the concatenation of the
      selections over each run. */
  lemma SelectionsAppend(a: seq<EntryLine>, b: seq<EntryLine>, code: string, id: nat, codes: set<string>)
    ensures ForAccount(a + b, code) == ForAccount(a, code) + ForAccount(b, code)
    ensures ForEntry(a + b, id) == ForEntry(a, id) + ForEntry(b, id)
    ensures WithoutEntry(a + b, id) == WithoutEntry(a, id) + WithoutEntry(b, id)
    ensures InCodes(a + b, codes) == InCodes(a, codes) + InCodes(b, codes)
  {
    ForAccountAppend(a, b, code);
    ForEntryAppend(a, b, id);
    WithoutEntryAppend(a, b, id);
    InCodesAppend(a, b, codes);
  }

  lemma {:induction false} ForAccountAppend(a: seq<EntryLine>, b: seq<EntryLine>, code: string)
    ensures ForAccount(a + b, code) == ForAccount(a, code) + ForAccount(b, code)
    decreases |b|
  {
    if b == [] {
      assert a + b == a;
    } else {
      assert (a + b)[..|a + b| - 1] == a + b[..|b| - 1];
      ForAccountAppend(a, b[..|b| - 1], code);
    }
  }

  lemma {:induction false} ForEntryAppend(a: seq<EntryLine>, b: seq<EntryLine>, id: nat)
    ensures ForEntry(a + b, id) == ForEntry(a, id) + ForEntry(b, id)
    decreases |b|
  {
    if b == [] {
      assert a + b == a;
    } else {
      assert (a + b)[..|a + b| - 1] == a + b[..|b| - 1];
      ForEntryAppend(a, b[..|b| - 1], id);
    }
  }

  lemma {:induction false} WithoutEntryAppend(a: seq<EntryLine>, b: seq<EntryLine>, id: nat)
    ensures WithoutEntry(a + b, id) == WithoutEntry(a, id) + WithoutEntry(b, id)
    decreases |b|
  {
    if b == [] {
      assert a + b == a;
    } else {
      assert (a + b)[..|a + b| - 1] == a + b[..|b| - 1];
      WithoutEntryAppend(a, b[..|b| - 1], id);
    }
  }

  lemma {:induction false} InCodesAppend(a: seq<EntryLine>, b: seq<EntryLine>, codes: set<string>)
    ensures InCodes(a + b, codes) == InCodes(a, codes) + InCodes(b, codes)
    decreases |b|
  {
    if b == [] {
      assert a + b == a;
    } else {
      assert (a + b)[..|a + b| - 1] == a + b[..|b| - 1];
      InCodesAppend(a, b[..|b| - 1], codes);
    }
  }

  lemma {:induction false} ForAccountMembers(ls: seq<EntryLine>, code: string)
    ensures forall l :: l in ForAccount(ls, code) <==> l in ls && l.accountCode == code
  {
    if ls != [] {
      ForAccountMembers(ls[..|ls| - 1], code);
      assert ls == ls[..|ls| - 1] + [ls[|ls| - 1]];
    }
  }

  lemma {:induction false} ForEntryMembers(ls: seq<EntryLine>, id: nat)
    ensures forall l :: l in ForEntry(ls, id) <==> l in ls && l.entryId == id
  {
    if ls != [] {
      ForEntryMembers(ls[..|ls| - 1], id);
      assert ls == ls[..|ls| - 1] + [ls[|ls| - 1]];
    }
  }

  /** Lines listed in increasing id order, as `getAll` returns them. */
  predicate LineIdsIncreasing(ls: seq<EntryLine>)
  {
    forall i, j :: 0 <= i < j < |ls| ==> ls[i].id < ls[j].id
  }

  /** An index read keeps the primary-key order of the lines it returns. */
  lemma {:induction false} SelectionsKeepIdOrder(ls: seq<EntryLine>, code: string, id: nat)
    requires LineIdsIncreasing(ls)
    ensures LineIdsIncreasing(ForAccount(ls, code))
    ensures LineIdsIncreasing(ForEntry(ls, id))
  {
    if ls != [] {
      var init, last := ls[..|ls| - 1], ls[|ls| - 1];
      assert forall l :: l in init ==> l.id < last.id;
      SelectionsKeepIdOrder(init, code, id);
      ForAccountMembers(init, code);
      ForEntryMembers(init, id);
      IncreasingSnoc(ForAccount(init, code), last, last.accountCode == code);
      IncreasingSnoc(ForEntry(init, id), last, last.entryId == id);
    }
  }

  /** Appending a line with a larger id keeps the ids increasing. */
  lemma IncreasingSnoc(pre: seq<EntryLine>, last: EntryLine, keep: bool)
    requires LineIdsIncreasing(pre)
    requires forall l :: l in pre ==> l.id < last.id
    ensures LineIdsIncreasing(pre + (if keep then [last] else []))
  {
    if !keep {
      assert pre + [] == pre;
    }
  }

  /** The lines whose account code lies in the inclusive key range from
      `lo` to `hi`, in the order given. */
  function InCodeRange(ls: seq<EntryLine>, lo: string, hi: string): (r: seq<EntryLine>)
    ensures forall l :: l in r <==> l in ls && LexLe(lo, l.accountCode) && LexLe(l.accountCode, hi)
  {
    if ls == [] then []
    else
      var init, last := ls[..|ls| - 1], ls[|ls| - 1];
      assert ls == init + [last];
      var rest := InCodeRange(init, lo, hi);
      if LexLe(lo, last.accountCode) && LexLe(last.accountCode, hi) then rest + [last] else rest
  }

  lemma {:induction false} InCodeRangeKeepsIdOrder(ls: seq<EntryLine>, lo: string, hi: string)
    requires LineIdsIncreasing(ls)
    ensures LineIdsIncreasing(InCodeRange(ls, lo, hi))
  {
    if ls != [] {
      var init, last := ls[..|ls| - 1], ls[|ls| - 1];
      assert forall l :: l in init ==> l.id < last.id;
      InCodeRangeKeepsIdOrder(init, lo, hi);
    }
  }

  lemma {:induction false} WithoutEntryMembers(ls: seq<EntryLine>, id: nat)
    ensures forall l :: l in WithoutEntry(ls, id) <==> l in ls && l.entryId != id
  {
    if ls != [] {
      WithoutEntryMembers(ls[..|ls| - 1], id);
      assert ls == ls[..|ls| - 1] + [ls[|ls| - 1]];
    }
  }

  /** A selection that matches every line is the identity, one that
      matches none is empty. */
  lemma {:induction false} ForEntryWhenNone(ls: seq<EntryLine>, id: nat)
    requires forall l :: l in ls ==> l.entryId != id
    ensures ForEntry(ls, id) == []
    ensures WithoutEntry(ls, id) == ls
  {
    if ls != [] {
      SnocParts(ls);
      ForEntryWhenNone(ls[..|ls| - 1], id);
    }
  }

  lemma {:induction false} ForEntryWhenAll(ls: seq<EntryLine>, id: nat)
    requires forall l :: l in ls ==> l.entryId == id
    ensures ForEntry(ls, id) == ls
  {
    if ls != [] {
      SnocParts(ls);
      ForEntryWhenAll(ls[..|ls| - 1], id);
    }
  }

  lemma {:induction false} WithoutEntryWhenAll(ls: seq<EntryLine>, id: nat)
    requires forall l :: l in ls ==> l.entryId == id
    ensures WithoutEntry(ls, id) == []
  {
    if ls != [] {
      SnocParts(ls);
      WithoutEntryWhenAll(ls[..|ls| - 1], id);
    }
  }

  /** Every element of the prefix is an element of the sequence. */
  lemma InitMembers<T>(s: seq<T>)
    requires s != []
    ensures forall x :: x in s[..|s| - 1] ==> x in s
  {
  }

  /** A non-empty sequence is its prefix followed by its last element. */
  lemma SnocParts<T>(s: seq<T>)
    requires s != []
    ensures s == s[..|s| - 1] + [s[|s| - 1]]
    ensures forall x :: x in s[..|s| - 1] ==> x in s
  {
  }

  /** Removing one entry's lines leaves every other entry's lines as they were. */
  lemma {:induction false} ForEntryAfterRemoval(ls: seq<EntryLine>, gone: nat, id: nat)
    requires gone != id
    ensures ForEntry(WithoutEntry(ls, gone), id) == ForEntry(ls, id)
  {
    if ls != [] {
      var init := ls[..|ls| - 1];
      ForEntryAfterRemoval(init, gone, id);
      var last := ls[|ls| - 1];
      SelectionsAppend(WithoutEntry(init, gone), if last.entryId != gone then [last] else [], "", id, {});
    }
  }

  // ----- Balances -----

  /** `calculateAccountBalance(code)`: the reduce of debit minus credit
      over the account's lines. */
  function Balance(ls: seq<EntryLine>, code: string): int
  {
    Net(Postings(ForAccount(ls, code)))
  }

  /** What one line adds to the balance of `code`. */
  function Contribution(l: EntryLine, code: string): int
  {
    if l.accountCode == code then l.debit - l.credit else 0
  }

  lemma {:induction false} BalanceAppend(a: seq<EntryLine>, b: seq<EntryLine>, code: string)
    ensures Balance(a + b, code) == Balance(a, code) + Balance(b, code)
  {
    SelectionsAppend(a, b, code, 0, {});
    PostingsAppend(ForAccount(a, code), ForAccount(b, code));
    NetAppend(Postings(ForAccount(a, code)), Postings(ForAccount(b, code)));
  }

  lemma BalanceSingle(l: EntryLine, code: string)
    ensures Balance([l], code) == Contribution(l, code)
  {
    assert [l][..0] == [];
    assert [] + [l] == [l];
    NetSnoc([], l);
    if l.accountCode == code {
      assert ForAccount([l], code) == [l];
    } else {
      assert ForAccount([l], code) == [];
    }
  }

  /** An account with no lines has balance 0. */
  lemma {:induction false} BalanceWithoutLines(ls: seq<EntryLine>, code: string)
    requires forall l :: l in ls ==> l.accountCode != code
    ensures Balance(ls, code) == 0
  {
    if ls != [] {
      var init := ls[..|ls| - 1];
      assert ls == init + [ls[|ls| - 1]];
      BalanceWithoutLines(init, code);
      BalanceAppend(init, [ls[|ls| - 1]], code);
      BalanceSingle(ls[|ls| - 1], code);
    }
  }

  /** The balance does not depend on the order the lines are read in. */
  lemma {:induction false} BalanceOrderIndependent(a: seq<EntryLine>, b: seq<EntryLine>, code: string)
    requires multiset(a) == multiset(b)
    ensures Balance(a, code) == Balance(b, code)
    decreases |a|
  {
    if a == [] {
      assert |b| == |multiset(b)| == 0;
    } else {
      var k := FindLast(a, b);
      MultisetWithout(a, |a| - 1);
      MultisetWithout(b, k);
      BalanceOrderIndependent(a[..|a| - 1] + a[|a|..], b[..k] + b[k + 1..], code);
      BalanceWithout(a, |a| - 1, code);
      BalanceWithout(b, k, code);
    }
  }

  /** Where the last element of `a` sits in a permutation `b` of `a`. */
  lemma FindLast<T>(a: seq<T>, b: seq<T>) returns (k: nat)
    requires a != [] && multiset(a) == multiset(b)
    ensures k < |b| && b[k] == a[|a| - 1]
  {
    assert a[|a| - 1] in multiset(b);
    k :| 0 <= k < |b| && b[k] == a[|a| - 1];
  }

  lemma MultisetWithout<T>(s: seq<T>, k: nat)
    requires k < |s|
    ensures multiset(s[..k] + s[k + 1..]) == multiset(s) - multiset{s[k]}
  {
    assert s == s[..k] + [s[k]] + s[k + 1..];
  }

  /** Taking one line out removes exactly its contribution. */
  lemma BalanceWithout(s: seq<EntryLine>, k: nat, code: string)
    requires k < |s|
    ensures Balance(s, code) == Balance(s[..k] + s[k + 1..], code) + Contribution(s[k], code)
  {
    assert s == s[..k] + [s[k]] + s[k + 1..];
    BalanceAppend(s[..k] + [s[k]], s[k + 1..], code);
    BalanceAppend(s[..k], [s[k]], code);
    BalanceAppend(s[..k], s[k + 1..], code);
    BalanceSingle(s[k], code);
  }

  /** The net of the lines of entry `id`: zero when the entry balances. */
  function EntryNet(ls: seq<EntryLine>, id: nat): int
  {
    if ls == [] then 0
    else EntryNet(ls[..|ls| - 1], id) + (if ls[|ls| - 1].entryId == id then ls[|ls| - 1].debit - ls[|ls| - 1].credit else 0)
  }

  /** The entry's net is the net of the lines the `entryId` index returns. */
  lemma {:induction false} EntryNetOfLines(ls: seq<EntryLine>, id: nat)
    ensures EntryNet(ls, id) == Net(Postings(ForEntry(ls, id)))
  {
    if ls != [] {
      var init, last := ls[..|ls| - 1], ls[|ls| - 1];
      EntryNetOfLines(init, id);
      if last.entryId == id {
        assert ForEntry(ls, id) == ForEntry(init, id) + [last];
        NetSnoc(ForEntry(init, id), last);
      } else {
        assert ForEntry(ls, id) == ForEntry(init, id) + [] == ForEntry(init, id);
      }
    }
  }

  /** Splitting the lines into one entry's and the rest splits their net. */
  lemma {:induction false} NetSplitByEntry(ls: seq<EntryLine>, id: nat)
    ensures Net(Postings(ls)) == EntryNet(ls, id) + Net(Postings(WithoutEntry(ls, id)))
  {
    if ls != [] {
      var init, last := ls[..|ls| - 1], ls[|ls| - 1];
      NetSplitByEntry(init, id);
      NetLast(ls);
      NetSnocIf(WithoutEntry(init, id), last, last.entryId != id);
    }
  }

  /** Removing an entry that has lines shortens the line list. */
  lemma {:induction false} WithoutEntryShorter(ls: seq<EntryLine>, id: nat)
    ensures |WithoutEntry(ls, id)| <= |ls|
    ensures (exists l :: l in ls && l.entryId == id) ==> |WithoutEntry(ls, id)| < |ls|
  {
    if ls != [] {
      var init, last := ls[..|ls| - 1], ls[|ls| - 1];
      WithoutEntryShorter(init, id);
      assert ls == init + [last];
      if last.entryId != id {
        assert forall l :: l in ls && l.entryId == id ==> l in init;
      }
    }
  }

  /** Removing the lines of entry `gone` zeroes its net and keeps every
      other entry's. */
  lemma {:induction false} RemovalEntryNet(ls: seq<EntryLine>, gone: nat, id: nat)
    ensures EntryNet(WithoutEntry(ls, gone), id) == if id == gone then 0 else EntryNet(ls, id)
  {
    if ls != [] {
      var init, last := ls[..|ls| - 1], ls[|ls| - 1];
      RemovalEntryNet(init, gone, id);
      var w := WithoutEntry(init, gone);
      if last.entryId == gone {
        assert WithoutEntry(ls, gone) == w + [] == w;
      } else {
        assert WithoutEntry(ls, gone) == w + [last];
        assert (w + [last])[..|w|] == w;
      }
    }
  }

  /** Trial balance: when every line belongs to one of the entries `ids`
      and each of those entries nets to zero, all lines together net to
      zero; the debits and credits of the whole ledger agree. */
  lemma {:induction false} TrialBalance(ls: seq<EntryLine>, ids: set<nat>)
    requires forall l :: l in ls ==> l.entryId in ids
    requires forall id :: id in ids ==> EntryNet(ls, id) == 0
    ensures Net(Postings(ls)) == 0
    decreases |ls|
  {
    if ls != [] {
      var id := ls[0].entryId;
      var rest := WithoutEntry(ls, id);
      NetSplitByEntry(ls, id);
      WithoutEntryShorter(ls, id);
      assert ls[0] in ls;
      WithoutEntryMembers(ls, id);
      forall i | i in ids ensures EntryNet(rest, i) == 0 {
        RemovalEntryNet(ls, id, i);
      }
      TrialBalance(rest, ids);
    }
  }

  /** What one line adds to the balance of `code` up to `endDate`. */
  function DatedContribution(l: EntryLine, entries: map<nat, Entry>, code: string, endDate: string): int
    requires l.entryId in entries
  {
    if l.accountCode == code && LexLe(entries[l.entryId].date, endDate) then l.debit - l.credit else 0
  }

  /** Sum of the dated contributions of all lines. */
  function DatedBalance(ls: seq<EntryLine>, entries: map<nat, Entry>, code: string, endDate: string): int
    requires forall l :: l in ls ==> l.entryId in entries
  {
    if ls == [] then 0
    else DatedBalance(ls[..|ls| - 1], entries, code, endDate) + DatedContribution(ls[|ls| - 1], entries, code, endDate)
  }

  /** `filterLinesByDate`: keep the lines whose owning entry is dated on or
      before `endDate`. Reading the `date` of an entry that does not exist
      throws, which fails the whole call. */
  function FilterLinesByDate(ls: seq<EntryLine>, entries: map<nat, Entry>, endDate: string): Option<seq<EntryLine>>
  {
    if forall l :: l in ls ==> l.entryId in entries then Some(DatedLines(ls, entries, endDate)) else None
  }

  function DatedLines(ls: seq<EntryLine>, entries: map<nat, Entry>, endDate: string): seq<EntryLine>
    requires forall l :: l in ls ==> l.entryId in entries
  {
    if ls == [] then []
    else
      var last := ls[|ls| - 1];
      DatedLines(ls[..|ls| - 1], entries, endDate) + (if LexLe(entries[last.entryId].date, endDate) then [last] else [])
  }

  /** `calculateAccountBalance(code, endDate)`; an empty `endDate` means no date limit. */
  function BalanceAsOf(ls: seq<EntryLine>, entries: map<nat, Entry>, code: string, endDate: string): Option<int>
  {
    var own := ForAccount(ls, code);
    if endDate == "" then Some(Net(Postings(own)))
    else match FilterLinesByDate(own, entries, endDate)
      case None => None
      case Some(dated) => Some(Net(Postings(dated)))
  }

  /** Dating one more line appends it exactly when its entry is dated in time. */
  lemma DatedLinesSnoc(own: seq<EntryLine>, last: EntryLine, entries: map<nat, Entry>, endDate: string)
    requires forall l :: l in own ==> l.entryId in entries
    requires last.entryId in entries
    ensures DatedLines(own + [last], entries, endDate) ==
      DatedLines(own, entries, endDate) + (if LexLe(entries[last.entryId].date, endDate) then [last] else [])
  {
    assert (own + [last])[..|own + [last]| - 1] == own;
  }

  /** The net of the dated lines of an account grows by the dated
      contribution of one more line. */
  lemma DatedNetSnoc(own: seq<EntryLine>, last: EntryLine, entries: map<nat, Entry>, code: string, endDate: string)
    requires forall l :: l in own ==> l.entryId in entries
    requires last.entryId in entries
    ensures forall l :: l in own + (if last.accountCode == code then [last] else []) ==> l.entryId in entries
    ensures Net(Postings(DatedLines(own + (if last.accountCode == code then [last] else []), entries, endDate)))
      == Net(Postings(DatedLines(own, entries, endDate))) + DatedContribution(last, entries, code, endDate)
  {
    if last.accountCode == code {
      DatedLinesSnoc(own, last, entries, endDate);
      var dated := DatedLines(own, entries, endDate);
      if LexLe(entries[last.entryId].date, endDate) {
        NetSnoc(dated, last);
      } else {
        assert dated + [] == dated;
      }
    } else {
      assert own + [] == own;
    }
  }

  lemma {:induction false} DatedOwnBalance(ls: seq<EntryLine>, entries: map<nat, Entry>, code: string, endDate: string)
    requires forall l :: l in ls ==> l.entryId in entries
    ensures forall l :: l in ForAccount(ls, code) ==> l.entryId in entries
    ensures Net(Postings(DatedLines(ForAccount(ls, code), entries, endDate))) == DatedBalance(ls, entries, code, endDate)
  {
    ForAccountMembers(ls, code);
    if ls != [] {
      var init, last := ls[..|ls| - 1], ls[|ls| - 1];
      InitMembers(ls);
      DatedOwnBalance(init, entries, code, endDate);
      DatedNetSnoc(ForAccount(init, code), last, entries, code, endDate);
    }
  }

  /** The balance of `code` as of `endDate` is the sum of debit minus
      credit over exactly the account's lines whose entry is dated on or
      before `endDate`; without a date it is the plain balance; it fails
      only when a line of the account has no entry to read a date from. */
  lemma AccountBalanceSpec(ls: seq<EntryLine>, entries: map<nat, Entry>, code: string, endDate: string)
    ensures endDate == "" ==> BalanceAsOf(ls, entries, code, endDate) == Some(Balance(ls, code))
    ensures BalanceAsOf(ls, entries, code, endDate).None? <==>
      endDate != "" && exists l :: l in ls && l.accountCode == code && l.entryId !in entries
    ensures endDate != "" && (forall l :: l in ls ==> l.entryId in entries) ==>
      BalanceAsOf(ls, entries, code, endDate) == Some(DatedBalance(ls, entries, code, endDate))
  {
    ForAccountMembers(ls, code);
    if endDate != "" && (forall l :: l in ls ==> l.entryId in entries) {
      DatedOwnBalance(ls, entries, code, endDate);
    }
  }

  // ----- Concept search and date range -----

  /** Case-insensitive substring match of the concept. */
  predicate ConceptMatches(e: Entry, term: string)
  {
    Contains(Lower(e.concept), Lower(term))
  }

  /** `s` can be obtained from `t` by dropping elements. */
  ghost predicate IsSubsequence<T>(s: seq<T>, t: seq<T>)
    decreases |t|
  {
    if s == [] then true
    else if t == [] then false
    else
      (s[|s| - 1] == t[|t| - 1] && IsSubsequence(s[..|s| - 1], t[..|t| - 1])) || IsSubsequence(s, t[..|t| - 1])
  }

  /** `searchAccountingEntriesByConcept(term)` over `readAll` order: exactly
      the entries whose lower-cased concept contains the lower-cased term,
      in the order they were read. */
  function SearchByConcept(all: seq<Entry>, term: string): (r: seq<Entry>)
    ensures forall e :: e in r <==> e in all && ConceptMatches(e, term)
    ensures IsSubsequence(r, all)
  {
    if all == [] then []
    else
      var init := all[..|all| - 1];
      var last := all[|all| - 1];
      assert all == init + [last];
      var rest := SearchByConcept(init, term);
      if ConceptMatches(last, term) then
        assert (rest + [last])[..|rest|] == rest;
        rest + [last]
      else
        rest
  }

  /** Entries whose date lies in the inclusive range, in store order. */
  function InDateRange(all: seq<Entry>, lo: string, hi: string): (r: seq<Entry>)
    ensures forall e :: e in r <==> e in all && LexLe(lo, e.date) && LexLe(e.date, hi)
    ensures IsSubsequence(r, all)
  {
    if all == [] then []
    else
      var init := all[..|all| - 1];
      var last := all[|all| - 1];
      assert all == init + [last];
      var rest := InDateRange(init, lo, hi);
      if LexLe(lo, last.date) && LexLe(last.date, hi) then
        assert (rest + [last])[..|rest|] == rest;
        rest + [last]
      else
        rest
  }

  // ----- Stable sort by date -----

  /** A date that may stand before another: earlier-or-equal ascending,
      later-or-equal descending. */
  predicate DateFirst(a: string, b: string, descending: bool)
  {
    if descending then LexLe(b, a) else LexLe(a, b)
  }

  /** Strictly before in date order, or same date and smaller id. */
  predicate Precedes(x: Entry, y: Entry, descending: bool)
  {
    (x.date != y.date && DateFirst(x.date, y.date, descending)) || (x.date == y.date && x.id < y.id)
  }

  predicate OrderedBy(s: seq<Entry>, descending: bool)
  {
    forall i, j :: 0 <= i < j < |s| ==> Precedes(s[i], s[j], descending)
  }

  /** Entries with the same date appear in increasing id order. */
  predicate TiesInIdOrder(s: seq<Entry>)
  {
    forall i, j :: 0 <= i < j < |s| && s[i].date == s[j].date ==> s[i].id < s[j].id
  }

  /** Insert `e` in front of the first entry it may stand before. */
  function InsertByDate(e: Entry, s: seq<Entry>, descending: bool): (r: seq<Entry>)
    ensures multiset(r) == multiset(s) + multiset{e}
  {
    if s == [] then [e]
    else if DateFirst(e.date, s[0].date, descending) then [e] + s
    else
      assert s == [s[0]] + s[1..];
      [s[0]] + InsertByDate(e, s[1..], descending)
  }

  /** JavaScript's stable `sort` with a comparator on the date only. */
  function SortByDate(s: seq<Entry>, descending: bool): (r: seq<Entry>)
    ensures multiset(r) == multiset(s)
  {
    if s == [] then []
    else
      assert s == [s[0]] + s[1..];
      InsertByDate(s[0], SortByDate(s[1..], descending), descending)
  }

  lemma DateFirstTotal(a: string, b: string, descending: bool)
    ensures DateFirst(a, b, descending) || DateFirst(b, a, descending)
    ensures a != b && !DateFirst(a, b, descending) ==> DateFirst(b, a, descending)
  {
    LexLeTotal(a, b);
  }

  lemma DateFirstTransitive(a: string, b: string, c: string, descending: bool)
    requires DateFirst(a, b, descending) && DateFirst(b, c, descending)
    ensures DateFirst(a, c, descending)
    ensures a != b ==> a != c
  {
    if descending {
      LexLeTransitive(c, b, a);
      if a == c { LexLeAntisymmetric(a, b); }
    } else {
      LexLeTransitive(a, b, c);
      if a == c { LexLeAntisymmetric(a, b); }
    }
  }

  lemma {:induction false} InsertOrdered(e: Entry, s: seq<Entry>, descending: bool)
    requires OrderedBy(s, descending)
    requires forall x :: x in s && x.date == e.date ==> e.id < x.id
    ensures OrderedBy(InsertByDate(e, s, descending), descending)
  {
    if s == [] {
    } else if DateFirst(e.date, s[0].date, descending) {
      InsertInFront(e, s, descending);
    } else {
      assert OrderedBy(s[1..], descending);
      InsertOrdered(e, s[1..], descending);
      InsertBehind(e, s, descending);
    }
  }

  /** An entry that may stand before the first entry stands before all. */
  lemma InsertInFront(e: Entry, s: seq<Entry>, descending: bool)
    requires s != [] && OrderedBy(s, descending)
    requires DateFirst(e.date, s[0].date, descending)
    requires forall x :: x in s && x.date == e.date ==> e.id < x.id
    ensures OrderedBy([e] + s, descending)
  {
    var r := [e] + s;
    forall j | 1 <= j < |r| ensures Precedes(e, r[j], descending) {
      var x := r[j];
      if j > 1 {
        assert Precedes(s[0], x, descending);
        if s[0].date == x.date {
          DateFirstTotal(x.date, x.date, descending);
        } else {
          DateFirstTransitive(e.date, s[0].date, x.date, descending);
        }
        if e.date != s[0].date {
          DateFirstTransitive(e.date, s[0].date, x.date, descending);
        }
      }
    }
  }

  /** An entry that may not stand before the first entry goes behind it. */
  lemma InsertBehind(e: Entry, s: seq<Entry>, descending: bool)
    requires s != [] && OrderedBy(s, descending)
    requires !DateFirst(e.date, s[0].date, descending)
    requires OrderedBy(InsertByDate(e, s[1..], descending), descending)
    ensures OrderedBy(InsertByDate(e, s, descending), descending)
  {
    DateFirstTotal(e.date, s[0].date, descending);
    DateFirstTotal(e.date, e.date, descending);
    assert Precedes(s[0], e, descending);
    var tail := InsertByDate(e, s[1..], descending);
    forall x | x in tail ensures Precedes(s[0], x, descending) {
      assert x in multiset(tail);
      if x != e {
        assert x in multiset(s[1..]);
      }
    }
  }

  /** The sort puts entries in date order; entries with equal dates keep
      their relative order, which is increasing id order when the input
      had it. */
  lemma {:induction false} SortOrdered(s: seq<Entry>, descending: bool)
    requires TiesInIdOrder(s)
    ensures OrderedBy(SortByDate(s, descending), descending)
  {
    if s != [] {
      assert TiesInIdOrder(s[1..]);
      SortOrdered(s[1..], descending);
      var sorted := SortByDate(s[1..], descending);
      forall x | x in sorted && x.date == s[0].date ensures s[0].id < x.id {
        assert x in multiset(s[1..]);
        var k :| 0 <= k < |s[1..]| && s[1..][k] == x;
      }
      InsertOrdered(s[0], sorted, descending);
    }
  }

  lemma OrderedIsTieOrdered(s: seq<Entry>, descending: bool)
    requires OrderedBy(s, descending)
    ensures TiesInIdOrder(s)
  {
  }

  // ----- Listing -----

  /** The listing filter: empty strings stand for absent fields. */
  datatype EntryFilter = EntryFilter(fromDate: string, toDate: string, concept: string)

  /** A bound with lower above upper makes `IDBKeyRange.bound` throw. */
  datatype Listing = Listed(entries: seq<Entry>) | InvalidRange

  const EarliestDate := "0000-00-00"
  const LatestDate := "9999-99-99"

  function LowerBound(f: EntryFilter): string
  {
    if f.fromDate != "" then f.fromDate else EarliestDate
  }

  function UpperBound(f: EntryFilter): string
  {
    if f.toDate != "" then f.toDate else LatestDate
  }

  predicate UsesRange(f: EntryFilter)
  {
    f.fromDate != "" || f.toDate != ""
  }

  /** The date-index read: the entries in the inclusive range in date
      order when a date is given, all stored entries otherwise. */
  function ReadStage(stored: seq<Entry>, f: EntryFilter): seq<Entry>
  {
    if UsesRange(f) then SortByDate(InDateRange(stored, LowerBound(f), UpperBound(f)), false) else stored
  }

  /** The concept filter, skipped for an empty term. */
  function MatchStage(read: seq<Entry>, term: string): seq<Entry>
  {
    if term != "" then SearchByConcept(read, term) else read
  }

  /** `loadAccountingEntries(filter)`, given the entries in `getAll()`
      order: a date-index range read when a date is given, then the
      concept filter when a concept is given, then the sort by date, most
      recent first. */
  function ListEntries(stored: seq<Entry>, f: EntryFilter): Listing
  {
    if UsesRange(f) && !LexLe(LowerBound(f), UpperBound(f)) then InvalidRange
    else Listed(SortByDate(MatchStage(ReadStage(stored, f), f.concept), true))
  }

  /** Whether the listing shows entry `e`. */
  predicate Selected(e: Entry, f: EntryFilter)
  {
    (UsesRange(f) ==> LexLe(LowerBound(f), e.date) && LexLe(e.date, UpperBound(f)))
    && ConceptMatches(e, f.concept)
  }

  /** The listing fails only on an inverted date range; otherwise it shows
      exactly the stored entries in the inclusive range whose concept
      contains the term regardless of case, each once, most recent first
      and, within one date, in increasing id order. */
  lemma ListEntriesSpec(stored: seq<Entry>, f: EntryFilter)
    requires TiesInIdOrder(stored)
    ensures ListEntries(stored, f).InvalidRange? <==> UsesRange(f) && !LexLe(LowerBound(f), UpperBound(f))
    ensures ListEntries(stored, f).Listed? ==>
      var r := ListEntries(stored, f).entries;
      OrderedBy(r, true) && forall e :: e in r <==> e in stored && Selected(e, f)
  {
    if ListEntries(stored, f).Listed? {
      var read := ReadStage(stored, f);
      ReadStageSpec(stored, f);
      var matched := MatchStage(read, f.concept);
      MatchStageSpec(read, f.concept);
      SortOrdered(matched, true);
      var r := SortByDate(matched, true);
      forall e ensures e in r <==> e in matched {
        assert e in r <==> e in multiset(r);
      }
    }
  }

  /** The read keeps ties in id order and holds exactly the stored entries
      in the range. */
  lemma ReadStageSpec(stored: seq<Entry>, f: EntryFilter)
    requires TiesInIdOrder(stored)
    ensures TiesInIdOrder(ReadStage(stored, f))
    ensures forall e :: e in ReadStage(stored, f) <==>
      (e in stored && (UsesRange(f) ==> LexLe(LowerBound(f), e.date) && LexLe(e.date, UpperBound(f))))
  {
    if UsesRange(f) {
      var ranged := InDateRange(stored, LowerBound(f), UpperBound(f));
      SubsequenceKeepsTies(ranged, stored);
      SortOrdered(ranged, false);
      OrderedIsTieOrdered(ReadStage(stored, f), false);
      forall e ensures e in ReadStage(stored, f) <==> e in multiset(ranged) {
      }
    }
  }

  /** The concept filter keeps ties in id order and holds exactly the read
      entries whose concept matches; an empty term matches every entry. */
  lemma MatchStageSpec(read: seq<Entry>, term: string)
    requires TiesInIdOrder(read)
    ensures TiesInIdOrder(MatchStage(read, term))
    ensures forall e :: e in MatchStage(read, term) <==> e in read && ConceptMatches(e, term)
  {
    if term == "" {
      forall e ensures ConceptMatches(e, term) { ContainsEmpty(Lower(e.concept)); }
    } else {
      SubsequenceKeepsTies(MatchStage(read, term), read);
    }
  }

  lemma {:induction false} SubsequenceKeepsTies(s: seq<Entry>, t: seq<Entry>)
    requires IsSubsequence(s, t) && TiesInIdOrder(t)
    ensures TiesInIdOrder(s)
    ensures forall x :: x in s ==> x in t
    decreases |t|
  {
    if s != [] && t != [] {
      var tInit := t[..|t| - 1];
      assert TiesInIdOrder(tInit);
      if s[|s| - 1] == t[|t| - 1] && IsSubsequence(s[..|s| - 1], tInit) {
        SubsequenceKeepsTies(s[..|s| - 1], tInit);
        assert s == s[..|s| - 1] + [s[|s| - 1]];
        forall i, j | 0 <= i < j < |s| && s[i].date == s[j].date ensures s[i].id < s[j].id {
          if j < |s| - 1 {
            assert s[..|s| - 1][i] == s[i] && s[..|s| - 1][j] == s[j];
          } else {
            assert s[i] in s[..|s| - 1];
            var k :| 0 <= k < |tInit| && tInit[k] == s[i];
            assert t[k] == s[i] && t[|t| - 1] == s[j];
          }
        }
      } else {
        SubsequenceKeepsTies(s, tInit);
      }
    }
  }

  // ----- Entry detail join -----

  const UnknownAccount := "Cuenta desconocida"

  datatype DetailLine = DetailLine(line: EntryLine, accountName: string)

  datatype EntryDetail = EntryDetail(entry: Entry, lines: seq<DetailLine>)

  /** `accountsStore.get(code)?.name || 'Cuenta desconocida'`. */
  function AccountName(accounts: map<string, Account>, code: string): string
  {
    if code in accounts && accounts[code].name != "" then accounts[code].name else UnknownAccount
  }

  function JoinAccounts(ls: seq<EntryLine>, accounts: map<string, Account>): seq<DetailLine>
  {
    if ls == [] then []
    else JoinAccounts(ls[..|ls| - 1], accounts) + [DetailLine(ls[|ls| - 1], AccountName(accounts, ls[|ls| - 1].accountCode))]
  }

  /** `viewEntryDetails(id)`: the entry with its lines, each joined to the
      name of its account. */
  function EntryDetails(entries: map<nat, Entry>, ls: seq<EntryLine>, accounts: map<string, Account>, id: nat): Option<EntryDetail>
  {
    if id in entries then Some(EntryDetail(entries[id], JoinAccounts(ForEntry(ls, id), accounts))) else None
  }

  lemma {:induction false} JoinAccountsLines(ls: seq<EntryLine>, accounts: map<string, Account>)
    ensures |JoinAccounts(ls, accounts)| == |ls|
    ensures forall i :: 0 <= i < |ls| ==> JoinAccounts(ls, accounts)[i].line == ls[i]
    ensures forall i :: 0 <= i < |ls| ==> JoinAccounts(ls, accounts)[i].accountName == AccountName(accounts, ls[i].accountCode)
  {
    if ls != [] {
      JoinAccountsLines(ls[..|ls| - 1], accounts);
    }
  }

  /** The detail view exists exactly for stored entries; it lists every
      line of the entry, in store order, and a line whose account is
      missing (or unnamed) is labelled with the unknown-account sentinel
      instead of failing the view. */
  lemma EntryDetailsSpec(entries: map<nat, Entry>, ls: seq<EntryLine>, accounts: map<string, Account>, id: nat)
    ensures EntryDetails(entries, ls, accounts, id).Some? <==> id in entries
    ensures id in entries ==>
      var d := EntryDetails(entries, ls, accounts, id).value;
      d.entry == entries[id] && |d.lines| == |ForEntry(ls, id)|
      && (forall i :: 0 <= i < |d.lines| ==> d.lines[i].line == ForEntry(ls, id)[i])
      && (forall i :: 0 <= i < |d.lines| ==>
            var code := d.lines[i].line.accountCode;
            d.lines[i].accountName == (if code in accounts && accounts[code].name != "" then accounts[code].name else UnknownAccount))
  {
    JoinAccountsLines(ForEntry(ls, id), accounts);
  }

  // ----- Per-account balances and balance-sheet totals -----

  datatype AccountBalance = AccountBalance(account: Account, balance: int)

  /** The result of `calculateBalances(accounts)`: the accounts with a
      nonzero balance, in the order given. */
  function NonZeroBalances(accounts: seq<Account>, ls: seq<EntryLine>): seq<AccountBalance>
  {
    if accounts == [] then []
    else
      var a := accounts[|accounts| - 1];
      var b := Balance(ls, a.code);
      NonZeroBalances(accounts[..|accounts| - 1], ls) + (if b != 0 then [AccountBalance(a, b)] else [])
  }

  /** `reduce((sum, a) => sum + a.balance, 0)`. */
  function Total(bs: seq<AccountBalance>): int
  {
    if bs == [] then 0 else Total(bs[..|bs| - 1]) + bs[|bs| - 1].balance
  }

  /** `filter(a => a.balance !== 0)`. */
  function WithBalance(bs: seq<AccountBalance>): seq<AccountBalance>
  {
    if bs == [] then []
    else WithBalance(bs[..|bs| - 1]) + (if bs[|bs| - 1].balance != 0 then [bs[|bs| - 1]] else [])
  }

  lemma {:induction false} TotalAppend(a: seq<AccountBalance>, b: seq<AccountBalance>)
    ensures Total(a + b) == Total(a) + Total(b)
    decreases |b|
  {
    if b == [] {
      assert a + b == a;
    } else {
      assert (a + b)[..|a + b| - 1] == a + b[..|b| - 1];
      TotalAppend(a, b[..|b| - 1]);
    }
  }

  /** Every reported balance is the account's nonzero balance, every
      account with a nonzero balance is reported, and no account list
      yields no balances. */
  lemma {:induction false} NonZeroBalancesSpec(accounts: seq<Account>, ls: seq<EntryLine>)
    ensures |NonZeroBalances(accounts, ls)| <= |accounts|
    ensures forall b :: b in NonZeroBalances(accounts, ls) ==>
      b.account in accounts && b.balance != 0 && b.balance == Balance(ls, b.account.code)
    ensures forall a :: a in accounts && Balance(ls, a.code) != 0 ==>
      AccountBalance(a, Balance(ls, a.code)) in NonZeroBalances(accounts, ls)
    ensures accounts == [] ==> NonZeroBalances(accounts, ls) == []
  {
    NonZeroBalancesSound(accounts, ls);
    NonZeroBalancesComplete(accounts, ls);
  }

  lemma {:induction false} NonZeroBalancesSound(accounts: seq<Account>, ls: seq<EntryLine>)
    ensures |NonZeroBalances(accounts, ls)| <= |accounts|
    ensures forall b :: b in NonZeroBalances(accounts, ls) ==>
      b.account in accounts && b.balance != 0 && b.balance == Balance(ls, b.account.code)
  {
    if accounts != [] {
      NonZeroBalancesSound(accounts[..|accounts| - 1], ls);
      InitMembers(accounts);
    }
  }

  lemma {:induction false} NonZeroBalancesComplete(accounts: seq<Account>, ls: seq<EntryLine>)
    ensures forall a :: a in accounts && Balance(ls, a.code) != 0 ==>
      AccountBalance(a, Balance(ls, a.code)) in NonZeroBalances(accounts, ls)
  {
    if accounts != [] {
      NonZeroBalancesComplete(accounts[..|accounts| - 1], ls);
      SnocParts(accounts);
    }
  }

  /** Dropping zero balances does not change a total, and the balances
      `calculateBalances` returns have no zero to drop. */
  lemma {:induction false} WithBalanceTotal(bs: seq<AccountBalance>)
    ensures Total(WithBalance(bs)) == Total(bs)
  {
    if bs != [] {
      var init, last := bs[..|bs| - 1], bs[|bs| - 1];
      WithBalanceTotal(init);
      assert bs == init + [last];
      if last.balance != 0 {
        assert WithBalance(bs) == WithBalance(init) + [last];
        assert (WithBalance(init) + [last])[..|WithBalance(init)|] == WithBalance(init);
      } else {
        assert WithBalance(bs) == WithBalance(init) + [];
        assert WithBalance(init) + [] == WithBalance(init);
      }
    }
  }

  lemma {:induction false} WithBalanceKeepsNonZero(bs: seq<AccountBalance>)
    requires forall b :: b in bs ==> b.balance != 0
    ensures WithBalance(bs) == bs
  {
    if bs != [] {
      var init := bs[..|bs| - 1];
      assert bs == init + [bs[|bs| - 1]];
      WithBalanceKeepsNonZero(init);
    }
  }

  predicate DistinctCodes(accounts: seq<Account>)
  {
    forall i, j :: 0 <= i < j < |accounts| ==> accounts[i].code != accounts[j].code
  }

  function Codes(accounts: seq<Account>): set<string>
  {
    if accounts == [] then {} else Codes(accounts[..|accounts| - 1]) + {accounts[|accounts| - 1].code}
  }

  lemma {:induction false} CodesMembers(accounts: seq<Account>)
    ensures forall c :: c in Codes(accounts) <==> exists i :: 0 <= i < |accounts| && accounts[i].code == c
  {
    if accounts != [] {
      var init := accounts[..|accounts| - 1];
      CodesMembers(init);
      forall c | c in Codes(init) ensures exists i :: 0 <= i < |accounts| && accounts[i].code == c {
        var i :| 0 <= i < |init| && init[i].code == c;
        assert accounts[i] == init[i];
      }
      forall i | 0 <= i < |accounts| - 1 ensures accounts[i].code in Codes(init) {
        assert init[i] == accounts[i];
      }
    }
  }

  /** The net of the lines of `codes + {code}` splits into that of `codes`
      and the balance of `code`. */
  lemma {:induction false} NetInCodesSplit(ls: seq<EntryLine>, codes: set<string>, code: string)
    requires code !in codes
    ensures Net(Postings(InCodes(ls, codes + {code}))) == Net(Postings(InCodes(ls, codes))) + Balance(ls, code)
  {
    if ls != [] {
      var init, last := ls[..|ls| - 1], ls[|ls| - 1];
      NetInCodesSplit(init, codes, code);
      NetSnocIf(InCodes(init, codes + {code}), last, last.accountCode in codes + {code});
      NetSnocIf(InCodes(init, codes), last, last.accountCode in codes);
      NetSnocIf(ForAccount(init, code), last, last.accountCode == code);
    }
  }

  /** Appending a line that a selection may or may not keep. */
  lemma NetSnocIf(ls: seq<EntryLine>, l: EntryLine, keep: bool)
    ensures Net(Postings(ls + (if keep then [l] else []))) == Net(Postings(ls)) + (if keep then l.debit - l.credit else 0)
  {
    if keep {
      NetSnoc(ls, l);
    } else {
      assert ls + [] == ls;
    }
  }

  /** The total of the nonzero balances of distinct accounts is the net of
      all lines posted to those accounts. */
  lemma {:induction false} TotalIsNetOfAccounts(accounts: seq<Account>, ls: seq<EntryLine>)
    requires DistinctCodes(accounts)
    ensures Total(NonZeroBalances(accounts, ls)) == Net(Postings(InCodes(ls, Codes(accounts))))
  {
    if accounts == [] {
      NoCodesNoLines(ls);
    } else {
      var init, a := accounts[..|accounts| - 1], accounts[|accounts| - 1];
      assert DistinctCodes(init);
      TotalIsNetOfAccounts(init, ls);
      assert a.code !in Codes(init) by {
        CodesMembers(init);
        forall i | 0 <= i < |init| ensures init[i].code != a.code {
          assert init[i] == accounts[i];
        }
      }
      NetInCodesSplit(ls, Codes(init), a.code);
      assert Codes(accounts) == Codes(init) + {a.code};
      var prev := NonZeroBalances(init, ls);
      var b := Balance(ls, a.code);
      assert Total(NonZeroBalances(accounts, ls)) == Total(prev) + b by {
        if b != 0 {
          var next := prev + [AccountBalance(a, b)];
          assert NonZeroBalances(accounts, ls) == next;
          assert next[..|next| - 1] == prev;
        } else {
          assert NonZeroBalances(accounts, ls) == prev + [] == prev;
        }
      }
    }
  }

  lemma {:induction false} NoCodesNoLines(ls: seq<EntryLine>)
    ensures InCodes(ls, {}) == []
  {
    if ls != [] { NoCodesNoLines(ls[..|ls| - 1]); }
  }
}
