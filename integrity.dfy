/** What it means for the stored ledger to be consistent, and why saving
    a validated entry or deleting an entry with its lines keeps it so.
    Stated over the entries map and the lines in store order. */
module Integrity {
  import opened Records
  import opened Keyed
  import opened Queries

  /** An entry is balanced when it has lines, each passes the line checks,
      and their debit and credit sums are the entry's equal totals. */
  predicate EntryBalanced(e: Entry, own: seq<EntryLine>)
  {
    own != []
    && (forall l :: l in own ==> LineAccepted(l.AsPosting()))
    && Debits(Postings(own)) == e.totalDebit
    && Credits(Postings(own)) == e.totalCredit
    && e.totalDebit == e.totalCredit
  }

  /** No line without its entry, and every entry balanced. */
  predicate LedgerConsistent(entries: map<nat, Entry>, ls: seq<EntryLine>)
  {
    (forall l :: l in ls ==> l.entryId in entries)
    && forall id :: id in entries ==> EntryBalanced(entries[id], ForEntry(ls, id))
  }

  /** The lines `saveAccountingEntry` stores for the postings `ps`: each
      stamped with the entry id, with ids from the key generator. */
  function StampedLines(ps: seq<Posting>, entryId: nat, firstId: nat): (r: seq<EntryLine>)
    ensures |r| == |ps|
    ensures forall i :: 0 <= i < |ps| ==> r[i].id == firstId + i && r[i].entryId == entryId
  {
    seq(|ps|, i requires 0 <= i < |ps| => EntryLine(firstId + i, entryId, ps[i].accountCode, ps[i].debit, ps[i].credit))
  }

  /** Stamping one more posting appends its line under the next key. */
  lemma StampedSnoc(ps: seq<Posting>, i: nat, entryId: nat, firstId: nat)
    requires i < |ps|
    ensures StampedLines(ps[..i + 1], entryId, firstId)
      == StampedLines(ps[..i], entryId, firstId) + [EntryLine(firstId + i, entryId, ps[i].accountCode, ps[i].debit, ps[i].credit)]
  {
  }

  /** Stamping keeps the postings as the form gave them. */
  lemma StampedPostings(ps: seq<Posting>, entryId: nat, firstId: nat)
    ensures Postings(StampedLines(ps, entryId, firstId)) == ps
  {
  }

  /** The lines map after removing the lines of entry `id`. */
  function LinesWithout(m: map<nat, EntryLine>, id: nat): (r: map<nat, EntryLine>)
    ensures forall k :: k in r <==> k in m && m[k].entryId != id
    ensures forall k :: k in r ==> r[k] == m[k]
  {
    map k | k in m && m[k].entryId != id :: m[k]
  }

  /** Listing the map with an entry's lines removed gives the listing with
      those lines filtered out. */
  lemma {:induction false} AscendingLinesWithout(m: map<nat, EntryLine>, n: nat, id: nat)
    ensures Ascending(LinesWithout(m, id), n) == WithoutEntry(Ascending(m, n), id)
  {
    if n > 0 {
      AscendingLinesWithout(m, n - 1, id);
      var prev := Ascending(m, n - 1);
      var tail := if n - 1 in m then [m[n - 1]] else [];
      SelectionsAppend(prev, tail, "", id, {});
      if n - 1 in m {
        assert [m[n - 1]][..0] == [];
      }
    }
  }

  /** The stamped lines of postings that passed validation balance their entry. */
  lemma StampedBalanced(e: Entry, ps: seq<Posting>, firstId: nat)
    requires ps != [] && forall p :: p in ps ==> LineAccepted(p)
    requires Debits(ps) == e.totalDebit && Credits(ps) == e.totalCredit && e.totalDebit == e.totalCredit
    ensures EntryBalanced(e, StampedLines(ps, e.id, firstId))
  {
    var stamped := StampedLines(ps, e.id, firstId);
    StampedPostings(ps, e.id, firstId);
    forall l | l in stamped ensures LineAccepted(l.AsPosting()) {
      var i :| 0 <= i < |stamped| && stamped[i] == l;
      assert Postings(stamped)[i] == ps[i];
      assert ps[i] in ps;
    }
  }

  /** Appending lines of one entry leaves what the `entryId` index returns
      for any other entry as it was; for that entry, when it had no lines
      before, it returns exactly the appended lines. */
  lemma AppendOneEntryLines(ls: seq<EntryLine>, added: seq<EntryLine>, owner: nat, id: nat)
    requires forall l :: l in added ==> l.entryId == owner
    ensures id != owner ==> ForEntry(ls + added, id) == ForEntry(ls, id)
    ensures (forall l :: l in ls ==> l.entryId != owner) ==> ForEntry(ls + added, owner) == added
  {
    SelectionsAppend(ls, added, "", id, {});
    SelectionsAppend(ls, added, "", owner, {});
    ForEntryWhenAll(added, owner);
    if id != owner {
      ForEntryWhenNone(added, id);
    }
    if forall l :: l in ls ==> l.entryId != owner {
      ForEntryWhenNone(ls, owner);
    }
  }

  /** Saving an entry whose postings passed validation, with fresh lines
      stamped with its fresh id, keeps the ledger consistent; the lines the
      `entryId` index then returns for it are the stamped lines. */
  lemma SaveKeepsConsistent(entries: map<nat, Entry>, ls: seq<EntryLine>, e: Entry, ps: seq<Posting>, firstId: nat)
    requires LedgerConsistent(entries, ls)
    requires e.id !in entries
    requires ps != [] && forall p :: p in ps ==> LineAccepted(p)
    requires Debits(ps) == e.totalDebit && Credits(ps) == e.totalCredit && e.totalDebit == e.totalCredit
    ensures ForEntry(ls + StampedLines(ps, e.id, firstId), e.id) == StampedLines(ps, e.id, firstId)
    ensures LedgerConsistent(entries[e.id := e], ls + StampedLines(ps, e.id, firstId))
  {
    var stamped := StampedLines(ps, e.id, firstId);
    var all := ls + stamped;
    var entries' := entries[e.id := e];
    AppendOneEntryLines(ls, stamped, e.id, e.id);
    StampedBalanced(e, ps, firstId);
    forall id | id in entries' ensures EntryBalanced(entries'[id], ForEntry(all, id)) {
      AppendOneEntryLines(ls, stamped, e.id, id);
    }
  }

  /** Deleting an entry together with all its lines keeps the ledger
      consistent and leaves no line that refers to it. */
  lemma DeleteKeepsConsistent(entries: map<nat, Entry>, ls: seq<EntryLine>, id: nat)
    requires LedgerConsistent(entries, ls)
    ensures forall l :: l in WithoutEntry(ls, id) ==> l.entryId != id
    ensures LedgerConsistent(entries - {id}, WithoutEntry(ls, id))
  {
    WithoutEntryMembers(ls, id);
    forall other | other in entries - {id}
      ensures EntryBalanced(entries[other], ForEntry(WithoutEntry(ls, id), other))
    {
      ForEntryAfterRemoval(ls, id, other);
    }
  }

  /** Deleting an entry just saved, with its lines, restores the entries
      and the lines as they were before the save. */
  lemma SaveThenDeleteRestores(entries: map<nat, Entry>, ls: seq<EntryLine>, e: Entry, ps: seq<Posting>, firstId: nat)
    requires e.id !in entries && forall l :: l in ls ==> l.entryId != e.id
    ensures entries[e.id := e] - {e.id} == entries
    ensures WithoutEntry(ls + StampedLines(ps, e.id, firstId), e.id) == ls
  {
    var stamped := StampedLines(ps, e.id, firstId);
    SelectionsAppend(ls, stamped, "", e.id, {});
    ForEntryWhenNone(ls, e.id);
    WithoutEntryWhenAll(stamped, e.id);
    assert ls + [] == ls;
  }

  /** In a consistent ledger the debits of all lines equal their credits. */
  lemma ConsistentLedgerBalances(entries: map<nat, Entry>, ls: seq<EntryLine>)
    requires LedgerConsistent(entries, ls)
    ensures Net(Postings(ls)) == 0
    ensures Debits(Postings(ls)) == Credits(Postings(ls))
  {
    forall id | id in entries ensures EntryNet(ls, id) == 0 {
      EntryNetOfLines(ls, id);
      NetIsDebitsMinusCredits(Postings(ForEntry(ls, id)));
    }
    TrialBalance(ls, entries.Keys);
    NetIsDebitsMinusCredits(Postings(ls));
  }
}
