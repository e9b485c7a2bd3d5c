/** The checks the entry form runs before anything is written: required
    fields, then each line in order, then the balance of the totals. The
    first failing check decides the message shown. */
module Validation {
  import opened Records

  datatype EntryError =
    | MissingFields                          // empty date, empty concept or no lines
    | IncompleteLine(index: nat)             // no account, or debit and credit both 0
    | DebitAndCredit(index: nat)             // debit and credit both positive
    | Unbalanced(debit: int, credit: int)    // totals differ

  datatype Verdict = Accepted(totalDebit: int, totalCredit: int) | Refused(error: EntryError)

  /** The index of the first line that fails the line checks, or the
      number of lines when none does. */
  function FirstRejected(ps: seq<Posting>): (k: nat)
    ensures k <= |ps|
    ensures forall j :: 0 <= j < k ==> LineAccepted(ps[j])
    ensures k < |ps| ==> !LineAccepted(ps[k])
  {
    if ps == [] then 0
    else if !LineAccepted(ps[0]) then 0
    else 1 + FirstRejected(ps[1..])
  }

  /** The message for a rejected line: the missing-data check is made first. */
  function LineError(p: Posting, index: nat): EntryError
  {
    if p.accountCode == "" || (p.debit == 0 && p.credit == 0) then IncompleteLine(index) else DebitAndCredit(index)
  }

  /** What `saveAccountingEntry` decides for the form's date, concept and lines. */
  function Validate(date: string, concept: string, ps: seq<Posting>): Verdict
  {
    if date == "" || concept == "" || ps == [] then Refused(MissingFields)
    else
      var k := FirstRejected(ps);
      if k < |ps| then Refused(LineError(ps[k], k))
      else if Debits(ps) != Credits(ps) then Refused(Unbalanced(Debits(ps), Credits(ps)))
      else Accepted(Debits(ps), Credits(ps))
  }

  /** An entry is accepted exactly when its date and concept are given, it
      has lines, every line passes the line checks and the debit total
      equals the credit total; the accepted totals are those sums. */
  lemma ValidateAcceptsIff(date: string, concept: string, ps: seq<Posting>)
    ensures Validate(date, concept, ps).Accepted? <==>
      date != "" && concept != "" && ps != []
      && (forall p :: p in ps ==> LineAccepted(p))
      && Debits(ps) == Credits(ps)
    ensures Validate(date, concept, ps).Accepted? ==>
      Validate(date, concept, ps) == Accepted(Debits(ps), Credits(ps))
  {
    if date != "" && concept != "" && ps != [] {
      var k := FirstRejected(ps);
      if k < |ps| {
        assert ps[k] in ps;
      }
    }
  }

  /** A refusal names the first check that fails: missing fields before
      any line, a line before every later line, and the balance only
      when all lines pass; a line with data in both columns is reported
      as such only when it is otherwise complete. */
  lemma ValidateRefusesFirstFailure(date: string, concept: string, ps: seq<Posting>)
    ensures Validate(date, concept, ps) == Refused(MissingFields) <==> date == "" || concept == "" || ps == []
    ensures forall i: nat :: Validate(date, concept, ps) == Refused(IncompleteLine(i)) ==>
      i < |ps| && (ps[i].accountCode == "" || (ps[i].debit == 0 && ps[i].credit == 0))
      && forall j :: 0 <= j < i ==> LineAccepted(ps[j])
    ensures forall i: nat :: Validate(date, concept, ps) == Refused(DebitAndCredit(i)) ==>
      i < |ps| && ps[i].accountCode != "" && ps[i].debit > 0 && ps[i].credit > 0
      && forall j :: 0 <= j < i ==> LineAccepted(ps[j])
    ensures forall d, c :: Validate(date, concept, ps) == Refused(Unbalanced(d, c)) ==>
      (forall p :: p in ps ==> LineAccepted(p)) && d == Debits(ps) && c == Credits(ps) && d != c
  {
  }

  /** A line with both amounts negative passes the line checks, since only
      positive amounts in both columns are refused; an entry made of one
      such line is accepted. */
  lemma NegativeAmountsAccepted()
    ensures LineAccepted(Posting("570", -5, -5))
    ensures Validate("2024-01-31", "Ajuste", [Posting("570", -5, -5)]) == Accepted(-5, -5)
  {
    assert [Posting("570", -5, -5)][..0] == [];
  }

  /** The form's loop: sum the columns line by line, stopping at the first
      line that fails a check, then compare the totals. */
  method ValidateEntry(date: string, concept: string, ps: seq<Posting>) returns (v: Verdict)
    ensures v == Validate(date, concept, ps)
  {
    if date == "" || concept == "" || |ps| == 0 {
      return Refused(MissingFields);
    }
    var totalDebit, totalCredit := 0, 0;
    var i := 0;
    while i < |ps|
      invariant 0 <= i <= |ps|
      invariant forall j :: 0 <= j < i ==> LineAccepted(ps[j])
      invariant totalDebit == Debits(ps[..i]) && totalCredit == Credits(ps[..i])
    {
      var p := ps[i];
      if p.accountCode == "" || (p.debit == 0 && p.credit == 0) {
        return Refused(IncompleteLine(i));
      }
      if p.debit > 0 && p.credit > 0 {
        return Refused(DebitAndCredit(i));
      }
      assert ps[..i + 1][..i] == ps[..i];
      totalDebit := totalDebit + p.debit;
      totalCredit := totalCredit + p.credit;
      i := i + 1;
    }
    assert ps[..i] == ps;
    if totalDebit != totalCredit {
      return Refused(Unbalanced(totalDebit, totalCredit));
    }
    return Accepted(totalDebit, totalCredit);
  }
}
