/** The simplified chart of accounts loaded at first run, and the default
    company profile written with it. Both browser modules seed the same
    nineteen accounts. */
module Seed {
  import opened Records

  function Chart(): (c: seq<Account>)
    ensures |c| == 19
  {
    [ Account("1", "FINANCIACIÓN BÁSICA", "", Equity, false),
      Account("10", "CAPITAL", "1", Equity, false),
      Account("100", "Capital social", "10", Equity, false),
      Account("2", "INMOVILIZADO", "", Asset, false),
      Account("21", "Inmovilizado material", "2", Asset, false),
      Account("210", "Terrenos y bienes naturales", "21", Asset, false),
      Account("3", "EXISTENCIAS", "", Asset, false),
      Account("300", "Mercaderías", "3", Asset, false),
      Account("4", "ACREEDORES Y DEUDORES", "", Liability, false),
      Account("430", "Clientes", "4", Asset, false),
      Account("400", "Proveedores", "4", Liability, false),
      Account("5", "CUENTAS FINANCIERAS", "", Asset, false),
      Account("570", "Caja", "5", Asset, false),
      Account("571", "Bancos", "5", Asset, false),
      Account("6", "COMPRAS Y GASTOS", "", Expense, false),
      Account("600", "Compras de mercaderías", "6", Expense, false),
      Account("621", "Arrendamientos y cánones", "6", Expense, false),
      Account("7", "VENTAS E INGRESOS", "", Income, false),
      Account("700", "Ventas de mercaderías", "7", Income, false) ]
  }

  /** The profile `initializeSampleData` stores under key 1. */
  const DefaultConfig := CompanyConfig(1, "Ajuste de Cuentas", "", "", "", "", None)

  /** The chart store as a map from code to account, after inserting the
      first `n` accounts of `accounts` in order. */
  function ChartPrefixMap(accounts: seq<Account>, n: nat): map<string, Account>
    requires n <= |accounts|
  {
    if n == 0 then map[] else ChartPrefixMap(accounts, n - 1)[accounts[n - 1].code := accounts[n - 1]]
  }

  function ChartMap(): map<string, Account>
  {
    ChartPrefixMap(Chart(), 19)
  }

  /** Every non-root account's parent is in the given chart. */
  predicate ParentsExist(accounts: map<string, Account>)
  {
    forall c :: c in accounts && accounts[c].parentCode != "" ==> accounts[c].parentCode in accounts
  }

  predicate CodesDistinct(accounts: seq<Account>)
  {
    forall i, j :: 0 <= i < j < |accounts| ==> accounts[i].code != accounts[j].code
  }

  /** After inserting a prefix, the store holds exactly that prefix, each
      account under its own code. */
  lemma {:induction false} ChartPrefixMapContents(accounts: seq<Account>, n: nat)
    requires n <= |accounts| && CodesDistinct(accounts)
    ensures forall c :: c in ChartPrefixMap(accounts, n) ==> ChartPrefixMap(accounts, n)[c].code == c
    ensures forall i :: 0 <= i < n ==>
      accounts[i].code in ChartPrefixMap(accounts, n) && ChartPrefixMap(accounts, n)[accounts[i].code] == accounts[i]
    ensures forall c :: c in ChartPrefixMap(accounts, n) <==> exists i :: 0 <= i < n && accounts[i].code == c
    ensures |ChartPrefixMap(accounts, n)| == n
  {
    ChartPrefixMapCodes(accounts, n);
    ChartPrefixMapValues(accounts, n);
    ChartPrefixMapKeys(accounts, n);
    ChartPrefixMapSize(accounts, n);
  }

  /** Each of the first `n` accounts is stored under its code: a later
      account never overwrites it, since no two codes coincide. */
  lemma {:induction false} ChartPrefixMapValues(accounts: seq<Account>, n: nat)
    requires n <= |accounts| && CodesDistinct(accounts)
    ensures forall i :: 0 <= i < n ==>
      accounts[i].code in ChartPrefixMap(accounts, n) && ChartPrefixMap(accounts, n)[accounts[i].code] == accounts[i]
  {
    if n > 0 {
      ChartPrefixMapValues(accounts, n - 1);
    }
  }

  /** The store's keys are the codes of the first `n` accounts. */
  lemma {:induction false} ChartPrefixMapKeys(accounts: seq<Account>, n: nat)
    requires n <= |accounts|
    ensures forall c :: c in ChartPrefixMap(accounts, n) <==> exists i :: 0 <= i < n && accounts[i].code == c
  {
    if n > 0 {
      ChartPrefixMapKeys(accounts, n - 1);
      forall c | c in ChartPrefixMap(accounts, n) ensures exists i :: 0 <= i < n && accounts[i].code == c {
        if c != accounts[n - 1].code {
          assert c in ChartPrefixMap(accounts, n - 1);
          var i :| 0 <= i < n - 1 && accounts[i].code == c;
        }
      }
    }
  }

  /** Inserting `n` accounts with distinct codes stores `n` accounts. */
  lemma {:induction false} ChartPrefixMapSize(accounts: seq<Account>, n: nat)
    requires n <= |accounts| && CodesDistinct(accounts)
    ensures |ChartPrefixMap(accounts, n)| == n
  {
    if n > 0 {
      ChartPrefixMapSize(accounts, n - 1);
      ChartPrefixMapLacks(accounts, n - 1, accounts[n - 1].code);
    }
  }

  /** Each account inserted sits under its own code. */
  lemma {:induction false} ChartPrefixMapCodes(accounts: seq<Account>, n: nat)
    requires n <= |accounts|
    ensures forall c :: c in ChartPrefixMap(accounts, n) ==> ChartPrefixMap(accounts, n)[c].code == c
  {
    if n > 0 {
      ChartPrefixMapCodes(accounts, n - 1);
    }
  }

  /** A code none of the first `n` accounts has is not in the store. */
  lemma {:induction false} ChartPrefixMapLacks(accounts: seq<Account>, n: nat, c: string)
    requires n <= |accounts| && forall j :: 0 <= j < n ==> accounts[j].code != c
    ensures c !in ChartPrefixMap(accounts, n)
  {
    if n > 0 {
      ChartPrefixMapLacks(accounts, n - 1, c);
    }
  }

  /** The decimal value of a code written in digits. */
  function CodeValue(code: string): int
  {
    if code == [] then 0 else CodeValue(code[..|code| - 1]) * 10 + (code[|code| - 1] as int - '0' as int)
  }

  /** The seeded codes, in seeding order. */
  const SeedCodes: seq<string> := ["1", "10", "100", "2", "21", "210", "3", "300", "4", "430", "400", "5", "570", "571", "6", "600", "621", "7", "700"]

  /** For each seeded account, the position of its parent in the chart, or -1 for a root. */
  const ParentPositions: seq<int> := [-1, 0, 1, -1, 3, 4, -1, 6, -1, 8, 8, -1, 11, 11, -1, 14, 14, -1, 17]

  lemma ChartCodes()
    ensures forall i :: 0 <= i < 19 ==> Chart()[i].code == SeedCodes[i]
  {
  }

  /** The seeded parent codes, in seeding order. */
  const SeedParents: seq<string> := ["", "1", "10", "", "2", "21", "", "3", "", "4", "4", "", "5", "5", "", "6", "6", "", "7"]

  lemma ChartParentCodes()
    ensures forall i :: 0 <= i < 19 ==> Chart()[i].parentCode == SeedParents[i]
  {
  }

  lemma ParentPositionsCorrect()
    ensures forall i :: 0 <= i < 19 ==> (ParentPositions[i] == -1 <==> SeedParents[i] == "")
    ensures forall i :: 0 <= i < 19 && ParentPositions[i] != -1 ==>
      0 <= ParentPositions[i] < 19 && SeedCodes[ParentPositions[i]] == SeedParents[i]
  {
  }

  /** The decimal values of the seeded codes, in seeding order. */
  const SeedValues: seq<int> := [1, 10, 100, 2, 21, 210, 3, 300, 4, 430, 400, 5, 570, 571, 6, 600, 621, 7, 700]

  lemma SeedCodeValuesLow()
    ensures forall i :: 0 <= i < 10 ==> CodeValue(SeedCodes[i]) == SeedValues[i]
  {
    assert CodeValue(SeedCodes[0]) == 1;
    assert CodeValue(SeedCodes[1]) == 10;
    assert CodeValue(SeedCodes[2]) == 100;
    assert CodeValue(SeedCodes[3]) == 2;
    assert CodeValue(SeedCodes[4]) == 21;
    assert CodeValue(SeedCodes[5]) == 210;
    assert CodeValue(SeedCodes[6]) == 3;
    assert CodeValue(SeedCodes[7]) == 300;
    assert CodeValue(SeedCodes[8]) == 4;
    assert CodeValue(SeedCodes[9]) == 430;
  }

  lemma SeedCodeValuesHigh()
    ensures forall i :: 10 <= i < 19 ==> CodeValue(SeedCodes[i]) == SeedValues[i]
  {
    assert CodeValue([]) == 0;
    assert CodeValue(SeedCodes[10]) == 400;
    assert CodeValue(SeedCodes[11]) == 5;
    assert CodeValue(SeedCodes[12]) == 570;
    assert CodeValue(SeedCodes[13]) == 571;
    assert CodeValue(SeedCodes[14]) == 6;
    assert CodeValue(SeedCodes[15]) == 600;
    assert CodeValue(SeedCodes[16]) == 621;
    assert CodeValue(SeedCodes[17]) == 7;
    assert CodeValue(SeedCodes[18]) == 700;
  }

  lemma SeedCodeValuesDistinct()
    ensures forall i, j :: 0 <= i < j < 19 ==> SeedCodes[i] != SeedCodes[j]
  {
    SeedCodeValuesLow();
    SeedCodeValuesHigh();
    forall i, j | 0 <= i < j < 19 ensures SeedCodes[i] != SeedCodes[j] {
      assert CodeValue(SeedCodes[i]) == SeedValues[i] && CodeValue(SeedCodes[j]) == SeedValues[j];
    }
  }

  /** No two seeded accounts share a code: their codes have distinct
      decimal values. */
  lemma SeedCodesDistinct()
    ensures CodesDistinct(Chart())
  {
    SeedCodeValuesDistinct();
    ChartCodes();
  }

  /** The seed chart stores nineteen accounts (its codes are distinct,
      by the lemma above), each under its own code, and every non-root
      account's parent is itself seeded. */
  lemma SeedChartWellFormed()
    ensures |ChartMap()| == 19
    ensures forall c :: c in ChartMap() ==> ChartMap()[c].code == c
    ensures ParentsExist(ChartMap())
  {
    var ch := Chart();
    SeedCodesDistinct();
    ChartPrefixMapContents(ch, 19);
    var m := ChartMap();
    ChartCodes();
    ChartParentCodes();
    ParentPositionsCorrect();
    forall c | c in m && m[c].parentCode != "" ensures m[c].parentCode in m {
      var i :| 0 <= i < 19 && ch[i].code == c;
      var j := ParentPositions[i];
      assert ch[j].code == m[c].parentCode;
    }
  }

  /** The seed chart can be added to a store exactly when none of its
      codes is taken. */
  lemma ChartMapDisjoint(m: map<string, Account>)
    ensures ChartMap().Keys !! m.Keys <==> forall i :: 0 <= i < |Chart()| ==> Chart()[i].code !in m
  {
    SeedCodesDistinct();
    ChartPrefixMapContents(Chart(), 19);
  }

  /** After the seed chart is merged into a store, every seed account is
      stored under its own code. */
  lemma SeedChartStored(m: map<string, Account>)
    ensures forall i :: 0 <= i < |Chart()| ==>
      Chart()[i].code in m + ChartMap() && (m + ChartMap())[Chart()[i].code] == Chart()[i]
  {
    SeedCodesDistinct();
    ChartStored(Chart(), m);
  }

  /** Merging a chart with distinct codes into a store leaves each of its
      accounts under its code. */
  lemma ChartStored(accounts: seq<Account>, m: map<string, Account>)
    requires CodesDistinct(accounts)
    ensures forall i :: 0 <= i < |accounts| ==>
      accounts[i].code in m + ChartPrefixMap(accounts, |accounts|)
      && (m + ChartPrefixMap(accounts, |accounts|))[accounts[i].code] == accounts[i]
  {
    ChartPrefixMapContents(accounts, |accounts|);
  }
}
