/**
 The double-entry ledger: what posting a transaction does to the books, what every
 posting keeps, and the trial balance. Money is counted in units of 0.0001.
 */
module Ledger {
  import opened Core

  datatype Account = Account(code: string, name: string, currency: string)

  datatype Entry = Entry(account: nat, debit: int, credit: int, currency: string, memo: Option<string>)

  datatype Transaction = Transaction(reference: string, description: string, entries: seq<Entry>)

  /** The committed tables; a row's id is its position. */
  datatype Books = Books(accounts: seq<Account>, transactions: seq<Transaction>)

  /** One proposed line. An amount that does not parse as money is None. */
  datatype Line = Line(account: nat, debit: Option<int>, credit: Option<int>, currency: string, memo: Option<string>)

  datatype Error =
    | TooFewLines | NotMoney | NotOneSided | NoAccount(id: nat) | WrongCurrency | Unbalanced
    | Integrity // a UNIQUE or CHECK constraint refused the flush
    | DuplicateCode

  // ---------------------------------------------------------------- posting

  function ParseLine(accounts: seq<Account>, line: Line): Result<Entry, Error> {
    if line.debit.None? || line.credit.None? then Err(NotMoney)
    else
      var debit, credit := line.debit.value, line.credit.value;
      if (debit > 0 && credit > 0) || (debit == 0 && credit == 0) then Err(NotOneSided)
      else if line.account >= |accounts| then Err(NoAccount(line.account))
      else if Upper(line.currency) != Upper(accounts[line.account].currency) then Err(WrongCurrency)
      else Ok(Entry(line.account, debit, credit, Upper(line.currency), line.memo))
  }

  /** All lines in order; the first bad one decides the error. */
  function ParseLines(accounts: seq<Account>, lines: seq<Line>): Result<seq<Entry>, Error> {
    if lines == [] then Ok([])
    else
      var front := ParseLines(accounts, lines[..|lines| - 1]);
      if front.Err? then front
      else
        var last := ParseLine(accounts, lines[|lines| - 1]);
        if last.Err? then Err(last.error) else Ok(front.value + [last.value])
  }

  function Debits(entries: seq<Entry>, currency: string): int {
    if entries == [] then 0
    else
      var last := entries[|entries| - 1];
      Debits(entries[..|entries| - 1], currency) + if last.currency == currency then last.debit else 0
  }

  function Credits(entries: seq<Entry>, currency: string): int {
    if entries == [] then 0
    else
      var last := entries[|entries| - 1];
      Credits(entries[..|entries| - 1], currency) + if last.currency == currency then last.credit else 0
  }

  ghost predicate Balanced(entries: seq<Entry>) {
    forall c :: Debits(entries, c) == Credits(entries, c)
  }

  /** ck_ledger_entry_one_sided and ck_ledger_entry_nonneg. */
  predicate RowAccepted(e: Entry) {
    (e.debit > 0 && e.credit == 0) || (e.credit > 0 && e.debit == 0)
  }

  predicate Used(b: Books, reference: string) {
    exists t :: 0 <= t < |b.transactions| && b.transactions[t].reference == reference
  }

  /** `create_balanced_transaction`: the new books, or the error and nothing written. */
  ghost function Post(b: Books, reference: string, description: string, lines: seq<Line>): Result<Books, Error> {
    if |lines| < 2 then Err(TooFewLines)
    else
      var parsed := ParseLines(b.accounts, lines);
      if parsed.Err? then Err(parsed.error)
      else if !Balanced(parsed.value) then Err(Unbalanced)
      else if Used(b, reference) then Err(Integrity)
      else if exists i :: 0 <= i < |parsed.value| && !RowAccepted(parsed.value[i]) then Err(Integrity)
      else Ok(b.(transactions := b.transactions + [Transaction(reference, description, parsed.value)]))
  }

  /** `create_account`, with the unique code as the only guard. */
  function Open(b: Books, code: string, name: string, currency: string): Result<Books, Error> {
    if exists i :: 0 <= i < |b.accounts| && b.accounts[i].code == code then Err(DuplicateCode)
    else Ok(b.(accounts := b.accounts + [Account(code, name, Upper(currency))]))
  }

  // ---------------------------------------------------------------- what the books keep

  predicate EntryFits(b: Books, e: Entry) {
    e.account < |b.accounts| && e.currency == b.accounts[e.account].currency && RowAccepted(e)
  }

  ghost predicate TransactionFits(b: Books, t: Transaction) {
    |t.entries| >= 2 && Balanced(t.entries) && forall i :: 0 <= i < |t.entries| ==> EntryFits(b, t.entries[i])
  }

  ghost predicate Sound(b: Books) {
    && (forall i :: 0 <= i < |b.accounts| ==> Upper(b.accounts[i].currency) == b.accounts[i].currency)
    && (forall i, j :: 0 <= i < j < |b.accounts| ==> b.accounts[i].code != b.accounts[j].code)
    && (forall t :: 0 <= t < |b.transactions| ==> TransactionFits(b, b.transactions[t]))
    && (forall t, u :: 0 <= t < u < |b.transactions| ==> b.transactions[t].reference != b.transactions[u].reference)
  }

  lemma {:induction false} ParsedEntriesFit(b: Books, lines: seq<Line>)
    requires Sound(b) && ParseLines(b.accounts, lines).Ok?
    ensures var entries := ParseLines(b.accounts, lines).value;
            && |entries| == |lines|
            && forall i :: 0 <= i < |lines| ==>
                 && ParseLine(b.accounts, lines[i]) == Ok(entries[i])
                 && entries[i].account < |b.accounts|
                 && entries[i].currency == b.accounts[entries[i].account].currency
  {
    if lines != [] {
      ParsedEntriesFit(b, lines[..|lines| - 1]);
      var n := |lines| - 1;
      assert ParseLine(b.accounts, lines[n]).Ok?;
    }
  }

  /** The first line that cannot be read, with what is wrong with it, checked in this order: an amount that is not
      money, both sides or neither, an unknown account, a currency that is not the account's. */
  ghost predicate FirstBadLine(b: Books, lines: seq<Line>, i: nat, e: Error) {
    && i < |lines| && (forall j :: 0 <= j < i ==> Readable(b, lines[j])) && !Readable(b, lines[i])
    && var line := lines[i];
    && (e == NotMoney <==> line.debit.None? || line.credit.None?)
    && (e == NotOneSided <==>
          line.debit.Some? && line.credit.Some?
          && ((line.debit.value > 0 && line.credit.value > 0) || (line.debit.value == 0 && line.credit.value == 0)))
    && (e == NoAccount(line.account) || e == WrongCurrency || e == NotMoney || e == NotOneSided)
    && (e == NoAccount(line.account) ==> line.account >= |b.accounts|)
    && (e == WrongCurrency ==> line.account < |b.accounts|)
  }

  predicate Readable(b: Books, line: Line) {
    && line.debit.Some? && line.credit.Some?
    && !(line.debit.value > 0 && line.credit.value > 0) && !(line.debit.value == 0 && line.credit.value == 0)
    && line.account < |b.accounts| && Upper(line.currency) == Upper(b.accounts[line.account].currency)
  }

  lemma {:induction false} ReadableIffParses(b: Books, lines: seq<Line>)
    ensures ParseLines(b.accounts, lines).Ok? <==> forall i :: 0 <= i < |lines| ==> Readable(b, lines[i])
    ensures ParseLines(b.accounts, lines).Err? ==>
              exists i: nat :: FirstBadLine(b, lines, i, ParseLines(b.accounts, lines).error)
  {
    if lines != [] {
      var n := |lines| - 1;
      var front := lines[..n];
      ReadableIffParses(b, front);
      if ParseLines(b.accounts, front).Err? {
        var e := ParseLines(b.accounts, front).error;
        var i: nat :| FirstBadLine(b, front, i, e);
        assert FirstBadLine(b, lines, i, e);
      } else {
        assert forall i :: 0 <= i < n ==> front[i] == lines[i] && Readable(b, lines[i]);
        if !Readable(b, lines[n]) { assert FirstBadLine(b, lines, n, ParseLine(b.accounts, lines[n]).error); }
      }
    }
  }

  /** Why a posting is refused: too few lines, else the first line that cannot be read, else a currency out of
      balance, else a constraint of the tables. */
  lemma PostRefusals(b: Books, reference: string, description: string, lines: seq<Line>)
    ensures var r := Post(b, reference, description, lines);
            var readable := forall i :: 0 <= i < |lines| ==> Readable(b, lines[i]);
            && (r == Err(TooFewLines) <==> |lines| < 2)
            && (|lines| >= 2 && !readable ==> r.Err? && exists i: nat :: FirstBadLine(b, lines, i, r.error))
            && (r == Err(Unbalanced) ==> |lines| >= 2 && readable)
            && (r == Err(Integrity) ==> |lines| >= 2 && readable)
            && (|lines| >= 2 && readable ==> r.Ok? || r.error in {Unbalanced, Integrity})
  {
    ReadableIffParses(b, lines);
  }

  /** What a posting writes: one transaction behind all earlier ones, with this reference and description and one
      entry for each line, in order, on the line's side, by its amount, in its account's currency, with its memo. */
  lemma PostOutcome(b: Books, reference: string, description: string, lines: seq<Line>)
    requires Sound(b) && Post(b, reference, description, lines).Ok?
    ensures var b' := Post(b, reference, description, lines).value;
            && b'.accounts == b.accounts && |b'.transactions| == |b.transactions| + 1
            && (forall t :: 0 <= t < |b.transactions| ==> b'.transactions[t] == b.transactions[t])
            && var t := b'.transactions[|b.transactions|];
            && t.reference == reference && t.description == description && |t.entries| == |lines|
            && forall i :: 0 <= i < |lines| ==>
                 && lines[i].debit.Some? && lines[i].credit.Some? && lines[i].account < |b.accounts|
                 && t.entries[i] == Entry(lines[i].account, lines[i].debit.value, lines[i].credit.value,
                                          b.accounts[lines[i].account].currency, lines[i].memo)
  {
    ParsedEntriesFit(b, lines);
  }

  /** Every posting keeps the books sound and only appends to them. */
  lemma PostKeepsSound(b: Books, reference: string, description: string, lines: seq<Line>)
    requires Sound(b) && Post(b, reference, description, lines).Ok?
    ensures var b' := Post(b, reference, description, lines).value;
            Sound(b') && b'.accounts == b.accounts && |b'.transactions| == |b.transactions| + 1
                && b.transactions <= b'.transactions
  {
    ParsedEntriesFit(b, lines);
    var b' := Post(b, reference, description, lines).value;
    forall t | 0 <= t < |b'.transactions| ensures TransactionFits(b', b'.transactions[t]) {
      if t < |b.transactions| { assert TransactionFits(b, b.transactions[t]); }
    }
  }

  /** Opening succeeds exactly for an unused code, and then adds exactly one account, with that code and name and the
      upper-cased currency, behind all earlier ones. */
  lemma OpenOutcome(b: Books, code: string, name: string, currency: string)
    ensures var r := Open(b, code, name, currency);
            && (r.Ok? <==> forall i :: 0 <= i < |b.accounts| ==> b.accounts[i].code != code)
            && (r.Err? ==> r.error == DuplicateCode)
            && (r.Ok? ==>
                  && |r.value.accounts| == |b.accounts| + 1
                  && r.value.accounts[|b.accounts|] == Account(code, name, Upper(currency))
                  && (forall i :: 0 <= i < |b.accounts| ==> r.value.accounts[i] == b.accounts[i])
                  && r.value.transactions == b.transactions)
  {
  }

  lemma OpenKeepsSound(b: Books, code: string, name: string, currency: string)
    requires Sound(b) && Open(b, code, name, currency).Ok?
    ensures var b' := Open(b, code, name, currency).value;
            Sound(b') && b'.transactions == b.transactions && b.accounts <= b'.accounts
  {
    UpperIsIdempotent(currency);
    var b' := Open(b, code, name, currency).value;
    forall t | 0 <= t < |b'.transactions| ensures TransactionFits(b', b'.transactions[t]) {
      assert TransactionFits(b, b.transactions[t]);
      forall i | 0 <= i < |b.transactions[t].entries| ensures EntryFits(b', b.transactions[t].entries[i]) {
        assert EntryFits(b, b.transactions[t].entries[i]);
      }
    }
  }

  // ---------------------------------------------------------------- balances

  function AllEntries(transactions: seq<Transaction>): seq<Entry> {
    if transactions == [] then []
    else AllEntries(transactions[..|transactions| - 1]) + transactions[|transactions| - 1].entries
  }

  /** SUM(debit) - SUM(credit) over the entries of one account in one currency. */
  function Net(entries: seq<Entry>, account: nat, currency: string): int {
    if entries == [] then 0
    else
      var e := entries[|entries| - 1];
      Net(entries[..|entries| - 1], account, currency)
      + if e.account == account && e.currency == currency then e.debit - e.credit else 0
  }

  /** `account_balance`. */
  function Balance(b: Books, account: nat): int
    requires account < |b.accounts|
  {
    Net(AllEntries(b.transactions), account, b.accounts[account].currency)
  }

  /** The balances of the first `n` accounts held in `currency`, added up. */
  function TrialBalance(b: Books, n: nat, currency: string): int
    requires n <= |b.accounts|
  {
    if n == 0 then 0
    else TrialBalance(b, n - 1, currency) + if b.accounts[n - 1].currency == currency then Balance(b, n - 1) else 0
  }

  function NetOfAccounts(accounts: seq<Account>, n: nat, entries: seq<Entry>, currency: string): int
    requires n <= |accounts|
  {
    if n == 0 then 0
    else
      NetOfAccounts(accounts, n - 1, entries, currency)
      + if accounts[n - 1].currency == currency then Net(entries, n - 1, currency) else 0
  }

  lemma {:induction false} TrialBalanceIsNetOfAccounts(b: Books, n: nat, currency: string)
    requires n <= |b.accounts|
    ensures TrialBalance(b, n, currency) == NetOfAccounts(b.accounts, n, AllEntries(b.transactions), currency)
  {
    if n > 0 { TrialBalanceIsNetOfAccounts(b, n - 1, currency); }
  }

  /** One more entry counts for exactly its own account. */
  lemma {:induction false} OneEntryCountsOnce(accounts: seq<Account>, n: nat, entries: seq<Entry>, e: Entry,
                                              currency: string)
    requires n <= |accounts| && e.account < |accounts| && e.currency == accounts[e.account].currency
    ensures NetOfAccounts(accounts, n, entries + [e], currency)
            == NetOfAccounts(accounts, n, entries, currency)
             + if e.account < n && e.currency == currency then e.debit - e.credit else 0
  {
    if n > 0 {
      OneEntryCountsOnce(accounts, n - 1, entries, e, currency);
      assert (entries + [e])[..|entries|] == entries;
    }
  }

  /** The exchange of sums: by account it is the same as by entry. */
  lemma {:induction false} ByAccountIsByEntry(accounts: seq<Account>, entries: seq<Entry>, currency: string)
    requires forall i :: 0 <= i < |entries| ==>
        entries[i].account < |accounts| && entries[i].currency == accounts[entries[i].account].currency
    ensures NetOfAccounts(accounts, |accounts|, entries, currency)
        == Debits(entries, currency) - Credits(entries, currency)
  {
    if entries == [] {
      NothingNets(accounts, |accounts|, currency);
    } else {
      var n := |entries| - 1;
      ByAccountIsByEntry(accounts, entries[..n], currency);
      OneEntryCountsOnce(accounts, |accounts|, entries[..n], entries[n], currency);
      assert entries[..n] + [entries[n]] == entries;
    }
  }

  lemma {:induction false} NothingNets(accounts: seq<Account>, n: nat, currency: string)
    requires n <= |accounts|
    ensures NetOfAccounts(accounts, n, [], currency) == 0
  {
    if n > 0 { NothingNets(accounts, n - 1, currency); }
  }

  lemma {:induction false} SumsSplit(xs: seq<Entry>, ys: seq<Entry>, currency: string)
    ensures Debits(xs + ys, currency) == Debits(xs, currency) + Debits(ys, currency)
    ensures Credits(xs + ys, currency) == Credits(xs, currency) + Credits(ys, currency)
  {
    if ys == [] {
      assert xs + ys == xs;
    } else {
      var n := |ys| - 1;
      SumsSplit(xs, ys[..n], currency);
      assert (xs + ys)[..|xs + ys| - 1] == xs + ys[..n];
    }
  }

  lemma {:induction false} NetSplits(xs: seq<Entry>, ys: seq<Entry>, account: nat, currency: string)
    ensures Net(xs + ys, account, currency) == Net(xs, account, currency) + Net(ys, account, currency)
  {
    if ys == [] {
      assert xs + ys == xs;
    } else {
      var n := |ys| - 1;
      NetSplits(xs, ys[..n], account, currency);
      assert (xs + ys)[..|xs + ys| - 1] == xs + ys[..n];
    }
  }

  /** Balanced transactions add up to balanced books, and their entries still fit the accounts. */
  lemma {:induction false} AllEntriesBalance(b: Books, n: nat)
    requires Sound(b) && n <= |b.transactions|
    ensures var entries := AllEntries(b.transactions[..n]);
            Balanced(entries) && forall i :: 0 <= i < |entries| ==> EntryFits(b, entries[i])
  {
    if n > 0 {
      AllEntriesBalance(b, n - 1);
      assert b.transactions[..n][..n - 1] == b.transactions[..n - 1];
      var front := AllEntries(b.transactions[..n - 1]);
      var t := b.transactions[n - 1];
      assert TransactionFits(b, t);
      forall c ensures Debits(front + t.entries, c) == Credits(front + t.entries, c) {
        SumsSplit(front, t.entries, c);
      }
    }
  }

  /** Trial balance: in every currency the balances of all accounts cancel out exactly. */
  lemma TrialBalanceIsZero(b: Books, currency: string)
    requires Sound(b)
    ensures TrialBalance(b, |b.accounts|, currency) == 0
  {
    AllEntriesBalance(b, |b.transactions|);
    assert b.transactions[..|b.transactions|] == b.transactions;
    TrialBalanceIsNetOfAccounts(b, |b.accounts|, currency);
    forall i | 0 <= i < |AllEntries(b.transactions)|
      ensures var e := AllEntries(b.transactions)[i];
              e.account < |b.accounts| && e.currency == b.accounts[e.account].currency
    {
      assert EntryFits(b, AllEntries(b.transactions)[i]);
    }
    ByAccountIsByEntry(b.accounts, AllEntries(b.transactions), currency);
  }

  /** SUM(debit) - SUM(credit) over every entry of the account, whatever its currency. */
  function NetAnyCurrency(entries: seq<Entry>, account: nat): int {
    if entries == [] then 0
    else
      var e := entries[|entries| - 1];
      NetAnyCurrency(entries[..|entries| - 1], account) + if e.account == account then e.debit - e.credit else 0
  }

  lemma {:induction false} NetIgnoresCurrency(b: Books, entries: seq<Entry>, account: nat)
    requires account < |b.accounts| && forall i :: 0 <= i < |entries| ==> EntryFits(b, entries[i])
    ensures Net(entries, account, b.accounts[account].currency) == NetAnyCurrency(entries, account)
  {
    if entries != [] {
      NetIgnoresCurrency(b, entries[..|entries| - 1], account);
      assert EntryFits(b, entries[|entries| - 1]);
    }
  }

  /** The currency filter of `account_balance` never drops an entry. */
  lemma BalanceDropsNothing(b: Books, account: nat)
    requires Sound(b) && account < |b.accounts|
    ensures Balance(b, account) == NetAnyCurrency(AllEntries(b.transactions), account)
  {
    AllEntriesBalance(b, |b.transactions|);
    assert b.transactions[..|b.transactions|] == b.transactions;
    NetIgnoresCurrency(b, AllEntries(b.transactions), account);
  }

  /** A posting moves each balance by its own entries and nothing else. */
  lemma PostMovesBalances(b: Books, reference: string, description: string, lines: seq<Line>, account: nat)
    requires Post(b, reference, description, lines).Ok? && account < |b.accounts|
    ensures var b' := Post(b, reference, description, lines).value;
            Balance(b', account)
            == Balance(b, account) + Net(b'.transactions[|b.transactions|].entries, account,
                b.accounts[account].currency)
  {
    var b' := Post(b, reference, description, lines).value;
    assert b'.transactions[..|b.transactions|] == b.transactions;
    NetSplits(AllEntries(b.transactions), b'.transactions[|b.transactions|].entries, account,
        b.accounts[account].currency);
  }

  // ---------------------------------------------------------------- reversal

  function ReversingLine(e: Entry): Line {
    Line(e.account, Some(e.credit), Some(e.debit), e.currency, e.memo)
  }

  function Reversing(entries: seq<Entry>): seq<Line> {
    seq(|entries|, i requires 0 <= i < |entries| => ReversingLine(entries[i]))
  }

  function Swapped(entries: seq<Entry>): seq<Entry> {
    seq(|entries|, i requires 0 <= i < |entries| => entries[i].(debit := entries[i].credit, credit := entries[i].debit))
  }

  lemma {:induction false} ReversingParses(b: Books, entries: seq<Entry>)
    requires Sound(b) && forall i :: 0 <= i < |entries| ==> EntryFits(b, entries[i])
    ensures ParseLines(b.accounts, Reversing(entries)) == Ok(Swapped(entries))
  {
    if entries != [] {
      var n := |entries| - 1;
      ReversingParses(b, entries[..n]);
      assert Reversing(entries)[..n] == Reversing(entries[..n]);
      assert EntryFits(b, entries[n]);
      assert Swapped(entries)
          == Swapped(entries[..n]) + [entries[n].(debit := entries[n].credit, credit := entries[n].debit)];
    }
  }

  lemma {:induction false} SwappedSums(entries: seq<Entry>, account: nat, currency: string)
    ensures Debits(Swapped(entries), currency) == Credits(entries, currency)
    ensures Credits(Swapped(entries), currency) == Debits(entries, currency)
    ensures Net(Swapped(entries), account, currency) == -Net(entries, account, currency)
  {
    if entries != [] {
      var n := |entries| - 1;
      SwappedSums(entries[..n], account, currency);
      assert Swapped(entries)[..n] == Swapped(entries[..n]);
    }
  }

  /** The reversing entries of a committed transaction are accepted rows that balance. */
  lemma SwappedFits(b: Books, entries: seq<Entry>)
    requires Balanced(entries) && forall i :: 0 <= i < |entries| ==> EntryFits(b, entries[i])
    ensures Balanced(Swapped(entries))
    ensures forall i :: 0 <= i < |entries| ==> RowAccepted(Swapped(entries)[i])
  {
    forall c ensures Debits(Swapped(entries), c) == Credits(Swapped(entries), c) {
      SwappedSums(entries, 0, c);
    }
    forall i | 0 <= i < |entries| ensures RowAccepted(Swapped(entries)[i]) {
      assert EntryFits(b, entries[i]);
    }
  }

  /** Corrections are reversing entries: any committed transaction, whatever was posted since, can be reversed
      under an unused reference, and that takes exactly its own effect off every balance. */
  lemma AnyTransactionCanBeReversed(b: Books, t: nat, another: string, description: string)
    requires Sound(b) && t < |b.transactions| && !Used(b, another)
    ensures var entries := b.transactions[t].entries;
            var undo := Post(b, another, description, Reversing(entries));
            && undo.Ok?
            && undo.value == b.(transactions := b.transactions + [Transaction(another, description, Swapped(entries))])
            && forall a :: 0 <= a < |b.accounts| ==>
                 Balance(undo.value, a) == Balance(b, a) - Net(entries, a, b.accounts[a].currency)
  {
    var entries := b.transactions[t].entries;
    assert TransactionFits(b, b.transactions[t]);
    ReversingParses(b, entries);
    SwappedFits(b, entries);
    var undo := Post(b, another, description, Reversing(entries));
    assert undo.Ok?;
    forall a | 0 <= a < |b.accounts|
      ensures Balance(undo.value, a) == Balance(b, a) - Net(entries, a, b.accounts[a].currency)
    {
      PostMovesBalances(b, another, description, Reversing(entries), a);
      SwappedSums(entries, a, b.accounts[a].currency);
    }
  }

  /** Posted and reversed, a transaction has left every balance as it was. */
  lemma ReversalRestoresBalances(b: Books, reference: string, description: string, lines: seq<Line>, another: string)
    requires Sound(b) && Post(b, reference, description, lines).Ok?
    requires !Used(b, another) && another != reference
    ensures var b1 := Post(b, reference, description, lines).value;
            var undo := Post(b1, another, description, Reversing(b1.transactions[|b.transactions|].entries));
            && undo.Ok?
            && undo.value.accounts == b.accounts && b1.transactions <= undo.value.transactions
            && forall a :: 0 <= a < |b.accounts| ==> Balance(undo.value, a) == Balance(b, a)
  {
    PostKeepsSound(b, reference, description, lines);
    var b1 := Post(b, reference, description, lines).value;
    AnyTransactionCanBeReversed(b1, |b.transactions|, another, description);
    forall a | 0 <= a < |b.accounts|
      ensures Balance(b1, a)
              == Balance(b, a) + Net(b1.transactions[|b.transactions|].entries, a, b.accounts[a].currency)
    {
      PostMovesBalances(b, reference, description, lines, a);
    }
  }

  // ---------------------------------------------------------------- the request schema

  /** `check_single_sided`. */
  predicate SingleSided(line: Line) {
    && line.debit.Some? && line.credit.Some?
    && !(line.debit.value < 0 || line.credit.value < 0)
    && !(line.debit.value > 0 && line.credit.value > 0)
    && !(line.debit.value == 0 && line.credit.value == 0)
  }

  /** The proposed lines as the schema adds them up, account ignored. */
  function Proposed(lines: seq<Line>): seq<Entry> {
    seq(|lines|, i requires 0 <= i < |lines| =>
      Entry(lines[i].account, Amount(lines[i].debit), Amount(lines[i].credit), Upper(lines[i].currency), lines[i].memo))
  }

  function Amount(money: Option<int>): int { if money.Some? then money.value else 0 }

  ghost predicate SchemaAccepts(lines: seq<Line>) {
    && |lines| >= 2
    && (forall i :: 0 <= i < |lines| ==> SingleSided(lines[i]))
    && Balanced(Proposed(lines))
  }

  predicate AccountsAgree(accounts: seq<Account>, lines: seq<Line>) {
    forall i :: 0 <= i < |lines| ==>
      lines[i].account < |accounts| && Upper(lines[i].currency) == Upper(accounts[lines[i].account].currency)
  }

  lemma {:induction false} AcceptedLinesParse(accounts: seq<Account>, lines: seq<Line>)
    requires AccountsAgree(accounts, lines) && forall i :: 0 <= i < |lines| ==> SingleSided(lines[i])
    ensures ParseLines(accounts, lines) == Ok(Proposed(lines))
    ensures forall i :: 0 <= i < |lines| ==> RowAccepted(Proposed(lines)[i])
  {
    if lines == [] {
      assert Proposed(lines) == [];
    } else {
      var n := |lines| - 1;
      AcceptedLinesParse(accounts, lines[..n]);
      assert SingleSided(lines[n]) && ParseLine(accounts, lines[n]) == Ok(Proposed(lines)[n]);
      assert Proposed(lines) == Proposed(lines[..n]) + [Proposed(lines)[n]];
      forall i | 0 <= i < |lines| ensures RowAccepted(Proposed(lines)[i]) { assert SingleSided(lines[i]); }
    }
  }

  /** "Validated twice on purpose": the service together with the database constraints commits a
      transaction exactly when the request schema accepts it, its accounts exist in the right
      currency and its reference is new. */
  lemma PostIffSchemaAccepts(b: Books, reference: string, description: string, lines: seq<Line>)
    requires Sound(b)
    ensures Post(b, reference, description, lines).Ok? <==>
            SchemaAccepts(lines) && AccountsAgree(b.accounts, lines) && !Used(b, reference)
  {
    if SchemaAccepts(lines) && AccountsAgree(b.accounts, lines) {
      AcceptedLinesParse(b.accounts, lines);
    }
    if Post(b, reference, description, lines).Ok? {
      ParsedEntriesFit(b, lines);
      var entries := ParseLines(b.accounts, lines).value;
      forall i | 0 <= i < |lines| ensures SingleSided(lines[i]) {
        assert RowAccepted(entries[i]) && ParseLine(b.accounts, lines[i]) == Ok(entries[i]);
      }
      forall i | 0 <= i < |lines|
        ensures lines[i].account < |b.accounts|
            && Upper(lines[i].currency) == Upper(b.accounts[lines[i].account].currency)
      {
        assert ParseLine(b.accounts, lines[i]) == Ok(entries[i]);
      }
      AcceptedLinesParse(b.accounts, lines);
    }
  }
}
