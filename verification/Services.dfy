/**
 The ledger and travel services as code: they change one session's tables in place,
 and are proved against the functions of `Ledger` and `Travel`.
 */
module Services {
  import opened Core
  import opened Ledger
  import opened Travel

  /** The tables one unit of work sees; an exception rolls them back. */
  class Session {
    var office: Office

    constructor ()
      ensures office == Start()
    {
      office := Start();
    }
  }

  // ---------------------------------------------------------------- per-currency buckets

  type Buckets = map<string, (int, int)>

  /** The buckets hold the debit and credit totals of the lines seen so far. */
  ghost predicate BucketsOf(m: Buckets, entries: seq<Entry>) {
    && (forall c :: c in m ==> m[c] == (Debits(entries, c), Credits(entries, c)))
    && (forall c :: c !in m ==> Debits(entries, c) == 0 && Credits(entries, c) == 0)
  }

  function Drop(m: Buckets, e: Entry): Buckets {
    var bucket := if e.currency in m then m[e.currency] else (0, 0);
    m[e.currency := (bucket.0 + e.debit, bucket.1 + e.credit)]
  }

  lemma DropKeepsBuckets(m: Buckets, entries: seq<Entry>, e: Entry)
    requires BucketsOf(m, entries)
    ensures BucketsOf(Drop(m, e), entries + [e])
  {
    assert (entries + [e])[..|entries|] == entries;
  }

  method AllBalanced(byCurrency: Buckets, ghost entries: seq<Entry>) returns (balanced: bool)
    requires BucketsOf(byCurrency, entries)
    ensures balanced <==> Balanced(entries)
  {
    var left := byCurrency.Keys;
    while left != {}
      invariant left <= byCurrency.Keys
      invariant forall c :: c in byCurrency && c !in left ==> byCurrency[c].0 == byCurrency[c].1
      decreases |left|
    {
      var currency :| currency in left;
      if byCurrency[currency].0 != byCurrency[currency].1 {
        return false;
      }
      left := left - {currency};
    }
    return true;
  }

  /** `LedgerTransactionCreate`: every line single-sided, then the totals per currency. */
  method SchemaCheck(lines: seq<Line>) returns (accepted: bool)
    ensures accepted <==> SchemaAccepts(lines)
  {
    for i := 0 to |lines|
      invariant forall j :: 0 <= j < i ==> SingleSided(lines[j])
    {
      if !SingleSided(lines[i]) {
        return false;
      }
    }
    if |lines| < 2 {
      return false;
    }
    var byCurrency: Buckets := map[];
    ghost var proposed := Proposed(lines);
    for i := 0 to |lines|
      invariant BucketsOf(byCurrency, proposed[..i])
    {
      DropKeepsBuckets(byCurrency, proposed[..i], proposed[i]);
      assert proposed[..i + 1] == proposed[..i] + [proposed[i]];
      var line := lines[i];
      byCurrency := Drop(byCurrency,
          Entry(line.account, Amount(line.debit), Amount(line.credit), Upper(line.currency), line.memo));
    }
    assert proposed[..|lines|] == proposed;
    accepted := AllBalanced(byCurrency, proposed);
  }

  class LedgerService {
    const session: Session

    constructor (session: Session)
      ensures this.session == session
    {
      this.session := session;
    }

    method CreateAccount(code: string, name: string, currency: string) returns (r: Result<nat, Ledger.Error>)
      modifies session
      ensures var books := old(session.office.books);
              match Ledger.Open(books, code, name, currency)
              case Ok(after) => r == Ok(|books.accounts|) && session.office == old(session.office).(books := after)
              case Err(e) => r == Err(e) && session.office == old(session.office)
    {
      var books := session.office.books;
      for i := 0 to |books.accounts|
        invariant forall j :: 0 <= j < i ==> books.accounts[j].code != code
      {
        if books.accounts[i].code == code {
          return Err(DuplicateCode);
        }
      }
      var account := Account(code, name, Upper(currency));
      session.office := session.office.(books := books.(accounts := books.accounts + [account]));
      return Ok(|books.accounts|);
    }

    /** The UNIQUE reference, checked when the header row is flushed. */
    method ReferenceTaken(reference: string) returns (taken: bool)
      ensures taken <==> Used(session.office.books, reference)
    {
      var transactions := session.office.books.transactions;
      for i := 0 to |transactions|
        invariant forall j :: 0 <= j < i ==> transactions[j].reference != reference
      {
        if transactions[i].reference == reference {
          return true;
        }
      }
      return false;
    }

    /** Parsing the lines while adding each to its currency's bucket. */
    method ReadLines(lines: seq<Line>) returns (parsed: Result<seq<Entry>, Ledger.Error>, byCurrency: Buckets)
      ensures parsed == ParseLines(session.office.books.accounts, lines)
      ensures parsed.Ok? ==> BucketsOf(byCurrency, parsed.value)
    {
      var accounts := session.office.books.accounts;
      var entries: seq<Entry> := [];
      byCurrency := map[];
      for i := 0 to |lines|
        invariant ParseLines(accounts, lines[..i]) == Ok(entries)
        invariant BucketsOf(byCurrency, entries)
      {
        assert lines[..i + 1][..i] == lines[..i];
        var line := ParseLine(accounts, lines[i]);
        if line.Err? {
          ParseStops(accounts, lines, i);
          return Err(line.error), byCurrency;
        }
        DropKeepsBuckets(byCurrency, entries, line.value);
        byCurrency := Drop(byCurrency, line.value);
        entries := entries + [line.value];
      }
      assert lines[..|lines|] == lines;
      return Ok(entries), byCurrency;
    }

    method CreateBalancedTransaction(reference: string, description: string, lines: seq<Line>)
      returns (r: Result<nat, Ledger.Error>)
      modifies session
      ensures var books := old(session.office.books);
              match Post(books, reference, description, lines)
              case Ok(after) => r == Ok(|books.transactions|) && session.office == old(session.office).(books := after)
              case Err(e) => r == Err(e) && session.office == old(session.office)
    {
      if |lines| < 2 {
        return Err(TooFewLines);
      }
      var parsed, byCurrency := ReadLines(lines);
      if parsed.Err? {
        return Err(parsed.error);
      }
      var entries := parsed.value;
      var balanced := AllBalanced(byCurrency, entries);
      if !balanced {
        return Err(Unbalanced);
      }
      var taken := ReferenceTaken(reference);
      if taken {
        return Err(Integrity);
      }
      for i := 0 to |entries|
        invariant forall j :: 0 <= j < i ==> RowAccepted(entries[j])
      {
        if !RowAccepted(entries[i]) {
          return Err(Integrity);
        }
      }
      var books := session.office.books;
      session.office := session.office.(books :=
        books.(transactions := books.transactions + [Transaction(reference, description, entries)]));
      return Ok(|books.transactions|);
    }

    /** SUM(debit) - SUM(credit) over the account's entries in the account's currency. */
    method AccountBalance(account: nat) returns (r: Result<int, Ledger.Error>)
      ensures r == if account < |session.office.books.accounts| then Ok(Balance(session.office.books, account))
          else Err(NoAccount(account))
    {
      var books := session.office.books;
      if account >= |books.accounts| {
        return Err(NoAccount(account));
      }
      var currency := books.accounts[account].currency;
      var entries := AllEntries(books.transactions);
      var debits, credits := 0, 0;
      for i := 0 to |entries|
        invariant debits - credits == Net(entries[..i], account, currency)
      {
        assert entries[..i + 1][..i] == entries[..i];
        if entries[i].account == account && entries[i].currency == currency {
          debits := debits + entries[i].debit;
          credits := credits + entries[i].credit;
        }
      }
      assert entries[..|entries|] == entries;
      return Ok(debits - credits);
    }
  }

  /** A line that fails decides the error of every longer list. */
  lemma {:induction false} ParseStops(accounts: seq<Account>, lines: seq<Line>, i: nat)
    requires i < |lines| && ParseLines(accounts, lines[..i]).Ok? && ParseLine(accounts, lines[i]).Err?
    ensures ParseLines(accounts, lines) == Err(ParseLine(accounts, lines[i]).error)
  {
    var n := |lines| - 1;
    if i < n {
      assert lines[..n][..i] == lines[..i];
      ParseStops(accounts, lines[..n], i);
    }
  }

  class TravelService {
    const session: Session
    const ledger: LedgerService

    constructor (session: Session)
      ensures this.session == session && ledger.session == session
    {
      this.session := session;
      this.ledger := new LedgerService(session);
    }

    method CreateTravelRequest(trip: Trip) returns (r: Result<nat, Failure>)
      modifies session
      ensures match Request(old(session.office), trip)
              case Ok(after) => r == Ok(|old(session.office).trips|) && session.office == after
              case Err(e) => r == Err(e) && session.office == old(session.office)
    {
      var o := session.office;
      if trip.estimated <= 0 {
        return Err(CheckFailed);
      }
      session.office := session.office.(trips := o.trips + [trip.(currency := Upper(trip.currency))]);
      session.office := session.office.(approvals := o.approvals + [Approval(|o.trips|, Pending, None, None)]);
      return Ok(|o.trips|);
    }

    /** The SUM over the trip's expenses. */
    method TripTotal(trip: nat) returns (total: int)
      ensures total == Spent(session.office.expenses, trip)
    {
      var expenses := session.office.expenses;
      total := 0;
      for i := 0 to |expenses|
        invariant total == Spent(expenses[..i], trip)
      {
        assert expenses[..i + 1][..i] == expenses[..i];
        if expenses[i].trip == Some(trip) {
          total := total + expenses[i].amount;
        }
      }
      assert expenses[..|expenses|] == expenses;
    }

    method PostPaymentLedger(id: nat) returns (r: Result<(), Failure>)
      requires id < |session.office.approvals| && ledger.session == session
      modifies session
      ensures match PostPayment(old(session.office), id)
              case Ok(books) => r == Ok(()) && session.office == old(session.office).(books := books)
              case Err(e) => r == Err(e) && session.office == old(session.office)
    {
      var o := session.office;
      var trip := o.approvals[id].trip;
      if trip >= |o.trips| {
        return Err(NotFound);
      }
      var cash := AccountByCode(o.books.accounts, CASH_CODE);
      if cash.None? {
        return Err(MissingAccount(CASH_CODE));
      }
      var travel := AccountByCode(o.books.accounts, TRAVEL_CODE);
      if travel.None? {
        return Err(MissingAccount(TRAVEL_CODE));
      }
      var amount := TripTotal(trip);
      if amount == 0 {
        amount := o.trips[trip].estimated;
      }
      var posted := ledger.CreateBalancedTransaction(
        PayReference(id), PaymentDescription(o.trips[trip]),
        PaymentLines(travel.value, cash.value, amount, o.trips[trip].currency));
      if posted.Err? {
        return Err(LedgerRefused(posted.error));
      }
      return Ok(());
    }

    method TransitionApproval(id: nat, target: Status, reviewer: Option<string>, notes: Option<string>)
      returns (r: Result<Approval, Failure>)
      requires ledger.session == session
      modifies session
      ensures match Transition(old(session.office), id, target, reviewer, notes)
              case Ok(after) => session.office == after && id < |after.approvals| && r == Ok(after.approvals[id])
              case Err(e) => r == Err(e) && session.office == old(session.office)
    {
      if id >= |session.office.approvals| {
        return Err(NotFound);
      }
      var approval := session.office.approvals[id];
      if target !in AllowedTransitions(approval.status) {
        return Err(IllegalMove);
      }
      if target == Paid {
        var posted := PostPaymentLedger(id);
        if posted.Err? {
          return Err(posted.error);
        }
      }
      approval := approval.(status := target);
      if reviewer.Some? {
        approval := approval.(reviewer := reviewer);
      }
      if notes.Some? {
        approval := approval.(notes := notes);
      }
      session.office := session.office.(approvals := session.office.approvals[id := approval]);
      return Ok(approval);
    }

    method CreateExpense(expense: Expense) returns (r: Result<nat, Failure>)
      modifies session
      ensures match Spend(old(session.office), expense)
              case Ok(after) => r == Ok(|old(session.office).expenses|) && session.office == after
              case Err(e) => r == Err(e) && session.office == old(session.office)
    {
      var o := session.office;
      if expense.trip.Some? {
        var trip := expense.trip.value;
        if trip >= |o.trips| {
          return Err(NotFound);
        }
        var approval := ApprovalOf(o.approvals, trip);
        if approval.None? {
          return Err(IllegalMove);
        }
        if o.approvals[approval.value].status !in {Approved, Paid} {
          return Err(IllegalMove);
        }
        if Upper(expense.currency) != Upper(o.trips[trip].currency) {
          return Err(CurrencyConflict);
        }
      }
      if expense.amount <= 0 {
        return Err(CheckFailed);
      }
      session.office := session.office.(expenses := o.expenses + [expense.(currency := Upper(expense.currency))]);
      return Ok(|o.expenses|);
    }
  }
}
