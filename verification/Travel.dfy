/**
 Travel requests, the approval state machine and the payments it posts to the ledger,
 over whole runs of the office: account openings, hand postings, requests, expenses and
 reviewer decisions in any order.
 */
module Travel {
  import opened Core
  import opened Ledger

  datatype Status = Pending | Approved | Rejected | Paid

  datatype Trip = Trip(employee: string, destination: string, estimated: int, currency: string)

  datatype Approval = Approval(trip: nat, status: Status, reviewer: Option<string>, notes: Option<string>)

  datatype Expense = Expense(trip: Option<nat>, amount: int, currency: string)

  /** The committed tables of the office; a row's id is its position. */
  datatype Office = Office(books: Books, trips: seq<Trip>, approvals: seq<Approval>, expenses: seq<Expense>)

  datatype Failure =
    | NotFound
    | IllegalMove            // InvalidStateTransitionError
    | CurrencyConflict
    | MissingAccount(code: string)
    | LedgerRefused(error: Ledger.Error)
    | CheckFailed            // a CHECK on a money column

  /** ALLOWED_TRANSITIONS. */
  function AllowedTransitions(from: Status): set<Status> {
    match from
    case Pending => {Approved, Rejected}
    case Approved => {Paid}
    case Rejected => {}
    case Paid => {}
  }

  const CASH_CODE := "CASH"
  const TRAVEL_CODE := "TRAVEL"

  function PayReference(id: nat): string { "PAY-" + Decimal(id) }

  lemma PayReferenceIsInjective(id: nat, other: nat)
    requires PayReference(id) == PayReference(other)
    ensures id == other
  {
    assert PayReference(id)[4..] == Decimal(id) && PayReference(other)[4..] == Decimal(other);
    DecimalIsInjective(id, other);
  }

  /** Whether an account has the code, and which. */
  function AccountByCode(accounts: seq<Account>, code: string): (r: Option<nat>)
    ensures r.Some? ==> r.value < |accounts| && accounts[r.value].code == code
    ensures r.None? ==> forall i :: 0 <= i < |accounts| ==> accounts[i].code != code
  {
    if accounts == [] then None
    else if accounts[|accounts| - 1].code == code then Some(|accounts| - 1)
    else AccountByCode(accounts[..|accounts| - 1], code)
  }

  function Spent(expenses: seq<Expense>, trip: nat): int {
    if expenses == [] then 0
    else
      var e := expenses[|expenses| - 1];
      Spent(expenses[..|expenses| - 1], trip) + if e.trip == Some(trip) then e.amount else 0
  }

  /** What a payment reimburses: the expenses of the trip, or the estimate when they sum to nothing. */
  function Due(o: Office, trip: nat): int
    requires trip < |o.trips|
  {
    var spent := Spent(o.expenses, trip);
    if spent == 0 then o.trips[trip].estimated else spent
  }

  function PaymentLines(travel: nat, cash: nat, amount: int, currency: string): seq<Line> {
    [Line(travel, Some(amount), Some(0), currency, None), Line(cash, Some(0), Some(amount), currency, None)]
  }

  function PaymentDescription(trip: Trip): string {
    "Travel payment: " + trip.employee + " \U{2192} " + trip.destination
  }

  /** `_post_payment_ledger`. */
  ghost function PostPayment(o: Office, id: nat): Result<Books, Failure>
    requires id < |o.approvals|
  {
    var trip := o.approvals[id].trip;
    if trip >= |o.trips| then Err(NotFound)
    else
      var cash := AccountByCode(o.books.accounts, CASH_CODE);
      if cash.None? then Err(MissingAccount(CASH_CODE))
      else
        var travel := AccountByCode(o.books.accounts, TRAVEL_CODE);
        if travel.None? then Err(MissingAccount(TRAVEL_CODE))
        else
          var lines := PaymentLines(travel.value, cash.value, Due(o, trip), o.trips[trip].currency);
          match Post(o.books, PayReference(id), PaymentDescription(o.trips[trip]), lines)
          case Ok(books) => Ok(books)
          case Err(e) => Err(LedgerRefused(e))
  }

  function OrElse<T>(given: Option<T>, kept: Option<T>): Option<T> { if given.Some? then given else kept }

  /** `transition_approval`, a failure leaving the office as it was. */
  ghost function Transition(o: Office, id: nat, target: Status, reviewer: Option<string>, notes: Option<string>)
    : Result<Office, Failure>
  {
    if id >= |o.approvals| then Err(NotFound)
    else
      var a := o.approvals[id];
      if target !in AllowedTransitions(a.status) then Err(IllegalMove)
      else
        var books := if target == Paid then PostPayment(o, id) else Ok(o.books);
        if books.Err? then Err(books.error)
        else
          var moved := Approval(a.trip, target, OrElse(reviewer, a.reviewer), OrElse(notes, a.notes));
          Ok(o.(books := books.value, approvals := o.approvals[id := moved]))
  }

  /** `create_travel_request`: the trip and its pending approval in one unit of work. */
  function Request(o: Office, trip: Trip): Result<Office, Failure> {
    if trip.estimated <= 0 then Err(CheckFailed)
    else Ok(o.(trips := o.trips + [trip.(currency := Upper(trip.currency))],
               approvals := o.approvals + [Approval(|o.trips|, Pending, None, None)]))
  }

  /** The approval row of a trip, if it has one. */
  function ApprovalOf(approvals: seq<Approval>, trip: nat): (r: Option<nat>)
    ensures r.Some? ==> r.value < |approvals| && approvals[r.value].trip == trip
    ensures r.None? ==> forall i :: 0 <= i < |approvals| ==> approvals[i].trip != trip
  {
    if approvals == [] then None
    else if approvals[|approvals| - 1].trip == trip then Some(|approvals| - 1)
    else ApprovalOf(approvals[..|approvals| - 1], trip)
  }

  /** `create_expense`. */
  function Spend(o: Office, e: Expense): Result<Office, Failure> {
    var refusal :=
      if e.trip.None? then None
      else if e.trip.value >= |o.trips| then Some(NotFound)
      else
        var approval := ApprovalOf(o.approvals, e.trip.value);
        if approval.None? then Some(IllegalMove)
        else if o.approvals[approval.value].status !in {Approved, Paid} then Some(IllegalMove)
        else if Upper(e.currency) != Upper(o.trips[e.trip.value].currency) then Some(CurrencyConflict)
        else None;
    if refusal.Some? then Err(refusal.value)
    else if e.amount <= 0 then Err(CheckFailed)
    else Ok(o.(expenses := o.expenses + [e.(currency := Upper(e.currency))]))
  }

  // ---------------------------------------------------------------- runs

  datatype Action =
    | OpenAccount(code: string, name: string, accountCurrency: string)
    | PostByHand(reference: string, description: string, lines: seq<Line>)
    | RequestTrip(trip: Trip)
    | Record(expense: Expense)
    | Decide(id: nat, target: Status, reviewer: Option<string>, notes: Option<string>)

  function Start(): Office { Office(Books([], []), [], [], []) }

  function Kept<T>(r: Result<Office, T>, o: Office): Office { if r.Ok? then r.value else o }

  /** One request of the API; a refused one changes nothing. */
  ghost function Next(o: Office, a: Action): Office {
    match a
    case OpenAccount(code, name, currency) =>
      var r := Ledger.Open(o.books, code, name, currency);
      if r.Ok? then o.(books := r.value) else o
    case PostByHand(reference, description, lines) =>
      var r := Post(o.books, reference, description, lines);
      if r.Ok? then o.(books := r.value) else o
    case RequestTrip(trip) => Kept(Request(o, trip), o)
    case Record(e) => Kept(Spend(o, e), o)
    case Decide(id, target, reviewer, notes) => Kept(Transition(o, id, target, reviewer, notes), o)
  }

  ghost function Run(acts: seq<Action>): Office {
    if acts == [] then Start() else Next(Run(acts[..|acts| - 1]), acts[|acts| - 1])
  }

  /** What every request keeps. */
  ghost predicate Inv(o: Office) {
    && Sound(o.books)
    && |o.approvals| == |o.trips|
    && (forall i :: 0 <= i < |o.trips| ==>
        o.approvals[i].trip == i && o.trips[i].estimated > 0 && Upper(o.trips[i].currency) == o.trips[i].currency)
    && (forall i :: 0 <= i < |o.expenses| ==> ExpenseFits(o, o.expenses[i]))
  }

  /** Money is only spent on a trip after it was approved, and in the currency of the trip. */
  ghost predicate ExpenseFits(o: Office, e: Expense) {
    && e.amount > 0
    && (e.trip.Some? ==>
          && e.trip.value < |o.trips| && e.trip.value < |o.approvals|
          && o.approvals[e.trip.value].status in {Approved, Paid}
          && e.currency == o.trips[e.trip.value].currency)
  }

  lemma DecideKeepsInv(o: Office, id: nat, target: Status, reviewer: Option<string>, notes: Option<string>)
    requires Inv(o) && Transition(o, id, target, reviewer, notes).Ok?
    ensures var o' := Transition(o, id, target, reviewer, notes).value;
            Inv(o') && o.books.transactions <= o'.books.transactions && o'.books.accounts == o.books.accounts
  {
    var o' := Transition(o, id, target, reviewer, notes).value;
    if target == Paid {
      var trip := o.approvals[id].trip;
      var travel, cash := AccountByCode(o.books.accounts, TRAVEL_CODE).value,
          AccountByCode(o.books.accounts, CASH_CODE).value;
      PostKeepsSound(o.books, PayReference(id), PaymentDescription(o.trips[trip]),
                     PaymentLines(travel, cash, Due(o, trip), o.trips[trip].currency));
    }
    forall i | 0 <= i < |o'.expenses| ensures ExpenseFits(o', o'.expenses[i]) { assert ExpenseFits(o, o.expenses[i]); }
  }

  lemma SpendKeepsInv(o: Office, e: Expense)
    requires Inv(o) && Spend(o, e).Ok?
    ensures Inv(Spend(o, e).value)
  {
    var o' := Spend(o, e).value;
    forall i | 0 <= i < |o'.expenses| ensures ExpenseFits(o', o'.expenses[i]) {
      if i < |o.expenses| { assert ExpenseFits(o, o.expenses[i]); }
    }
  }

  lemma NextKeepsInv(o: Office, a: Action)
    requires Inv(o)
    ensures Inv(Next(o, a))
    ensures o.books.transactions <= Next(o, a).books.transactions
  {
    var o' := Next(o, a);
    match a
    case OpenAccount(code, name, currency) =>
      if Ledger.Open(o.books, code, name, currency).Ok? { OpenKeepsSound(o.books, code, name, currency); }
    case PostByHand(reference, description, lines) =>
      if Post(o.books, reference, description, lines).Ok? { PostKeepsSound(o.books, reference, description, lines); }
    case RequestTrip(trip) =>
      UpperIsIdempotent(trip.currency);
      forall i | 0 <= i < |o'.expenses|
        ensures ExpenseFits(o', o'.expenses[i])
      {
        assert ExpenseFits(o, o.expenses[i]);
      }
    case Record(e) => if Spend(o, e).Ok? { SpendKeepsInv(o, e); }
    case Decide(id, target, reviewer, notes) =>
      if Transition(o, id, target, reviewer, notes).Ok? { DecideKeepsInv(o, id, target, reviewer, notes); }
  }

  lemma {:induction false} RunsKeepInv(acts: seq<Action>)
    ensures Inv(Run(acts))
  {
    if acts != [] {
      RunsKeepInv(acts[..|acts| - 1]);
      NextKeepsInv(Run(acts[..|acts| - 1]), acts[|acts| - 1]);
    }
  }

  /** After any run the balances of all accounts of any one currency add up to exactly zero. */
  lemma TrialBalanceAlways(acts: seq<Action>, currency: string)
    ensures var b := Run(acts).books; TrialBalance(b, |b.accounts|, currency) == 0
  {
    RunsKeepInv(acts);
    TrialBalanceIsZero(Run(acts).books, currency);
  }

  // ---------------------------------------------------------------- payments

  lemma {:induction false} SpentIsZeroIffNothingSpent(expenses: seq<Expense>, trip: nat)
    requires forall i :: 0 <= i < |expenses| ==> expenses[i].amount > 0
    ensures Spent(expenses, trip) >= 0
    ensures Spent(expenses, trip) == 0 <==> forall i :: 0 <= i < |expenses| ==> expenses[i].trip != Some(trip)
  {
    if expenses != [] {
      SpentIsZeroIffNothingSpent(expenses[..|expenses| - 1], trip);
    }
  }

  /** The amount due is positive, and is the estimate exactly when the trip has no expense. */
  lemma DueIsPositive(o: Office, trip: nat)
    requires Inv(o) && trip < |o.trips|
    ensures Due(o, trip) > 0
    ensures Due(o, trip) ==
              if exists i :: 0 <= i < |o.expenses| && o.expenses[i].trip == Some(trip) then Spent(o.expenses, trip)
              else o.trips[trip].estimated
  {
    AmountsArePositive(o);
    SpentIsZeroIffNothingSpent(o.expenses, trip);
  }

  /** The one transaction that pays approval `id`: TRAVEL is debited what CASH is credited. */
  function Payment(o: Office, id: nat): Transaction
    requires id < |o.trips|
    requires AccountByCode(o.books.accounts, CASH_CODE).Some? && AccountByCode(o.books.accounts, TRAVEL_CODE).Some?
  {
    var amount, currency := Due(o, id), o.trips[id].currency;
    Transaction(PayReference(id), PaymentDescription(o.trips[id]),
                [Entry(AccountByCode(o.books.accounts, TRAVEL_CODE).value, amount, 0, currency, None),
                 Entry(AccountByCode(o.books.accounts, CASH_CODE).value, 0, amount, currency, None)])
  }

  predicate Payable(o: Office, id: nat) {
    && id < |o.approvals| && id < |o.trips| && o.approvals[id].status == Approved
    && var cash, travel := AccountByCode(o.books.accounts, CASH_CODE), AccountByCode(o.books.accounts, TRAVEL_CODE);
    && cash.Some? && travel.Some?
    && o.books.accounts[cash.value].currency == o.trips[id].currency
    && o.books.accounts[travel.value].currency == o.trips[id].currency
    && !Used(o.books, PayReference(id))
  }

  lemma PaymentEntries(accounts: seq<Account>, travel: nat, cash: nat, amount: int, currency: string)
    requires amount > 0 && Upper(currency) == currency
    ensures var lines := PaymentLines(travel, cash, amount, currency);
            && SchemaAccepts(lines)
            && Proposed(lines) == [Entry(travel, amount, 0, currency, None), Entry(cash, 0, amount, currency, None)]
  {
    var lines := PaymentLines(travel, cash, amount, currency);
    var entries := Proposed(lines);
    assert entries == [Entry(travel, amount, 0, currency, None), Entry(cash, 0, amount, currency, None)];
    forall c ensures Debits(entries, c) == Credits(entries, c) {
      SumsSplit([entries[0]], [entries[1]], c);
      assert entries == [entries[0]] + [entries[1]];
      assert [entries[0]][..0] == [] && [entries[1]][..0] == [];
    }
  }

  /** Marking paid succeeds exactly for an approved trip whose currency the CASH and TRAVEL
      accounts share and whose payment reference is unused, and then posts exactly its payment. */
  lemma PayIffPayable(o: Office, id: nat, reviewer: Option<string>, notes: Option<string>)
    requires Inv(o)
    ensures var r := Transition(o, id, Paid, reviewer, notes);
            && (r.Ok? <==> Payable(o, id))
            && (r.Ok? ==> r.value.books == o.books.(transactions := o.books.transactions + [Payment(o, id)]))
  {
    var cash, travel := AccountByCode(o.books.accounts, CASH_CODE), AccountByCode(o.books.accounts, TRAVEL_CODE);
    if id < |o.approvals| && cash.Some? && travel.Some? {
      var trip := o.trips[id];
      var lines := PaymentLines(travel.value, cash.value, Due(o, id), trip.currency);
      DueIsPositive(o, id);
      PaymentEntries(o.books.accounts, travel.value, cash.value, Due(o, id), trip.currency);
      PostIffSchemaAccepts(o.books, PayReference(id), PaymentDescription(trip), lines);
      assert lines[0].account == travel.value && lines[1].account == cash.value;
      if Post(o.books, PayReference(id), PaymentDescription(trip), lines).Ok? {
        AcceptedLinesParse(o.books.accounts, lines);
      }
    }
  }

  /** The request makes this decision. */
  ghost predicate Decides(o: Office, a: Action, id: nat, target: Status) {
    && a.Decide? && a.id == id && a.target == target
    && Transition(o, id, target, a.reviewer, a.notes).Ok?
  }

  /** Step `i` of the run approved `id`, or paid it. */
  ghost predicate DecidedAt(acts: seq<Action>, i: nat, id: nat, target: Status) {
    i < |acts| && Decides(Run(acts[..i]), acts[i], id, target)
  }

  ghost predicate PaidAt(acts: seq<Action>, i: nat, id: nat) {
    && DecidedAt(acts, i, id, Paid)
    && Payable(Run(acts[..i]), id)
    && Payment(Run(acts[..i]), id) in Run(acts).books.transactions
  }

  ghost predicate ApprovedBefore(acts: seq<Action>, i: nat, id: nat) {
    exists j :: 0 <= j < i && DecidedAt(acts, j, id, Approved)
  }

  lemma LongerRun(acts: seq<Action>, i: nat, id: nat)
    requires acts != [] && i < |acts| - 1
    ensures var front := acts[..|acts| - 1];
            && (forall target :: DecidedAt(front, i, id, target) ==> DecidedAt(acts, i, id, target))
            && (PaidAt(front, i, id) ==> PaidAt(acts, i, id))
  {
    var front := acts[..|acts| - 1];
    assert front[..i] == acts[..i];
    RunsKeepInv(front);
    NextKeepsInv(Run(front), acts[|acts| - 1]);
  }

  lemma LongerApproved(acts: seq<Action>, i: nat, id: nat)
    requires acts != [] && i <= |acts| - 1 && ApprovedBefore(acts[..|acts| - 1], i, id)
    ensures ApprovedBefore(acts, i, id)
  {
    var j :| 0 <= j < i && DecidedAt(acts[..|acts| - 1], j, id, Approved);
    LongerRun(acts, j, id);
  }

  function StatusOf(o: Office, id: nat): Option<Status> {
    if id < |o.approvals| then Some(o.approvals[id].status) else None
  }

  /** Some step of the run took this decision. */
  ghost predicate Decided(acts: seq<Action>, id: nat, target: Status) {
    exists i: nat :: DecidedAt(acts, i, id, target)
  }

  /** The decision was taken exactly if the status says so; a PAID approval was approved, too. */
  ghost predicate EarnedAs(acts: seq<Action>, id: nat, target: Status) {
    var status := StatusOf(Run(acts), id);
    Decided(acts, id, target) <==> status == Some(target) || (target == Approved && status == Some(Paid))
  }

  /** The status says exactly which decisions the run took on the approval, and that it was paid after it was
      approved. */
  ghost predicate Earned(acts: seq<Action>, id: nat) {
    var status := StatusOf(Run(acts), id);
    && EarnedAs(acts, id, Approved) && EarnedAs(acts, id, Rejected) && EarnedAs(acts, id, Paid)
    && (status == Some(Paid) ==> exists i: nat :: PaidAt(acts, i, id) && ApprovedBefore(acts, i, id))
  }

  /** A decision of the run is the last step's or one of an earlier step. */
  lemma DecidedSplits(acts: seq<Action>, id: nat, target: Status)
    requires acts != []
    ensures var n := |acts| - 1;
            Decided(acts, id, target) <==> Decided(acts[..n], id, target) || DecidedAt(acts, n, id, target)
  {
    var n := |acts| - 1;
    if i: nat :| DecidedAt(acts, i, id, target) {
      if i < n { DecidedInFront(acts, i, id, target); }
    }
    if i: nat :| DecidedAt(acts[..n], i, id, target) { DecidedInFront(acts, i, id, target); }
  }

  lemma DecidedInFront(acts: seq<Action>, i: nat, id: nat, target: Status)
    requires i < |acts| - 1
    ensures DecidedAt(acts[..|acts| - 1], i, id, target) <==> DecidedAt(acts, i, id, target)
  {
    assert acts[..|acts| - 1][..i] == acts[..i];
  }

  /** The status moves only by a decision that is taken, along a legal edge, or from nothing to PENDING. */
  lemma StatusStep(o: Office, a: Action, id: nat)
    ensures var s, s' := StatusOf(o, id), StatusOf(Next(o, a), id);
            if a.Decide? && a.id == id && Transition(o, id, a.target, a.reviewer, a.notes).Ok?
            then s.Some? && a.target in AllowedTransitions(s.value) && s' == Some(a.target)
            else s' == s || (s == None && s' == Some(Pending))
  {
  }

  /** A PAID approval keeps the evidence of its payment. */
  lemma StillPaid(acts: seq<Action>, id: nat, i: nat)
    requires acts != [] && PaidAt(acts[..|acts| - 1], i, id) && ApprovedBefore(acts[..|acts| - 1], i, id)
    ensures PaidAt(acts, i, id) && ApprovedBefore(acts, i, id)
  {
    LongerRun(acts, i, id);
    LongerApproved(acts, i, id);
  }

  /** The step that marks an approval paid leaves that evidence. */
  lemma JustPaid(acts: seq<Action>, id: nat)
    requires acts != [] && DecidedAt(acts, |acts| - 1, id, Paid) && Decided(acts[..|acts| - 1], id, Approved)
    ensures PaidAt(acts, |acts| - 1, id) && ApprovedBefore(acts, |acts| - 1, id)
  {
    var n := |acts| - 1;
    var o, a := Run(acts[..n]), acts[n];
    RunsKeepInv(acts[..n]);
    PayIffPayable(o, id, a.reviewer, a.notes);
    var j: nat :| DecidedAt(acts[..n], j, id, Approved);
    LongerRun(acts, j, id);
  }

  /** An approval becomes PAID only from APPROVED. */
  lemma PaidComesFrom(o: Office, a: Action, id: nat)
    requires StatusOf(Next(o, a), id) == Some(Paid)
    ensures StatusOf(o, id) == Some(if Decides(o, a, id, Paid) then Approved else Paid)
  {
    StatusStep(o, a, id);
  }

  /** So one more step leaves every PAID approval with that evidence. */
  lemma PaidHasEvidence(acts: seq<Action>, id: nat)
    requires acts != [] && Earned(acts[..|acts| - 1], id) && StatusOf(Run(acts), id) == Some(Paid)
    ensures exists i: nat :: PaidAt(acts, i, id) && ApprovedBefore(acts, i, id)
  {
    var n := |acts| - 1;
    PaidComesFrom(Run(acts[..n]), acts[n], id);
    if DecidedAt(acts, n, id, Paid) {
      JustPaid(acts, id);
    } else {
      var i: nat :| PaidAt(acts[..n], i, id) && ApprovedBefore(acts[..n], i, id);
      StillPaid(acts, id, i);
    }
  }

  lemma StillEarned(acts: seq<Action>, id: nat, target: Status)
    requires acts != [] && target != Pending && EarnedAs(acts[..|acts| - 1], id, target)
    ensures EarnedAs(acts, id, target)
  {
    StatusStep(Run(acts[..|acts| - 1]), acts[|acts| - 1], id);
    DecidedSplits(acts, id, target);
  }

  lemma {:induction false} EveryStatusIsEarned(acts: seq<Action>, id: nat)
    ensures Earned(acts, id)
  {
    if acts != [] {
      EveryStatusIsEarned(acts[..|acts| - 1], id);
      StillEarned(acts, id, Approved);
      StillEarned(acts, id, Rejected);
      StillEarned(acts, id, Paid);
      if StatusOf(Run(acts), id) == Some(Paid) { PaidHasEvidence(acts, id); }
    }
  }

  /** Payment conservation. In every reachable state, each PAID approval was approved and then paid
      by two steps of the run; the payment posted by the second debits TRAVEL and credits CASH by the
      amount due at that moment, which was positive. */
  lemma EachPaymentWasDue(acts: seq<Action>, id: nat) returns (i: nat)
    requires id < |Run(acts).approvals| && Run(acts).approvals[id].status == Paid
    ensures PaidAt(acts, i, id) && ApprovedBefore(acts, i, id) && Due(Run(acts[..i]), id) > 0
  {
    EveryStatusIsEarned(acts, id);
    assert StatusOf(Run(acts), id) == Some(Paid);
    i :| PaidAt(acts, i, id) && ApprovedBefore(acts, i, id);
    RunsKeepInv(acts[..i]);
    DueIsPositive(Run(acts[..i]), id);
  }

  /** And it is posted exactly once: no other transaction carries its reference. */
  lemma EachPaymentIsPostedOnce(acts: seq<Action>, id: nat) returns (i: nat, t: nat)
    requires id < |Run(acts).approvals| && Run(acts).approvals[id].status == Paid
    ensures PaidAt(acts, i, id)
    ensures var ts := Run(acts).books.transactions;
            && t < |ts| && ts[t] == Payment(Run(acts[..i]), id)
            && forall u :: 0 <= u < |ts| ==> (ts[u].reference == PayReference(id) <==> u == t)
  {
    i := EachPaymentWasDue(acts, id);
    RunsKeepInv(acts);
    var ts := Run(acts).books.transactions;
    t :| 0 <= t < |ts| && ts[t] == Payment(Run(acts[..i]), id);
    forall u | 0 <= u < |ts| ensures ts[u].reference == PayReference(id) <==> u == t {
      assert ts[t].reference == PayReference(id);
    }
  }

  /** No caller posts a payment reference by hand. */
  predicate HandsOff(acts: seq<Action>) {
    forall k :: 0 <= k < |acts| && acts[k].PostByHand? ==> !IsPayReference(acts[k].reference)
  }

  predicate IsPayReference(reference: string) {
    4 < |reference| && reference[..4] == "PAY-"
  }

  /** A step that is not the payment of `id`, nor a posting by hand of a payment reference, adds no payment of it. */
  lemma NoPaymentAdded(o: Office, a: Action, id: nat)
    requires Inv(o) && !Used(o.books, PayReference(id))
    requires a.PostByHand? ==> !IsPayReference(a.reference)
    requires id < |Next(o, a).approvals| ==> Next(o, a).approvals[id].status != Paid
    ensures !Used(Next(o, a).books, PayReference(id))
  {
    assert IsPayReference(PayReference(id)) by {
      assert PayReference(id)[..4] == "PAY-";
    }
    if a.Decide? && a.target == Paid && Transition(o, a.id, Paid, a.reviewer, a.notes).Ok? {
      PayIffPayable(o, a.id, a.reviewer, a.notes);
      if PayReference(a.id) == PayReference(id) { PayReferenceIsInjective(a.id, id); }
    }
  }

  /** Then no money has left for an approval that is not PAID. */
  lemma {:induction false} UnpaidHasNoPayment(acts: seq<Action>, id: nat)
    requires HandsOff(acts)
    requires id < |Run(acts).approvals| ==> Run(acts).approvals[id].status != Paid
    ensures !Used(Run(acts).books, PayReference(id))
  {
    if acts != [] {
      var n := |acts| - 1;
      var front := acts[..n];
      var o, a := Run(front), acts[n];
      RunsKeepInv(front);
      if id < |o.approvals| && o.approvals[id].status == Paid {
        FinalStays(o, a, id);
      } else {
        UnpaidHasNoPayment(front, id);
        NoPaymentAdded(o, a, id);
      }
    }
  }

  /** REJECTED and PAID are final. */
  lemma FinalStays(o: Office, a: Action, id: nat)
    requires id < |o.approvals| && o.approvals[id].status in {Rejected, Paid}
    ensures id < |Next(o, a).approvals| && Next(o, a).approvals[id] == o.approvals[id]
  {
  }

  // ---------------------------------------------------------------- conservation of the money paid out

  lemma NetOfTwo(x: Entry, y: Entry, account: nat, currency: string)
    ensures Net([x, y], account, currency)
            == (if x.account == account && x.currency == currency then x.debit - x.credit else 0)
             + (if y.account == account && y.currency == currency then y.debit - y.credit else 0)
  {
    assert [x][..0] == [];
    assert Net([x], account, currency)
        == if x.account == account && x.currency == currency then x.debit - x.credit else 0;
    assert [x, y][..1] == [x];
  }

  function AccountOf(b: Books, code: string): Option<nat> { AccountByCode(b.accounts, code) }

  /** A payment moves exactly the amount due from CASH to TRAVEL and touches no other account. */
  lemma PaymentMovesMoney(o: Office, id: nat, reviewer: Option<string>, notes: Option<string>)
    requires Inv(o) && Payable(o, id)
    ensures var r := Transition(o, id, Paid, reviewer, notes);
            && r.Ok? && r.value.books.accounts == o.books.accounts
            && var travel, cash := AccountOf(o.books, TRAVEL_CODE).value, AccountOf(o.books, CASH_CODE).value;
            && travel != cash
            && Balance(r.value.books, travel) == Balance(o.books, travel) + Due(o, id)
            && Balance(r.value.books, cash) == Balance(o.books, cash) - Due(o, id)
            && forall a :: 0 <= a < |o.books.accounts| && a != travel && a != cash ==>
                Balance(r.value.books, a) == Balance(o.books, a)
  {
    PayIffPayable(o, id, reviewer, notes);
    var b, b' := o.books, Transition(o, id, Paid, reviewer, notes).value.books;
    var entries := Payment(o, id).entries;
    assert b'.transactions[..|b.transactions|] == b.transactions;
    forall a | 0 <= a < |b.accounts|
      ensures Balance(b', a) == Balance(b, a) + Net(entries, a, b.accounts[a].currency)
      ensures Net(entries, a, b.accounts[a].currency)
              == (if entries[0].account == a then Due(o, id) else 0)
               - (if entries[1].account == a then Due(o, id) else 0)
    {
      NetSplits(AllEntries(b.transactions), entries, a, b.accounts[a].currency);
      NetOfTwo(entries[0], entries[1], a, b.accounts[a].currency);
    }
  }

  /** APPROVED and REJECTED are reached exactly from PENDING, and move no money; nothing leads back to PENDING. */
  lemma DecideIff(o: Office, id: nat, target: Status, reviewer: Option<string>, notes: Option<string>)
    requires target != Paid
    ensures var r := Transition(o, id, target, reviewer, notes);
            && (r.Ok? <==> target in {Approved, Rejected} && id < |o.approvals| && o.approvals[id].status == Pending)
            && (r.Ok? ==> r.value.books == o.books && r.value.trips == o.trips && r.value.expenses == o.expenses)
  {
  }

  // ---------------------------------------------------------------- what is recorded is what is paid

  /** Recording a spend succeeds exactly for a positive amount that is on no trip, or on an approved or paid trip of its
      currency, and then adds exactly that spend, its currency upper-cased, and changes nothing else. */
  lemma SpendOutcome(o: Office, e: Expense)
    requires Inv(o)
    ensures var r := Spend(o, e);
            && (r.Ok? <==>
                  && e.amount > 0
                  && (e.trip.None?
                      || (&& e.trip.value < |o.trips|
                          && o.approvals[e.trip.value].status in {Approved, Paid}
                          && Upper(e.currency) == o.trips[e.trip.value].currency)))
            && (r.Ok? ==>
                  && r.value.books == o.books && r.value.trips == o.trips && r.value.approvals == o.approvals
                  && |r.value.expenses| == |o.expenses| + 1
                  && (forall i :: 0 <= i < |o.expenses| ==> r.value.expenses[i] == o.expenses[i])
                  && r.value.expenses[|o.expenses|] == Expense(e.trip, e.amount, Upper(e.currency)))
  {
    if e.trip.Some? && e.trip.value < |o.trips| {
      var t := e.trip.value;
      var a := ApprovalOf(o.approvals, t);
      assert o.approvals[t].trip == t;
      assert a == Some(t);
    }
  }

  /** A request needs a positive estimate, and adds exactly the trip, its currency upper-cased, and its pending
      approval. */
  lemma RequestOutcome(o: Office, trip: Trip)
    ensures var r := Request(o, trip);
            && (r.Ok? <==> trip.estimated > 0)
            && (r.Ok? ==>
                  && r.value.books == o.books && r.value.expenses == o.expenses
                  && r.value.trips
                     == o.trips + [Trip(trip.employee, trip.destination, trip.estimated, Upper(trip.currency))]
                  && r.value.approvals == o.approvals + [Approval(|o.trips|, Pending, None, None)])
  {
  }

  /** A transition touches one approval: its new status, and a reviewer and notes that are the given ones, or else the
      ones it had. */
  lemma TransitionOutcome(o: Office, id: nat, target: Status, reviewer: Option<string>, notes: Option<string>)
    requires Transition(o, id, target, reviewer, notes).Ok?
    ensures var o' := Transition(o, id, target, reviewer, notes).value;
            && o'.trips == o.trips && o'.expenses == o.expenses && |o'.approvals| == |o.approvals|
            && (forall i :: 0 <= i < |o.approvals| && i != id ==> o'.approvals[i] == o.approvals[i])
            && id < |o.approvals|
            && var before, after := o.approvals[id], o'.approvals[id];
            && after.status == target && after.trip == before.trip
            && (reviewer.Some? ==> after.reviewer == reviewer) && (reviewer.None? ==> after.reviewer == before.reviewer)
            && (notes.Some? ==> after.notes == notes) && (notes.None? ==> after.notes == before.notes)
  {
  }

  ghost predicate HasExpense(o: Office, trip: nat) {
    exists i :: 0 <= i < |o.expenses| && o.expenses[i].trip == Some(trip)
  }

  lemma AddedSpendMovesDue(o: Office, added: Expense, t: nat)
    requires t < |o.trips| && added.amount > 0
    requires forall i :: 0 <= i < |o.expenses| ==> o.expenses[i].amount > 0
    ensures Due(o.(expenses := o.expenses + [added]), t)
            == if added.trip == Some(t) then (if HasExpense(o, t) then Due(o, t) else 0) + added.amount else Due(o, t)
  {
    assert (o.expenses + [added])[..|o.expenses|] == o.expenses;
    SpentIsZeroIffNothingSpent(o.expenses, t);
  }

  lemma AmountsArePositive(o: Office)
    requires Inv(o)
    ensures forall i :: 0 <= i < |o.expenses| ==> o.expenses[i].amount > 0
  {
    forall i | 0 <= i < |o.expenses| ensures o.expenses[i].amount > 0 { assert ExpenseFits(o, o.expenses[i]); }
  }

  lemma SpendAppends(o: Office, e: Expense)
    requires Spend(o, e).Ok?
    ensures e.amount > 0 && Spend(o, e).value == o.(expenses := o.expenses + [e.(currency := Upper(e.currency))])
  {
  }

  /** A recorded spend adds its amount to what is due for its trip, the estimate giving way to the first one, and
      nothing to any other trip. */
  lemma RecordMovesDue(o: Office, e: Expense, t: nat)
    requires Inv(o) && Spend(o, e).Ok? && t < |o.trips|
    ensures var o' := Spend(o, e).value;
            && |o'.trips| == |o.trips|
            && Due(o', t)
               == if e.trip == Some(t) then (if HasExpense(o, t) then Due(o, t) else 0) + e.amount else Due(o, t)
  {
    AmountsArePositive(o);
    SpendAppends(o, e);
    AddedSpendMovesDue(o, e.(currency := Upper(e.currency)), t);
  }

  /** The amounts of the spends that the run successfully recorded for a trip. */
  ghost function Recorded(acts: seq<Action>, t: nat): int {
    if acts == [] then 0
    else
      var n := |acts| - 1;
      Recorded(acts[..n], t)
      + if acts[n].Record? && acts[n].expense.trip == Some(t) && Spend(Run(acts[..n]), acts[n].expense).Ok?
        then acts[n].expense.amount else 0
  }

  lemma StepRecords(o: Office, a: Action, t: nat)
    ensures Spent(Next(o, a).expenses, t)
            == Spent(o.expenses, t)
             + if a.Record? && a.expense.trip == Some(t) && Spend(o, a.expense).Ok? then a.expense.amount else 0
  {
    if a.Record? && Spend(o, a.expense).Ok? {
      assert Next(o, a).expenses[..|o.expenses|] == o.expenses;
    }
  }

  lemma {:induction false} SpentIsRecorded(acts: seq<Action>, t: nat)
    ensures Spent(Run(acts).expenses, t) == Recorded(acts, t)
  {
    if acts != [] {
      var n := |acts| - 1;
      SpentIsRecorded(acts[..n], t);
      StepRecords(Run(acts[..n]), acts[n], t);
    }
  }

  /** After any run, what is due for a trip is the sum of the spends recorded for it, or its estimate if there are
      none. */
  lemma DueIsRecorded(acts: seq<Action>, t: nat)
    requires t < |Run(acts).trips|
    ensures Recorded(acts, t) >= 0
    ensures Due(Run(acts), t) == if Recorded(acts, t) > 0 then Recorded(acts, t) else Run(acts).trips[t].estimated
  {
    SpentIsRecorded(acts, t);
    RunsKeepInv(acts);
    var o := Run(acts);
    AmountsArePositive(o);
    SpentIsZeroIffNothingSpent(o.expenses, t);
  }

  /** The transaction that pays a trip: it debits the account with code TRAVEL and credits the one with code CASH, in
      the trip's currency, by one amount. */
  ghost predicate PaysFor(b: Books, t: Transaction, trip: Trip, amount: int) {
    && |t.entries| == 2 && t.entries[0].account < |b.accounts| && t.entries[1].account < |b.accounts|
    && b.accounts[t.entries[0].account].code == "TRAVEL" && b.accounts[t.entries[1].account].code == "CASH"
    && t.entries[0] == Entry(t.entries[0].account, amount, 0, trip.currency, None)
    && t.entries[1] == Entry(t.entries[1].account, 0, amount, trip.currency, None)
    && t.description == "Travel payment: " + trip.employee + " \U{2192} " + trip.destination
  }

  /** Every PAID approval has its transaction PAY-id in the books, and that pays for what the run had recorded on the
      trip by the step that paid it, or for the estimate if it had recorded nothing. */
  lemma PaidIsWhatWasRecorded(acts: seq<Action>, id: nat) returns (i: nat, t: nat)
    requires id < |Run(acts).approvals| && Run(acts).approvals[id].status == Paid
    ensures DecidedAt(acts, i, id, Paid) && id < |Run(acts[..i]).trips|
    ensures var o, ts := Run(acts[..i]), Run(acts).books.transactions;
            && t < |ts| && ts[t].reference == "PAY-" + Decimal(id)
            && PaysFor(o.books, ts[t], o.trips[id],
                       if Recorded(acts[..i], id) > 0 then Recorded(acts[..i], id) else o.trips[id].estimated)
  {
    i, t := EachPaymentIsPostedOnce(acts, id);
    DueIsRecorded(acts[..i], id);
  }

  // ---------------------------------------------------------------- paying is possible

  lemma OneMore(acts: seq<Action>, a: Action, all: seq<Action>)
    requires all == acts + [a]
    ensures Run(all) == Next(Run(acts), a)
  {
    assert all[..|acts|] == acts;
  }

  lemma Run5(a: Action, b: Action, c: Action, d: Action, e: Action)
    ensures Run([a, b, c, d, e]) == Next(Next(Next(Next(Next(Start(), a), b), c), d), e)
  {
    OneMore([], a, [a]);
    OneMore([a], b, [a, b]);
    OneMore([a, b], c, [a, b, c]);
    OneMore([a, b, c], d, [a, b, c, d]);
    OneMore([a, b, c, d], e, [a, b, c, d, e]);
  }

  /** For every trip with a positive estimate some run opens the two accounts, requests it, approves it and marks it
      paid. */
  lemma PaidIsReachable(trip: Trip)
    requires trip.estimated > 0
    ensures var acts := [OpenAccount("CASH", "Cash", trip.currency), OpenAccount("TRAVEL", "Travel", trip.currency),
                         RequestTrip(trip), Decide(0, Approved, None, None), Decide(0, Paid, None, None)];
            |Run(acts).approvals| == 1 && Run(acts).approvals[0].status == Paid
  {
    var open1 := OpenAccount("CASH", "Cash", trip.currency);
    var open2 := OpenAccount("TRAVEL", "Travel", trip.currency);
    var approve, pay := Decide(0, Approved, None, None), Decide(0, Paid, None, None);
    Run5(open1, open2, RequestTrip(trip), approve, pay);
    var o2 := Next(Next(Start(), open1), open2);
    TwoAccounts(trip.currency);
    var o3 := Next(o2, RequestTrip(trip));
    RequestOutcome(o2, trip);
    var o4 := Next(o3, approve);
    NextKeepsInv(o2, RequestTrip(trip));
    NextKeepsInv(o3, approve);
    DecideIff(o3, 0, Approved, None, None);
    TransitionOutcome(o3, 0, Approved, None, None);
    PayIffPayable(o4, 0, None, None);
    assert Payable(o4, 0);
    TransitionOutcome(o4, 0, Paid, None, None);
  }

  lemma TwoAccounts(currency: string)
    ensures var o1 := Next(Start(), OpenAccount("CASH", "Cash", currency));
            var o := Next(o1, OpenAccount("TRAVEL", "Travel", currency));
            && Inv(o) && o.trips == [] && o.approvals == [] && o.expenses == [] && o.books.transactions == []
            && o.books.accounts
               == [Account("CASH", "Cash", Upper(currency)), Account("TRAVEL", "Travel", Upper(currency))]
            && AccountByCode(o.books.accounts, CASH_CODE) == Some(0)
            && AccountByCode(o.books.accounts, TRAVEL_CODE) == Some(1)
  {
    var o1 := Next(Start(), OpenAccount("CASH", "Cash", currency));
    OpenOutcome(Start().books, "CASH", "Cash", currency);
    OpenOutcome(o1.books, "TRAVEL", "Travel", currency);
    NextKeepsInv(Start(), OpenAccount("CASH", "Cash", currency));
    NextKeepsInv(o1, OpenAccount("TRAVEL", "Travel", currency));
  }

  // ---------------------------------------------------------------- every balance explained

  /** What a posting by hand, if it succeeds, debits less what it credits to the account with this code. */
  ghost function ByHand(o: Office, a: Action, code: string): int {
    if a.PostByHand? && Post(o.books, a.reference, a.description, a.lines).Ok? && AccountOf(o.books, code).Some?
    then NetAnyCurrency(Proposed(a.lines), AccountOf(o.books, code).value)
    else 0
  }

  ghost function HandNet(acts: seq<Action>, code: string): int {
    if acts == [] then 0
    else
      var front := acts[..|acts| - 1];
      HandNet(front, code) + ByHand(Run(front), acts[|acts| - 1], code)
  }

  function PaidBy(o: Office, a: Action): int {
    if a.Decide? && a.target == Paid && Payable(o, a.id) then Due(o, a.id) else 0
  }

  /** The amounts due at the steps of the run that marked a trip paid. */
  ghost function PaidOut(acts: seq<Action>): int {
    if acts == [] then 0
    else
      var front := acts[..|acts| - 1];
      PaidOut(front) + PaidBy(Run(front), acts[|acts| - 1])
  }

  /** What payments of this amount bring the account with this code. */
  function Received(code: string, paid: int): int {
    (if code == TRAVEL_CODE then paid else 0) - (if code == CASH_CODE then paid else 0)
  }

  /** The account with this code holds so much; an account that does not exist holds nothing. */
  ghost predicate Holds(b: Books, code: string, amount: int) {
    match AccountOf(b, code)
    case Some(account) => Balance(b, account) == amount
    case None => amount == 0
  }

  lemma {:induction false} NobodysNet(entries: seq<Entry>, account: nat, currency: string)
    requires forall i :: 0 <= i < |entries| ==> entries[i].account != account
    ensures Net(entries, account, currency) == 0
  {
    if entries != [] { NobodysNet(entries[..|entries| - 1], account, currency); }
  }

  /** A new account starts at zero, because no earlier entry can name it. */
  lemma NewAccountIsEmpty(b: Books, account: Account)
    requires Sound(b)
    ensures Balance(b.(accounts := b.accounts + [account]), |b.accounts|) == 0
  {
    AllEntriesBalance(b, |b.transactions|);
    assert b.transactions[..|b.transactions|] == b.transactions;
    var entries := AllEntries(b.transactions);
    forall i | 0 <= i < |entries| ensures entries[i].account != |b.accounts| {
      assert EntryFits(b, entries[i]);
    }
    NobodysNet(entries, |b.accounts|, account.currency);
  }

  lemma OpenKeepsHolding(b: Books, code: string, name: string, currency: string, held: string, amount: int)
    requires Sound(b) && Holds(b, held, amount) && Ledger.Open(b, code, name, currency).Ok?
    ensures Holds(Ledger.Open(b, code, name, currency).value, held, amount)
  {
    var b' := Ledger.Open(b, code, name, currency).value;
    assert b'.accounts[..|b.accounts|] == b.accounts;
    NewAccountIsEmpty(b, Account(code, name, Upper(currency)));
    var before := AccountOf(b, held);
    if before.Some? {
      assert b.accounts[before.value].code == held;
      assert AccountOf(b', held) == before;
    }
  }

  /** A posting by hand moves a balance by what its lines say. */
  lemma PostMovesHolding(b: Books, reference: string, description: string, lines: seq<Line>, account: nat)
    requires Sound(b) && Post(b, reference, description, lines).Ok? && account < |b.accounts|
    ensures var b' := Post(b, reference, description, lines).value;
            Balance(b', account) == Balance(b, account) + NetAnyCurrency(Proposed(lines), account)
  {
    var b' := Post(b, reference, description, lines).value;
    PostIffSchemaAccepts(b, reference, description, lines);
    AcceptedLinesParse(b.accounts, lines);
    PostMovesBalances(b, reference, description, lines, account);
    PostKeepsSound(b, reference, description, lines);
    assert TransactionFits(b', b'.transactions[|b.transactions|]);
    NetIgnoresCurrency(b', Proposed(lines), account);
  }

  lemma PaymentKeepsHolding(o: Office, id: nat, reviewer: Option<string>, notes: Option<string>,
                            code: string, amount: int)
    requires Inv(o) && Payable(o, id) && Holds(o.books, code, amount)
    ensures var r := Transition(o, id, Paid, reviewer, notes);
            r.Ok? && Holds(r.value.books, code, amount + Received(code, Due(o, id)))
  {
    PaymentMovesMoney(o, id, reviewer, notes);
    var b := Transition(o, id, Paid, reviewer, notes).value.books;
    assert AccountOf(b, code) == AccountOf(o.books, code);
  }

  lemma DecisionMovesHolding(o: Office, a: Action, code: string, amount: int)
    requires Inv(o) && a.Decide? && Holds(o.books, code, amount)
    ensures Holds(Next(o, a).books, code, amount + Received(code, PaidBy(o, a)))
  {
    if a.target == Paid {
      PayIffPayable(o, a.id, a.reviewer, a.notes);
      if Payable(o, a.id) { PaymentKeepsHolding(o, a.id, a.reviewer, a.notes, code, amount); }
    } else {
      DecideIff(o, a.id, a.target, a.reviewer, a.notes);
    }
  }

  lemma StepMovesHolding(o: Office, a: Action, code: string, amount: int)
    requires Inv(o) && Holds(o.books, code, amount)
    ensures Holds(Next(o, a).books, code, amount + ByHand(o, a, code) + Received(code, PaidBy(o, a)))
  {
    match a
    case OpenAccount(newCode, name, currency) =>
      if Ledger.Open(o.books, newCode, name, currency).Ok? {
        OpenKeepsHolding(o.books, newCode, name, currency, code, amount);
      }
    case PostByHand(reference, description, lines) =>
      var account := AccountOf(o.books, code);
      if account.Some? && Post(o.books, reference, description, lines).Ok? {
        PostMovesHolding(o.books, reference, description, lines, account.value);
      }
    case Decide(_, _, _, _) => DecisionMovesHolding(o, a, code, amount);
    case RequestTrip(_) =>
    case Record(_) =>
  }

  /** After any run whatever, every account holds exactly what was posted to it by hand, plus what was paid out
      if it is TRAVEL, less what was paid out if it is CASH. */
  lemma {:induction false} EveryBalanceIsExplained(acts: seq<Action>, code: string)
    ensures Holds(Run(acts).books, code, HandNet(acts, code) + Received(code, PaidOut(acts)))
  {
    if acts != [] {
      var n := |acts| - 1;
      EveryBalanceIsExplained(acts[..n], code);
      RunsKeepInv(acts[..n]);
      var amount := HandNet(acts[..n], code) + Received(code, PaidOut(acts[..n]));
      StepMovesHolding(Run(acts[..n]), acts[n], code, amount);
    }
  }

  predicate NothingByHand(acts: seq<Action>) {
    forall k :: 0 <= k < |acts| ==> !acts[k].PostByHand?
  }

  lemma {:induction false} NothingByHandNetsNothing(acts: seq<Action>, code: string)
    requires NothingByHand(acts)
    ensures HandNet(acts, code) == 0
  {
    if acts != [] { NothingByHandNetsNothing(acts[..|acts| - 1], code); }
  }

  /** In particular, when callers post nothing by hand, CASH is short of exactly what was paid out and TRAVEL
      holds exactly that. */
  lemma PaymentsAreConserved(acts: seq<Action>)
    requires NothingByHand(acts)
    ensures Holds(Run(acts).books, CASH_CODE, -PaidOut(acts)) && Holds(Run(acts).books, TRAVEL_CODE, PaidOut(acts))
  {
    EveryBalanceIsExplained(acts, CASH_CODE);
    EveryBalanceIsExplained(acts, TRAVEL_CODE);
    NothingByHandNetsNothing(acts, CASH_CODE);
    NothingByHandNetsNothing(acts, TRAVEL_CODE);
  }
}
