/**
 Linking expenses to bank rows: `confirm_match` under row locks, taken expense first,
 interleaved with the unlocked `flag_for_review`, the import of new rows and any number
 of other confirmations.
 */
module Matching {
  import opened Core

  datatype Status = Unmatched | Suggested | Matched | PendingReview

  datatype Expense = Expense(amount: int, date: int, currency: string, text: string, embedding: Option<seq<real>>,
                             status: Status)

  datatype BankRow = BankRow(amount: int, date: int, currency: string, description: string,
                             embedding: Option<seq<real>>, status: Status, link: Option<nat>)

  /** The committed expense and bank tables. */
  datatype Desk = Desk(expenses: map<nat, Expense>, banks: map<nat, BankRow>)

  datatype Error =
    | NotFound
    | AlreadyMatched // ConflictError
    | Integrity      // UNIQUE(matched_expense_id) refused the flush
    | BadSmoothing   // ValueError of a non-positive RRF constant

  /** The checks `confirm_match` makes on the two rows it read. */
  function Refusal(status: Status, link: Option<nat>, expense: nat): Option<Error> {
    if link != None && link != Some(expense) then Some(AlreadyMatched)
    else if status == Matched then Some(AlreadyMatched)
    else None
  }

  predicate LinkTaken(d: Desk, expense: nat, except: nat) {
    exists b :: b in d.banks && b != except && d.banks[b].link == Some(expense)
  }

  function Linked(d: Desk, expense: nat, bank: nat): Desk
    requires expense in d.expenses && bank in d.banks
  {
    Desk(d.expenses[expense := d.expenses[expense].(status := Matched)],
         d.banks[bank := d.banks[bank].(status := Matched, link := Some(expense))])
  }

  /** `confirm_match`, a refused or constraint-violating call changing nothing. */
  function Confirm(d: Desk, expense: nat, bank: nat): Result<Desk, Error> {
    if expense !in d.expenses || bank !in d.banks then Err(NotFound)
    else
      var refusal := Refusal(d.expenses[expense].status, d.banks[bank].link, expense);
      if refusal.Some? then Err(refusal.value)
      else if LinkTaken(d, expense, bank) then Err(Integrity)
      else Ok(Linked(d, expense, bank))
  }

  function Flagged(d: Desk, expense: nat): Desk
    requires expense in d.expenses
  {
    d.(expenses := d.expenses[expense := d.expenses[expense].(status := PendingReview)])
  }

  /** `flag_for_review`. */
  function Flag(d: Desk, expense: nat): Result<Desk, Error> {
    if expense !in d.expenses then Err(NotFound) else Ok(Flagged(d, expense))
  }

  // ---------------------------------------------------------------- what the tables keep

  ghost predicate BankSound(d: Desk, b: nat)
    requires b in d.banks
  {
    var row := d.banks[b];
    && (row.status == Matched <==> row.link.Some?)
    && (row.link.Some? ==>
        row.link.value in d.expenses && d.expenses[row.link.value].status in {Matched, PendingReview})
  }

  ghost predicate OneLink(d: Desk) {
    forall b, c :: b in d.banks && c in d.banks && b != c && d.banks[b].link.Some? ==>
        d.banks[b].link != d.banks[c].link
  }

  ghost predicate HasLink(d: Desk, e: nat) {
    exists b :: b in d.banks && d.banks[b].link == Some(e)
  }

  /** Links are one-to-one; a bank row is MATCHED iff linked; a MATCHED expense has its bank row, and a
      linked expense is MATCHED or was flagged since. */
  ghost predicate Sound(d: Desk) {
    && (forall b :: b in d.banks ==> BankSound(d, b))
    && OneLink(d)
    && (forall e :: e in d.expenses && d.expenses[e].status == Matched ==> HasLink(d, e))
  }

  /** No link is ever cleared or re-pointed. */
  ghost predicate LinksKept(d: Desk, d': Desk) {
    && (forall e :: e in d.expenses ==> e in d'.expenses)
    && forall b :: b in d.banks ==> b in d'.banks && (d.banks[b].link.Some? ==> d'.banks[b].link == d.banks[b].link)
  }

  lemma ConfirmKeepsSound(d: Desk, expense: nat, bank: nat)
    requires Sound(d) && Confirm(d, expense, bank).Ok?
    ensures Sound(Confirm(d, expense, bank).value) && LinksKept(d, Confirm(d, expense, bank).value)
  {
    var d' := Confirm(d, expense, bank).value;
    forall b | b in d'.banks ensures BankSound(d', b) { assert BankSound(d, b); }
    forall b, c | b in d'.banks && c in d'.banks && b != c && d'.banks[b].link.Some?
      ensures d'.banks[b].link != d'.banks[c].link
    {
      assert !LinkTaken(d, expense, bank);
    }
    forall e | e in d'.expenses && d'.expenses[e].status == Matched ensures HasLink(d', e) {
      if e == expense {
        assert d'.banks[bank].link == Some(e);
      } else {
        var b :| b in d.banks && d.banks[b].link == Some(e);
        assert d'.banks[b].link == Some(e);
      }
    }
  }

  /** Confirming succeeds for an unmatched pair, and for a linked pair whose expense was flagged since. Between
      an unlinked row and a linked expense only the UNIQUE constraint stands, and only once the expense was flagged. */
  lemma ConfirmOutcomes(d: Desk, expense: nat, bank: nat)
    requires Sound(d) && expense in d.expenses && bank in d.banks
    ensures var status, link := d.expenses[expense].status, d.banks[bank].link;
            && (Confirm(d, expense, bank).Ok? <==>
                  || (status != Matched && link == None && !HasLink(d, expense))
                  || (status == PendingReview && link == Some(expense)))
            && (Confirm(d, expense, bank) == Err(Integrity) <==>
                  status == PendingReview && link == None && HasLink(d, expense))
  {
    assert BankSound(d, bank);
    if e :| e in d.banks && d.banks[e].link == Some(expense) { assert BankSound(d, e); }
    if d.banks[bank].link == Some(expense) { assert HasLink(d, expense); }
  }

  /** In any state: what is missing is not found, what is matched or linked elsewhere is a conflict, and what gets past
      that but meets another row linked to the expense breaks the constraint. */
  lemma ConfirmRefusals(d: Desk, expense: nat, bank: nat)
    ensures var r := Confirm(d, expense, bank);
            var there := expense in d.expenses && bank in d.banks;
            && (r == Err(NotFound) <==> !there)
            && (r == Err(AlreadyMatched) <==>
                  there && (d.expenses[expense].status == Matched
                            || (d.banks[bank].link.Some? && d.banks[bank].link.value != expense)))
            && (r.Err? ==> r.error in {NotFound, AlreadyMatched, Integrity})
  {
  }

  /** A pair that was confirmed cannot be confirmed again, nor either of them with another. */
  lemma ConfirmedOnce(d: Desk, expense: nat, bank: nat, e: nat, b: nat)
    requires Sound(d) && Confirm(d, expense, bank).Ok? && (e == expense || b == bank)
    requires e in d.expenses && b in d.banks
    ensures Confirm(Confirm(d, expense, bank).value, e, b) == Err(AlreadyMatched)
  {
  }

  lemma FlagKeepsSound(d: Desk, expense: nat)
    requires Sound(d) && expense in d.expenses
    ensures Sound(Flagged(d, expense)) && LinksKept(d, Flagged(d, expense))
  {
    var d' := Flagged(d, expense);
    forall b | b in d'.banks ensures BankSound(d', b) { assert BankSound(d, b); }
    forall e | e in d'.expenses && d'.expenses[e].status == Matched ensures HasLink(d', e) {
      assert HasLink(d, e);
      var b :| b in d.banks && d.banks[b].link == Some(e);
      assert d'.banks[b].link == Some(e);
    }
  }

  /** Flagging overwrites the status of a linked expense too; confirming the same pair again undoes it. */
  lemma ReconfirmUndoesFlag(d: Desk, expense: nat, bank: nat)
    requires Sound(d) && expense in d.expenses && bank in d.banks
    requires d.expenses[expense].status == Matched && d.banks[bank].link == Some(expense)
    ensures Flagged(d, expense).expenses[expense].status == PendingReview && Flagged(d, expense).banks == d.banks
    ensures Confirm(Flagged(d, expense), expense, bank) == Ok(d)
  {
    assert BankSound(d, bank);
    var f := Flagged(d, expense);
    assert !LinkTaken(f, expense, bank);
    assert Linked(f, expense, bank).expenses == d.expenses;
    assert Linked(f, expense, bank).banks == d.banks;
  }

  // ---------------------------------------------------------------- transactions

  /** A confirmation takes the expense lock, then the bank lock, remembering what it read under each,
      then decides and commits. A flag looks the expense up unlocked; its UPDATE waits for the lock. */
  datatype Txn =
    | Confirming(expense: nat, bank: nat, stage: Stage)
    | Flagging(flagged: nat, lookedUp: bool)
    | Finished(outcome: Option<Error>)

  datatype Stage = WantExpense | WantBank(status: Status) | Writing(seen: Status, link: Option<nat>)

  datatype State = State(desk: Desk, txns: map<nat, Txn>)

  predicate HoldsExpense(t: Txn, expense: nat) {
    t.Confirming? && !t.stage.WantExpense? && t.expense == expense
  }

  predicate HoldsBank(t: Txn, bank: nat) {
    t.Confirming? && t.stage.Writing? && t.bank == bank
  }

  ghost predicate ExpenseFree(s: State, expense: nat) {
    forall t :: t in s.txns ==> !HoldsExpense(s.txns[t], expense)
  }

  ghost predicate BankFree(s: State, bank: nat) {
    forall t :: t in s.txns ==> !HoldsBank(s.txns[t], bank)
  }

  /** Whether the transaction's next database call returns rather than waits. */
  ghost predicate CanStep(s: State, t: nat) {
    t in s.txns &&
    match s.txns[t]
    case Confirming(e, _, WantExpense) => e !in s.desk.expenses || ExpenseFree(s, e)
    case Confirming(_, b, WantBank(_)) => b !in s.desk.banks || BankFree(s, b)
    case Confirming(_, _, Writing(_, _)) => true
    case Flagging(e, lookedUp) => !lookedUp || ExpenseFree(s, e)
    case Finished(_) => false
  }

  function Put(s: State, t: nat, txn: Txn): State { s.(txns := s.txns[t := txn]) }

  /** The decision on the rows as they were read, and the flush. */
  function Commit(s: State, t: nat, expense: nat, bank: nat, seen: Status, link: Option<nat>): State
    requires expense in s.desk.expenses && bank in s.desk.banks
  {
    var refusal := Refusal(seen, link, expense);
    if refusal.Some? then Put(s, t, Finished(refusal))
    else if LinkTaken(s.desk, expense, bank) then Put(s, t, Finished(Some(Integrity)))
    else Put(s.(desk := Linked(s.desk, expense, bank)), t, Finished(None))
  }

  function Step(s: State, t: nat): State
    requires t in s.txns
  {
    match s.txns[t]
    case Confirming(e, b, WantExpense) =>
      if e !in s.desk.expenses then Put(s, t, Finished(Some(NotFound)))
      else Put(s, t, Confirming(e, b, WantBank(s.desk.expenses[e].status)))
    case Confirming(e, b, WantBank(status)) =>
      if b !in s.desk.banks then Put(s, t, Finished(Some(NotFound)))
      else Put(s, t, Confirming(e, b, Writing(status, s.desk.banks[b].link)))
    case Confirming(e, b, Writing(seen, link)) =>
      if e in s.desk.expenses && b in s.desk.banks then Commit(s, t, e, b, seen, link) else s
    case Flagging(e, lookedUp) =>
      if e !in s.desk.expenses then Put(s, t, Finished(Some(NotFound)))
      else if !lookedUp then Put(s, t, Flagging(e, true))
      else Put(s.(desk := Flagged(s.desk, e)), t, Finished(None))
    case Finished(_) => s
  }

  datatype Action =
    | NewExpense(id: nat, expenseRow: Expense)
    | NewBankRow(id: nat, bankRow: BankRow)
    | BeginConfirm(id: nat, expense: nat, bank: nat)
    | BeginFlag(id: nat, expense: nat)
    | Proceed(id: nat)

  /** An action that is not possible, because its id is taken or its lock is held, changes nothing. */
  ghost function Next(s: State, a: Action): State {
    match a
    case NewExpense(e, row) =>
      if e in s.desk.expenses then s
      else s.(desk := s.desk.(expenses := s.desk.expenses[e := row.(status := Unmatched)]))
    case NewBankRow(b, row) =>
      if b in s.desk.banks then s
      else s.(desk := s.desk.(banks := s.desk.banks[b := row.(status := Unmatched, link := None)]))
    case BeginConfirm(t, e, b) => if t in s.txns then s else Put(s, t, Confirming(e, b, WantExpense))
    case BeginFlag(t, e) => if t in s.txns then s else Put(s, t, Flagging(e, false))
    case Proceed(t) => if CanStep(s, t) then Step(s, t) else s
  }

  ghost function Run(s: State, acts: seq<Action>): State {
    if acts == [] then s else Next(Run(s, acts[..|acts| - 1]), acts[|acts| - 1])
  }

  function Start(): State { State(Desk(map[], map[]), map[]) }

  /** What a transaction read under its locks is still what the tables hold. */
  ghost predicate ReadsCurrent(d: Desk, t: Txn) {
    t.Confirming? ==>
      match t.stage
      case WantExpense => true
      case WantBank(status) => t.expense in d.expenses && d.expenses[t.expense].status == status
      case Writing(seen, link) =>
        && t.expense in d.expenses && d.expenses[t.expense].status == seen
        && t.bank in d.banks && d.banks[t.bank].link == link
  }

  ghost predicate Exclusive(s: State) {
    forall t, u :: t in s.txns && u in s.txns && t != u && s.txns[t].Confirming? ==>
      && (HoldsExpense(s.txns[t], s.txns[t].expense) ==> !HoldsExpense(s.txns[u], s.txns[t].expense))
      && (HoldsBank(s.txns[t], s.txns[t].bank) ==> !HoldsBank(s.txns[u], s.txns[t].bank))
  }

  ghost predicate Inv(s: State) {
    && Sound(s.desk)
    && Exclusive(s)
    && forall t :: t in s.txns ==> ReadsCurrent(s.desk, s.txns[t])
  }

  /** Deciding on the locked reads is the same as deciding on the tables at commit. */
  lemma CommitIsConfirm(s: State, t: nat)
    requires Inv(s) && t in s.txns && s.txns[t].Confirming? && s.txns[t].stage.Writing?
    ensures var c := Confirm(s.desk, s.txns[t].expense, s.txns[t].bank);
            && Step(s, t).desk == (if c.Ok? then c.value else s.desk)
            && Step(s, t).txns == s.txns[t := Finished(if c.Ok? then None else Some(c.error))]
  {
    assert ReadsCurrent(s.desk, s.txns[t]);
  }

  lemma StepKeepsSound(s: State, t: nat)
    requires Inv(s) && CanStep(s, t)
    ensures Sound(Step(s, t).desk) && LinksKept(s.desk, Step(s, t).desk)
  {
    if s.txns[t].Confirming? && s.txns[t].stage.Writing? {
      CommitIsConfirm(s, t);
      if Confirm(s.desk, s.txns[t].expense, s.txns[t].bank).Ok? {
        ConfirmKeepsSound(s.desk, s.txns[t].expense, s.txns[t].bank);
      }
    } else if s.txns[t].Flagging? && s.txns[t].flagged in s.desk.expenses {
      FlagKeepsSound(s.desk, s.txns[t].flagged);
    }
  }

  lemma StepKeepsExclusive(s: State, t: nat)
    requires Exclusive(s) && CanStep(s, t)
    ensures Exclusive(Step(s, t))
  {
  }

  lemma StepKeepsReads(s: State, t: nat)
    requires Inv(s) && CanStep(s, t)
    ensures forall u :: u in Step(s, t).txns ==> ReadsCurrent(Step(s, t).desk, Step(s, t).txns[u])
  {
    var s' := Step(s, t);
    assert ReadsCurrent(s.desk, s.txns[t]);
    forall u | u in s'.txns ensures ReadsCurrent(s'.desk, s'.txns[u]) {
      assert ReadsCurrent(s.desk, s.txns[u]);
    }
  }

  /** New rows arrive unmatched and unlinked. */
  lemma NewRowKeepsInv(s: State, a: Action)
    requires Inv(s) && (a.NewExpense? || a.NewBankRow?)
    ensures Inv(Next(s, a)) && LinksKept(s.desk, Next(s, a).desk)
  {
    var d, d' := s.desk, Next(s, a).desk;
    forall e | e in d.expenses ensures e in d'.expenses && d'.expenses[e] == d.expenses[e] {}
    forall b | b in d.banks
      ensures b in d'.banks && d'.banks[b] == d.banks[b] && BankSound(d', b)
    {
      assert BankSound(d, b);
    }
    assert forall b :: b in d'.banks && b !in d.banks ==> d'.banks[b].link == None && d'.banks[b].status == Unmatched;
    forall e | e in d'.expenses && d'.expenses[e].status == Matched ensures HasLink(d', e) {
      assert HasLink(d, e);
      var b :| b in d.banks && d.banks[b].link == Some(e);
      assert d'.banks[b].link == Some(e);
    }
    forall t | t in s.txns ensures ReadsCurrent(d', s.txns[t]) { assert ReadsCurrent(d, s.txns[t]); }
  }

  lemma NextKeepsInv(s: State, a: Action)
    requires Inv(s)
    ensures Inv(Next(s, a)) && LinksKept(s.desk, Next(s, a).desk)
  {
    match a
    case NewExpense(_, _) => NewRowKeepsInv(s, a);
    case NewBankRow(_, _) => NewRowKeepsInv(s, a);
    case Proceed(t) =>
      if CanStep(s, t) {
        StepKeepsSound(s, t);
        StepKeepsReads(s, t);
        StepKeepsExclusive(s, t);
      }
    case _ =>
      forall t | t in Next(s, a).txns ensures ReadsCurrent(s.desk, Next(s, a).txns[t]) {
        if t in s.txns { assert ReadsCurrent(s.desk, s.txns[t]); }
      }
  }

  lemma {:induction false} RunKeepsInv(s: State, acts: seq<Action>)
    requires Inv(s)
    ensures Inv(Run(s, acts)) && LinksKept(s.desk, Run(s, acts).desk)
  {
    if acts != [] {
      var front := acts[..|acts| - 1];
      RunKeepsInv(s, front);
      NextKeepsInv(Run(s, front), acts[|acts| - 1]);
    }
  }

  /** In every reachable state of any interleaving: links are one-to-one, a bank row is MATCHED iff it
      has a link, and every MATCHED expense has exactly one linked bank row. */
  lemma EveryReachableDeskIsSound(acts: seq<Action>)
    ensures var d := Run(Start(), acts).desk;
            && (forall b :: b in d.banks ==> (d.banks[b].status == Matched <==> d.banks[b].link.Some?))
            && OneLink(d)
            && (forall e :: e in d.expenses && d.expenses[e].status == Matched ==>
                  exists b :: b in d.banks && d.banks[b].link == Some(e)
                           && forall c :: c in d.banks && d.banks[c].link == Some(e) ==> c == b)
            && (forall b :: b in d.banks && d.banks[b].link.Some? ==>
                  d.banks[b].link.value in d.expenses
                      && d.expenses[d.banks[b].link.value].status in {Matched, PendingReview})
  {
    RunKeepsInv(Start(), acts);
    var d := Run(Start(), acts).desk;
    forall b | b in d.banks ensures BankSound(d, b) {}
    forall e | e in d.expenses && d.expenses[e].status == Matched
      ensures exists b :: b in d.banks && d.banks[b].link == Some(e)
                          && forall c :: c in d.banks && d.banks[c].link == Some(e) ==> c == b
    {
      assert HasLink(d, e);
      var b :| b in d.banks && d.banks[b].link == Some(e);
      forall c | c in d.banks && d.banks[c].link == Some(e) ensures c == b {}
    }
  }

  lemma {:induction false} RunSplits(s: State, xs: seq<Action>, ys: seq<Action>)
    ensures Run(s, xs + ys) == Run(Run(s, xs), ys)
  {
    if ys == [] {
      assert xs + ys == xs;
    } else {
      RunSplits(s, xs, ys[..|ys| - 1]);
      assert (xs + ys)[..|xs + ys| - 1] == xs + ys[..|ys| - 1];
    }
  }

  /** A link once set is never cleared or re-pointed, however the run goes on. */
  lemma LinksAreForever(acts: seq<Action>, more: seq<Action>, b: nat)
    requires b in Run(Start(), acts).desk.banks && Run(Start(), acts).desk.banks[b].link.Some?
    ensures var d, d' := Run(Start(), acts).desk, Run(Start(), acts + more).desk;
            b in d'.banks && d'.banks[b].link == d.banks[b].link
  {
    RunKeepsInv(Start(), acts);
    RunSplits(Start(), acts, more);
    RunKeepsInv(Run(Start(), acts), more);
  }

  // ---------------------------------------------------------------- how long an expense stays matched

  predicate MatchedIn(s: State, e: nat) { e in s.desk.expenses && s.desk.expenses[e].status == Matched }

  /** The action is the UPDATE of a flag on this expense, whose lock is free. */
  ghost predicate Flags(s: State, a: Action, e: nat) {
    a.Proceed? && a.id in s.txns && s.txns[a.id] == Flagging(e, true) && ExpenseFree(s, e)
  }

  /** A step leaves a MATCHED expense matched exactly when it is not a flag's UPDATE. */
  lemma StepKeepsMatchedIff(s: State, a: Action, e: nat)
    requires Inv(s) && MatchedIn(s, e)
    ensures MatchedIn(Next(s, a), e) <==> !Flags(s, a, e)
  {
    if a.Proceed? && CanStep(s, a.id) {
      assert ReadsCurrent(s.desk, s.txns[a.id]);
    }
  }

  ghost predicate MatchedAt(s: State, acts: seq<Action>, i: nat, e: nat)
    requires i <= |acts|
  {
    MatchedIn(Run(s, acts[..i]), e)
  }

  ghost predicate FlaggedAt(s: State, acts: seq<Action>, i: nat, e: nat)
    requires i < |acts|
  {
    Flags(Run(s, acts[..i]), acts[i], e)
  }

  ghost predicate MatchedThroughout(s: State, acts: seq<Action>, e: nat) {
    forall i: nat :: i <= |acts| ==> MatchedAt(s, acts, i, e)
  }

  ghost predicate NeverFlagged(s: State, acts: seq<Action>, e: nat) {
    forall i: nat :: i < |acts| ==> !FlaggedAt(s, acts, i, e)
  }

  /** Up to its end, a shorter run is the same run. */
  lemma SameSoFar(s: State, acts: seq<Action>, n: nat, i: nat, e: nat)
    requires i <= n <= |acts|
    ensures MatchedAt(s, acts[..n], i, e) == MatchedAt(s, acts, i, e)
    ensures i < n ==> FlaggedAt(s, acts[..n], i, e) == FlaggedAt(s, acts, i, e)
  {
    assert acts[..n][..i] == acts[..i];
  }

  lemma ThroughoutSplits(s: State, acts: seq<Action>, e: nat)
    requires acts != []
    ensures var n := |acts| - 1;
            MatchedThroughout(s, acts, e) <==> MatchedThroughout(s, acts[..n], e) && MatchedAt(s, acts, |acts|, e)
  {
    var n := |acts| - 1;
    if MatchedThroughout(s, acts, e) {
      forall i: nat | i <= n ensures MatchedAt(s, acts[..n], i, e) {
        assert MatchedAt(s, acts, i, e);
        SameSoFar(s, acts, n, i, e);
      }
      assert MatchedAt(s, acts, |acts|, e);
    }
    if MatchedThroughout(s, acts[..n], e) && MatchedAt(s, acts, |acts|, e) {
      forall i: nat | i <= |acts| ensures MatchedAt(s, acts, i, e) {
        if i <= n {
          assert MatchedAt(s, acts[..n], i, e);
          SameSoFar(s, acts, n, i, e);
        }
      }
    }
  }

  lemma NeverFlaggedSplits(s: State, acts: seq<Action>, e: nat)
    requires acts != []
    ensures var n := |acts| - 1;
            NeverFlagged(s, acts, e) <==> NeverFlagged(s, acts[..n], e) && !FlaggedAt(s, acts, n, e)
  {
    var n := |acts| - 1;
    if NeverFlagged(s, acts, e) {
      forall i: nat | i < n ensures !FlaggedAt(s, acts[..n], i, e) {
        assert !FlaggedAt(s, acts, i, e);
        SameSoFar(s, acts, n, i, e);
      }
      assert !FlaggedAt(s, acts, n, e);
    }
    if NeverFlagged(s, acts[..n], e) && !FlaggedAt(s, acts, n, e) {
      forall i: nat | i < |acts| ensures !FlaggedAt(s, acts, i, e) {
        if i < n {
          assert !FlaggedAt(s, acts[..n], i, e);
          SameSoFar(s, acts, n, i, e);
        }
      }
    }
  }

  lemma LastStepKeepsMatchedIff(s: State, acts: seq<Action>, e: nat)
    requires Inv(s) && acts != [] && MatchedAt(s, acts, |acts| - 1, e)
    ensures MatchedAt(s, acts, |acts|, e) <==> !FlaggedAt(s, acts, |acts| - 1, e)
  {
    var front := acts[..|acts| - 1];
    assert acts[..|acts|] == acts;
    RunKeepsInv(s, front);
    StepKeepsMatchedIff(Run(s, front), acts[|acts| - 1], e);
  }

  /** Through a whole run it stays matched exactly when the run never flags it. */
  lemma {:induction false} StaysMatchedIff(s: State, acts: seq<Action>, e: nat)
    requires Inv(s) && MatchedIn(s, e)
    ensures MatchedThroughout(s, acts, e) <==> NeverFlagged(s, acts, e)
  {
    if acts == [] {
      assert acts[..0] == [];
      assert MatchedAt(s, acts, 0, e);
    } else {
      var n := |acts| - 1;
      StaysMatchedIff(s, acts[..n], e);
      ThroughoutSplits(s, acts, e);
      NeverFlaggedSplits(s, acts, e);
      SameSoFar(s, acts, n, n, e);
      if MatchedThroughout(s, acts[..n], e) {
        assert MatchedAt(s, acts[..n], n, e);
        LastStepKeepsMatchedIff(s, acts, e);
      }
    }
  }

  lemma RunSnoc(s: State, acts: seq<Action>, a: Action)
    ensures Run(s, acts + [a]) == Next(Run(s, acts), a)
  {
    assert (acts + [a])[..|acts|] == acts;
  }

  lemma Run3(s: State, a: Action, b: Action, c: Action)
    ensures Run(s, [a, b, c]) == Next(Next(Next(s, a), b), c)
  {
    RunSnoc(s, [], a);
    RunSnoc(s, [a], b);
    RunSnoc(s, [a, b], c);
    assert [a, b, c] == [a, b] + [c] && [a, b] == [a] + [b] && [a] == [] + [a];
  }

  /** And a flag can always come: on any matched expense nobody has locked, it takes the status and leaves the
      link. */
  lemma FlagUnmatches(s: State, e: nat, t: nat)
    requires Inv(s) && MatchedIn(s, e) && ExpenseFree(s, e) && t !in s.txns
    ensures var s' := Run(s, [BeginFlag(t, e), Proceed(t), Proceed(t)]);
            s'.desk == Flagged(s.desk, e) && !MatchedIn(s', e) && HasLink(s'.desk, e)
  {
    Run3(s, BeginFlag(t, e), Proceed(t), Proceed(t));
    var s1 := Next(s, BeginFlag(t, e));
    assert ExpenseFree(s1, e);
    var s2 := Next(s1, Proceed(t));
    assert s2 == Put(s1, t, Flagging(e, true));
    assert ExpenseFree(s2, e);
    assert HasLink(s.desk, e);
    var b :| b in s.desk.banks && s.desk.banks[b].link == Some(e);
    assert Flagged(s.desk, e).banks[b].link == Some(e);
  }

  // ---------------------------------------------------------------- single transactions

  lemma RunMore(s: State, acts: seq<Action>, a: Action, all: seq<Action>)
    requires all == acts + [a]
    ensures Run(s, all) == Next(Run(s, acts), a)
  {
    assert all[..|acts|] == acts;
  }

  lemma Run4(s: State, a: Action, b: Action, c: Action, d: Action)
    ensures Run(s, [a, b, c, d]) == Next(Next(Next(Next(s, a), b), c), d)
  {
    Run3(s, a, b, c);
    RunMore(s, [a, b, c], d, [a, b, c, d]);
  }

  /** A confirmation that nobody disturbs does in its calls what confirming the pair does to the tables, and reports
      what that reports. */
  lemma ConfirmationAlone(s: State, t: nat, e: nat, b: nat)
    requires t !in s.txns && ExpenseFree(s, e) && BankFree(s, b)
    ensures var s' := Run(s, [BeginConfirm(t, e, b), Proceed(t), Proceed(t), Proceed(t)]);
            t in s'.txns
            && match Confirm(s.desk, e, b)
               case Ok(d) => s'.txns[t] == Finished(None) && s'.desk == d
               case Err(error) => s'.txns[t] == Finished(Some(error)) && s'.desk == s.desk
  {
    Run4(s, BeginConfirm(t, e, b), Proceed(t), Proceed(t), Proceed(t));
    var s1 := Next(s, BeginConfirm(t, e, b));
    assert s1 == Put(s, t, Confirming(e, b, WantExpense)) && ExpenseFree(s1, e) && BankFree(s1, b);
    var s2 := Next(s1, Proceed(t));
    if e in s.desk.expenses {
      assert s2 == Put(s1, t, Confirming(e, b, WantBank(s.desk.expenses[e].status))) && BankFree(s2, b);
      var s3 := Next(s2, Proceed(t));
      if b in s.desk.banks {
        assert s3 == Put(s2, t, Confirming(e, b, Writing(s.desk.expenses[e].status, s.desk.banks[b].link)));
      }
    }
  }

  /** From the empty tables a run leads to any expense matched with any bank row. */
  lemma MatchIsReachable(e: nat, expense: Expense, b: nat, row: BankRow, t: nat)
    ensures var s := Run(Run(Start(), [NewExpense(e, expense), NewBankRow(b, row)]),
                         [BeginConfirm(t, e, b), Proceed(t), Proceed(t), Proceed(t)]);
            && s.desk.expenses == map[e := expense.(status := Matched)]
            && s.desk.banks == map[b := row.(status := Matched, link := Some(e))]
            && t in s.txns && s.txns[t] == Finished(None)
  {
    RunMore(Start(), [], NewExpense(e, expense), [NewExpense(e, expense)]);
    RunMore(Start(), [NewExpense(e, expense)], NewBankRow(b, row), [NewExpense(e, expense), NewBankRow(b, row)]);
    var s := Run(Start(), [NewExpense(e, expense), NewBankRow(b, row)]);
    assert s.desk.expenses == map[e := expense.(status := Unmatched)];
    assert s.desk.banks == map[b := row.(status := Unmatched, link := None)];
    assert ExpenseFree(s, e) && BankFree(s, b) && !LinkTaken(s.desk, e, b);
    ConfirmationAlone(s, t, e, b);
  }

  /** A flag that comes while a confirmation is about to write finds the expense without waiting, waits with its
      UPDATE, and then takes away the status the confirmation has just given, leaving the link. */
  lemma FlagOvertakesConfirmation(s: State, t: nat, u: nat)
    requires Inv(s) && t in s.txns && s.txns[t].Confirming? && s.txns[t].stage.Writing? && u !in s.txns
    requires Confirm(s.desk, s.txns[t].expense, s.txns[t].bank).Ok?
    ensures var e, b := s.txns[t].expense, s.txns[t].bank;
            var waiting := Run(s, [BeginFlag(u, e), Proceed(u), Proceed(u)]);
            var s' := Run(waiting, [Proceed(t), Proceed(u)]);
            && waiting == Put(s, u, Flagging(e, true))
            && s'.txns == s.txns[t := Finished(None)][u := Finished(None)]
            && e in s'.desk.expenses && s'.desk.expenses[e].status == PendingReview
            && b in s'.desk.banks && s'.desk.banks[b].link == Some(e)
  {
    var e, b := s.txns[t].expense, s.txns[t].bank;
    Run3(s, BeginFlag(u, e), Proceed(u), Proceed(u));
    assert HoldsExpense(s.txns[t], e) && ReadsCurrent(s.desk, s.txns[t]);
    var s1 := Next(s, BeginFlag(u, e));
    var s2 := Next(s1, Proceed(u));
    assert s2 == Put(s, u, Flagging(e, true));
    assert s2.txns[t] == s.txns[t];
    assert !ExpenseFree(s2, e);
    RunMore(s2, [], Proceed(t), [Proceed(t)]);
    RunMore(s2, [Proceed(t)], Proceed(u), [Proceed(t), Proceed(u)]);
    var s3 := Next(s2, Proceed(t));
    assert s3.desk == Linked(s.desk, e, b) && s3.txns == s2.txns[t := Finished(None)];
    forall v | v in s3.txns ensures !HoldsExpense(s3.txns[v], e) {
      if v != t && v != u { assert s3.txns[v] == s.txns[v]; }
    }
  }

  // ---------------------------------------------------------------- progress

  /** Database calls a transaction still has to make. */
  function Remaining(t: Txn): nat {
    match t
    case Confirming(_, _, WantExpense) => 3
    case Confirming(_, _, WantBank(_)) => 2
    case Confirming(_, _, Writing(_, _)) => 1
    case Flagging(_, lookedUp) => if lookedUp then 1 else 2
    case Finished(_) => 0
  }

  ghost function Work(txns: map<nat, Txn>): nat
    decreases |txns|
  {
    if txns == map[] then 0
    else
      var t :| t in txns;
      Remaining(txns[t]) + Work(txns - {t})
  }

  lemma {:induction false} WorkWithout(txns: map<nat, Txn>, t: nat)
    requires t in txns
    ensures Work(txns) == Remaining(txns[t]) + Work(txns - {t})
    decreases |txns|
  {
    var u :| u in txns && Work(txns) == Remaining(txns[u]) + Work(txns - {u});
    if u != t {
      WorkWithout(txns - {u}, t);
      WorkWithout(txns - {t}, u);
      assert txns - {u} - {t} == txns - {t} - {u};
    }
  }

  lemma WorkAfterPut(txns: map<nat, Txn>, t: nat, txn: Txn)
    requires t in txns && Remaining(txn) < Remaining(txns[t])
    ensures Work(txns[t := txn]) < Work(txns)
  {
    WorkWithout(txns, t);
    WorkWithout(txns[t := txn], t);
    assert txns[t := txn] - {t} == txns - {t};
  }

  lemma StepAdvances(s: State, t: nat)
    requires Inv(s) && CanStep(s, t)
    ensures var txns := Step(s, t).txns;
            t in txns && txns == s.txns[t := txns[t]] && Remaining(txns[t]) < Remaining(s.txns[t])
  {
    assert ReadsCurrent(s.desk, s.txns[t]);
  }

  lemma StepDoesWork(s: State, t: nat)
    requires Inv(s) && CanStep(s, t)
    ensures Next(s, Proceed(t)) == Step(s, t) && Inv(Step(s, t))
    ensures Step(s, t).txns.Keys == s.txns.Keys && Work(Step(s, t).txns) < Work(s.txns)
  {
    StepAdvances(s, t);
    WorkAfterPut(s.txns, t, Step(s, t).txns[t]);
    NextKeepsInv(s, Proceed(t));
  }

  ghost predicate Unfinished(s: State, t: nat) {
    t in s.txns && !s.txns[t].Finished?
  }

  /** No deadlock: because the expense is always locked first, while any transaction is unfinished
      some transaction can make its next call. */
  lemma SomeoneCanStep(s: State, t: nat) returns (u: nat)
    requires Inv(s) && Unfinished(s, t)
    ensures CanStep(s, u)
  {
    if w :| w in s.txns && s.txns[w].Confirming? && s.txns[w].stage.Writing? {
      u := w;
    } else if w :| w in s.txns && s.txns[w].Confirming? && s.txns[w].stage.WantBank? {
      u := w;
    } else {
      u := t;
    }
  }

  lemma RunOne(s: State, a: Action)
    ensures Run(s, [a]) == Next(s, a)
  {
    assert [a][..0] == [];
  }

  lemma ProceedFirst(s: State, u: nat, rest: seq<Action>)
    requires CanStep(s, u)
    ensures Run(s, [Proceed(u)] + rest) == Run(Step(s, u), rest)
  {
    RunSplits(s, [Proceed(u)], rest);
    RunOne(s, Proceed(u));
  }

  /** And all of them finish: some schedule of at most `Work` calls finishes everything, */
  lemma {:induction false} AllFinish(s: State) returns (schedule: seq<Action>)
    requires Inv(s)
    ensures |schedule| <= Work(s.txns)
    ensures forall i :: 0 <= i < |schedule| ==> schedule[i].Proceed?
    ensures Run(s, schedule).txns.Keys == s.txns.Keys
    ensures forall t :: t in s.txns ==> !Unfinished(Run(s, schedule), t)
    decreases Work(s.txns)
  {
    schedule := [];
    if t :| Unfinished(s, t) {
      var u := SomeoneCanStep(s, t);
      StepDoesWork(s, u);
      var s' := Step(s, u);
      var rest := AllFinish(s');
      schedule := [Proceed(u)] + rest;
      ProceedFirst(s, u, rest);
      forall i | 0 <= i < |schedule| ensures schedule[i].Proceed? {
        if i > 0 { assert schedule[i] == rest[i - 1]; }
      }
      forall v | v in s.txns ensures !Unfinished(Run(s, schedule), v) {
        assert v in s'.txns;
      }
    }
  }

  /** while no schedule whatever can make more than `Work` calls that return. */
  lemma {:induction false} NoScheduleIsLonger(s: State, schedule: seq<nat>)
    requires Inv(s)
    requires forall i :: 0 <= i < |schedule| ==> CanStep(Run(s, Calls(schedule[..i])), schedule[i])
    ensures |schedule| + Work(Run(s, Calls(schedule)).txns) <= Work(s.txns)
  {
    if schedule != [] {
      var n := |schedule| - 1;
      var front := schedule[..n];
      forall i | 0 <= i < n ensures CanStep(Run(s, Calls(front[..i])), front[i]) { assert front[..i] == schedule[..i]; }
      NoScheduleIsLonger(s, front);
      RunKeepsInv(s, Calls(front));
      CallsSnoc(s, schedule);
      StepDoesWork(Run(s, Calls(front)), schedule[n]);
    }
  }

  lemma CallsSnoc(s: State, schedule: seq<nat>)
    requires schedule != []
    ensures Run(s, Calls(schedule))
        == Next(Run(s, Calls(schedule[..|schedule| - 1])), Proceed(schedule[|schedule| - 1]))
  {
    assert Calls(schedule)[..|schedule| - 1] == Calls(schedule[..|schedule| - 1]);
  }

  function Calls(schedule: seq<nat>): seq<Action> {
    seq(|schedule|, i requires 0 <= i < |schedule| => Proceed(schedule[i]))
  }
}
