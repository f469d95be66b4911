/** The money side: delivery settlement (src/app/delivery/service/delivery.service.ts)
    and payouts (src/app/finance/service/finance.service.ts) as database
    transactions that interleave. A transaction takes its row locks and unique keys
    one step at a time, may find any of them taken, and may be killed between any
    two steps; what it writes becomes visible when it commits. */
module Ledger {
  import opened Prelude
  import Fulfilment = FulfilmentModel

  // ---- the books -------------------------------------------------------------

  datatype Account = Account(restaurant: nat, currency: string)

  /** What settlement reads of a delivery's order. */
  datatype Job = Job(order: nat, account: Account, subtotal: int)

  /** transactions.idempotency_key, by what it is built from. */
  datatype LedgerKey = CommissionKey(delivery: nat) | PayoutKey(restaurant: nat, key: string)

  datatype Entry = Entry(key: LedgerKey, account: Account, amount: int)

  datatype Event = OrderDelivered(delivery: nat) | DeliveryCompleted(delivery: nat)

  /** entries:  the transactions table, in commit order
      earnings: the agent_earnings table, by its unique delivery_id */
  datatype Books = Books(entries: seq<Entry>, balances: map<Account, int>, earnings: map<nat, int>,
                         events: seq<Event>, statuses: map<nat, Fulfilment.DeliveryStatus>)

  /** lockRestaurantBalance: a missing row is created with balance 0. */
  function Balance(b: Books, a: Account): int {
    if a in b.balances then b.balances[a] else 0
  }

  function Commission(subtotal: int, bps: int): int {
    subtotal * bps / 10000
  }

  /** findTransactionByIdempotencyKey. */
  function Find(entries: seq<Entry>, key: LedgerKey): Option<Entry> {
    if entries == [] then None
    else if entries[|entries| - 1].key == key then Some(entries[|entries| - 1])
    else Find(entries[..|entries| - 1], key)
  }

  // ---- requests, one at a time -------------------------------------------------

  /** Settle: bps and earning come from the branch as read before the transaction. */
  datatype Request =
    | Settle(delivery: nat, bps: int, earning: int)
    | Payout(account: Account, amount: int, key: string)

  datatype Outcome =
    | Settled | AlreadySettled
    | Paid(entry: Entry) | Existing(entry: Entry) | InsufficientBalance | KeyTaken
    | Killed

  function KeyOf(r: Request): LedgerKey {
    match r
    case Settle(d, _, _) => CommissionKey(d)
    case Payout(a, _, key) => PayoutKey(a.restaurant, key)
  }

  function AccountOf(jobs: nat -> Job, r: Request): Account {
    if r.Settle? then jobs(r.delivery).account else r.account
  }

  function EntryOf(jobs: nat -> Job, r: Request): Entry {
    Entry(KeyOf(r), AccountOf(jobs, r),
          if r.Settle? then Commission(jobs(r.delivery).subtotal, r.bps) else r.amount)
  }

  /** What the entry does to its account. */
  function Effect(jobs: nat -> Job, e: Entry): int {
    match e.key
    case CommissionKey(d) => jobs(d).subtotal - e.amount
    case PayoutKey(_, _) => -e.amount
  }

  /** Everything a committing transaction writes, given the balance it read. */
  function Written(jobs: nat -> Job, b: Books, r: Request, balance: int): Books {
    var e := EntryOf(jobs, r);
    var posted := b.(entries := b.entries + [e], balances := b.balances[e.account := balance + Effect(jobs, e)]);
    match r
    case Payout(_, _, _) => posted
    case Settle(d, _, earning) =>
      posted.(earnings := if d in b.earnings then b.earnings else b.earnings[d := earning],
              events := b.events + [OrderDelivered(d), DeliveryCompleted(d)],
              statuses := b.statuses[d := Fulfilment.DeliveryStatus.Delivered])
  }

  /** The request run alone, start to end. */
  function Alone(jobs: nat -> Job, b: Books, r: Request): (Books, Outcome) {
    var balance := Balance(b, AccountOf(jobs, r));
    var found := Find(b.entries, KeyOf(r));
    match r
    case Settle(_, _, _) => if found.Some? then (b, AlreadySettled) else (Written(jobs, b, r, balance), Settled)
    case Payout(_, amount, _) =>
      if found.Some? then (b, Existing(found.value))
      else if balance < amount then (b, InsufficientBalance)
      else (Written(jobs, b, r, balance), Paid(EntryOf(jobs, r)))
  }

  // ---- interleaved transactions ---------------------------------------------

  datatype Lock = DeliveryRow(delivery: nat) | OrderRow(order: nat) | Key(key: LedgerKey) | BalanceRow(account: Account)

  /** What a transaction locks, in this order. */
  function Locks(jobs: nat -> Job, r: Request): seq<Lock> {
    match r
    case Settle(d, _, _) => [DeliveryRow(d), OrderRow(jobs(d).order), Key(KeyOf(r)), BalanceRow(jobs(d).account)]
    case Payout(a, _, _) => [BalanceRow(a), Key(KeyOf(r))]
  }

  /** held:   how many of its locks the transaction has
      read:   the balance it read under lock
      looked: a payout has looked its key up and found the balance sufficient */
  datatype Txn = Txn(request: Request, held: nat, read: int, looked: bool, outcome: Option<Outcome>)

  datatype State = State(books: Books, locks: map<Lock, nat>, txns: map<nat, Txn>)

  datatype Action =
    | Begin(id: nat, request: Request)
    | Step(id: nat)
    | Kill(id: nat)
    | WriteStatus(delivery: nat, status: Fulfilment.DeliveryStatus)

  function Finished(s: State, id: nat, o: Outcome): State
    requires id in s.txns
  {
    State(s.books,
          map l | l in s.locks && s.locks[l] != id :: s.locks[l],
          s.txns[id := s.txns[id].(outcome := Some(o))])
  }

  /** The transaction with one more lock; FOR UPDATE on a balance row also reads it. */
  function WithLock(b: Books, t: Txn, l: Lock): Txn {
    t.(held := t.held + 1, read := if l.BalanceRow? then Balance(b, l.account) else t.read)
  }

  /** Asking for a lock: wait for it, fail on a key already committed, or get it. */
  function Claimed(s: State, id: nat, l: Lock): State
    requires id in s.txns
  {
    if l in s.locks then s
    else if l.Key? && Find(s.books.entries, l.key).Some? then
      Finished(s, id, if s.txns[id].request.Settle? then AlreadySettled else KeyTaken)
    else State(s.books, s.locks[l := id], s.txns[id := WithLock(s.books, s.txns[id], l)])
  }

  /** One statement of transaction id, or the commit. A lock somebody else has makes
      it wait; a key somebody else committed makes its insert fail. */
  function Stepped(jobs: nat -> Job, s: State, id: nat): State
    requires id in s.txns
  {
    var t := s.txns[id];
    var locks := Locks(jobs, t.request);
    if t.outcome.Some? then s
    else if t.held >= |locks| then
      Finished(s.(books := Written(jobs, s.books, t.request, t.read)), id,
               if t.request.Settle? then Settled else Paid(EntryOf(jobs, t.request)))
    else if t.request.Payout? && t.held == 1 && !t.looked then
      var found := Find(s.books.entries, KeyOf(t.request));
      if found.Some? then Finished(s, id, Existing(found.value))
      else if t.read < t.request.amount then Finished(s, id, InsufficientBalance)
      else s.(txns := s.txns[id := t.(looked := true)])
    else Claimed(s, id, locks[t.held])
  }

  /** Any number of requests, any schedule, kills anywhere, and any other service
      writing the delivery's status while its row is not locked. A settlement starts
      by reading the status outside its transaction and must find it PICKED. */
  predicate Enabled(s: State, a: Action) {
    match a
    case Begin(id, r) => id !in s.txns &&
      (r.Settle? ==> r.delivery in s.books.statuses && s.books.statuses[r.delivery].Picked?)
    case Step(id) => id in s.txns
    case Kill(id) => id in s.txns && s.txns[id].outcome.None?
    case WriteStatus(d, _) => DeliveryRow(d) !in s.locks
  }

  function Applied(jobs: nat -> Job, s: State, a: Action): State
    requires Enabled(s, a)
  {
    match a
    case Begin(id, r) => s.(txns := s.txns[id := Txn(r, 0, 0, false, None)])
    case Step(id) => Stepped(jobs, s, id)
    case Kill(id) => Finished(s, id, Killed)
    case WriteStatus(d, status) => s.(books := s.books.(statuses := s.books.statuses[d := status]))
  }

  ghost predicate Initial(s: State) {
    && s.books.entries == [] && s.books.balances == map[] && s.books.earnings == map[] && s.books.events == []
    && s.locks == map[] && s.txns == map[]
  }

  ghost predicate IsRun(jobs: nat -> Job, trace: seq<State>, actions: seq<Action>) {
    && |trace| == |actions| + 1
    && Initial(trace[0])
    && forall n {:trigger actions[n]} | 0 <= n < |actions| ::
         Enabled(trace[n], actions[n]) && trace[n + 1] == Applied(jobs, trace[n], actions[n])
  }

  // ---- what the entries say ------------------------------------------------------

  function Total(jobs: nat -> Job, entries: seq<Entry>, a: Account): int {
    if entries == [] then 0
    else
      var e := entries[|entries| - 1];
      Total(jobs, entries[..|entries| - 1], a) + if e.account == a then Effect(jobs, e) else 0
  }

  /** The settled deliveries, in order. */
  function SettledDeliveries(entries: seq<Entry>): seq<nat> {
    if entries == [] then []
    else
      var e := entries[|entries| - 1];
      SettledDeliveries(entries[..|entries| - 1]) + if e.key.CommissionKey? then [e.key.delivery] else []
  }

  function Announced(deliveries: seq<nat>): seq<Event> {
    if deliveries == [] then []
    else
      var d := deliveries[|deliveries| - 1];
      Announced(deliveries[..|deliveries| - 1]) + [OrderDelivered(d), DeliveryCompleted(d)]
  }

  ghost predicate KeysDistinct(entries: seq<Entry>) {
    forall i, j :: 0 <= i < j < |entries| ==> entries[i].key != entries[j].key
  }

  lemma {:induction false} FindIsComplete(entries: seq<Entry>, key: LedgerKey)
    ensures var f := Find(entries, key);
      && (f.Some? ==> f.value in entries && f.value.key == key)
      && (f.None? ==> forall e :: e in entries ==> e.key != key)
  {
    if entries != [] {
      var rest := entries[..|entries| - 1];
      FindIsComplete(rest, key);
      assert entries == rest + [entries[|entries| - 1]];
    }
  }

  lemma {:induction false} FindIsUnique(entries: seq<Entry>, e: Entry)
    requires KeysDistinct(entries) && e in entries
    ensures Find(entries, e.key) == Some(e)
  {
    FindIsComplete(entries, e.key);
  }

  lemma FindOfDistinct(entries: seq<Entry>)
    requires KeysDistinct(entries) && entries != []
    ensures Find(entries[..|entries| - 1], entries[|entries| - 1].key).None?
  {
    var rest, e := entries[..|entries| - 1], entries[|entries| - 1];
    FindIsComplete(rest, e.key);
  }

  lemma {:induction false} SettledOnce(entries: seq<Entry>, d: nat)
    requires KeysDistinct(entries)
    ensures multiset(SettledDeliveries(entries))[d] == if Find(entries, CommissionKey(d)).Some? then 1 else 0
  {
    if entries != [] {
      SettledOnce(entries[..|entries| - 1], d);
      FindOfDistinct(entries);
    }
  }

  lemma CountAppend<T>(xs: seq<T>, ys: seq<T>, x: T)
    ensures multiset(xs + ys)[x] == multiset(xs)[x] + multiset(ys)[x]
  {
  }

  lemma PairCounts(last: nat, d: nat)
    ensures var pair := multiset([OrderDelivered(last), DeliveryCompleted(last)]);
      pair[OrderDelivered(d)] == pair[DeliveryCompleted(d)] == multiset([last])[d]
  {
  }

  lemma {:induction false} AnnouncedOnce(ds: seq<nat>, d: nat)
    ensures multiset(Announced(ds))[OrderDelivered(d)] == multiset(ds)[d]
    ensures multiset(Announced(ds))[DeliveryCompleted(d)] == multiset(ds)[d]
  {
    if ds != [] {
      var rest, last := ds[..|ds| - 1], ds[|ds| - 1];
      var pair := [OrderDelivered(last), DeliveryCompleted(last)];
      AnnouncedOnce(rest, d);
      PairCounts(last, d);
      CountAppend(Announced(rest), pair, OrderDelivered(d));
      CountAppend(Announced(rest), pair, DeliveryCompleted(d));
      CountAppend(rest, [last], d);
      assert ds == rest + [last];
    }
  }

  // ---- the invariant ----------------------------------------------------------

  ghost predicate BooksOk(jobs: nat -> Job, b: Books) {
    && KeysDistinct(b.entries)
    && (forall a :: Balance(b, a) == Total(jobs, b.entries, a))
    && (forall d :: d in b.earnings <==> Find(b.entries, CommissionKey(d)).Some?)
    && b.events == Announced(SettledDeliveries(b.entries))
  }

  ghost predicate Holds(jobs: nat -> Job, t: Txn, l: Lock) {
    t.outcome.None? && exists i :: 0 <= i < t.held && i < |Locks(jobs, t.request)| && Locks(jobs, t.request)[i] == l
  }

  /** A lock is recorded for exactly the transaction that has acquired it. */
  ghost predicate LocksOk(jobs: nat -> Job, locks: map<Lock, nat>, txns: map<nat, Txn>) {
    && (forall l :: l in locks ==> locks[l] in txns && Holds(jobs, txns[locks[l]], l))
    && (forall id, l {:trigger Holds(jobs, txns[id], l)} ::
          id in txns && Holds(jobs, txns[id], l) ==> l in locks && locks[l] == id)
  }

  ghost predicate TxnOk(jobs: nat -> Job, b: Books, t: Txn) {
    && t.held <= |Locks(jobs, t.request)|
    && (t.request.Payout? && t.held > 1 ==> t.looked)
    && (t.looked && t.request.Payout? ==> t.held >= 1 && t.read >= t.request.amount)
    && (Holds(jobs, t, BalanceRow(AccountOf(jobs, t.request))) ==> t.read == Balance(b, AccountOf(jobs, t.request)))
    && (Holds(jobs, t, Key(KeyOf(t.request))) ==> Find(b.entries, KeyOf(t.request)).None?)
  }

  /** What an outcome promised is still so. */
  ghost predicate OutcomeOk(b: Books, t: Txn) {
    match t.outcome
    case None => true
    case Some(o) =>
      match o
      case Settled => t.request.Settle? && Find(b.entries, KeyOf(t.request)).Some?
      case AlreadySettled => t.request.Settle? && Find(b.entries, KeyOf(t.request)).Some?
      case Paid(e) => t.request.Payout? && Find(b.entries, KeyOf(t.request)) == Some(e)
      case Existing(e) => t.request.Payout? && Find(b.entries, KeyOf(t.request)) == Some(e)
      case KeyTaken => t.request.Payout? && Find(b.entries, KeyOf(t.request)).Some?
      case InsufficientBalance => t.request.Payout?
      case Killed => true
  }

  ghost predicate TxnsOk(jobs: nat -> Job, b: Books, txns: map<nat, Txn>) {
    forall id :: id in txns ==> TxnOk(jobs, b, txns[id]) && OutcomeOk(b, txns[id])
  }

  ghost predicate Inv(jobs: nat -> Job, s: State) {
    && BooksOk(jobs, s.books)
    && LocksOk(jobs, s.locks, s.txns)
    && TxnsOk(jobs, s.books, s.txns)
  }

  lemma NewKeyIsDistinct(entries: seq<Entry>, e: Entry)
    requires KeysDistinct(entries) && Find(entries, e.key).None?
    ensures KeysDistinct(entries + [e])
  {
    FindIsComplete(entries, e.key);
    forall i, j | 0 <= i < j < |entries| + 1 ensures (entries + [e])[i].key != (entries + [e])[j].key {
      assert entries[i] in entries;
    }
  }

  lemma SettledAppend(entries: seq<Entry>, e: Entry)
    ensures SettledDeliveries(entries + [e])
         == SettledDeliveries(entries) + if e.key.CommissionKey? then [e.key.delivery] else []
  {
  }

  lemma AnnouncedAppend(ds: seq<nat>, d: nat)
    ensures Announced(ds + [d]) == Announced(ds) + [OrderDelivered(d), DeliveryCompleted(d)]
  {
  }

  lemma EarningsFollow(jobs: nat -> Job, b: Books, r: Request, balance: int, d: nat)
    requires d in b.earnings <==> Find(b.entries, CommissionKey(d)).Some?
    ensures var b' := Written(jobs, b, r, balance);
      d in b'.earnings <==> Find(b'.entries, CommissionKey(d)).Some?
  {
  }

  lemma EventsFollow(jobs: nat -> Job, b: Books, r: Request, balance: int)
    requires b.events == Announced(SettledDeliveries(b.entries))
    ensures var b' := Written(jobs, b, r, balance); b'.events == Announced(SettledDeliveries(b'.entries))
  {
    assert Written(jobs, b, r, balance).entries == b.entries + [EntryOf(jobs, r)];
    SettledAppend(b.entries, EntryOf(jobs, r));
    if r.Settle? {
      AnnouncedAppend(SettledDeliveries(b.entries), r.delivery);
    } else {
      assert SettledDeliveries(b.entries) + [] == SettledDeliveries(b.entries);
    }
  }

  lemma BalancesFollow(jobs: nat -> Job, b: Books, r: Request, a: Account)
    requires forall x :: Balance(b, x) == Total(jobs, b.entries, x)
    ensures var b' := Written(jobs, b, r, Balance(b, AccountOf(jobs, r)));
      Balance(b', a) == Total(jobs, b'.entries, a)
  {
  }

  /** A commit posts one new entry and nothing else changes hands. */
  lemma WrittenKeepsBooks(jobs: nat -> Job, b: Books, r: Request)
    requires BooksOk(jobs, b) && Find(b.entries, KeyOf(r)).None?
    ensures BooksOk(jobs, Written(jobs, b, r, Balance(b, AccountOf(jobs, r))))
  {
    var balance := Balance(b, AccountOf(jobs, r));
    NewKeyIsDistinct(b.entries, EntryOf(jobs, r));
    EventsFollow(jobs, b, r, balance);
    forall d { EarningsFollow(jobs, b, r, balance, d); }
    forall a { BalancesFollow(jobs, b, r, a); }
  }

  lemma FindAfterWrite(jobs: nat -> Job, b: Books, r: Request, balance: int, key: LedgerKey)
    ensures Find(Written(jobs, b, r, balance).entries, key)
         == if key == KeyOf(r) then Some(EntryOf(jobs, r)) else Find(b.entries, key)
  {
  }

  /** Two transactions never hold the same lock. */
  lemma NoTwoHolders(jobs: nat -> Job, s: State, id: nat, other: nat, l: Lock)
    requires LocksOk(jobs, s.locks, s.txns) && id in s.txns && other in s.txns
    requires Holds(jobs, s.txns[id], l) && Holds(jobs, s.txns[other], l)
    ensures id == other
  {
  }

  lemma HeldLocks(jobs: nat -> Job, t: Txn)
    requires t.outcome.None? && t.held >= |Locks(jobs, t.request)|
    ensures Holds(jobs, t, BalanceRow(AccountOf(jobs, t.request))) && Holds(jobs, t, Key(KeyOf(t.request)))
  {
    var ls := Locks(jobs, t.request);
    if t.request.Settle? {
      assert ls[2] == Key(KeyOf(t.request)) && ls[3] == BalanceRow(AccountOf(jobs, t.request));
    } else {
      assert ls[0] == BalanceRow(AccountOf(jobs, t.request)) && ls[1] == Key(KeyOf(t.request));
    }
  }

  lemma FinishedKeepsLocks(jobs: nat -> Job, s: State, id: nat, o: Outcome)
    requires LocksOk(jobs, s.locks, s.txns) && id in s.txns
    ensures LocksOk(jobs, Finished(s, id, o).locks, Finished(s, id, o).txns)
  {
  }

  /** The commit of one transaction leaves what the others know standing: it holds
      its balance row and its key, so nobody else does. */
  lemma CommitKeepsOthers(jobs: nat -> Job, s: State, id: nat, other: nat)
    requires Inv(jobs, s) && id in s.txns && other in s.txns && other != id
    requires s.txns[id].outcome.None? && s.txns[id].held >= |Locks(jobs, s.txns[id].request)|
    ensures var b' := Written(jobs, s.books, s.txns[id].request, s.txns[id].read);
      TxnOk(jobs, b', s.txns[other]) && OutcomeOk(b', s.txns[other])
  {
    var t, u := s.txns[id], s.txns[other];
    var b' := Written(jobs, s.books, t.request, t.read);
    HeldLocks(jobs, t);
    FindAfterWrite(jobs, s.books, t.request, t.read, KeyOf(u.request));
    var row, key := BalanceRow(AccountOf(jobs, u.request)), Key(KeyOf(u.request));
    if Holds(jobs, u, row) && row == BalanceRow(AccountOf(jobs, t.request)) { NoTwoHolders(jobs, s, id, other, row); }
    if Holds(jobs, u, key) && key == Key(KeyOf(t.request)) { NoTwoHolders(jobs, s, id, other, key); }
  }

  lemma CommitKeeps(jobs: nat -> Job, s: State, id: nat)
    requires Inv(jobs, s) && id in s.txns
    requires s.txns[id].outcome.None? && s.txns[id].held >= |Locks(jobs, s.txns[id].request)|
    ensures Inv(jobs, Stepped(jobs, s, id))
  {
    var t := s.txns[id];
    HeldLocks(jobs, t);
    WrittenKeepsBooks(jobs, s.books, t.request);
    var o := if t.request.Settle? then Settled else Paid(EntryOf(jobs, t.request));
    var written := s.(books := Written(jobs, s.books, t.request, t.read));
    assert Stepped(jobs, s, id) == Finished(written, id, o);
    FinishedKeepsLocks(jobs, written, id, o);
    CommitKeepsTxns(jobs, s, id, o);
  }

  lemma CommitKeepsTxns(jobs: nat -> Job, s: State, id: nat, o: Outcome)
    requires Inv(jobs, s) && id in s.txns
    requires s.txns[id].outcome.None? && s.txns[id].held >= |Locks(jobs, s.txns[id].request)|
    requires o == if s.txns[id].request.Settle? then Settled else Paid(EntryOf(jobs, s.txns[id].request))
    ensures TxnsOk(jobs, Written(jobs, s.books, s.txns[id].request, s.txns[id].read), s.txns[id := s.txns[id].(outcome := Some(o))])
  {
    var t := s.txns[id];
    FindAfterWrite(jobs, s.books, t.request, t.read, KeyOf(t.request));
    forall other | other in s.txns && other != id
      ensures TxnOk(jobs, Written(jobs, s.books, t.request, t.read), s.txns[other])
      ensures OutcomeOk(Written(jobs, s.books, t.request, t.read), s.txns[other])
    {
      CommitKeepsOthers(jobs, s, id, other);
    }
  }

  lemma FinishKeeps(jobs: nat -> Job, s: State, id: nat, o: Outcome)
    requires Inv(jobs, s) && id in s.txns
    requires OutcomeOk(s.books, s.txns[id].(outcome := Some(o)))
    ensures Inv(jobs, Finished(s, id, o))
  {
    FinishedKeepsLocks(jobs, s, id, o);
    var t' := s.txns[id].(outcome := Some(o));
    assert TxnOk(jobs, s.books, s.txns[id]) && TxnOk(jobs, s.books, t');
  }

  lemma HoldsOneMore(jobs: nat -> Job, t: Txn, t': Txn, l: Lock)
    requires t.outcome.None? && t.held < |Locks(jobs, t.request)|
    requires t' == t.(held := t.held + 1, read := t'.read)
    ensures Holds(jobs, t', l) <==> Holds(jobs, t, l) || l == Locks(jobs, t.request)[t.held]
  {
  }

  lemma AcquireKeepsLocks(jobs: nat -> Job, s: State, id: nat, l: Lock, t': Txn)
    requires LocksOk(jobs, s.locks, s.txns) && id in s.txns && l !in s.locks
    requires s.txns[id].outcome.None? && s.txns[id].held < |Locks(jobs, s.txns[id].request)|
    requires l == Locks(jobs, s.txns[id].request)[s.txns[id].held]
    requires t' == s.txns[id].(held := s.txns[id].held + 1, read := t'.read)
    ensures LocksOk(jobs, s.locks[l := id], s.txns[id := t'])
  {
    var locks, txns := s.locks[l := id], s.txns[id := t'];
    forall k | k in locks ensures locks[k] in txns && Holds(jobs, txns[locks[k]], k) {
      HoldsOneMore(jobs, s.txns[id], t', k);
    }
    forall other, k | other in txns && Holds(jobs, txns[other], k) ensures k in locks && locks[k] == other {
      HoldsOneMore(jobs, s.txns[id], t', k);
    }
  }

  lemma AcquiredOk(jobs: nat -> Job, b: Books, t: Txn)
    requires TxnOk(jobs, b, t) && t.outcome.None? && t.held < |Locks(jobs, t.request)|
    requires t.request.Payout? && t.held == 1 ==> t.looked
    requires var l := Locks(jobs, t.request)[t.held]; l.Key? ==> Find(b.entries, l.key).None?
    ensures TxnOk(jobs, b, WithLock(b, t, Locks(jobs, t.request)[t.held]))
  {
  }

  lemma AcquireKeeps(jobs: nat -> Job, s: State, id: nat, l: Lock)
    requires Inv(jobs, s) && id in s.txns
    requires s.txns[id].outcome.None? && s.txns[id].held < |Locks(jobs, s.txns[id].request)|
    requires s.txns[id].request.Payout? && s.txns[id].held == 1 ==> s.txns[id].looked
    requires l == Locks(jobs, s.txns[id].request)[s.txns[id].held]
    ensures Inv(jobs, Claimed(s, id, l))
  {
    var t := s.txns[id];
    if l in s.locks {
    } else if l.Key? && Find(s.books.entries, l.key).Some? {
      LockNames(jobs, t.request, t.held);
      FinishKeeps(jobs, s, id, if t.request.Settle? then AlreadySettled else KeyTaken);
    } else {
      AcquiredOk(jobs, s.books, t);
      AcquireKeepsLocks(jobs, s, id, l, WithLock(s.books, t, l));
    }
  }

  /** The only balance row and the only key in a request's locks are its own. */
  lemma LockNames(jobs: nat -> Job, r: Request, i: nat)
    requires i < |Locks(jobs, r)|
    ensures Locks(jobs, r)[i].BalanceRow? ==> Locks(jobs, r)[i] == BalanceRow(AccountOf(jobs, r))
    ensures Locks(jobs, r)[i].Key? ==> Locks(jobs, r)[i] == Key(KeyOf(r))
    ensures forall j :: 0 <= j < i ==> Rank(Locks(jobs, r)[j]) < Rank(Locks(jobs, r)[i])
  {
  }

  function Rank(l: Lock): nat {
    match l
    case DeliveryRow(_) => 0
    case OrderRow(_) => 1
    case Key(CommissionKey(_)) => 2
    case BalanceRow(_) => 3
    case Key(PayoutKey(_, _)) => 4
  }

  lemma LookupKeeps(jobs: nat -> Job, s: State, id: nat)
    requires Inv(jobs, s) && id in s.txns
    requires s.txns[id].outcome.None? && s.txns[id].request.Payout? && s.txns[id].held == 1 && !s.txns[id].looked
    ensures Inv(jobs, Stepped(jobs, s, id))
  {
    var t := s.txns[id];
    var found := Find(s.books.entries, KeyOf(t.request));
    if found.Some? {
      FinishKeeps(jobs, s, id, Existing(found.value));
    } else if t.read < t.request.amount {
      FinishKeeps(jobs, s, id, InsufficientBalance);
    } else {
      var s' := Stepped(jobs, s, id);
      assert forall l :: Holds(jobs, s'.txns[id], l) <==> Holds(jobs, t, l);
      assert LocksOk(jobs, s'.locks, s'.txns);
    }
  }

  lemma EveryStepKeeps(jobs: nat -> Job, s: State, a: Action)
    requires Inv(jobs, s) && Enabled(s, a)
    ensures Inv(jobs, Applied(jobs, s, a))
  {
    match a
    case Begin(id, r) =>
      var s' := Applied(jobs, s, a);
      assert forall l :: !Holds(jobs, s'.txns[id], l);
      assert LocksOk(jobs, s'.locks, s'.txns);
    case Kill(id) => FinishKeeps(jobs, s, id, Killed);
    case WriteStatus(d, status) => StatusIsNotMoney(jobs, s, d, status);
    case Step(id) =>
      var t := s.txns[id];
      if t.outcome.Some? {
      } else if t.held >= |Locks(jobs, t.request)| {
        CommitKeeps(jobs, s, id);
      } else if t.request.Payout? && t.held == 1 && !t.looked {
        LookupKeeps(jobs, s, id);
      } else {
        AcquireKeeps(jobs, s, id, Locks(jobs, t.request)[t.held]);
      }
  }

  lemma StatusIsNotMoney(jobs: nat -> Job, s: State, d: nat, status: Fulfilment.DeliveryStatus)
    requires Inv(jobs, s)
    ensures Inv(jobs, s.(books := s.books.(statuses := s.books.statuses[d := status])))
  {
  }

  /** How state n came about. */
  lemma StepOf(jobs: nat -> Job, trace: seq<State>, actions: seq<Action>, n: nat)
    requires IsRun(jobs, trace, actions) && 0 < n < |trace|
    ensures |trace| == |actions| + 1 && Enabled(trace[n - 1], actions[n - 1])
    ensures trace[n] == Applied(jobs, trace[n - 1], actions[n - 1])
  {
    var m := n - 1;
    assert trace[m + 1] == Applied(jobs, trace[m], actions[m]);
  }

  lemma {:induction false} Reached(jobs: nat -> Job, trace: seq<State>, actions: seq<Action>, n: nat)
    requires IsRun(jobs, trace, actions) && n < |trace|
    ensures Inv(jobs, trace[n])
  {
    hide Enabled, Applied;
    if n > 0 {
      StepOf(jobs, trace, actions, n);
      Reached(jobs, trace, actions, n - 1);
      EveryStepKeeps(jobs, trace[n - 1], actions[n - 1]);
    }
  }

  // ---- the theorems, over every run -------------------------------------------

  ghost predicate SoundRequest(jobs: nat -> Job, r: Request) {
    r.Settle? ==> 0 <= r.bps <= 10000 && jobs(r.delivery).subtotal >= 0
  }

  lemma CommissionIsAShare(subtotal: int, bps: int)
    requires subtotal >= 0 && 0 <= bps <= 10000
    ensures 0 <= Commission(subtotal, bps) <= subtotal
  {
  }

  lemma {:induction false} RequestsStaySound(jobs: nat -> Job, trace: seq<State>, actions: seq<Action>, n: nat)
    requires IsRun(jobs, trace, actions) && n < |trace|
    requires forall i :: 0 <= i < |actions| && actions[i].Begin? ==> SoundRequest(jobs, actions[i].request)
    ensures forall id :: id in trace[n].txns ==> SoundRequest(jobs, trace[n].txns[id].request)
  {
    if n > 0 {
      RequestsStaySound(jobs, trace, actions, n - 1);
      forall id | id in trace[n].txns ensures SoundRequest(jobs, trace[n].txns[id].request) {
        SameRequest(jobs, trace[n - 1], actions[n - 1], id);
      }
    }
  }

  lemma SameRequest(jobs: nat -> Job, s: State, a: Action, id: nat)
    requires Enabled(s, a) && id in Applied(jobs, s, a).txns
    ensures if id in s.txns then Applied(jobs, s, a).txns[id].request == s.txns[id].request
            else a.Begin? && Applied(jobs, s, a).txns[id].request == a.request
  {
  }

  /** No balance is ever negative, if every commission rate lies between 0 and
      10000 basis points. */
  lemma {:induction false} BalanceNeverNegative(jobs: nat -> Job, trace: seq<State>, actions: seq<Action>, n: nat)
    requires IsRun(jobs, trace, actions) && n < |trace|
    requires forall i :: 0 <= i < |actions| && actions[i].Begin? ==> SoundRequest(jobs, actions[i].request)
    ensures forall a :: Balance(trace[n].books, a) >= 0
  {
    hide Inv;
    if n > 0 {
      StepOf(jobs, trace, actions, n);
      BalanceNeverNegative(jobs, trace, actions, n - 1);
      RequestsStaySound(jobs, trace, actions, n - 1);
      Reached(jobs, trace, actions, n - 1);
      var s, a := trace[n - 1], actions[n - 1];
      if a.Step? {
        StepStaysPositive(jobs, s, a.id);
      } else {
        assert forall x :: Balance(trace[n].books, x) == Balance(s.books, x);
      }
    }
  }

  lemma StepStaysPositive(jobs: nat -> Job, s: State, id: nat)
    requires Inv(jobs, s) && id in s.txns && SoundRequest(jobs, s.txns[id].request)
    requires forall a :: Balance(s.books, a) >= 0
    ensures forall a :: Balance(Stepped(jobs, s, id).books, a) >= 0
  {
    var t := s.txns[id];
    assert TxnOk(jobs, s.books, t);
    if t.outcome.None? && t.held >= |Locks(jobs, t.request)| {
      HeldLocks(jobs, t);
      CommitStaysPositive(jobs, s.books, t);
    } else {
      assert Stepped(jobs, s, id).books == s.books;
    }
  }

  lemma CommitStaysPositive(jobs: nat -> Job, b: Books, t: Txn)
    requires SoundRequest(jobs, t.request) && t.read == Balance(b, AccountOf(jobs, t.request))
    requires t.request.Payout? ==> t.read >= t.request.amount
    requires forall a :: Balance(b, a) >= 0
    ensures forall a :: Balance(Written(jobs, b, t.request, t.read), a) >= 0
  {
    if t.request.Settle? { CommissionIsAShare(jobs(t.request.delivery).subtotal, t.request.bps); }
    var e := EntryOf(jobs, t.request);
    assert t.read + Effect(jobs, e) >= 0;
    forall a ensures Balance(Written(jobs, b, t.request, t.read), a) >= 0 {
      assert Balance(b, a) >= 0;
    }
  }

  /** Exactly once: however many requests to deliver the same delivery run at once,
      all having read PICKED, there is one commission row, one earning and one pair
      of events, or none of them; and there is one as soon as any of the requests
      has finished without being killed. */
  lemma SettlementIsExactlyOnce(jobs: nat -> Job, trace: seq<State>, actions: seq<Action>, n: nat, d: nat)
    requires IsRun(jobs, trace, actions) && n < |trace|
    ensures var b := trace[n].books;
      var count := multiset(SettledDeliveries(b.entries))[d];
      && count == (if d in b.earnings then 1 else 0)
      && count == multiset(b.events)[OrderDelivered(d)]
      && count == multiset(b.events)[DeliveryCompleted(d)]
      && count <= 1
      && ((exists id :: id in trace[n].txns && Answered(trace[n].txns[id], d)) ==> count == 1)
  {
    Reached(jobs, trace, actions, n);
    var b := trace[n].books;
    SettledOnce(b.entries, d);
    AnnouncedOnce(SettledDeliveries(b.entries), d);
    if id :| id in trace[n].txns && Answered(trace[n].txns[id], d) {
      assert OutcomeOk(b, trace[n].txns[id]);
    }
  }

  /** A request to deliver d has finished, and was not killed. */
  predicate Answered(t: Txn, d: nat) {
    t.request.Settle? && t.request.delivery == d && t.outcome.Some? && !t.outcome.value.Killed?
  }

  /** amount is the commission on the subtotal at bps basis points, rounded down. */
  predicate IsShare(amount: int, subtotal: int, bps: int) {
    10000 * amount <= subtotal * bps < 10000 * (amount + 1)
  }

  /** The entry that request r is to leave. */
  predicate EntryFor(jobs: nat -> Job, e: Entry, r: Request) {
    match r
    case Settle(d, bps, _) =>
      e.key == CommissionKey(d) && e.account == jobs(d).account && IsShare(e.amount, jobs(d).subtotal, bps)
    case Payout(a, amount, key) => e == Entry(PayoutKey(a.restaurant, key), a, amount)
  }

  /** What a request with that amount is worth to its restaurant: the food less the
      commission; a payout takes its amount. */
  function Worth(jobs: nat -> Job, r: Request, amount: int): int {
    match r
    case Settle(d, _, _) => jobs(d).subtotal - amount
    case Payout(_, _, _) => -amount
  }

  lemma EntryIs(jobs: nat -> Job, r: Request)
    ensures EntryFor(jobs, EntryOf(jobs, r), r)
    ensures Effect(jobs, EntryOf(jobs, r)) == Worth(jobs, r, EntryOf(jobs, r).amount)
  {
  }

  ghost predicate PaidInto(b: Books, b': Books, account: Account, amount: int) {
    forall a :: Balance(b', a) == Balance(b, a) + if a == account then amount else 0
  }

  /** Everything request r writes is there, and nothing else. */
  ghost predicate Posted(jobs: nat -> Job, b: Books, b': Books, r: Request) {
    && |b'.entries| == |b.entries| + 1 && b.entries == b'.entries[..|b.entries|]
    && EntryFor(jobs, b'.entries[|b.entries|], r)
    && PaidInto(b, b', b'.entries[|b.entries|].account, Worth(jobs, r, b'.entries[|b.entries|].amount))
    && match r
       case Payout(_, _, _) => b'.earnings == b.earnings && b'.events == b.events && b'.statuses == b.statuses
       case Settle(d, _, earning) =>
         && d !in b.earnings && b'.earnings == b.earnings[d := earning]
         && b'.events == b.events + [OrderDelivered(d), DeliveryCompleted(d)]
         && b'.statuses == b.statuses[d := Fulfilment.DeliveryStatus.Delivered]
  }

  lemma CommitPosts(jobs: nat -> Job, s: State, id: nat)
    requires Inv(jobs, s) && id in s.txns
    requires s.txns[id].outcome.None? && s.txns[id].held >= |Locks(jobs, s.txns[id].request)|
    ensures Posted(jobs, s.books, Stepped(jobs, s, id).books, s.txns[id].request)
  {
    HeldLocks(jobs, s.txns[id]);
    EntryIs(jobs, s.txns[id].request);
    WrittenPosts(jobs, s.books, s.txns[id].request);
  }

  lemma WrittenPosts(jobs: nat -> Job, b: Books, r: Request)
    requires BooksOk(jobs, b) && Find(b.entries, KeyOf(r)).None?
    ensures Posted(jobs, b, Written(jobs, b, r, Balance(b, AccountOf(jobs, r))), r)
  {
    EntryIs(jobs, r);
  }

  predicate Committed(o: Option<Outcome>) {
    o.Some? && (o.value.Settled? || o.value.Paid?)
  }

  lemma StepPostsOrNot(jobs: nat -> Job, s: State, id: nat)
    requires Inv(jobs, s) && id in s.txns
    ensures var s' := Stepped(jobs, s, id);
      if !Committed(s.txns[id].outcome) && Committed(s'.txns[id].outcome)
      then Posted(jobs, s.books, s'.books, s.txns[id].request)
      else s'.books == s.books
  {
    var t := s.txns[id];
    if t.outcome.None? && t.held >= |Locks(jobs, t.request)| { CommitPosts(jobs, s, id); }
  }

  /** All or nothing: the request that a step or a kill belongs to has by then
      written all it writes, if that step answered it with success, or nothing. */
  lemma AllOrNothing(jobs: nat -> Job, trace: seq<State>, actions: seq<Action>, n: nat)
    requires IsRun(jobs, trace, actions) && n < |actions| && (actions[n].Step? || actions[n].Kill?)
    ensures var s, s', id := trace[n], trace[n + 1], actions[n].id;
      if !Committed(s.txns[id].outcome) && Committed(s'.txns[id].outcome)
      then Posted(jobs, s.books, s'.books, s.txns[id].request)
      else s'.books == s.books
  {
    Reached(jobs, trace, actions, n);
    if actions[n].Step? { StepPostsOrNot(jobs, trace[n], actions[n].id); }
  }

  /** ids: every transaction that committed, once, in the order they did; each left its
      own entry, and the agent has the earning of the settlement that took the
      commission. */
  ghost predicate Explains(jobs: nat -> Job, b: Books, txns: map<nat, Txn>, ids: seq<nat>) {
    && |ids| == |b.entries|
    && (forall i :: 0 <= i < |ids| ==> ids[i] in txns && Committed(txns[ids[i]].outcome))
    && (forall i, j :: 0 <= i < j < |ids| ==> ids[i] != ids[j])
    && (forall id :: id in txns && Committed(txns[id].outcome) ==> id in ids)
    && (forall i :: 0 <= i < |ids| ==> EntryFor(jobs, b.entries[i], txns[ids[i]].request))
    && (forall i :: 0 <= i < |ids| ==> EarningIs(b, txns[ids[i]].request))
  }

  predicate EarningIs(b: Books, r: Request) {
    r.Settle? ==> r.delivery in b.earnings && b.earnings[r.delivery] == r.earning
  }

  function Due(jobs: nat -> Job, entries: seq<Entry>, txns: map<nat, Txn>, ids: seq<nat>, a: Account): int
    requires |ids| == |entries| && forall i :: 0 <= i < |ids| ==> ids[i] in txns
  {
    if ids == [] then 0
    else
      var n := |ids| - 1;
      Due(jobs, entries[..n], txns, ids[..n], a)
      + if entries[n].account == a then Worth(jobs, txns[ids[n]].request, entries[n].amount) else 0
  }

  lemma {:induction false} TotalIsDue(jobs: nat -> Job, entries: seq<Entry>, txns: map<nat, Txn>, ids: seq<nat>, a: Account)
    requires |ids| == |entries|
    requires forall i :: 0 <= i < |ids| ==> ids[i] in txns && EntryFor(jobs, entries[i], txns[ids[i]].request)
    ensures Total(jobs, entries, a) == Due(jobs, entries, txns, ids, a)
  {
    if ids != [] { TotalIsDue(jobs, entries[..|ids| - 1], txns, ids[..|ids| - 1], a); }
  }

  /** Only its own commit turns a transaction into a committed one, and that for good. */
  lemma CommitsAfter(jobs: nat -> Job, s: State, a: Action, id: nat)
    requires Inv(jobs, s) && Enabled(s, a) && id in Applied(jobs, s, a).txns
    ensures var t' := Applied(jobs, s, a).txns[id];
      if Committed(t'.outcome) && a == Step(id) && !Committed(s.txns[id].outcome)
      then t'.request == s.txns[id].request && Posted(jobs, s.books, Applied(jobs, s, a).books, t'.request)
      else Committed(t'.outcome) ==> id in s.txns && s.txns[id] == t'
  {
    hide Inv, Posted;
    if a == Step(id) { StepPostsOrNot(jobs, s, id); }
  }

  lemma StaysCommitted(jobs: nat -> Job, s: State, a: Action, id: nat)
    requires Enabled(s, a) && id in s.txns && s.txns[id].outcome.Some?
    ensures id in Applied(jobs, s, a).txns && Applied(jobs, s, a).txns[id] == s.txns[id]
  {
  }

  /** The action commits transaction a.id. */
  predicate Commits(jobs: nat -> Job, s: State, a: Action)
    requires Enabled(s, a)
  {
    a.Step? && !Committed(s.txns[a.id].outcome)
    && a.id in Applied(jobs, s, a).txns && Committed(Applied(jobs, s, a).txns[a.id].outcome)
  }

  lemma OtherwiseNothing(jobs: nat -> Job, s: State, a: Action)
    requires Inv(jobs, s) && Enabled(s, a) && !Commits(jobs, s, a)
    ensures Applied(jobs, s, a).books.entries == s.books.entries && Applied(jobs, s, a).books.earnings == s.books.earnings
  {
    if a.Step? { StepPostsOrNot(jobs, s, a.id); }
  }

  /** What one more committed transaction, or none, adds to the list. */
  lemma ListGrows(jobs: nat -> Job, b: Books, txns: map<nat, Txn>, ids: seq<nat>,
                  b': Books, txns': map<nat, Txn>, more: seq<nat>)
    requires Explains(jobs, b, txns, ids) && |more| <= 1
    requires forall id :: id in txns && Committed(txns[id].outcome) ==> id in txns' && txns'[id] == txns[id]
    requires forall id :: id in txns' && Committed(txns'[id].outcome) ==>
               id in more || (id in txns && Committed(txns[id].outcome))
    requires forall id :: id in more ==> id in txns' && Committed(txns'[id].outcome) && EarningIs(b', txns'[id].request)
    requires forall id :: id in more && id in txns ==> !Committed(txns[id].outcome)
    requires |b'.entries| == |b.entries| + |more| && b.entries == b'.entries[..|b.entries|]
    requires more != [] ==> EntryFor(jobs, b'.entries[|b.entries|], txns'[more[0]].request)
    requires forall d :: d in b.earnings ==> d in b'.earnings && b'.earnings[d] == b.earnings[d]
    ensures Explains(jobs, b', txns', ids + more)
  {
    hide Committed, EntryFor;
    var all := ids + more;
    forall i | 0 <= i < |all| ensures all[i] in txns' && Committed(txns'[all[i]].outcome) {
      if i < |ids| { assert ids[i] in txns; } else { assert all[i] == more[0]; }
    }
    forall id | id in txns' && Committed(txns'[id].outcome) ensures id in all {
      if id !in more { assert id in ids; }
    }
  }

  lemma ExplainsMore(jobs: nat -> Job, s: State, a: Action, ids: seq<nat>) returns (ids': seq<nat>)
    requires Inv(jobs, s) && Enabled(s, a) && Explains(jobs, s.books, s.txns, ids)
    ensures Explains(jobs, Applied(jobs, s, a).books, Applied(jobs, s, a).txns, ids')
  {
    hide Inv, Stepped, Explains, EntryFor;
    var s' := Applied(jobs, s, a);
    var more := if Commits(jobs, s, a) then [a.id] else [];
    forall id | id in s.txns && Committed(s.txns[id].outcome) ensures id in s'.txns && s'.txns[id] == s.txns[id] {
      StaysCommitted(jobs, s, a, id);
    }
    forall id | id in s'.txns && Committed(s'.txns[id].outcome)
      ensures id in more || (id in s.txns && Committed(s.txns[id].outcome))
    {
      CommitsAfter(jobs, s, a, id);
    }
    if Commits(jobs, s, a) { CommitsAfter(jobs, s, a, a.id); } else { OtherwiseNothing(jobs, s, a); }
    ids' := ids + more;
    ListGrows(jobs, s.books, s.txns, ids, s'.books, s'.txns, more);
  }

  lemma {:induction false} EntriesExplained(jobs: nat -> Job, trace: seq<State>, actions: seq<Action>, n: nat)
    returns (ids: seq<nat>)
    requires IsRun(jobs, trace, actions) && n < |trace|
    ensures Explains(jobs, trace[n].books, trace[n].txns, ids)
  {
    hide Inv, Enabled, Applied;
    if n == 0 {
      ids := [];
    } else {
      StepOf(jobs, trace, actions, n);
      ids := EntriesExplained(jobs, trace, actions, n - 1);
      Reached(jobs, trace, actions, n - 1);
      ids := ExplainsMore(jobs, trace[n - 1], actions[n - 1], ids);
    }
  }

  /** Conservation: at every moment of every run each balance is, over just the
      transactions that committed, each taken once, the subtotals less their
      commissions less the payouts. */
  lemma LedgerConservation(jobs: nat -> Job, trace: seq<State>, actions: seq<Action>, n: nat)
    requires IsRun(jobs, trace, actions) && n < |trace|
    ensures exists ids :: Explains(jobs, trace[n].books, trace[n].txns, ids)
              && forall a :: Balance(trace[n].books, a) == Due(jobs, trace[n].books.entries, trace[n].txns, ids, a)
  {
    Reached(jobs, trace, actions, n);
    var ids := EntriesExplained(jobs, trace, actions, n);
    forall a ensures Balance(trace[n].books, a) == Due(jobs, trace[n].books.entries, trace[n].txns, ids, a) {
      TotalIsDue(jobs, trace[n].books.entries, trace[n].txns, ids, a);
    }
  }

  /** Serializability: whatever the interleaving, a step either leaves the books
      alone or does to them exactly what its request does when run alone on them;
      and a request that finishes is answered as if it had run alone at that moment,
      except a killed one and a payout that lost the race for its key, which fails
      where alone it would have been given the existing row. */
  lemma EveryStepIsSerial(jobs: nat -> Job, trace: seq<State>, actions: seq<Action>, n: nat)
    requires IsRun(jobs, trace, actions) && n < |actions| && actions[n].Step?
    ensures var s, s', id := trace[n], trace[n + 1], actions[n].id;
      var alone := Alone(jobs, s.books, s.txns[id].request);
      && (s'.books == s.books || s'.books == alone.0)
      && (s.txns[id].outcome.None? && s'.txns[id].outcome.Some? ==>
            && s'.books == alone.0
            && var o := s'.txns[id].outcome.value;
               if o.KeyTaken? then alone.1.Existing? else o == alone.1)
  {
    Reached(jobs, trace, actions, n);
    StepIsSerial(jobs, trace[n], actions[n].id);
  }

  lemma StepIsSerial(jobs: nat -> Job, s: State, id: nat)
    requires Inv(jobs, s) && id in s.txns
    ensures var s' := Stepped(jobs, s, id);
      var alone := Alone(jobs, s.books, s.txns[id].request);
      && (s'.books == s.books || s'.books == alone.0)
      && (s.txns[id].outcome.None? && s'.txns[id].outcome.Some? ==>
            && s'.books == alone.0
            && var o := s'.txns[id].outcome.value;
               if o.KeyTaken? then alone.1.Existing? else o == alone.1)
  {
    var t := s.txns[id];
    if t.outcome.None? {
      if t.held >= |Locks(jobs, t.request)| {
        HeldLocks(jobs, t);
      } else if t.request.Payout? && t.held == 1 && !t.looked {
        assert Locks(jobs, t.request)[0] == BalanceRow(AccountOf(jobs, t.request));
        assert Holds(jobs, t, BalanceRow(AccountOf(jobs, t.request)));
      } else {
        LockNames(jobs, t.request, t.held);
      }
    }
  }

  /** A payout key deducts at most once, however its retries interleave and even
      when they carry other amounts or currencies and so lock other rows. */
  lemma PayoutKeyDeductsOnce(jobs: nat -> Job, trace: seq<State>, actions: seq<Action>, n: nat, i: nat, j: nat)
    requires IsRun(jobs, trace, actions) && n < |trace|
    requires i < |trace[n].books.entries| && j < |trace[n].books.entries|
    requires trace[n].books.entries[i].key == trace[n].books.entries[j].key
    ensures i == j
  {
    Reached(jobs, trace, actions, n);
  }

  lemma {:induction false} EntriesOnlyGrow(jobs: nat -> Job, trace: seq<State>, actions: seq<Action>, m: nat, n: nat)
    requires IsRun(jobs, trace, actions) && m <= n < |trace|
    ensures trace[m].books.entries <= trace[n].books.entries
  {
    hide IsRun;
    if m < n {
      EntriesOnlyGrow(jobs, trace, actions, m, n - 1);
      StepOf(jobs, trace, actions, n);
    }
  }

  /** Still to look its key up, or answered with the row e, or killed. */
  predicate GetsRow(t: Txn, e: Entry) {
    match t.outcome
    case None => !t.looked
    case Some(Existing(row)) => row == e
    case Some(Killed) => true
    case _ => false
  }

  /** A payout of the key's restaurant with the key's client text. */
  predicate AsksFor(r: Request, key: LedgerKey) {
    r.Payout? && key == PayoutKey(r.account.restaurant, r.key)
  }

  /** If id is a payout with e's key, it gets e. */
  ghost predicate Served(s: State, id: nat, e: Entry) {
    id in s.txns && AsksFor(s.txns[id].request, e.key) ==> GetsRow(s.txns[id], e)
  }

  lemma OwnStep(jobs: nat -> Job, s: State, id: nat, e: Entry)
    requires id in s.txns && TxnOk(jobs, s.books, s.txns[id]) && GetsRow(s.txns[id], e)
    requires s.txns[id].request.Payout? && Find(s.books.entries, KeyOf(s.txns[id].request)) == Some(e)
    ensures GetsRow(Stepped(jobs, s, id).txns[id], e)
  {
  }

  lemma RetryStep(jobs: nat -> Job, s: State, a: Action, id: nat, e: Entry)
    requires Inv(jobs, s) && Enabled(s, a) && Find(s.books.entries, e.key) == Some(e) && Served(s, id, e)
    ensures Served(Applied(jobs, s, a), id, e)
  {
    hide BooksOk, LocksOk;
    var s' := Applied(jobs, s, a);
    if id in s'.txns && AsksFor(s'.txns[id].request, e.key) {
      SameRequest(jobs, s, a, id);
      if a == Step(id) { OwnStep(jobs, s, id, e); }
    }
  }

  lemma StillFound(jobs: nat -> Job, trace: seq<State>, actions: seq<Action>, m: nat, n: nat, e: Entry)
    requires IsRun(jobs, trace, actions) && m <= n < |trace| && e in trace[m].books.entries
    ensures Find(trace[n].books.entries, e.key) == Some(e)
  {
    Reached(jobs, trace, actions, n);
    EntriesOnlyGrow(jobs, trace, actions, m, n);
    FindIsUnique(trace[n].books.entries, e);
  }

  /** Once a payout has committed, every request with its key that looks it up from
      then on is answered with that same row, whatever amount or currency it carries
      and however low the balance is by then. */
  lemma {:induction false} RetryReturnsTheSameRow(jobs: nat -> Job, trace: seq<State>, actions: seq<Action>,
                                                  m: nat, n: nat, id: nat, e: Entry)
    requires IsRun(jobs, trace, actions) && m <= n < |trace|
    requires e in trace[m].books.entries
    requires id in trace[m].txns ==> trace[m].txns[id].outcome.None? && !trace[m].txns[id].looked
    ensures Served(trace[n], id, e)
  {
    hide IsRun, Inv, Enabled, Applied;
    if m < n {
      StepOf(jobs, trace, actions, n);
      RetryReturnsTheSameRow(jobs, trace, actions, m, n - 1, id, e);
      Reached(jobs, trace, actions, n - 1);
      StillFound(jobs, trace, actions, m, n - 1, e);
      RetryStep(jobs, trace[n - 1], actions[n - 1], id, e);
    }
  }

  // ---- what a payout is answered ------------------------------------------------

  /** A payout of this restaurant under this client key that went through. */
  predicate WentThrough(t: Txn, restaurant: nat, key: string) {
    t.request.Payout? && t.request.account.restaurant == restaurant && t.request.key == key && Committed(t.outcome)
  }

  ghost predicate PaidBefore(txns: map<nat, Txn>, restaurant: nat, key: string) {
    exists id :: id in txns && WentThrough(txns[id], restaurant, key)
  }

  /** The entry under a payout key is that of the one payout that went through. */
  lemma EntryOfKey(jobs: nat -> Job, b: Books, txns: map<nat, Txn>, ids: seq<nat>, restaurant: nat, key: string)
    requires Explains(jobs, b, txns, ids) && KeysDistinct(b.entries)
    ensures Find(b.entries, PayoutKey(restaurant, key)).Some? <==> PaidBefore(txns, restaurant, key)
    ensures forall id :: id in txns && WentThrough(txns[id], restaurant, key) ==>
              Find(b.entries, PayoutKey(restaurant, key))
              == Some(Entry(PayoutKey(restaurant, key), txns[id].request.account, txns[id].request.amount))
  {
    var k := PayoutKey(restaurant, key);
    FindIsComplete(b.entries, k);
    if Find(b.entries, k).Some? {
      var i :| 0 <= i < |ids| && b.entries[i] == Find(b.entries, k).value;
      assert EntryFor(jobs, b.entries[i], txns[ids[i]].request);
      assert WentThrough(txns[ids[i]], restaurant, key);
    }
    forall id | id in txns && WentThrough(txns[id], restaurant, key)
      ensures Find(b.entries, k) == Some(Entry(k, txns[id].request.account, txns[id].request.amount))
    {
      var i :| 0 <= i < |ids| && ids[i] == id;
      assert EntryFor(jobs, b.entries[i], txns[id].request);
      FindIsUnique(b.entries, b.entries[i]);
    }
  }

  /** e is the row of another payout of this restaurant under this client key. */
  ghost predicate PaidByAnother(txns: map<nat, Txn>, id: nat, restaurant: nat, key: string, e: Entry) {
    exists other :: other in txns && other != id && WentThrough(txns[other], restaurant, key)
      && e == Entry(PayoutKey(restaurant, key), txns[other].request.account, txns[other].request.amount)
  }

  /** What the answer says about the restaurant and the client key that were asked. */
  ghost predicate AnswerIs(jobs: nat -> Job, b: Books, txns: map<nat, Txn>, id: nat)
    requires id in txns && txns[id].request.Payout? && txns[id].outcome.Some?
  {
    var r := txns[id].request;
    var own := PayoutKey(r.account.restaurant, r.key);
    match txns[id].outcome.value
    case Paid(e) => e == Entry(own, r.account, r.amount) && e in b.entries
    case Existing(e) =>
      e in b.entries && PaidByAnother(txns, id, r.account.restaurant, r.key, e)
    case KeyTaken => PaidBefore(txns, r.account.restaurant, r.key)
    case InsufficientBalance => true
    case Killed => true
    case _ => false
  }

  /** In every run: a payout is answered with its own new row, or with the row of the
      payout of the same restaurant under the same client key that went through. */
  lemma PayoutAnswers(jobs: nat -> Job, trace: seq<State>, actions: seq<Action>, n: nat, id: nat)
    requires IsRun(jobs, trace, actions) && n < |trace|
    requires id in trace[n].txns && trace[n].txns[id].request.Payout? && trace[n].txns[id].outcome.Some?
    ensures AnswerIs(jobs, trace[n].books, trace[n].txns, id)
  {
    Reached(jobs, trace, actions, n);
    var ids := EntriesExplained(jobs, trace, actions, n);
    hide IsRun;
    AnswerFollows(jobs, trace[n], ids, id);
  }

  lemma AnswerFollows(jobs: nat -> Job, s: State, ids: seq<nat>, id: nat)
    requires BooksOk(jobs, s.books) && Explains(jobs, s.books, s.txns, ids)
    requires id in s.txns && s.txns[id].request.Payout? && s.txns[id].outcome.Some? && OutcomeOk(s.books, s.txns[id])
    ensures AnswerIs(jobs, s.books, s.txns, id)
  {
    var r := s.txns[id].request;
    EntryOfKey(jobs, s.books, s.txns, ids, r.account.restaurant, r.key);
    FindIsComplete(s.books.entries, PayoutKey(r.account.restaurant, r.key));
    hide Explains, EntryFor, BooksOk;
    if s.txns[id].outcome.value.Existing? {
      var other :| other in s.txns && WentThrough(s.txns[other], r.account.restaurant, r.key);
      assert other != id;
    }
  }

  /** In every run, a payout that looks its key up is given the existing row exactly
      when a payout of the same restaurant under the same client key has gone through,
      is refused exactly when none has and the balance is below the amount, and
      otherwise goes on. */
  lemma LookupAnswersIff(jobs: nat -> Job, trace: seq<State>, actions: seq<Action>, n: nat)
    requires IsRun(jobs, trace, actions) && n < |actions| && actions[n].Step?
    requires var t := trace[n].txns[actions[n].id]; t.request.Payout? && t.outcome.None? && t.held == 1 && !t.looked
    ensures var s, id := trace[n], actions[n].id;
      var t, after := s.txns[id], Stepped(jobs, s, id).txns[id].outcome;
      var before := PaidBefore(s.txns, t.request.account.restaurant, t.request.key);
      && (before <==> after.Some? && after.value.Existing?)
      && (!before && Balance(s.books, t.request.account) < t.request.amount <==> after == Some(InsufficientBalance))
      && (!before && Balance(s.books, t.request.account) >= t.request.amount <==> after.None?)
  {
    Reached(jobs, trace, actions, n);
    var ids := EntriesExplained(jobs, trace, actions, n);
    var s, t := trace[n], trace[n].txns[actions[n].id];
    hide IsRun;
    EntryOfKey(jobs, s.books, s.txns, ids, t.request.account.restaurant, t.request.key);
    assert Locks(jobs, t.request)[0] == BalanceRow(AccountOf(jobs, t.request));
    assert Holds(jobs, t, BalanceRow(AccountOf(jobs, t.request)));
  }

  // ---- what the row locks are for ---------------------------------------------------

  lemma HoldsIts(jobs: nat -> Job, s: State, id: nat, i: nat)
    requires LocksOk(jobs, s.locks, s.txns) && id in s.txns && s.txns[id].outcome.None?
    requires i < s.txns[id].held && i < |Locks(jobs, s.txns[id].request)|
    ensures var l := Locks(jobs, s.txns[id].request)[i]; l in s.locks && s.locks[l] == id
  {
    assert Holds(jobs, s.txns[id], Locks(jobs, s.txns[id].request)[i]);
  }

  /** A settlement that has begun and not finished keeps every other service from
      writing its delivery's status, and other settlements from its order. */
  lemma SettlementHoldsItsRows(jobs: nat -> Job, trace: seq<State>, actions: seq<Action>, n: nat, id: nat, other: nat)
    requires IsRun(jobs, trace, actions) && n < |trace| && id in trace[n].txns && other in trace[n].txns && id != other
    requires var t := trace[n].txns[id]; t.request.Settle? && t.outcome.None? && t.held >= 1
    ensures var s, t, u := trace[n], trace[n].txns[id], trace[n].txns[other];
      && (forall status :: !Enabled(s, WriteStatus(t.request.delivery, status)))
      && (u.request.Settle? && u.outcome.None? && u.held >= 2 && t.held >= 2 ==>
            jobs(u.request.delivery).order != jobs(t.request.delivery).order)
  {
    Reached(jobs, trace, actions, n);
    hide IsRun, BooksOk, TxnsOk;
    RowsAreHeld(jobs, trace[n], id, other);
  }

  lemma RowsAreHeld(jobs: nat -> Job, s: State, id: nat, other: nat)
    requires LocksOk(jobs, s.locks, s.txns) && id in s.txns && other in s.txns && id != other
    requires s.txns[id].request.Settle? && s.txns[id].outcome.None? && s.txns[id].held >= 1
    ensures forall status :: !Enabled(s, WriteStatus(s.txns[id].request.delivery, status))
    ensures var t, u := s.txns[id], s.txns[other];
      u.request.Settle? && u.outcome.None? && u.held >= 2 && t.held >= 2 ==>
        jobs(u.request.delivery).order != jobs(t.request.delivery).order
  {
    var t, u := s.txns[id], s.txns[other];
    HoldsIts(jobs, s, id, 0);
    if u.request.Settle? && u.outcome.None? && u.held >= 2 && t.held >= 2 {
      HoldsIts(jobs, s, id, 1);
      HoldsIts(jobs, s, other, 1);
    }
    hide LocksOk;
  }

  // ---- no deadlock ---------------------------------------------------------

  ghost predicate Waiting(s: State, id: nat) {
    id in s.txns && s.txns[id].outcome.None?
  }

  /** Locks are taken in one global order, so among unfinished transactions some one
      can always move: follow a blocked one to the holder of what it waits for. */
  lemma {:induction false} SomeoneMoves(jobs: nat -> Job, s: State, id: nat) returns (mover: nat)
    requires Inv(jobs, s) && Waiting(s, id)
    ensures Waiting(s, mover) && Stepped(jobs, s, mover) != s
    decreases 5 - NextRank(jobs, s.txns[id])
  {
    if Blocked(jobs, s, id) {
      var t := s.txns[id];
      var l := Locks(jobs, t.request)[t.held];
      var holder := s.locks[l];
      HolderWantsMore(jobs, s.txns[holder], l);
      mover := SomeoneMoves(jobs, s, holder);
    } else {
      mover := id;
      StepMoves(jobs, s, id);
    }
  }

  lemma HolderWantsMore(jobs: nat -> Job, u: Txn, l: Lock)
    requires Holds(jobs, u, l)
    ensures NextRank(jobs, u) > Rank(l)
  {
  }

  /** The lock it wants next is taken. */
  predicate Blocked(jobs: nat -> Job, s: State, id: nat)
    requires id in s.txns
  {
    var t := s.txns[id];
    && t.held < |Locks(jobs, t.request)|
    && Locks(jobs, t.request)[t.held] in s.locks
    && !(t.request.Payout? && t.held == 1 && !t.looked)
  }

  function NextRank(jobs: nat -> Job, t: Txn): (rank: nat)
    ensures rank <= 5
  {
    if t.held < |Locks(jobs, t.request)| then Rank(Locks(jobs, t.request)[t.held]) else 5
  }

  /** How much a transaction still has to do. */
  function Work(jobs: nat -> Job, t: Txn): int {
    if t.outcome.Some? then 0
    else 2 + |Locks(jobs, t.request)| - t.held + if t.looked then 0 else 1
  }

  lemma StepMoves(jobs: nat -> Job, s: State, id: nat)
    requires Inv(jobs, s) && Waiting(s, id)
    requires !Blocked(jobs, s, id)
    ensures 0 <= Work(jobs, Stepped(jobs, s, id).txns[id]) < Work(jobs, s.txns[id])
    ensures Stepped(jobs, s, id) != s
  {
    assert TxnOk(jobs, s.books, s.txns[id]);
  }

  /** In every reachable state with an unfinished transaction some transaction can
      take a step, and each step a transaction takes leaves it less to do. */
  lemma NoDeadlock(jobs: nat -> Job, trace: seq<State>, actions: seq<Action>, n: nat, id: nat)
    requires IsRun(jobs, trace, actions) && n < |trace| && Waiting(trace[n], id)
    ensures exists mover :: Waiting(trace[n], mover) && Stepped(jobs, trace[n], mover) != trace[n]
    ensures Stepped(jobs, trace[n], id) != trace[n] ==>
      0 <= Work(jobs, Stepped(jobs, trace[n], id).txns[id]) < Work(jobs, trace[n].txns[id])
  {
    Reached(jobs, trace, actions, n);
    var mover := SomeoneMoves(jobs, trace[n], id);
    if Stepped(jobs, trace[n], id) != trace[n] { StepMoves(jobs, trace[n], id); }
  }

  // ---- the service methods, statement by statement ----------------------------

  /** What a payout alone may answer, and what it then does. */
  ghost predicate PayoutOutcome(b: Books, b': Books, a: Account, amount: int, key: string, o: Outcome) {
    var own := PayoutKey(a.restaurant, key);
    match o
    case Existing(e) => e in b.entries && e.key == own && SameBooks(b', b)
    case InsufficientBalance =>
      (forall e :: e in b.entries ==> e.key != own) && Balance(b, a) < amount && SameBooks(b', b)
    case Paid(e) =>
      && (forall x :: x in b.entries ==> x.key != own) && Balance(b, a) >= amount
      && e == Entry(own, a, amount) && b'.entries == b.entries + [e] && PaidInto(b, b', a, -amount)
      && b'.earnings == b.earnings && b'.events == b.events && b'.statuses == b.statuses
    case _ => false
  }

  /** What a settlement alone may answer, and what it then does. */
  ghost predicate SettlementOutcome(jobs: nat -> Job, b: Books, b': Books, d: nat, bps: int, earning: int, o: Outcome) {
    match o
    case AlreadySettled => (exists e :: e in b.entries && e.key == CommissionKey(d)) && SameBooks(b', b)
    case Settled =>
      && (forall e :: e in b.entries ==> e.key != CommissionKey(d))
      && |b'.entries| == |b.entries| + 1 && b.entries == b'.entries[..|b.entries|]
      && var commission := b'.entries[|b.entries|].amount;
         (&& b'.entries[|b.entries|] == Entry(CommissionKey(d), jobs(d).account, commission)
          && IsShare(commission, jobs(d).subtotal, bps)
          && PaidInto(b, b', jobs(d).account, jobs(d).subtotal - commission)
          && b'.earnings == (if d in b.earnings then b.earnings else b.earnings[d := earning])
          && b'.events == b.events + [OrderDelivered(d), DeliveryCompleted(d)]
          && b'.statuses == b.statuses[d := Fulfilment.DeliveryStatus.Delivered])
    case _ => false
  }

  lemma PayoutAlone(jobs: nat -> Job, b: Books, b': Books, a: Account, amount: int, key: string)
    requires SameBooks(b', Alone(jobs, b, Payout(a, amount, key)).0)
    ensures PayoutOutcome(b, b', a, amount, key, Alone(jobs, b, Payout(a, amount, key)).1)
  {
    FindIsComplete(b.entries, PayoutKey(a.restaurant, key));
  }

  lemma SettlementAlone(jobs: nat -> Job, b: Books, b': Books, d: nat, bps: int, earning: int)
    requires SameBooks(b', Alone(jobs, b, Settle(d, bps, earning)).0)
    ensures SettlementOutcome(jobs, b, b', d, bps, earning, Alone(jobs, b, Settle(d, bps, earning)).1)
  {
    FindIsComplete(b.entries, CommissionKey(d));
    EntryIs(jobs, Settle(d, bps, earning));
  }

  lemma PayoutCovers(jobs: nat -> Job, b: Books, a: Account, amount: int, key: string)
    ensures forall b' :: SameBooks(b', Alone(jobs, b, Payout(a, amount, key)).0) ==>
              PayoutOutcome(b, b', a, amount, key, Alone(jobs, b, Payout(a, amount, key)).1)
  {
    forall b' | SameBooks(b', Alone(jobs, b, Payout(a, amount, key)).0)
      ensures PayoutOutcome(b, b', a, amount, key, Alone(jobs, b, Payout(a, amount, key)).1)
    {
      PayoutAlone(jobs, b, b', a, amount, key);
    }
  }

  lemma SettlementCovers(jobs: nat -> Job, b: Books, d: nat, bps: int, earning: int)
    ensures forall b' :: SameBooks(b', Alone(jobs, b, Settle(d, bps, earning)).0) ==>
              SettlementOutcome(jobs, b, b', d, bps, earning, Alone(jobs, b, Settle(d, bps, earning)).1)
  {
    forall b' | SameBooks(b', Alone(jobs, b, Settle(d, bps, earning)).0)
      ensures SettlementOutcome(jobs, b, b', d, bps, earning, Alone(jobs, b, Settle(d, bps, earning)).1)
    {
      SettlementAlone(jobs, b, b', d, bps, earning);
    }
  }

  /** A region's money tables as the two services write them. The methods are what
      one request does while nobody interferes: the specification Alone that every
      interleaved step above was measured by. */
  class MoneyTables {
    const jobs: nat -> Job
    var entries: seq<Entry>
    var balances: map<Account, int>
    var earnings: map<nat, int>
    var events: seq<Event>
    var statuses: map<nat, Fulfilment.DeliveryStatus>

    constructor (jobs: nat -> Job, statuses: map<nat, Fulfilment.DeliveryStatus>)
      ensures this.jobs == jobs
      ensures Contents() == Books([], map[], map[], [], statuses)
    {
      this.jobs := jobs;
      entries, balances, earnings, events, this.statuses := [], map[], map[], [], statuses;
    }

    ghost function Contents(): Books
      reads this
    {
      Books(entries, balances, earnings, events, statuses)
    }

    /** INSERT .. ON CONFLICT IGNORE, then SELECT .. FOR UPDATE: the row exists
        afterwards, and no balance has changed. */
    method LockRestaurantBalance(a: Account) returns (balance: int)
      modifies this`balances
      ensures balance == Balance(old(Contents()), a)
      ensures a in balances && balances == old(balances)[a := balance]
    {
      if a !in balances { balances := balances[a := 0]; }
      balance := balances[a];
    }

    /** The unique key rejects a second row: nothing is inserted. */
    method CreateTransaction(e: Entry) returns (ok: bool)
      modifies this`entries
      ensures ok == Find(old(entries), e.key).None?
      ensures entries == if ok then old(entries) + [e] else old(entries)
    {
      ok := Find(entries, e.key).None?;
      if ok { entries := entries + [e]; }
    }

    method RecordPayout(a: Account, amount: int, key: string) returns (outcome: Outcome)
      modifies this
      ensures outcome == Alone(jobs, old(Contents()), Payout(a, amount, key)).1
      ensures SameBooks(Contents(), Alone(jobs, old(Contents()), Payout(a, amount, key)).0)
      ensures PayoutOutcome(old(Contents()), Contents(), a, amount, key, outcome)
    {
      PayoutCovers(jobs, Contents(), a, amount, key);
      hide PayoutOutcome;
      var scopedKey := PayoutKey(a.restaurant, key);
      var balance := LockRestaurantBalance(a);
      var existing := Find(entries, scopedKey);
      if existing.Some? { return Existing(existing.value); }
      if balance < amount { return InsufficientBalance; }
      balances := balances[a := balance - amount];
      var e := Entry(scopedKey, a, amount);
      var ok := CreateTransaction(e);
      outcome := Paid(e);
    }

    method SettleDelivery(d: nat, bps: int, earning: int) returns (outcome: Outcome)
      modifies this
      ensures outcome == Alone(jobs, old(Contents()), Settle(d, bps, earning)).1
      ensures SameBooks(Contents(), Alone(jobs, old(Contents()), Settle(d, bps, earning)).0)
      ensures SettlementOutcome(jobs, old(Contents()), Contents(), d, bps, earning, outcome)
    {
      SettlementCovers(jobs, Contents(), d, bps, earning);
      hide SettlementOutcome;
      var job := jobs(d);
      var commission := Commission(job.subtotal, bps);
      var before := statuses;
      statuses := statuses[d := Fulfilment.DeliveryStatus.Delivered];
      var ok := CreateTransaction(Entry(CommissionKey(d), job.account, commission));
      if !ok {
        statuses := before;
        return AlreadySettled;
      }
      var balance := LockRestaurantBalance(job.account);
      balances := balances[job.account := balance + (job.subtotal - commission)];
      if d !in earnings { earnings := earnings[d := earning]; }
      events := events + [OrderDelivered(d), DeliveryCompleted(d)];
      outcome := Settled;
    }
  }

  /** Equal, but for balance rows that hold 0 in one and are missing in the other. */
  ghost predicate SameBooks(b: Books, c: Books) {
    && b.(balances := map[]) == c.(balances := map[])
    && forall a :: Balance(b, a) == Balance(c, a)
  }

  // ---- the keys as text ----------------------------------------------------------

  function Digit(n: nat): char
    requires n < 10
  {
    "0123456789"[n]
  }

  function Decimal(n: nat): string {
    if n < 10 then [Digit(n)] else Decimal(n / 10) + [Digit(n % 10)]
  }

  function Text(k: LedgerKey): string {
    match k
    case CommissionKey(d) => "commission:" + Decimal(d)
    case PayoutKey(r, key) => "payout:" + (Decimal(r) + (":" + key))
  }

  /** What a string of decimal digits stands for. */
  function NumberOf(s: string): int {
    if s == "" then 0 else 10 * NumberOf(s[..|s| - 1]) + (s[|s| - 1] as int - '0' as int)
  }

  lemma {:induction false} DecimalIs(n: nat)
    ensures NumberOf(Decimal(n)) == n
    ensures forall c :: c in Decimal(n) ==> '0' <= c <= '9'
  {
    if n >= 10 {
      DecimalIs(n / 10);
      assert Decimal(n)[..|Decimal(n)| - 1] == Decimal(n / 10);
    } else {
      assert Decimal(n)[..0] == "";
    }
  }

  lemma NotShorter(a: string, b: string, x: string, y: string)
    requires ':' !in b && a + (":" + x) == b + (":" + y)
    ensures |a| >= |b|
  {
    var s := b + (":" + y);
    assert s[|a|] == ':' by { assert (a + (":" + x))[|a|] == ':'; }
    assert forall i :: 0 <= i < |b| ==> s[i] == b[i];
  }

  /** The text before the first colon is the same. */
  lemma SplitAtColon(a: string, b: string, x: string, y: string)
    requires ':' !in a && ':' !in b && a + (":" + x) == b + (":" + y)
    ensures a == b && x == y
  {
    NotShorter(a, b, x, y);
    NotShorter(b, a, y, x);
    var s := a + (":" + x);
    assert a == s[..|a|] && b == s[..|a|];
    assert x == s[|a| + 1..] && y == s[|a| + 1..];
  }

  /** The unique index on the key text is a unique index on what it is built from. */
  lemma KeyTextIsInjective(k: LedgerKey, l: LedgerKey)
    ensures Text(k) == Text(l) <==> k == l
    ensures k == PayoutKey(8, "2026-05") ==> Text(k) == "payout:8:2026-05"
    ensures k == CommissionKey(17) ==> Text(k) == "commission:17"
  {
    if k == CommissionKey(17) { assert Decimal(17) == "17"; }
    if k == PayoutKey(8, "2026-05") { assert Decimal(8) == "8"; }
    if Text(k) == Text(l) { SameTextSameKey(k, l); }
  }

  lemma SameTextSameKey(k: LedgerKey, l: LedgerKey)
    requires Text(k) == Text(l)
    ensures k == l
  {
    assert Text(k)[0] == if k.CommissionKey? then 'c' else 'p';
    assert Text(l)[0] == if l.CommissionKey? then 'c' else 'p';
    if k.CommissionKey? && l.CommissionKey? {
      assert Decimal(k.delivery) == Text(k)[11..] && Decimal(l.delivery) == Text(l)[11..];
      DecimalIs(k.delivery);
      DecimalIs(l.delivery);
    } else if k.PayoutKey? && l.PayoutKey? {
      var t := Text(k)[7..];
      assert t == Decimal(k.restaurant) + (":" + k.key) && t == Decimal(l.restaurant) + (":" + l.key);
      DecimalIs(k.restaurant);
      DecimalIs(l.restaurant);
      SplitAtColon(Decimal(k.restaurant), Decimal(l.restaurant), k.key, l.key);
    }
  }
}
