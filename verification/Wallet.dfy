/**
 Wallet writes as interleaved transactions: Razorpay verify and webhook credits, refund
 redeliveries, counter credits, session debits (backend/routers/payments.py,
 backend/services/wallet.py), admin adjustments (backend/routers/admin.py) and account closure
 (backend/services/account_closure.py).

 Money is in cents; MAX_MONEY is also the widest balance the column holds, and a write past it fails.
 */
module Wallet {
  import opened Money
  import opened Tariffs

  /** A ledger row; `id` is the unique Razorpay payment or refund id, when there is one. */
  datatype Entry = Entry(user: int, amount: int, id: Option<string>, after: int)

  datatype Books = Books(balances: map<int, int>, ledger: seq<Entry>)

  datatype Op =
    | TopUp(user: int, coins: nat, id: string)
    | Refund(payment: string, coins: nat, id: string)
    | Credit(user: int, coins: nat)
    | Debit(user: int, coins: nat)
    | Adjust(user: int, amount: int)
    | Close(user: int)

  /** What a transaction holding the user's row is about to write. */
  datatype Move = Move(amount: int, after: int)

  function IdOf(op: Op): Option<string> {
    if op.TopUp? || op.Refund? then Some(op.id) else None
  }

  /** Position of the row carrying an id. */
  function FindId(ledger: seq<Entry>, id: string): Option<nat> {
    if ledger == [] then None else
    var n := |ledger| - 1;
    if ledger[n].id == Some(id) then Some(n) else FindId(ledger[..n], id)
  }

  predicate Recorded(ledger: seq<Entry>, id: Option<string>) {
    id.Some? && FindId(ledger, id.value).Some?
  }

  /** Whose wallet an operation moves; a refund goes to whoever the payment credited. */
  function Target(ledger: seq<Entry>, op: Op): Option<int> {
    if op.Refund? then
      var row := FindId(ledger, op.payment);
      if row.Some? && row.value < |ledger| then Some(ledger[row.value].user) else None
    else Some(op.user)
  }

  /** The balance as a debit reads it: a legacy negative one counts as zero. */
  function Floored(balance: int): nat {
    if balance < 0 then 0 else balance
  }

  /** The change an operation makes to a balance, or None when it is refused. */
  function MoveOf(balance: int, op: Op): Option<Move> {
    match op
    case TopUp(_, coins, _) => if balance + coins > MAX_MONEY then None else Some(Move(coins, balance + coins))
    case Credit(_, coins) => if balance + coins > MAX_MONEY then None else Some(Move(coins, balance + coins))
    case Refund(_, coins, _) => Some(Clawed(balance, coins))
    case Debit(_, coins) => Some(Clawed(balance, coins))
    case Adjust(_, coins) =>
      var prev := Floored(balance);
      var after := if prev + coins < 0 then 0 else prev + coins;
      if coins == 0 || after == prev || after > MAX_MONEY then None else Some(Move(after - prev, after))
    case Close(_) => if balance > 0 then Some(Move(-balance, 0)) else None
  }

  function Clawed(balance: int, coins: nat): Move {
    var prev := Floored(balance);
    var debit := if coins < prev then coins else prev;
    Move(-debit, prev - debit)
  }

  /** Committing a move: a repeated id rolls the whole transaction back. */
  function Post(b: Books, op: Op, user: int, move: Move): Books {
    if Recorded(b.ledger, IdOf(op)) then b
    else Books(b.balances[user := move.after], b.ledger + [Entry(user, move.amount, IdOf(op), move.after)])
  }

  /** An operation run on its own, from its first check to its commit. */
  function Alone(b: Books, op: Op): Books {
    var user := Target(b.ledger, op);
    if Recorded(b.ledger, IdOf(op)) || user.None? || user.value !in b.balances then b else
    var move := MoveOf(b.balances[user.value], op);
    if move.None? then b else Post(b, op, user.value, move.value)
  }

  // ---------------------------------------------------------------- sums and rows

  /** The signed total of a user's rows. */
  function Total(ledger: seq<Entry>, user: int): int {
    if ledger == [] then 0 else
    var n := |ledger| - 1;
    Total(ledger[..n], user) + if ledger[n].user == user then ledger[n].amount else 0
  }

  /** Every row's running balance is the opening balance and all the user's rows up to it, never negative. */
  ghost predicate RunningBalances(opening: map<int, int>, ledger: seq<Entry>) {
    forall i :: 0 <= i < |ledger| ==> RowFoots(opening, ledger, i)
  }

  predicate RowFoots(opening: map<int, int>, ledger: seq<Entry>, i: nat)
    requires i < |ledger|
  {
    && ledger[i].user in opening
    && ledger[i].after == opening[ledger[i].user] + Total(ledger[..i + 1], ledger[i].user)
    && 0 <= ledger[i].after <= MAX_MONEY
  }

  ghost predicate IdsUnique(ledger: seq<Entry>) {
    forall i, j :: 0 <= i < j < |ledger| && ledger[i].id.Some? ==> ledger[i].id != ledger[j].id
  }

  predicate BalanceFoots(opening: map<int, int>, b: Books, user: int)
    requires user in opening
  {
    && user in b.balances && b.balances[user] == opening[user] + Total(b.ledger, user)
    && 0 <= b.balances[user] <= MAX_MONEY
  }

  ghost predicate BooksFoot(opening: map<int, int>, b: Books) {
    && b.balances.Keys == opening.Keys
    && (forall u :: u in opening ==> BalanceFoots(opening, b, u))
    && RunningBalances(opening, b.ledger)
    && IdsUnique(b.ledger)
  }

  lemma {:induction false} FindIdIsExact(ledger: seq<Entry>, id: string)
    ensures FindId(ledger, id).Some? ==>
              FindId(ledger, id).value < |ledger| && ledger[FindId(ledger, id).value].id == Some(id)
    ensures FindId(ledger, id).None? ==> forall i :: 0 <= i < |ledger| ==> ledger[i].id != Some(id)
  {
    if ledger != [] {
      FindIdIsExact(ledger[..|ledger| - 1], id);
    }
  }

  // --------------------------------------------- what each operation does, in coins

  predicate NoRowHas(ledger: seq<Entry>, id: string) {
    forall i :: 0 <= i < |ledger| ==> ledger[i].id != Some(id)
  }

  /** What a wallet holds, and what can be taken of it: all that is asked, or all there is. */
  function Held(balance: int): int {
    if balance > 0 then balance else 0
  }

  function Taken(balance: int, coins: nat): int {
    if coins <= Held(balance) then coins else Held(balance)
  }

  /** The books with one wallet changed and one row written for it. */
  function Moved(b: Books, user: int, amount: int, id: Option<string>, after: int): Books {
    Books(b.balances[user := after], b.ledger + [Entry(user, amount, id, after)])
  }

  /**
   A payment is credited exactly when its user is known, no row has its id and the sum fits the
   column; then that wallet alone is larger by its coins, with one row to show for it.
   */
  lemma TopUpCredits(b: Books, user: int, coins: nat, id: string)
    ensures var fits := user in b.balances && NoRowHas(b.ledger, id) && b.balances[user] + coins <= 999_999_999_999;
            Alone(b, TopUp(user, coins, id)) ==
            if fits then Moved(b, user, coins, Some(id), b.balances[user] + coins) else b
  {
    FindIdIsExact(b.ledger, id);
  }

  /** A counter credit does the same without an id to repeat. */
  lemma CreditCredits(b: Books, user: int, coins: nat)
    ensures Alone(b, Credit(user, coins)) ==
            if user in b.balances && b.balances[user] + coins <= 999_999_999_999
            then Moved(b, user, coins, None, b.balances[user] + coins) else b
  {
  }

  /** A refund takes back from the wallet its payment was credited to, once, what that still holds. */
  lemma RefundDebits(b: Books, payment: string, coins: nat, id: string, i: nat)
    requires i < |b.ledger| && b.ledger[i].id == Some(payment) && IdsUnique(b.ledger)
    ensures var user := b.ledger[i].user;
            Alone(b, Refund(payment, coins, id)) ==
            if user in b.balances && NoRowHas(b.ledger, id)
            then Moved(b, user, -Taken(b.balances[user], coins), Some(id),
                       Held(b.balances[user]) - Taken(b.balances[user], coins))
            else b
  {
    FindIdIsExact(b.ledger, id);
    FindIdIsExact(b.ledger, payment);
    var k := FindId(b.ledger, payment).value;
    assert k == i;
  }

  /** A refund of a payment no row carries moves nothing. */
  lemma UnknownRefundIsIdle(b: Books, payment: string, coins: nat, id: string)
    requires NoRowHas(b.ledger, payment)
    ensures Alone(b, Refund(payment, coins, id)) == b
  {
    FindIdIsExact(b.ledger, payment);
  }

  /** A session's debit takes what the wallet holds, up to what is owed. */
  lemma DebitDebits(b: Books, user: int, coins: nat)
    ensures Alone(b, Debit(user, coins)) ==
            if user in b.balances
            then Moved(b, user, -Taken(b.balances[user], coins), None,
                       Held(b.balances[user]) - Taken(b.balances[user], coins))
            else b
  {
  }

  /**
   An adjustment is refused exactly when it is of nothing, of an unknown user, a debit of an empty
   wallet, or more than the column holds; else it moves the wallet by its amount, down to zero.
   */
  lemma AdjustAdjusts(b: Books, user: int, amount: int)
    ensures var made := && user in b.balances && amount != 0 && (amount < 0 ==> b.balances[user] > 0)
                        && Held(b.balances[user]) + amount <= 999_999_999_999;
            Alone(b, Adjust(user, amount)) ==
            if !made then b
            else if amount < 0 && -amount > Held(b.balances[user]) then Moved(b, user, -Held(b.balances[user]), None, 0)
            else Moved(b, user, amount, None, Held(b.balances[user]) + amount)
  {
  }

  /** Closing an account ledgers and forfeits all it holds. */
  lemma CloseForfeits(b: Books, user: int)
    ensures Alone(b, Close(user)) ==
            if user in b.balances && b.balances[user] > 0 then Moved(b, user, -b.balances[user], None, 0) else b
  {
  }

  // ------------------------------------------------------------------- the machine

  datatype Phase =
    | Idle
    | Checked(op: Op, user: int)
    | Locked(op: Op, user: int, move: Move)

  datatype State = State(books: Books, requests: seq<Phase>)

  datatype Step =
    | Begin(t: nat, op: Op)
    | Lock(t: nat)
    | Commit(t: nat)
    | Rollback(t: nat)

  predicate HoldsRow(s: State, t: nat, user: int) {
    t < |s.requests| && s.requests[t].Locked? && s.requests[t].user == user
  }

  /**
   Begin is the unlocked fast-path check, which may be stale by the time of Lock; Lock takes the
   user's row and reads the committed balance under it; nothing is visible before Commit.
   */
  function Next(s: State, step: Step): State {
    match step
    case Begin(t, op) =>
      var user := Target(s.books.ledger, op);
      if t < |s.requests| && s.requests[t].Idle? && !Recorded(s.books.ledger, IdOf(op)) && user.Some?
      then s.(requests := s.requests[t := Checked(op, user.value)]) else s
    case Lock(t) =>
      if t >= |s.requests| || !s.requests[t].Checked? then s else
      var (op, user) := (s.requests[t].op, s.requests[t].user);
      if exists u :: 0 <= u < |s.requests| && HoldsRow(s, u, user) then s else
      var move := if user in s.books.balances then MoveOf(s.books.balances[user], op) else None;
      s.(requests := s.requests[t := if move.Some? then Locked(op, user, move.value) else Idle])
    case Commit(t) =>
      if t >= |s.requests| || !s.requests[t].Locked? then s else
      State(Post(s.books, s.requests[t].op, s.requests[t].user, s.requests[t].move), s.requests[t := Idle])
    case Rollback(t) =>
      if t < |s.requests| then s.(requests := s.requests[t := Idle]) else s
  }

  function Run(s: State, steps: seq<Step>): State {
    if steps == [] then s else Next(Run(s, steps[..|steps| - 1]), steps[|steps| - 1])
  }

  function Opening(opening: map<int, int>, requests: nat): State {
    State(Books(opening, []), seq(requests, _ => Idle))
  }

  /** A request under way or an id already on the ledger begins nothing; a rollback lets go of its row. */
  lemma NothingBegins(s: State, t: nat, op: Op, id: string)
    requires t < |s.requests|
    requires !s.requests[t].Idle? || (IdOf(op) == Some(id) && !NoRowHas(s.books.ledger, id))
    ensures Next(s, Begin(t, op)) == s && Next(s, Rollback(t)) == s.(requests := s.requests[t := Idle])
  {
    FindIdIsExact(s.books.ledger, id);
  }

  predicate MoveFits(b: Books, user: int, move: Move) {
    user in b.balances && move.after == b.balances[user] + move.amount && 0 <= move.after <= MAX_MONEY
  }

  ghost predicate Sound(opening: map<int, int>, s: State) {
    && BooksFoot(opening, s.books)
    && (forall t, u, user :: HoldsRow(s, t, user) && HoldsRow(s, u, user) ==> t == u)
    && (forall t :: 0 <= t < |s.requests| && s.requests[t].Locked? ==>
         MoveFits(s.books, s.requests[t].user, s.requests[t].move))
  }

  /** A move's recorded amount is the real change of the balance exactly when that was not a legacy negative. */
  lemma RecordedAmountIsReal(balance: int, op: Op)
    requires MoveOf(balance, op).Some?
    ensures op.TopUp? || op.Credit? || op.Close? || balance >= 0
            <==> MoveOf(balance, op).value.after == balance + MoveOf(balance, op).value.amount
  {
  }

  /** A debit takes what was asked or empties the wallet, and an adjustment falls short only at zero. */
  lemma MoveTakesWhatItCan(balance: nat, op: Op)
    requires balance <= MAX_MONEY && MoveOf(balance, op).Some?
    ensures var move := MoveOf(balance, op).value;
            && 0 <= move.after <= MAX_MONEY && move.after == balance + move.amount
            && (op.Refund? || op.Debit? ==> move.amount == 0 - op.coins || (move.after == 0 && -move.amount < op.coins))
            && (op.Adjust? ==> move.amount == op.amount || (move.after == 0 && op.amount < move.amount < 0))
            && (op.Close? ==> move.after == 0)
            && (op.TopUp? || op.Credit? ==> move.amount == op.coins)
  {
  }

  lemma PostFoots(opening: map<int, int>, b: Books, op: Op, user: int, move: Move)
    requires BooksFoot(opening, b) && MoveFits(b, user, move)
    ensures BooksFoot(opening, Post(b, op, user, move))
  {
    var next := Post(b, op, user, move);
    if !Recorded(b.ledger, IdOf(op)) {
      var n := |b.ledger|;
      assert next.ledger[..n] == b.ledger;
      forall u | u in opening ensures BalanceFoots(opening, next, u) {
        assert BalanceFoots(opening, b, u);
      }
      forall i | 0 <= i < |next.ledger| ensures RowFoots(opening, next.ledger, i) {
        if i < n {
          assert next.ledger[..i + 1] == b.ledger[..i + 1];
          assert RowFoots(opening, b.ledger, i);
        } else {
          assert next.ledger[..i + 1] == next.ledger;
          assert BalanceFoots(opening, b, user);
        }
      }
      if op.TopUp? || op.Refund? {
        FindIdIsExact(b.ledger, op.id);
      }
    }
  }

  lemma CommitStaysSound(opening: map<int, int>, s: State, t: nat)
    requires Sound(opening, s) && t < |s.requests| && s.requests[t].Locked?
    ensures Sound(opening, Next(s, Commit(t)))
  {
    var next, request := Next(s, Commit(t)), s.requests[t];
    PostFoots(opening, s.books, request.op, request.user, request.move);
    OnlyReleased(s, next, t);
    OtherMovesStillFit(s, t);
  }

  lemma OtherMovesStillFit(s: State, t: nat)
    requires t < |s.requests| && s.requests[t].Locked?
    requires forall t, u, user :: HoldsRow(s, t, user) && HoldsRow(s, u, user) ==> t == u
    requires forall u :: 0 <= u < |s.requests| && s.requests[u].Locked? ==>
              MoveFits(s.books, s.requests[u].user, s.requests[u].move)
    ensures var next := Next(s, Commit(t));
            forall u :: 0 <= u < |next.requests| && next.requests[u].Locked? ==>
              MoveFits(next.books, next.requests[u].user, next.requests[u].move)
  {
    var next, mine := Next(s, Commit(t)), s.requests[t].user;
    assert HoldsRow(s, t, mine);
    forall u | 0 <= u < |next.requests| && next.requests[u].Locked?
      ensures MoveFits(next.books, next.requests[u].user, next.requests[u].move)
    {
      var user := s.requests[u].user;
      assert HoldsRow(s, u, user);
      assert user != mine;
    }
  }

  lemma OnlyReleased(s: State, next: State, t: nat)
    requires t < |s.requests| && next.requests == s.requests[t := Idle]
    ensures forall u, user :: HoldsRow(next, u, user) ==> HoldsRow(s, u, user)
  {
  }

  lemma LockStaysSound(opening: map<int, int>, s: State, t: nat)
    requires Sound(opening, s) && t < |s.requests| && s.requests[t].Checked?
    ensures Sound(opening, Next(s, Lock(t)))
  {
    var next, op, user := Next(s, Lock(t)), s.requests[t].op, s.requests[t].user;
    if !(exists u :: 0 <= u < |s.requests| && HoldsRow(s, u, user)) {
      if user in s.books.balances && MoveOf(s.books.balances[user], op).Some? {
        assert BalanceFoots(opening, s.books, user);
        MoveTakesWhatItCan(s.books.balances[user], op);
      }
      forall u: nat, w: int | HoldsRow(next, u, w)
        ensures if u == t then w == user else HoldsRow(s, u, w) && w != user
      {
        assert u != t ==> HoldsRow(s, u, w);
      }
    }
  }

  lemma StepStaysSound(opening: map<int, int>, s: State, step: Step)
    requires Sound(opening, s)
    ensures Sound(opening, Next(s, step))
  {
    match step
    case Commit(t) => if t < |s.requests| && s.requests[t].Locked? { CommitStaysSound(opening, s, t); }
    case Lock(t) => if t < |s.requests| && s.requests[t].Checked? { LockStaysSound(opening, s, t); }
    case Begin(t, op) =>
      forall u, user | HoldsRow(Next(s, step), u, user) ensures HoldsRow(s, u, user) {
      }
    case Rollback(t) => if t < |s.requests| { OnlyReleased(s, Next(s, step), t); }
  }

  /**
   Over every interleaving each Razorpay id moves a wallet at most once, every balance is its
   opening value plus its ledger, each row's running balance is right, and none is ever negative.
   */
  lemma {:induction false} BooksAlwaysFoot(opening: map<int, int>, requests: nat, steps: seq<Step>)
    requires forall u :: u in opening ==> 0 <= opening[u] <= MAX_MONEY
    ensures Sound(opening, Run(Opening(opening, requests), steps))
  {
    if steps != [] {
      BooksAlwaysFoot(opening, requests, steps[..|steps| - 1]);
      StepStaysSound(opening, Run(Opening(opening, requests), steps[..|steps| - 1]), steps[|steps| - 1]);
    }
  }

  /** A user's latest row shows the balance they have. */
  lemma {:induction false} LatestRowIsTheBalance(opening: map<int, int>, b: Books, user: int, i: nat)
    requires BooksFoot(opening, b) && i < |b.ledger| && b.ledger[i].user == user
    requires forall j :: i < j < |b.ledger| ==> b.ledger[j].user != user
    ensures user in b.balances && b.balances[user] == b.ledger[i].after
  {
    assert RowFoots(opening, b.ledger, i);
    assert BalanceFoots(opening, b, user);
    NothingSince(b.ledger, user, i + 1);
  }

  lemma {:induction false} NothingSince(ledger: seq<Entry>, user: int, k: nat)
    requires k <= |ledger| && forall j :: k <= j < |ledger| ==> ledger[j].user != user
    ensures Total(ledger[..k], user) == Total(ledger, user)
  {
    if k < |ledger| {
      var n := |ledger| - 1;
      assert ledger[..n][..k] == ledger[..k];
      NothingSince(ledger[..n], user, k);
    } else {
      assert ledger[..k] == ledger;
    }
  }

  /** Rows carrying an id. */
  function Times(ledger: seq<Entry>, id: string): nat {
    if ledger == [] then 0 else
    Times(ledger[..|ledger| - 1], id) + if ledger[|ledger| - 1].id == Some(id) then 1 else 0
  }

  lemma {:induction false} TimesIsOnceOrNever(ledger: seq<Entry>, id: string)
    requires IdsUnique(ledger)
    ensures Times(ledger, id) == if FindId(ledger, id).Some? then 1 else 0
  {
    if ledger != [] {
      var n := |ledger| - 1;
      TimesIsOnceOrNever(ledger[..n], id);
      FindIdIsExact(ledger[..n], id);
    }
  }

  /** Once any delivery of a payment or refund commits, its id is on the ledger exactly once, for good. */
  lemma {:induction false} CommittedExactlyOnce(opening: map<int, int>, s: State, t: nat, later: seq<Step>)
    requires Sound(opening, s) && t < |s.requests| && s.requests[t].Locked? && IdOf(s.requests[t].op).Some?
    ensures Times(Run(Next(s, Commit(t)), later).books.ledger, IdOf(s.requests[t].op).value) == 1
  {
    var id := IdOf(s.requests[t].op).value;
    var next := Next(s, Commit(t));
    FindIdIsExact(s.books.ledger, id);
    FindIdIsExact(next.books.ledger, id);
    CommitStaysSound(opening, s, t);
    assert Recorded(next.books.ledger, Some(id));
    StaysRecorded(opening, next, later, id);
  }

  lemma {:induction false} StaysRecorded(opening: map<int, int>, s: State, later: seq<Step>, id: string)
    requires Sound(opening, s) && Recorded(s.books.ledger, Some(id))
    ensures Sound(opening, Run(s, later)) && Times(Run(s, later).books.ledger, id) == 1
    ensures Recorded(Run(s, later).books.ledger, Some(id))
  {
    if later != [] {
      var n := |later| - 1;
      StaysRecorded(opening, s, later[..n], id);
      var mid := Run(s, later[..n]);
      StepStaysSound(opening, mid, later[n]);
      var end := Next(mid, later[n]);
      assert end.books.ledger == mid.books.ledger || end.books.ledger[..|mid.books.ledger|] == mid.books.ledger;
    }
    TimesIsOnceOrNever(Run(s, later).books.ledger, id);
  }

  /** Begin, lock and commit with nothing between them are one operation run alone. */
  lemma StepsMakeAlone(s: State, t: nat, op: Op)
    requires t < |s.requests| && forall u :: 0 <= u < |s.requests| ==> s.requests[u].Idle?
    ensures Next(Next(Next(s, Begin(t, op)), Lock(t)), Commit(t)).books == Alone(s.books, op)
  {
    var begun := Next(s, Begin(t, op));
    forall u, user ensures !HoldsRow(begun, u, user) {
    }
  }

  // -------------------------------------------------------------- the rows in place

  /** The users' balances and the ledger, updated in place by one transaction at a time. */
  class Database {
    var balances: map<int, int>
    var ledger: seq<Entry>

    function Contents(): Books
      reads this
    {
      Books(balances, ledger)
    }

    constructor (balances: map<int, int>, ledger: seq<Entry>)
      ensures Contents() == Books(balances, ledger)
    {
      this.balances, this.ledger := balances, ledger;
    }

    method CreditWallet(user: int, amount: nat) returns (after: Option<int>)
      modifies this`balances
      ensures after.Some? <==> user in old(balances) && old(balances[user]) + amount <= MAX_MONEY
      ensures after.Some? ==>
                balances == old(balances)[user := after.value] && after.value == old(balances[user]) + amount
      ensures after.None? ==> balances == old(balances)
    {
      if user !in balances || balances[user] + amount > MAX_MONEY {
        return None;
      }
      balances := balances[user := balances[user] + amount];
      after := Some(balances[user]);
    }

    method DebitWalletClamped(user: int, amount: nat) returns (debit: int, after: int)
      requires user in balances
      modifies this`balances
      ensures Move(-debit, after) == Clawed(old(balances[user]), amount)
      ensures balances == old(balances)[user := after]
    {
      var prev := balances[user];
      if prev < 0 {
        prev := 0;
      }
      debit := if amount < prev then amount else prev;
      after := prev - debit;
      balances := balances[user := after];
    }

    /** Verify and webhook end here: bump, insert, and undo both on a repeated id. */
    method CreditTopup(user: int, coins: nat, id: string) returns (after: Option<int>)
      modifies this
      ensures Contents() == Alone(old(Contents()), TopUp(user, coins, id))
      ensures after.Some? <==>
              user in old(balances) && NoRowHas(old(ledger), id) && old(balances[user]) + coins <= 999_999_999_999
      ensures after.Some? ==>
                && after.value == old(balances[user]) + coins && balances == old(balances)[user := after.value]
                && ledger == old(ledger) + [Entry(user, coins, Some(id), after.value)]
      ensures after.None? ==> balances == old(balances) && ledger == old(ledger)
    {
      FindIdIsExact(ledger, id);
      var before := balances;
      after := CreditWallet(user, coins);
      if after.None? {
        return;
      }
      if FindId(ledger, id).Some? {
        balances := before;
        return None;
      }
      ledger := ledger + [Entry(user, coins, Some(id), after.value)];
    }

    /** Debit, insert, and undo both on a repeated refund id. */
    method DebitRefund(user: int, payment: string, coins: nat, id: string) returns (after: Option<int>)
      requires user in balances
      modifies this
      ensures Contents() == Post(old(Contents()), Refund(payment, coins, id), user, Clawed(old(balances[user]), coins))
      ensures after.Some? <==> NoRowHas(old(ledger), id)
      ensures after.None? ==> balances == old(balances) && ledger == old(ledger)
      ensures after.Some? ==>
                var taken := Taken(old(balances[user]), coins);
                && after.value == Held(old(balances[user])) - taken && balances == old(balances)[user := after.value]
                && ledger == old(ledger) + [Entry(user, -taken, Some(id), after.value)]
    {
      FindIdIsExact(ledger, id);
      var before := balances;
      var debit, left := DebitWalletClamped(user, coins);
      if FindId(ledger, id).Some? {
        balances := before;
        return None;
      }
      ledger := ledger + [Entry(user, -debit, Some(id), left)];
      after := Some(left);
    }

    /** A refund event: known ids are acknowledged, unknown payments have nothing to claw back. */
    method HandleRefundWebhook(payment: string, coins: nat, id: string) returns (after: Option<int>)
      modifies this
      ensures Contents() == Alone(old(Contents()), Refund(payment, coins, id))
      ensures after.None? <==> Contents() == old(Contents())
      ensures after.Some? ==> NoRowHas(old(ledger), id) && !NoRowHas(old(ledger), payment)
    {
      var row := FindId(ledger, payment);
      FindIdIsExact(ledger, payment);
      FindIdIsExact(ledger, id);
      if FindId(ledger, id).Some? || row.None? || ledger[row.value].user !in balances {
        return None;
      }
      after := DebitRefund(ledger[row.value].user, payment, coins, id);
    }

    method AdminAdjustBalance(user: int, amount: int) returns (applied: Option<int>)
      modifies this
      ensures Contents() == Alone(old(Contents()), Adjust(user, amount))
      ensures applied.None? <==> Contents() == old(Contents())
      ensures applied.None? <==>
              || user !in old(balances) || amount == 0 || (amount < 0 && old(balances[user]) <= 0)
              || Held(old(balances[user])) + amount > 999_999_999_999
      ensures applied.Some? ==> applied.value != 0 && ledger[|ledger| - 1].amount == applied.value
    {
      if amount == 0 || user !in balances {
        return None;
      }
      var prev := balances[user];
      if prev < 0 {
        prev := 0;
      }
      var after := prev + amount;
      if after < 0 {
        after := 0;
      }
      if after == prev || after > MAX_MONEY {
        return None;
      }
      balances := balances[user := after];
      ledger := ledger + [Entry(user, after - prev, None, after)];
      applied := Some(after - prev);
    }

    /** Closing an account forfeits what is left, on the ledger. */
    method Forfeit(user: int) returns (forfeited: int)
      requires user in balances
      modifies this
      ensures Contents() == Alone(old(Contents()), Close(user))
      ensures forfeited == Floored(old(balances[user])) && balances[user] <= 0
      ensures forfeited > 0 ==> balances[user] == 0
    {
      forfeited := 0;
      if balances[user] > 0 {
        forfeited := balances[user];
        ledger := ledger + [Entry(user, -forfeited, None, 0)];
        balances := balances[user := 0];
      }
    }
  }
}
