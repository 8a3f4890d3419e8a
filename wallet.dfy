/** POST /wallet/add and POST /wallet/pay: the wallet balance kept on each
    user, and the payment entry a wallet payment records in the group. */
module Wallet {

  import opened Wrappers
  import opened Seqs
  import opened Text
  import opened Model
  import opened Balances
  import opened Expenses

  /** The wallet balance of the user with id uid, if there is one. */
  function WalletOf(users: seq<User>, uid: Id): Option<int>
  {
    match FindUser(users, uid)
    case None => None
    case Some(k) => Some(users[k].walletBalance)
  }

  /** $inc: { walletBalance: delta } on the user at position k. */
  function Credit(users: seq<User>, k: nat, delta: int): seq<User>
    requires k < |users|
  {
    users[k := users[k].(walletBalance := users[k].walletBalance + delta)]
  }

  /** Crediting the user uid moves that user's wallet by delta. */
  lemma CreditOwnWallet(users: seq<User>, uid: Id, delta: int)
    requires FindUser(users, uid).Some?
    ensures var k := FindUser(users, uid).value;
      && WalletOf(users, uid) == Some(users[k].walletBalance)
      && WalletOf(Credit(users, k, delta), uid) == Some(users[k].walletBalance + delta)
  {
    var r := Credit(users, FindUser(users, uid).value, delta);
    assert forall j :: 0 <= j < |r| ==> r[j].id == users[j].id;
    FindIndexSameKeys(users, r, uid);
  }

  /** Crediting the user uid leaves every other wallet as it was. */
  lemma CreditOtherWallet(users: seq<User>, uid: Id, delta: int, v: Id)
    requires FindUser(users, uid).Some? && v != uid
    ensures WalletOf(Credit(users, FindUser(users, uid).value, delta), v) == WalletOf(users, v)
  {
    var r := Credit(users, FindUser(users, uid).value, delta);
    assert forall j :: 0 <= j < |r| ==> r[j].id == users[j].id;
    FindIndexSameKeys(users, r, v);
  }

  /** FindUser only looks at ids. */
  lemma {:induction false} FindIndexSameKeys(a: seq<User>, b: seq<User>, v: Id)
    requires |a| == |b|
    requires forall j :: 0 <= j < |a| ==> a[j].id == b[j].id
    ensures FindUser(a, v) == FindUser(b, v)
  {
    var ra, rb := FindUser(a, v), FindUser(b, v);
    if ra.Some? && rb.Some? {
      assert !(ra.value < rb.value) && !(rb.value < ra.value);
    }
  }

  // ---------------------------------------------------------------------
  // POST /wallet/add

  /** POST /wallet/add: a missing, non-numeric or non-positive amount is 400
      "Amount must be positive"; an unknown user gets null back from the
      update and the route answers 500; otherwise the wallet grows by the
      amount and the new balance is returned. */
  function AddFunds(l: Ledger, uid: Id, amount: Option<int>): (s: Step<int>)
    ensures s.response.Err? ==> s.after == l
    ensures s.response == Err(AmountNotPositive) <==> amount.None? || amount.value <= 0
    ensures s.response == Err(ServerError) <==> amount.Some? && amount.value > 0 && WalletOf(l.users, uid).None?
    ensures s.response.Err? ==> s.response.error in {AmountNotPositive, ServerError}
    ensures s.response.Ok? ==>
      && amount.Some? && amount.value > 0 && FindUser(l.users, uid).Some?
      && s.after == l.(users := Credit(l.users, FindUser(l.users, uid).value, amount.value))
      && s.response.value == WalletOf(l.users, uid).value + amount.value
  {
    if amount.None? || amount.value <= 0 then Step(l, Err(AmountNotPositive))
    else
      match FindUser(l.users, uid)
      case None => Step(l, Err(ServerError))
      case Some(k) =>
        var users := Credit(l.users, k, amount.value);
        Step(l.(users := users), Ok(users[k].walletBalance))
  }

  /** A credit returns the requester's new wallet balance,
      which is the old one plus the amount, and no other wallet moves. */
  lemma AddFundsWallets(l: Ledger, uid: Id, amount: Option<int>, v: Id)
    requires AddFunds(l, uid, amount).response.Ok?
    ensures var s := AddFunds(l, uid, amount);
      && WalletOf(s.after.users, uid) == Some(s.response.value)
      && WalletOf(s.after.users, uid).value == WalletOf(l.users, uid).value + amount.value
      && (v != uid ==> WalletOf(s.after.users, v) == WalletOf(l.users, v))
      && s.after.groups == l.groups && s.after.expenses == l.expenses
  {
    CreditOwnWallet(l.users, uid, amount.value);
    if v != uid {
      CreditOtherWallet(l.users, uid, amount.value, v);
    }
  }

  /** A credit keeps the store valid. */
  lemma AddFundsValid(l: Ledger, uid: Id, amount: Option<int>)
    requires LedgerValid(l)
    ensures LedgerValid(AddFunds(l, uid, amount).after)
  {
    var s := AddFunds(l, uid, amount);
    if s.response.Ok? {
      var k := FindUser(l.users, uid).value;
      assert s.after == l.(users := Credit(l.users, k, amount.value)) && amount.value > 0;
      StoredWalletNonNegative(l, k);
      CreditKeepsValid(l, k, amount.value);
    }
  }

  lemma StoredWalletNonNegative(l: Ledger, k: nat)
    requires LedgerValid(l) && k < |l.users|
    ensures l.users[k].walletBalance >= 0
  {
    assert l.users[k] in l.users;
  }

  /** Moving one wallet, without taking it below 0, keeps the store valid. */
  lemma CreditKeepsValid(l: Ledger, k: nat, delta: int)
    requires LedgerValid(l)
    requires k < |l.users| && l.users[k].walletBalance + delta >= 0
    ensures LedgerValid(l.(users := Credit(l.users, k, delta)))
  {
    var r := Credit(l.users, k, delta);
    assert forall j :: 0 <= j < |r| ==> r[j].id == l.users[j].id && r[j].email == l.users[j].email;
    assert forall j :: 0 <= j < |r| ==> UserKey(r[j]) == UserKey(l.users[j]) && UserEmail(r[j]) == UserEmail(l.users[j]);
    forall u | u in r ensures UserValid(u) {
      var j :| 0 <= j < |r| && r[j] == u;
      assert l.users[j] in l.users;
    }
  }

  // ---------------------------------------------------------------------
  // POST /wallet/pay

  /** The body fields the route reads: a falsy groupId or payeeId is "",
      amount is None when it is not a finite number, a falsy note is "". */
  datatype PayRequest = PayRequest(groupId: Id, payeeId: Id, amount: Option<int>, note: string)

  /** note ? `Wallet Payment: ${note}` : 'Wallet Payment'. */
  function PaymentDescription(note: string): (d: string)
    ensures note == [] ==> d == "Wallet Payment"
    ensures note != [] ==> d == "Wallet Payment: " + note && |d| == 16 + |note|
  {
    if note == [] then "Wallet Payment" else "Wallet Payment: " + note
  }

  /** The payment-kind entry a wallet payment records: paid by the payer,
      one split naming the payee for the whole amount. */
  function PaymentEntry(req: PayRequest, payer: Id, now: int): (e: Entry)
    requires req.amount.Some?
    ensures e.kind == Payment && e.paidBy == payer && e.groupId == req.groupId
    ensures e.amount == req.amount.value && e.splits == [Split(req.payeeId, req.amount.value)]
    ensures e.createdAt == now
  {
    Entry(req.groupId, PaymentDescription(req.note), req.amount.value, payer, [Split(req.payeeId, req.amount.value)], now, Payment)
  }

  /** The guard sequence of the route, in order: a malformed body (400
      "Invalid request"), paying oneself (400), an unknown group (404), the
      payer or the payee not a member (400), an unknown payer or a wallet
      below the amount (400 "Insufficient wallet balance"). None when every
      guard passes. */
  function PayRejection(l: Ledger, req: PayRequest, payer: Id): (r: Option<Error>)
    ensures r == Some(InvalidRequest) <==> req.groupId == [] || req.payeeId == [] || req.amount.None? || req.amount.value <= 0
    ensures r == Some(CannotPaySelf) <==>
      && req.groupId != [] && req.payeeId != [] && req.amount.Some? && req.amount.value > 0
      && req.payeeId == payer
    ensures r == Some(GroupNotFound) <==>
      && req.groupId != [] && req.payeeId != [] && req.amount.Some? && req.amount.value > 0
      && req.payeeId != payer && FindGroup(l.groups, req.groupId).None?
    ensures r == Some(NotBothMembers) <==>
      && req.groupId != [] && req.payeeId != [] && req.amount.Some? && req.amount.value > 0
      && req.payeeId != payer && FindGroup(l.groups, req.groupId).Some?
      && (payer !in FindGroup(l.groups, req.groupId).value.members || req.payeeId !in FindGroup(l.groups, req.groupId).value.members)
    ensures r == Some(InsufficientBalance) <==>
      && req.groupId != [] && req.payeeId != [] && req.amount.Some? && req.amount.value > 0
      && req.payeeId != payer && FindGroup(l.groups, req.groupId).Some?
      && payer in FindGroup(l.groups, req.groupId).value.members && req.payeeId in FindGroup(l.groups, req.groupId).value.members
      && (WalletOf(l.users, payer).None? || WalletOf(l.users, payer).value < req.amount.value)
    ensures r.None? || r == Some(InvalidRequest) || r == Some(CannotPaySelf) || r == Some(GroupNotFound)
      || r == Some(NotBothMembers) || r == Some(InsufficientBalance)
  {
    if req.groupId == [] || req.payeeId == [] || req.amount.None? || req.amount.value <= 0 then Some(InvalidRequest)
    else if req.payeeId == payer then Some(CannotPaySelf)
    else
      match FindGroup(l.groups, req.groupId)
      case None => Some(GroupNotFound)
      case Some(g) =>
        if payer !in g.members || req.payeeId !in g.members then Some(NotBothMembers)
        else
          match WalletOf(l.users, payer)
          case None => Some(InsufficientBalance)
          case Some(balance) => if balance < req.amount.value then Some(InsufficientBalance) else None
  }

  /** The route as written: the wallet is debited before the payment entry
      is created, so a payment entry the schema refuses (a note that makes
      the description longer than 200 characters) answers 500 with the
      debit kept and no entry recorded. */
  function PayAsWritten(l: Ledger, req: PayRequest, payer: Id, now: int): (s: Step<Entry>)
    ensures PayRejection(l, req, payer).Some? ==> s == Step(l, Err(PayRejection(l, req, payer).value))
  {
    match PayRejection(l, req, payer)
    case Some(err) => Step(l, Err(err))
    case None =>
      var debited := l.(users := Credit(l.users, FindUser(l.users, payer).value, -req.amount.value));
      match SaveEntry(PaymentEntry(req, payer, now))
      case None => Step(debited, Err(ServerError))
      case Some(e) => Step(debited.(expenses := l.expenses + [e]), Ok(e))
  }

  /** In the route as written, a payment whose description is too long for
      the schema still takes the money from the payer's wallet: the answer
      is 500, no entry is recorded and the payer's wallet is credited with
      minus the amount. */
  lemma PayAsWrittenKeepsDebit(l: Ledger, req: PayRequest, payer: Id, now: int)
    requires PayRejection(l, req, payer).None?
    requires Utf16Length(Trim(PaymentDescription(req.note))) > MaxDescription
    ensures FindUser(l.users, payer).Some?
    ensures PayAsWritten(l, req, payer, now)
      == Step(l.(users := Credit(l.users, FindUser(l.users, payer).value, -req.amount.value)), Err(ServerError))
  {
    LongNoteRefused(req, payer, now);
    PayAsWrittenRefused(l, req, payer, now);
  }

  /** A payment entry whose trimmed description is over 200 UTF-16 code
      units is refused by the schema. */
  lemma LongNoteRefused(req: PayRequest, payer: Id, now: int)
    requires req.amount.Some?
    requires Utf16Length(Trim(PaymentDescription(req.note))) > MaxDescription
    ensures SaveEntry(PaymentEntry(req, payer, now)).None?
  {
    var e := PaymentEntry(req, payer, now);
    assert e.(description := Trim(e.description)).description == Trim(PaymentDescription(req.note));
  }

  /** Once every guard passes and the entry is refused, the route as
      written answers 500 with the payer already debited. */
  lemma PayAsWrittenRefused(l: Ledger, req: PayRequest, payer: Id, now: int)
    requires PayRejection(l, req, payer).None?
    requires SaveEntry(PaymentEntry(req, payer, now)).None?
    ensures FindUser(l.users, payer).Some?
    ensures PayAsWritten(l, req, payer, now)
      == Step(l.(users := Credit(l.users, FindUser(l.users, payer).value, -req.amount.value)), Err(ServerError))
  {
  }

  /** A note of 185 characters makes a 201-character description. */
  lemma LongNoteExample()
    ensures var note := seq(185, _ => 'x');
      var l := Ledger([User("A", "Ann", "a@b.co", "hashed", 100, true)], [Group("g", "Trip", Trip, ["A", "B"], "A", 0)], []);
      var req := PayRequest("g", "B", Some(10), note);
      && PayRejection(l, req, "A").None?
      && PayAsWritten(l, req, "A", 0).response == Err(ServerError)
      && WalletOf(PayAsWritten(l, req, "A", 0).after.users, "A") == Some(90)
  {
    var note := seq(185, _ => 'x');
    var l := Ledger([User("A", "Ann", "a@b.co", "hashed", 100, true)], [Group("g", "Trip", Trip, ["A", "B"], "A", 0)], []);
    var req := PayRequest("g", "B", Some(10), note);
    assert PayRejection(l, req, "A").None?;
    LongNoteTooLong(note);
    PayAsWrittenKeepsDebit(l, req, "A", 0);
    CreditOwnWallet(l.users, "A", -10);
  }

  /** A 185-character note that does not end in whitespace makes a trimmed
      description of 201 characters, over the limit. */
  lemma LongNoteTooLong(note: string)
    requires |note| == 185 && !IsSpace(note[184])
    ensures Utf16Length(Trim(PaymentDescription(note))) > MaxDescription
  {
    var d := PaymentDescription(note);
    assert d == "Wallet Payment: " + note;
    assert d[0] == 'W' && d[|d| - 1] == note[184];
    NoEdgeSpace(d);
    Utf16LengthBounds(Trim(d));
  }

  /** A string that neither starts nor ends with a space trims to itself. */
  lemma NoEdgeSpace(s: string)
    requires s != [] && !IsSpace(s[0]) && !IsSpace(s[|s| - 1])
    ensures Trim(s) == s
  {
  }

  /** POST /wallet/pay with the payment entry checked before the debit: a
      payment the schema refuses leaves the store as it was, like every
      other rejection. On success the payer's wallet goes down by the
      amount, the payee's wallet is not credited, and one payment entry is
      appended. */
  function Pay(l: Ledger, req: PayRequest, payer: Id, now: int): (s: Step<Entry>)
    ensures s.response.Err? ==> s.after == l
    ensures PayRejection(l, req, payer).Some? ==> s.response == Err(PayRejection(l, req, payer).value)
    ensures s.response == Err(ServerError) <==>
      PayRejection(l, req, payer).None? && SaveEntry(PaymentEntry(req, payer, now)).None?
    ensures s.response.Ok? <==>
      PayRejection(l, req, payer).None? && SaveEntry(PaymentEntry(req, payer, now)).Some?
    ensures s.response.Ok? ==>
      && PayRejection(l, req, payer).None?
      && s.after == l.(users := Credit(l.users, FindUser(l.users, payer).value, -req.amount.value),
                       expenses := l.expenses + [s.response.value])
      && s.response.value == PaymentEntry(req, payer, now).(description := Trim(PaymentDescription(req.note)))
      && EntryValid(s.response.value)
  {
    match PayRejection(l, req, payer)
    case Some(err) => Step(l, Err(err))
    case None =>
      match SaveEntry(PaymentEntry(req, payer, now))
      case None => Step(l, Err(ServerError))
      case Some(e) =>
        var debited := l.(users := Credit(l.users, FindUser(l.users, payer).value, -req.amount.value));
        Step(debited.(expenses := l.expenses + [e]), Ok(e))
  }

  /** Where the route as written succeeds, the corrected payment does the
      same thing. */
  lemma PayAgreesOnSuccess(l: Ledger, req: PayRequest, payer: Id, now: int)
    requires PayAsWritten(l, req, payer, now).response.Ok?
    ensures Pay(l, req, payer, now) == PayAsWritten(l, req, payer, now)
  {
  }

  /** A successful payment found the payer with at least the amount in the
      wallet, and records the debited users and the appended entry. */
  lemma PayFunded(l: Ledger, req: PayRequest, payer: Id, now: int)
    requires Pay(l, req, payer, now).response.Ok?
    ensures FindUser(l.users, payer).Some? && req.amount.Some?
    ensures l.users[FindUser(l.users, payer).value].walletBalance >= req.amount.value
    ensures var s := Pay(l, req, payer, now);
      && s.after == l.(users := Credit(l.users, FindUser(l.users, payer).value, -req.amount.value),
                       expenses := l.expenses + [s.response.value])
      && EntryValid(s.response.value)
  {
    assert PayRejection(l, req, payer).None?;
  }

  /** A payment takes exactly the amount from the payer's wallet, leaving it
      at 0 or more, and moves no other wallet, the payee's included. */
  lemma PayWallets(l: Ledger, req: PayRequest, payer: Id, now: int, v: Id)
    requires Pay(l, req, payer, now).response.Ok?
    ensures var s := Pay(l, req, payer, now);
      && WalletOf(s.after.users, payer) == Some(WalletOf(l.users, payer).value - req.amount.value)
      && WalletOf(s.after.users, payer).value >= 0
      && (v != payer ==> WalletOf(s.after.users, v) == WalletOf(l.users, v))
      && s.after.groups == l.groups
  {
    assert PayRejection(l, req, payer).None?;
    var k := FindUser(l.users, payer).value;
    assert Pay(l, req, payer, now).after.users == Credit(l.users, k, -req.amount.value);
    Debit(l.users, payer, req.amount.value, v);
  }

  /** Debiting amt from a wallet holding at least amt leaves it at 0 or
      more and moves no other wallet. */
  lemma Debit(users: seq<User>, uid: Id, amt: int, v: Id)
    requires FindUser(users, uid).Some? && users[FindUser(users, uid).value].walletBalance >= amt
    ensures var k := FindUser(users, uid).value;
      && WalletOf(users, uid) == Some(users[k].walletBalance)
      && WalletOf(Credit(users, k, -amt), uid) == Some(users[k].walletBalance - amt)
      && (v != uid ==> WalletOf(Credit(users, k, -amt), v) == WalletOf(users, v))
  {
    CreditOwnWallet(users, uid, -amt);
    if v != uid {
      CreditOtherWallet(users, uid, -amt, v);
    }
  }

  /** A payment keeps the store valid: the debit cannot take the wallet
      below 0 and the recorded entry meets the schema. */
  lemma PayValid(l: Ledger, req: PayRequest, payer: Id, now: int)
    requires LedgerValid(l)
    ensures LedgerValid(Pay(l, req, payer, now).after)
  {
    var s := Pay(l, req, payer, now);
    if s.response.Ok? {
      PayFunded(l, req, payer, now);
      var k := FindUser(l.users, payer).value;
      var e := s.response.value;
      var m := l.(users := Credit(l.users, k, -req.amount.value));
      CreditKeepsValid(l, k, -req.amount.value);
      AppendEntryValid(m, e);
    }
  }

  /** The payment entry's one share is its whole amount, so under the
      balance engine it raises the payer by the amount, lowers the payee by
      it, and moves nobody else; it also stays within the split tolerance. */
  lemma PaymentSettles(l: Ledger, req: PayRequest, payer: Id, now: int, b: map<Id, int>, u: Id)
    requires Pay(l, req, payer, now).response.Ok?
    ensures var e := Pay(l, req, payer, now).response.value;
      && SumShares(e.splits) == e.amount
      && Get(ApplyEntry(b, e), payer) == Get(b, payer) + e.amount
      && Get(ApplyEntry(b, e), req.payeeId) == Get(b, req.payeeId) - e.amount
      && (u != payer && u != req.payeeId ==> Get(ApplyEntry(b, e), u) == Get(b, u))
  {
    var e := Pay(l, req, payer, now).response.value;
    SumSingle((s: Split) => s.share, Split(req.payeeId, req.amount.value));
    PaymentMovesBalance(b, e, req.payeeId, u);
  }

  /** Payments keep every entry within the split tolerance. */
  lemma PayTolerated(l: Ledger, req: PayRequest, payer: Id, now: int)
    requires Tolerated(l.expenses)
    ensures Tolerated(Pay(l, req, payer, now).after.expenses)
  {
    var s := Pay(l, req, payer, now);
    if s.response.Ok? {
      PayFunded(l, req, payer, now);
      PaymentSettles(l, req, payer, now, map[], payer);
      ToleratedAppend(l.expenses, s.response.value);
    }
  }
}
