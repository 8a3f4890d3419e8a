/** The document store the routes change: the user, group and expense
    collections as fields of one object, and one method per route that
    writes to them. Each does what its route does step by step, except
    WalletPay, which checks the payment entry before the debit, and each is
    proved to leave the store as the route's specification says. */
module Database {

  import opened Wrappers
  import opened Seqs
  import opened Text
  import opened Model
  import GroupViews
  import Expenses
  import Wallet
  import Auth

  class Store {
    var users: seq<User>
    var groups: seq<Group>
    var expenses: seq<Entry>

    /** The three collections as one value. */
    function Snapshot(): Ledger
      reads this
    {
      Ledger(users, groups, expenses)
    }

    /** Unique ids and emails, and every document valid against its
        schema. */
    predicate Valid()
      reads this
    {
      LedgerValid(Snapshot())
    }

    constructor ()
      ensures Valid() && Snapshot() == Ledger([], [], [])
    {
      users, groups, expenses := [], [], [];
    }

    /** POST /auth/signup. */
    method Signup(req: Auth.SignupRequest, newId: Id, hash: string -> string) returns (r: Result<User>)
      modifies this
      ensures old(Valid()) ==> Valid()
      ensures var s := Auth.Signup(old(Snapshot()), req, newId, hash); Snapshot() == s.after && r == s.response
    {
      ghost var l := Snapshot();
      ghost var s := Auth.Signup(l, req, newId, hash);
      if req.name == [] || req.email == [] || req.password == [] {
        assert s == Step(l, Err(MissingRequiredFields));
        return Err(MissingRequiredFields);
      }
      var email := NormaliseEmail(req.email);
      if FindUserByEmail(users, email).Some? {
        assert s == Step(l, Err(EmailInUse));
        return Err(EmailInUse);
      }
      var hashed := hash(req.password);
      var user := Auth.NewUser(req, newId, hashed);
      if !Auth.Saveable(Snapshot(), user) {
        assert s == Step(l, Err(ServerError));
        return Err(ServerError);
      }
      assert s == Step(l.(users := l.users + [user]), Ok(user));
      users := users + [user];
      r := Ok(user);
      if LedgerValid(l) { Auth.SignupValid(l, req, newId, hash); }
    }

    /** POST /groups: the members are resolved by email and the creator is
        pushed onto the member ids when missing. */
    method CreateGroup(req: GroupViews.GroupRequest, creator: Id, newId: Id, now: int) returns (r: Result<Group>)
      modifies this
      ensures old(Valid()) ==> Valid()
      ensures var s := GroupViews.CreateGroup(old(Snapshot()), req, creator, newId, now);
        Snapshot() == s.after && r == s.response
    {
      ghost var l := Snapshot();
      var cleanName := Trim(req.name);
      if cleanName == [] || req.members.None? || req.members.value == [] {
        return Err(InvalidRequest);
      }
      var emails := GroupViews.CleanEmails(req.members.value);
      var found := GroupViews.UsersWithEmails(users, emails);
      if |found| != |emails| {
        return Err(SomeMembersNotFound);
      }
      var category := GroupViews.CategoryOf(req.category);
      if category.None? {
        return Err(ServerError);
      }
      var memberIds := Keys(UserKey, found);
      if creator !in memberIds {
        memberIds := memberIds + [creator];
      }
      assert memberIds == GroupViews.WithCreator(Keys(UserKey, found), creator);
      var g := Group(newId, cleanName, category.value, memberIds, creator, now);
      if !GroupSchemaValid(g) || FindGroup(groups, newId).Some? {
        return Err(ServerError);
      }
      groups := groups + [g];
      r := Ok(g);
      if LedgerValid(l) { GroupViews.CreateGroupValid(l, req, creator, newId, now); }
    }

    /** DELETE /groups/:id: the group's expenses go first, then the group. */
    method DeleteGroup(gid: Id, requester: Id) returns (r: Result<()>)
      modifies this
      ensures old(Valid()) ==> Valid()
      ensures var s := GroupViews.DeleteGroup(old(Snapshot()), gid, requester);
        Snapshot() == s.after && r == s.response
    {
      ghost var l := Snapshot();
      var found := FindGroup(groups, gid);
      if found.None? {
        return Err(GroupNotFound);
      }
      var g := found.value;
      if requester !in g.members {
        return Err(Forbidden);
      }
      expenses := Filter((e: Entry) => e.groupId != gid, expenses);
      groups := Filter((h: Group) => h.id != gid, groups);
      r := Ok(());
      if LedgerValid(l) { GroupViews.DeleteGroupValid(l, gid, requester); }
    }

    /** POST /expenses. */
    method AddExpense(req: Expenses.ExpenseRequest, requester: Id, now: int) returns (r: Result<Entry>)
      modifies this
      ensures old(Valid()) ==> Valid()
      ensures var s := Expenses.AddExpense(old(Snapshot()), req, requester, now);
        Snapshot() == s.after && r == s.response
    {
      ghost var l := Snapshot();
      if Expenses.Malformed(req) {
        return Err(InvalidRequest);
      }
      var group := FindGroup(groups, req.groupId);
      if group.None? {
        return Err(GroupNotFound);
      }
      if requester !in group.value.members {
        return Err(Forbidden);
      }
      if req.paidBy !in group.value.members {
        return Err(PayerNotMember);
      }
      var sumSplits := Expenses.RequestedShares(req.splits.value);
      if Expenses.Abs(sumSplits - req.amount.value) > SplitTolerance {
        return Err(SplitsMismatch);
      }
      var splits := Expenses.StoredSplits(req.splits.value);
      if splits.None? {
        return Err(ServerError);
      }
      var saved := SaveEntry(Expenses.Draft(req, splits.value, now));
      if saved.None? {
        return Err(ServerError);
      }
      assert Expenses.AddExpense(l, req, requester, now) == Step(l.(expenses := l.expenses + [saved.value]), Ok(saved.value));
      assert users == l.users && groups == l.groups && expenses == l.expenses;
      expenses := expenses + [saved.value];
      r := Ok(saved.value);
      assert Snapshot() == l.(expenses := l.expenses + [saved.value]);
      if LedgerValid(l) { Expenses.AddExpenseValid(l, req, requester, now); }
    }

    /** POST /wallet/add: $inc on the requester's walletBalance. */
    method WalletAdd(uid: Id, amount: Option<int>) returns (r: Result<int>)
      modifies this
      ensures old(Valid()) ==> Valid()
      ensures var s := Wallet.AddFunds(old(Snapshot()), uid, amount); Snapshot() == s.after && r == s.response
    {
      ghost var l := Snapshot();
      if amount.None? || amount.value <= 0 {
        return Err(AmountNotPositive);
      }
      var k := FindUser(users, uid);
      if k.None? {
        return Err(ServerError);
      }
      var i := k.value;
      users := Wallet.Credit(users, i, amount.value);
      r := Ok(users[i].walletBalance);
      if LedgerValid(l) { Wallet.AddFundsValid(l, uid, amount); }
    }

    /** POST /wallet/pay, with the payment entry checked before the payer's
        wallet is debited; the payee's wallet is left alone. */
    method WalletPay(req: Wallet.PayRequest, payer: Id, now: int) returns (r: Result<Entry>)
      modifies this
      ensures old(Valid()) ==> Valid()
      ensures var s := Wallet.Pay(old(Snapshot()), req, payer, now); Snapshot() == s.after && r == s.response
    {
      ghost var l := Snapshot();
      if req.groupId == [] || req.payeeId == [] || req.amount.None? || req.amount.value <= 0 {
        return Err(InvalidRequest);
      }
      var amt := req.amount.value;
      if req.payeeId == payer {
        return Err(CannotPaySelf);
      }
      var group := FindGroup(groups, req.groupId);
      if group.None? {
        return Err(GroupNotFound);
      }
      if payer !in group.value.members || req.payeeId !in group.value.members {
        return Err(NotBothMembers);
      }
      var k := FindUser(users, payer);
      if k.None? || users[k.value].walletBalance < amt {
        return Err(InsufficientBalance);
      }
      var payment := SaveEntry(Wallet.PaymentEntry(req, payer, now));
      if payment.None? {
        return Err(ServerError);
      }
      var i := k.value;
      users := Wallet.Credit(users, i, -amt);
      expenses := expenses + [payment.value];
      r := Ok(payment.value);
      if LedgerValid(l) { Wallet.PayValid(l, req, payer, now); }
    }
  }
}
