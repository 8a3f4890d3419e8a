/** POST /expenses and GET /expenses/:groupId: the check cascade that admits
    one new expense into a group, the split-sum tolerance rule, and the
    newest-first listing. */
module Expenses {

  import opened Wrappers
  import opened Seqs
  import opened Text
  import opened Model
  import opened Balances

  /** One element of the request's splits array; share is None when the
      element has no share. A null, "" or false share is Some(0), as
      Number() reads it. */
  datatype SplitInput = SplitInput(userId: Id, share: Option<int>)

  /** The body fields the route reads. A missing or falsy string is "";
      amount is None when missing; splits is None when it is not an array. */
  datatype ExpenseRequest = ExpenseRequest(
    groupId: Id,
    description: string,
    amount: Option<int>,
    paidBy: Id,
    splits: Option<seq<SplitInput>>)

  /** Number(s.share || 0). */
  function ShareOrZero(s: SplitInput): int
  {
    match s.share
    case Some(v) => v
    case None => 0
  }

  /** The sum the route compares with the amount. */
  function RequestedShares(splits: seq<SplitInput>): int
  {
    Sum(ShareOrZero, splits)
  }

  /** A falsy groupId, description, amount or paidBy, or splits that is not
      an array. */
  predicate Malformed(req: ExpenseRequest)
  {
    || req.groupId == [] || req.description == []
    || req.amount.None? || req.amount == Some(0)
    || req.paidBy == [] || req.splits.None?
  }

  function Abs(x: int): (r: int)
    ensures r >= 0 && (r == x || r == -x)
  {
    if x < 0 then -x else x
  }

  /** splits.map(s => ({ userId: s.userId, share: Number(s.share) })): None
      when some share is missing, which the schema refuses. */
  function StoredSplits(splits: seq<SplitInput>): (r: Option<seq<Split>>)
    ensures r.Some? <==> forall s :: s in splits ==> s.share.Some?
    ensures r.Some? ==> |r.value| == |splits|
    ensures r.Some? ==> forall k :: 0 <= k < |splits| ==>
      r.value[k].userId == splits[k].userId && Some(r.value[k].share) == splits[k].share
  {
    if forall s :: s in splits ==> s.share.Some? then
      Some(seq(|splits|, k requires 0 <= k < |splits| => Split(splits[k].userId, splits[k].share.value)))
    else None
  }

  /** When every share is present, the stored shares add up to the sum the
      route checked. */
  lemma {:induction false} StoredSharesSum(splits: seq<SplitInput>)
    requires StoredSplits(splits).Some?
    ensures SumShares(StoredSplits(splits).value) == RequestedShares(splits)
    decreases |splits|
  {
    if splits != [] {
      var init := splits[..|splits| - 1];
      assert forall s :: s in init ==> s in splits;
      StoredSharesSum(init);
      var r := StoredSplits(splits).value;
      assert r[..|r| - 1] == StoredSplits(init).value;
    }
  }

  /** The group the request names, when it exists. */
  function TargetGroup(l: Ledger, req: ExpenseRequest): Option<Group>
  {
    FindGroup(l.groups, req.groupId)
  }

  /** The request passes every check of the route. */
  predicate Admissible(l: Ledger, req: ExpenseRequest, requester: Id)
  {
    && !Malformed(req)
    && TargetGroup(l, req).Some?
    && requester in TargetGroup(l, req).value.members
    && req.paidBy in TargetGroup(l, req).value.members
    && Abs(RequestedShares(req.splits.value) - req.amount.value) <= SplitTolerance
  }

  /** The entry the route asks the store to create. */
  function Draft(req: ExpenseRequest, splits: seq<Split>, now: int): Entry
    requires !Malformed(req)
  {
    Entry(req.groupId, req.description, req.amount.value, req.paidBy, splits, now, Expense)
  }

  /** POST /expenses. The checks run in the order: malformed body (400),
      unknown group (404), requester not a member (403), payer not a member
      (400), shares off the amount by more than one cent (400). A missing
      share or a document the schema refuses (a negative amount, a blank
      description, a description over 200 characters, an empty split user)
      is a 500. Rejections leave the store as it was; success appends one
      entry. */
  function AddExpense(l: Ledger, req: ExpenseRequest, requester: Id, now: int): (s: Step<Entry>)
    ensures s.response.Err? ==> s.after == l
    ensures s.response.Ok? ==> s.after == l.(expenses := l.expenses + [s.response.value])
    ensures s.response == Err(InvalidRequest) <==> Malformed(req)
    ensures s.response == Err(GroupNotFound) <==> !Malformed(req) && TargetGroup(l, req).None?
    ensures s.response == Err(Forbidden) <==>
      && !Malformed(req) && TargetGroup(l, req).Some?
      && requester !in TargetGroup(l, req).value.members
    ensures s.response == Err(PayerNotMember) <==>
      && !Malformed(req) && TargetGroup(l, req).Some?
      && requester in TargetGroup(l, req).value.members
      && req.paidBy !in TargetGroup(l, req).value.members
    ensures s.response == Err(SplitsMismatch) <==>
      && !Malformed(req) && TargetGroup(l, req).Some?
      && requester in TargetGroup(l, req).value.members
      && req.paidBy in TargetGroup(l, req).value.members
      && Abs(RequestedShares(req.splits.value) - req.amount.value) > SplitTolerance
    ensures s.response == Err(ServerError) <==>
      Admissible(l, req, requester) &&
      (StoredSplits(req.splits.value).None? || !EntryValid(Draft(req, StoredSplits(req.splits.value).value, now).(description := Trim(req.description))))
    ensures s.response.Err? ==>
      s.response.error in {InvalidRequest, GroupNotFound, Forbidden, PayerNotMember, SplitsMismatch, ServerError}
    ensures s.response.Ok? ==>
      var e := s.response.value;
      && Admissible(l, req, requester)
      && e.groupId == req.groupId && e.description == Trim(req.description)
      && e.amount == req.amount.value && e.paidBy == req.paidBy
      && Some(e.splits) == StoredSplits(req.splits.value)
      && e.createdAt == now && e.kind == Expense
      && EntryValid(e)
  {
    if Malformed(req) then Step(l, Err(InvalidRequest))
    else
      match TargetGroup(l, req)
      case None => Step(l, Err(GroupNotFound))
      case Some(g) =>
        if requester !in g.members then Step(l, Err(Forbidden))
        else if req.paidBy !in g.members then Step(l, Err(PayerNotMember))
        else if Abs(RequestedShares(req.splits.value) - req.amount.value) > SplitTolerance then Step(l, Err(SplitsMismatch))
        else
          match StoredSplits(req.splits.value)
          case None => Step(l, Err(ServerError))
          case Some(splits) =>
            match SaveEntry(Draft(req, splits, now))
            case None => Step(l, Err(ServerError))
            case Some(e) => Step(l.(expenses := l.expenses + [e]), Ok(e))
  }

  /** An added expense's shares are within one cent of its amount, and its
      payer and the requester are members of its group. */
  lemma AddedEntryBalanced(l: Ledger, req: ExpenseRequest, requester: Id, now: int)
    requires AddExpense(l, req, requester, now).response.Ok?
    ensures var e := AddExpense(l, req, requester, now).response.value;
      && Abs(e.amount - SumShares(e.splits)) <= SplitTolerance
      && exists g :: g in l.groups && g.id == e.groupId && requester in g.members && e.paidBy in g.members
  {
    StoredSharesSum(req.splits.value);
  }

  /** Every entry's shares are within one cent of its amount. */
  predicate Tolerated(es: seq<Entry>)
  {
    forall e :: e in es ==> Abs(e.amount - SumShares(e.splits)) <= SplitTolerance
  }

  /** Adding an expense keeps every entry within the tolerance, so the
      balances of any group drift from 0 by at most one cent per entry. */
  lemma AddExpenseTolerated(l: Ledger, req: ExpenseRequest, requester: Id, now: int)
    requires Tolerated(l.expenses)
    ensures Tolerated(AddExpense(l, req, requester, now).after.expenses)
  {
    var s := AddExpense(l, req, requester, now);
    if s.response.Ok? {
      AddedEntryBalanced(l, req, requester, now);
      ToleratedAppend(l.expenses, s.response.value);
    }
  }

  lemma ToleratedAppend(es: seq<Entry>, e: Entry)
    requires Tolerated(es) && Abs(e.amount - SumShares(e.splits)) <= SplitTolerance
    ensures Tolerated(es + [e])
  {
    assert forall x :: x in es + [e] ==> x in es || x == e;
  }

  /** Entries within the tolerance leave the balances of their group
      summing to at most one cent per entry away from 0. */
  lemma TolerantDrift(members: seq<Id>, es: seq<Entry>, ks: seq<Id>)
    requires Tolerated(es)
    requires NoDuplicates(ks)
    requires forall u :: u in BalancesOf(members, es) <==> u in ks
    ensures -SplitTolerance * |es| <= SumOver(BalancesOf(members, es), ks) <= SplitTolerance * |es|
  {
    Conservation(members, es, ks);
    ImbalanceWithinTolerance(es);
  }

  /** Adding an expense keeps the store valid. */
  lemma AddExpenseValid(l: Ledger, req: ExpenseRequest, requester: Id, now: int)
    requires LedgerValid(l)
    ensures LedgerValid(AddExpense(l, req, requester, now).after)
  {
    var s := AddExpense(l, req, requester, now);
    if s.response.Ok? {
      AppendEntryValid(l, s.response.value);
    }
  }

  /** An added expense lands in its own group only, at the end, and moves the
      group balance of each id by what it paid minus its shares. */
  lemma AddExpenseInGroup(l: Ledger, req: ExpenseRequest, requester: Id, now: int, members: seq<Id>, u: Id)
    requires AddExpense(l, req, requester, now).response.Ok?
    ensures var s := AddExpense(l, req, requester, now);
      var e := s.response.value;
      && (forall gid :: gid != e.groupId ==> GroupEntries(s.after.expenses, gid) == GroupEntries(l.expenses, gid))
      && GroupEntries(s.after.expenses, e.groupId) == GroupEntries(l.expenses, e.groupId) + [e]
      && Get(BalancesOf(members, GroupEntries(s.after.expenses, e.groupId)), u)
         == Get(BalancesOf(members, GroupEntries(l.expenses, e.groupId)), u) + PaidAmount(u, e) - ShareOf(u, e.splits)
  {
    var s := AddExpense(l, req, requester, now);
    var e := s.response.value;
    forall gid ensures GroupEntries(s.after.expenses, gid) == GroupEntries(l.expenses, gid) + (if e.groupId == gid then [e] else []) {
      GroupEntriesAppend(l.expenses, [e], gid);
      assert [e][..0] == [];
    }
    var before := GroupEntries(l.expenses, e.groupId);
    BalanceIsNet(members, before + [e], u);
    BalanceIsNet(members, before, u);
    PaidAppend(u, before, [e]);
    OwedAppend(u, before, [e]);
    SumSingle((x: Entry) => ShareOf(u, x.splits), e);
    SumSingle((x: Entry) => PaidAmount(u, x), e);
  }

  /** With a clock that never runs backwards the store stays in creation
      order, which the newest-first listing relies on. */
  lemma AddExpenseChronological(l: Ledger, req: ExpenseRequest, requester: Id, now: int)
    requires Ascending(EntryTime, l.expenses)
    requires forall e :: e in l.expenses ==> e.createdAt <= now
    ensures Ascending(EntryTime, AddExpense(l, req, requester, now).after.expenses)
  {
    var s := AddExpense(l, req, requester, now);
    if s.response.Ok? {
      AscendingAppend(l.expenses, s.response.value);
    }
  }

  lemma AscendingAppend(es: seq<Entry>, e: Entry)
    requires Ascending(EntryTime, es)
    requires forall x :: x in es ==> x.createdAt <= e.createdAt
    ensures Ascending(EntryTime, es + [e])
  {
    var r := es + [e];
    forall i, j | 0 <= i < j < |r| ensures EntryTime(r[i]) <= EntryTime(r[j]) {
      assert r[i] == es[i] && es[i] in es;
    }
  }

  /** GET /expenses/:groupId: the group's entries, newest first. Neither the
      group's existence nor the requester's membership is checked, so the
      listing takes no requester. */
  function ListExpenses(l: Ledger, gid: Id): (r: seq<Entry>)
    ensures forall e :: e in r <==> e in l.expenses && e.groupId == gid
    ensures multiset(r) == multiset(GroupEntries(l.expenses, gid))
    ensures Ascending(EntryTime, l.expenses) ==> Descending(EntryTime, r)
  {
    assert Ascending(EntryTime, l.expenses) ==> Descending(EntryTime, NewestFirst(l.expenses, gid)) by {
      if Ascending(EntryTime, l.expenses) {
        NewestFirstSorted(l.expenses, gid);
      }
    }
    NewestFirst(l.expenses, gid)
  }
}
