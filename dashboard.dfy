/** The dashboard totals (GET /summary): one running net over every entry of
    every group the requester belongs to, split into what the requester is
    owed and what the requester owes. */
module Dashboard {

  import opened Wrappers
  import opened Seqs
  import opened Model
  import opened Balances
  import opened GroupViews

  datatype Totals = Totals(youAreOwed: int, youOwe: int, totalGroups: nat)

  /** Group.find({ members: uid }), in store order. */
  function MemberGroups(groups: seq<Group>, u: Id): (r: seq<Group>)
    ensures forall g :: g in r <==> g in groups && u in g.members
  {
    Filter((g: Group) => u in g.members, groups)
  }

  /** Expense.find({ groupId: { $in: ids } }), in store order. */
  function EntriesIn(es: seq<Entry>, ids: seq<Id>): (r: seq<Entry>)
    ensures forall e :: e in r <==> e in es && e.groupId in ids
  {
    Filter((e: Entry) => e.groupId in ids, es)
  }

  /** The entries of the requester's groups. */
  function MemberEntries(l: Ledger, u: Id): seq<Entry>
  {
    EntriesIn(l.expenses, Keys(GroupKey, MemberGroups(l.groups, u)))
  }

  /** What u paid minus every share u owes. */
  function Net(u: Id, es: seq<Entry>): int
  {
    Paid(u, es) - Owed(u, es)
  }

  /** GET /summary: zeros when the requester is in no group; otherwise the
      net over the entries of the requester's groups, counting every split
      naming the requester, split into youAreOwed and youOwe, and the
      number of those groups. */
  method DashboardTotals(l: Ledger, u: Id) returns (t: Totals)
    ensures MemberGroups(l.groups, u) == [] ==> t == Totals(0, 0, 0)
    ensures t.totalGroups == |MemberGroups(l.groups, u)|
    ensures Position(t.youAreOwed, t.youOwe) == PositionOf(Net(u, MemberEntries(l, u)))
  {
    var groups := MemberGroups(l.groups, u);
    if |groups| == 0 {
      return Totals(0, 0, 0);
    }
    var es := EntriesIn(l.expenses, Keys(GroupKey, groups));
    var net := 0;
    for i := 0 to |es|
      invariant net == Net(u, es[..i])
    {
      var e := es[i];
      assert es[..i + 1][..i] == es[..i];
      if e.paidBy == u {
        net := net + e.amount;
      }
      ghost var credited := net;
      for j := 0 to |e.splits|
        invariant net == credited - ShareOf(u, e.splits[..j])
      {
        var s := e.splits[j];
        assert e.splits[..j + 1][..j] == e.splits[..j];
        if s.userId == u {
          net := net - s.share;
        }
      }
      assert e.splits[..|e.splits|] == e.splits;
    }
    assert es[..|es|] == es;
    t := Totals(if net > 0 then net else 0, if net < 0 then -net else 0, |groups|);
  }

  /** Entries of groups the requester is not in do not change the totals. */
  lemma OtherGroupsIgnored(l: Ledger, u: Id, extra: seq<Entry>)
    requires forall e :: e in extra ==> forall g :: g in l.groups && g.id == e.groupId ==> u !in g.members
    ensures MemberEntries(l.(expenses := l.expenses + extra), u) == MemberEntries(l, u)
  {
    var ids := Keys(GroupKey, MemberGroups(l.groups, u));
    FilterAppend((e: Entry) => e.groupId in ids, l.expenses, extra);
    assert forall e :: e in extra ==> e.groupId !in ids;
    EntriesInNone(extra, ids);
  }

  /** The sum of the per-group nets of u over the groups gs. */
  function GroupNets(gs: seq<Group>, es: seq<Entry>, u: Id): int
  {
    if gs == [] then 0
    else GroupNets(gs[..|gs| - 1], es, u) + Net(u, GroupEntries(es, gs[|gs| - 1].id))
  }

  lemma NetAppend(u: Id, a: seq<Entry>, b: seq<Entry>)
    ensures Net(u, a + b) == Net(u, a) + Net(u, b)
  {
    PaidAppend(u, a, b);
    OwedAppend(u, a, b);
  }

  lemma EntriesInAppend(a: seq<Entry>, b: seq<Entry>, ids: seq<Id>)
    ensures EntriesIn(a + b, ids) == EntriesIn(a, ids) + EntriesIn(b, ids)
  {
    FilterAppend((e: Entry) => e.groupId in ids, a, b);
  }

  lemma EntriesInOne(e: Entry, ids: seq<Id>)
    ensures EntriesIn([e], ids) == if e.groupId in ids then [e] else []
  {
    assert [e][..0] == [];
  }

  lemma GroupEntriesOne(e: Entry, gid: Id)
    ensures GroupEntries([e], gid) == if e.groupId == gid then [e] else []
  {
    assert [e][..0] == [];
  }

  /** The net over one more entry, split into what the entry adds. */
  lemma {:induction false} EntriesInStep(u: Id, rest: seq<Entry>, e: Entry, ids: seq<Id>)
    ensures Net(u, EntriesIn(rest + [e], ids)) == Net(u, EntriesIn(rest, ids)) + (if e.groupId in ids then Net(u, [e]) else 0)
  {
    EntriesInAppend(rest, [e], ids);
    EntriesInOne(e, ids);
    NetAppend(u, EntriesIn(rest, ids), EntriesIn([e], ids));
    assert Net(u, []) == 0;
  }

  lemma {:induction false} GroupEntriesStep(u: Id, rest: seq<Entry>, e: Entry, gid: Id)
    ensures Net(u, GroupEntries(rest + [e], gid)) == Net(u, GroupEntries(rest, gid)) + (if e.groupId == gid then Net(u, [e]) else 0)
  {
    GroupEntriesAppend(rest, [e], gid);
    GroupEntriesOne(e, gid);
    NetAppend(u, GroupEntries(rest, gid), GroupEntries([e], gid));
    assert Net(u, []) == 0;
  }

  /** Taking one more group id adds that group's net. */
  lemma {:induction false} EntriesInSplit(u: Id, es: seq<Entry>, ids: seq<Id>, gid: Id)
    requires gid !in ids
    ensures Net(u, EntriesIn(es, ids + [gid])) == Net(u, EntriesIn(es, ids)) + Net(u, GroupEntries(es, gid))
    decreases |es|
  {
    if es == [] {
      EntriesInNone(es, ids + [gid]);
      EntriesInNone(es, ids);
      assert GroupEntries([], gid) == [];
    } else {
      var rest, e := es[..|es| - 1], es[|es| - 1];
      assert es == rest + [e];
      EntriesInSplit(u, rest, ids, gid);
      EntriesInStep(u, rest, e, ids + [gid]);
      EntriesInStep(u, rest, e, ids);
      GroupEntriesStep(u, rest, e, gid);
    }
  }

  /** With distinct group ids, the net over the entries of the groups gs is
      the sum of the nets of the groups taken one at a time. */
  lemma {:induction false} NetByGroups(u: Id, es: seq<Entry>, gs: seq<Group>)
    requires UniqueBy(GroupKey, gs)
    ensures Net(u, EntriesIn(es, Keys(GroupKey, gs))) == GroupNets(gs, es, u)
    decreases |gs|
  {
    if gs == [] {
      EntriesInNone(es, []);
    } else {
      var init, g := gs[..|gs| - 1], gs[|gs| - 1];
      assert UniqueBy(GroupKey, init);
      NetByGroups(u, es, init);
      assert Keys(GroupKey, gs) == Keys(GroupKey, init) + [g.id];
      assert g.id !in Keys(GroupKey, init);
      EntriesInSplit(u, es, Keys(GroupKey, init), g.id);
    }
  }

  /** Entries none of whose groups is among ids are all dropped. */
  lemma {:induction false} EntriesInNone(es: seq<Entry>, ids: seq<Id>)
    requires forall e :: e in es ==> e.groupId !in ids
    ensures EntriesIn(es, ids) == []
    decreases |es|
  {
    if es != [] {
      EntriesInNone(es[..|es| - 1], ids);
    }
  }

  /** The dashboard net is the sum, over the requester's groups, of the
      youAreOwed the detail view shows for each. */
  lemma DashboardIsSumOfDetails(l: Ledger, u: Id)
    requires LedgerValid(l)
    ensures Net(u, MemberEntries(l, u)) == DetailNets(MemberGroups(l.groups, u), l, u)
  {
    var gs := MemberGroups(l.groups, u);
    FilterUnique((g: Group) => u in g.members, GroupKey, l.groups);
    NetByGroups(u, l.expenses, gs);
    DetailNetsAreGroupNets(gs, l, u);
  }

  /** The sum of the detail views' youAreOwed over the groups gs. */
  function DetailNets(gs: seq<Group>, l: Ledger, u: Id): int
  {
    if gs == [] then 0
    else
      var g := gs[|gs| - 1];
      DetailNets(gs[..|gs| - 1], l, u) + Get(BalancesOf(Populate(g.members, l.users), NewestFirst(l.expenses, g.id)), u)
  }

  lemma {:induction false} DetailNetsAreGroupNets(gs: seq<Group>, l: Ledger, u: Id)
    ensures DetailNets(gs, l, u) == GroupNets(gs, l.expenses, u)
    decreases |gs|
  {
    if gs != [] {
      var g := gs[|gs| - 1];
      DetailNetsAreGroupNets(gs[..|gs| - 1], l, u);
      BalanceIsNet(Populate(g.members, l.users), NewestFirst(l.expenses, g.id), u);
      NetPermutation(NewestFirst(l.expenses, g.id), GroupEntries(l.expenses, g.id), u);
    }
  }

  lemma SingleEntryNet(u: Id, e: Entry)
    ensures Net(u, [e]) == PaidAmount(u, e) - ShareOf(u, e.splits)
  {
    SumSingle((x: Entry) => ShareOf(u, x.splits), e);
    SumSingle((x: Entry) => PaidAmount(u, x), e);
  }

  lemma ExampleShares()
    ensures ShareOf("A", [Split("A", 15), Split("B", 15)]) == 15
    ensures ShareOf("A", [Split("A", 5), Split("C", 5)]) == 5
  {
    var f := (s: Split) => if s.userId == "A" then s.share else 0;
    SumSingle(f, Split("A", 15));
    SumSingle(f, Split("A", 5));
    assert [Split("A", 15), Split("B", 15)][..1] == [Split("A", 15)];
    assert [Split("A", 5), Split("C", 5)][..1] == [Split("A", 5)];
  }

  // A requester A owed 15 in g1 and owing 5 in g2, with a third group g3
  // that A is not in.
  const ExampleG1: Group := Group("g1", "Trip", Trip, ["A", "B"], "A", 0)
  const ExampleG2: Group := Group("g2", "Home", Home, ["A", "C"], "C", 0)
  const ExampleG3: Group := Group("g3", "Other", Other, ["B", "C"], "B", 0)
  const ExampleE1: Entry := Entry("g1", "Dinner", 30, "A", [Split("A", 15), Split("B", 15)], 1, Expense)
  const ExampleE2: Entry := Entry("g2", "Rent", 10, "C", [Split("A", 5), Split("C", 5)], 2, Expense)
  const ExampleE3: Entry := Entry("g3", "Taxi", 8, "B", [Split("C", 8)], 3, Expense)
  const ExampleLedger: Ledger := Ledger([], [ExampleG1, ExampleG2, ExampleG3], [ExampleE1, ExampleE2, ExampleE3])

  lemma ExampleMemberGroups()
    ensures MemberGroups(ExampleLedger.groups, "A") == [ExampleG1, ExampleG2]
  {
    var g1, g2, g3 := ExampleG1, ExampleG2, ExampleG3;
    assert [g1, g2, g3][..2] == [g1, g2] && [g1, g2][..1] == [g1] && [g1][..0] == [];
    var inA := (g: Group) => "A" in g.members;
    assert Filter(inA, [g1]) == [g1];
    assert Filter(inA, [g1, g2]) == [g1, g2];
    assert Filter(inA, [g1, g2, g3]) == [g1, g2];
  }

  lemma ExampleMemberEntries()
    ensures MemberEntries(ExampleLedger, "A") == [ExampleE1, ExampleE2]
  {
    ExampleMemberGroups();
    assert Keys(GroupKey, [ExampleG1, ExampleG2]) == ["g1", "g2"];
    var e1, e2, e3 := ExampleE1, ExampleE2, ExampleE3;
    assert [e1, e2, e3][..2] == [e1, e2] && [e1, e2][..1] == [e1] && [e1][..0] == [];
    var inIds := (e: Entry) => e.groupId in ["g1", "g2"];
    assert Filter(inIds, [e1]) == [e1];
    assert Filter(inIds, [e1, e2]) == [e1, e2];
    assert Filter(inIds, [e1, e2, e3]) == [e1, e2];
  }

  /** The dashboard for A shows 10 owed, nothing owing, two groups. */
  lemma TwoGroupsExample()
    ensures PositionOf(Net("A", MemberEntries(ExampleLedger, "A"))) == Position(10, 0)
    ensures |MemberGroups(ExampleLedger.groups, "A")| == 2
  {
    ExampleMemberGroups();
    ExampleMemberEntries();
    SingleEntryNet("A", ExampleE1);
    SingleEntryNet("A", ExampleE2);
    ExampleShares();
    NetAppend("A", [ExampleE1], [ExampleE2]);
    assert [ExampleE1] + [ExampleE2] == [ExampleE1, ExampleE2];
  }
}
