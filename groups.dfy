/** The group routes: the list of the requester's groups with the
    requester's position in each (GET /groups), the detail view with its
    balance map and summary (GET /groups/:id), group creation from member
    emails (POST /groups) and deletion (DELETE /groups/:id). */
module GroupViews {

  import opened Wrappers
  import opened Seqs
  import opened Text
  import opened Model
  import opened Balances
  import opened Settlement

  /** A user document with this id exists. */
  predicate Registered(users: seq<User>, id: Id)
  {
    FindUser(users, id).Some?
  }

  /** populate('members'): the member ids whose user exists, in order; a
      reference to a missing user is dropped. */
  function Populate(ids: seq<Id>, users: seq<User>): (r: seq<Id>)
    ensures |r| <= |ids|
    ensures forall u :: u in r <==> u in ids && Registered(users, u)
  {
    Filter((id: Id) => Registered(users, id), ids)
  }

  // ---------------------------------------------------------------------
  // GET /groups/:id

  /** The group document the detail view answers with. */
  datatype Detail = Detail(
    group: Group,
    members: seq<Id>,
    expenses: seq<Entry>,
    totalSpent: int,
    pendingExpensesCount: nat,
    balances: map<Id, int>,
    youAreOwed: int,
    balanceSummary: seq<Suggestion>)

  /** 404 for a missing group, 403 for a requester who is not among the
      (populated) members; populate('paidBy') leaves null where the payer's
      user is gone and reading its _id throws, a 500. Otherwise the group's
      entries newest first, their total and count, the balance map, the
      requester's signed balance, which is what the requester paid minus
      every share the requester owes, and the balance summary. */
  method GroupDetail(l: Ledger, gid: Id, requester: Id) returns (r: Result<Detail>)
    ensures FindGroup(l.groups, gid).None? ==> r == Err(GroupNotFound)
    ensures FindGroup(l.groups, gid).Some? ==>
      var g := FindGroup(l.groups, gid).value;
      var ms := Populate(g.members, l.users);
      var es := NewestFirst(l.expenses, gid);
      if requester !in ms then r == Err(Forbidden)
      else if exists e :: e in es && !Registered(l.users, e.paidBy) then r == Err(ServerError)
      else
        && r.Ok?
        && r.value.group == g && r.value.members == ms && r.value.expenses == es
        && r.value.totalSpent == TotalAmount(es)
        && r.value.pendingExpensesCount == |es|
        && r.value.balances == BalancesOf(ms, es)
        && r.value.youAreOwed == Paid(requester, es) - Owed(requester, es)
        && r.value.balanceSummary == Summary(ms, r.value.balances)
  {
    var found := FindGroup(l.groups, gid);
    if found.None? {
      return Err(GroupNotFound);
    }
    var g := found.value;
    var ms := Populate(g.members, l.users);
    if requester !in ms {
      return Err(Forbidden);
    }
    var es := NewestFirst(l.expenses, g.id);
    if exists e :: e in es && !Registered(l.users, e.paidBy) {
      return Err(ServerError);
    }
    var balances := ComputeBalances(ms, es);
    BalanceIsNet(ms, es, requester);
    var summary := BalanceSummary(ms, balances);
    r := Ok(Detail(g, ms, es, TotalAmount(es), |es|, balances, Get(balances, requester), summary));
  }

  /** The newest-first order of the detail view changes neither the balances
      nor the total. */
  lemma DetailIgnoresOrder(members: seq<Id>, es: seq<Entry>, gid: Id)
    ensures BalancesOf(members, NewestFirst(es, gid)) == BalancesOf(members, GroupEntries(es, gid))
    ensures TotalAmount(NewestFirst(es, gid)) == TotalAmount(GroupEntries(es, gid))
  {
    BalancesPermutation(members, NewestFirst(es, gid), GroupEntries(es, gid));
    SumPermutation((e: Entry) => e.amount, NewestFirst(es, gid), GroupEntries(es, gid));
  }

  // ---------------------------------------------------------------------
  // GET /groups

  function GroupTime(g: Group): int
  {
    g.createdAt
  }

  /** Group.find({ members: uid }).sort({ createdAt: -1 }); groups are stored
      in creation order, so the sort puts the natural order backwards. */
  function MyGroups(groups: seq<Group>, u: Id): (r: seq<Group>)
    ensures forall g :: g in r <==> g in groups && u in g.members
  {
    var f := Filter((g: Group) => u in g.members, groups);
    ReversePermutation(f);
    assert forall g :: g in Reverse(f) <==> g in multiset(f);
    Reverse(f)
  }

  lemma MyGroupsSorted(groups: seq<Group>, u: Id)
    requires Ascending(GroupTime, groups)
    ensures Descending(GroupTime, MyGroups(groups, u))
  {
    FilterAscending((g: Group) => u in g.members, GroupTime, groups);
    ReverseDescending(GroupTime, Filter((g: Group) => u in g.members, groups));
  }

  /** The latest createdAt among es: the $first of the aggregation sorted by
      createdAt descending. */
  function Latest(es: seq<Entry>): (t: int)
    requires es != []
    ensures exists e :: e in es && e.createdAt == t
    ensures forall e :: e in es ==> e.createdAt <= t
  {
    if |es| == 1 then es[0].createdAt
    else
      var rest, last := es[..|es| - 1], es[|es| - 1];
      assert es == rest + [last];
      var t := Latest(rest);
      if last.createdAt > t then last.createdAt else t
  }

  /** lastMap.get(groupId) || g.createdAt */
  function LastActivity(es: seq<Entry>, g: Group): int
  {
    if es == [] then g.createdAt else Latest(es)
  }

  /** One group of the list view. */
  datatype Listing = Listing(group: Group, memberCount: nat, lastActivity: int, youAreOwed: int, youOwe: int)

  /** What the list view reports for group g with entries es: the member
      count, the last activity, and the requester's net (paid minus the
      share of the first split naming the requester in each entry) split
      into two nonnegative parts of which at most one is nonzero. */
  function ListingOf(g: Group, es: seq<Entry>, u: Id): (r: Listing)
    ensures r.group == g && r.memberCount == |g.members|
    ensures es == [] ==> r.lastActivity == g.createdAt
    ensures es != [] ==>
      (forall e :: e in es ==> e.createdAt <= r.lastActivity) &&
      (exists e :: e in es && e.createdAt == r.lastActivity)
    ensures r.youAreOwed >= 0 && r.youOwe >= 0 && (r.youAreOwed == 0 || r.youOwe == 0)
    ensures r.youAreOwed - r.youOwe == Paid(u, es) - FirstOwed(u, es)
  {
    var p := PositionOf(Paid(u, es) - FirstOwed(u, es));
    Listing(g, |g.members|, LastActivity(es, g), p.youAreOwed, p.youOwe)
  }

  /** The forEach loop accumulating totalPaid and totalOwed; only the first
      split naming u counts (splits.find). */
  method Position(u: Id, es: seq<Entry>) returns (totalPaid: int, totalOwed: int)
    ensures totalPaid == Paid(u, es) && totalOwed == FirstOwed(u, es)
  {
    totalPaid, totalOwed := 0, 0;
    for i := 0 to |es|
      invariant totalPaid == Paid(u, es[..i]) && totalOwed == FirstOwed(u, es[..i])
    {
      var e := es[i];
      assert es[..i + 1][..i] == es[..i];
      if e.paidBy == u {
        totalPaid := totalPaid + e.amount;
      }
      var userSplit := FirstShare(u, e.splits);
      if userSplit.Some? {
        totalOwed := totalOwed + userSplit.value;
      }
    }
    assert es[..|es|] == es;
  }

  /** expensesByGroup[groupId] || [] */
  function Bucket(buckets: map<Id, seq<Entry>>, gid: Id): seq<Entry>
  {
    if gid in buckets then buckets[gid] else []
  }

  /** The forEach loop grouping entries by group id, keeping their order. */
  method BucketEntries(es: seq<Entry>) returns (buckets: map<Id, seq<Entry>>)
    ensures forall gid {:trigger Bucket(buckets, gid)} :: Bucket(buckets, gid) == GroupEntries(es, gid)
  {
    buckets := map[];
    for i := 0 to |es|
      invariant forall gid :: Bucket(buckets, gid) == GroupEntries(es[..i], gid)
    {
      var e := es[i];
      forall gid
        ensures GroupEntries(es[..i + 1], gid)
             == GroupEntries(es[..i], gid) + (if e.groupId == gid then [e] else [])
      {
        assert es[..i + 1] == es[..i] + [e];
        GroupEntriesAppend(es[..i], [e], gid);
        assert [e][..0] == [];
      }
      ghost var prev := buckets;
      if e.groupId !in buckets {
        buckets := buckets[e.groupId := []];
      }
      buckets := buckets[e.groupId := buckets[e.groupId] + [e]];
      assert forall gid :: Bucket(buckets, gid) == Bucket(prev, gid) + (if e.groupId == gid then [e] else []);
    }
    assert es[..|es|] == es;
  }

  /** The listings of the groups gs, in order. */
  function Listings(gs: seq<Group>, es: seq<Entry>, u: Id): (r: seq<Listing>)
    ensures |r| == |gs|
    ensures forall k :: 0 <= k < |gs| ==> r[k] == ListingOf(gs[k], GroupEntries(es, gs[k].id), u)
  {
    if gs == [] then []
    else
      var last := gs[|gs| - 1];
      Listings(gs[..|gs| - 1], es, u) + [ListingOf(last, GroupEntries(es, last.id), u)]
  }

  /** The list view: the requester's groups, newest first, each with its
      listing over the group's entries. */
  method ListGroups(l: Ledger, u: Id) returns (r: seq<Listing>)
    ensures r == Listings(MyGroups(l.groups, u), l.expenses, u)
  {
    var groups := MyGroups(l.groups, u);
    if |groups| == 0 {
      return [];
    }
    var buckets := BucketEntries(l.expenses);
    r := [];
    for k := 0 to |groups|
      invariant r == Listings(groups[..k], l.expenses, u)
    {
      var g := groups[k];
      var es := Bucket(buckets, g.id);
      assert es == GroupEntries(l.expenses, g.id);
      var listing := ListingFor(g, es, u);
      ListingsStep(groups, l.expenses, u, k);
      r := r + [listing];
    }
    assert groups[..|groups|] == groups;
  }

  lemma ListingsStep(gs: seq<Group>, es: seq<Entry>, u: Id, k: nat)
    requires k < |gs|
    ensures Listings(gs[..k + 1], es, u) == Listings(gs[..k], es, u) + [ListingOf(gs[k], GroupEntries(es, gs[k].id), u)]
  {
    assert gs[..k + 1][..k] == gs[..k];
  }

  /** The body of the loop over the groups, filling in g's fields. */
  method ListingFor(g: Group, es: seq<Entry>, u: Id) returns (r: Listing)
    ensures r == ListingOf(g, es, u)
  {
    var lastActivity := if es == [] then g.createdAt else Latest(es);
    var totalPaid, totalOwed := Position(u, es);
    var net := totalPaid - totalOwed;
    r := Listing(g, |g.members|, lastActivity, if net > 0 then net else 0, if net < 0 then -net else 0);
  }

  /** When no entry names the requester in two splits, the list view's net
      for a group is the detail view's youAreOwed for it. */
  lemma ListingAgreesWithDetail(g: Group, members: seq<Id>, es: seq<Entry>, u: Id)
    requires forall e :: e in es && e.groupId == g.id ==> AtMostOneSplit(u, e.splits)
    ensures var r := ListingOf(g, GroupEntries(es, g.id), u);
      r.youAreOwed - r.youOwe == Get(BalancesOf(members, NewestFirst(es, g.id)), u)
  {
    var f := GroupEntries(es, g.id);
    FirstOwedIsOwed(u, f);
    BalanceIsNet(members, NewestFirst(es, g.id), u);
    NetPermutation(NewestFirst(es, g.id), f, u);
  }

  /** With two splits naming the same user, the list view counts one share
      and the detail view both: an entry of 10 paid by B and split 5 and 5
      to A gives A youOwe 5 in the list and youAreOwed -10 in the detail. */
  lemma ListingCountsFirstSplitOnly()
    ensures var e := Entry("g", "Dinner", 10, "B", [Split("A", 5), Split("A", 5)], 0, Expense);
      && ListingOf(Group("g", "Trip", Trip, ["A", "B"], "A", 0), [e], "A").youOwe == 5
      && Get(BalancesOf(["A", "B"], [e]), "A") == -10
  {
    var a := Split("A", 5);
    var e := Entry("g", "Dinner", 10, "B", [a, a], 0, Expense);
    assert ShareOf("A", e.splits) == 10 by {
      SumSingle((s: Split) => if s.userId == "A" then s.share else 0, a);
      assert e.splits[..1] == [a];
    }
    assert FirstShare("A", e.splits) == Some(5);
    assert [e][..0] == [];
    BalanceIsNet(["A", "B"], [e], "A");
    SumSingle((x: Entry) => ShareOf("A", x.splits), e);
    SumSingle((x: Entry) => PaidAmount("A", x), e);
  }

  // ---------------------------------------------------------------------
  // POST /groups

  /** The body fields POST /groups reads. name is "" when missing or falsy;
      category (the type field) is None when missing; members is None when
      it is present but not an array, [] when missing, and a falsy element
      is "". */
  datatype GroupRequest = GroupRequest(name: string, category: Option<string>, members: Option<seq<string>>)

  lemma NormalisedAreFixed(raw: seq<string>)
    ensures forall e :: e in Keys(NormaliseEmail, raw) ==> NormaliseEmail(e) == e
  {
    forall e | e in Keys(NormaliseEmail, raw) ensures NormaliseEmail(e) == e {
      var k :| 0 <= k < |raw| && Keys(NormaliseEmail, raw)[k] == e;
      NormaliseEmailIdempotent(raw[k]);
    }
  }

  /** members.map(e => String(e || '').trim().toLowerCase()).filter(Boolean):
      the normalised emails that are not empty, in request order. */
  function CleanEmails(raw: seq<string>): (r: seq<string>)
    ensures |r| <= |raw|
  {
    Filter((e: string) => e != [], Keys(NormaliseEmail, raw))
  }

  /** The cleaned list holds exactly the non-empty normalised emails, each
      already in normal form. */
  lemma CleanEmailsMeans(raw: seq<string>, e: string)
    ensures e in CleanEmails(raw) <==> e != [] && exists k :: 0 <= k < |raw| && NormaliseEmail(raw[k]) == e
    ensures e in CleanEmails(raw) ==> NormaliseEmail(e) == e
  {
    var ks := Keys(NormaliseEmail, raw);
    assert e in ks <==> exists k :: 0 <= k < |raw| && ks[k] == e;
    NormalisedAreFixed(raw);
  }

  /** User.find({ email: { $in: emails } }), in store order. */
  function UsersWithEmails(users: seq<User>, emails: seq<string>): (r: seq<User>)
    ensures forall v :: v in r <==> v in users && v.email in emails
  {
    Filter((v: User) => v.email in emails, users)
  }

  /** memberIds with the creator pushed at the end unless already there. */
  function WithCreator(ids: seq<Id>, creator: Id): (r: seq<Id>)
    ensures creator in r
    ensures |r| == if creator in ids then |ids| else |ids| + 1
    ensures r[..|ids|] == ids
    ensures NoDuplicates(ids) ==> NoDuplicates(r)
  {
    if creator in ids then ids else ids + [creator]
  }

  /** type = 'other' when missing; a value outside the enum fails validation. */
  function CategoryOf(t: Option<string>): Option<Category>
  {
    if t.None? then Some(Other) else ParseCategory(t.value)
  }

  /** POST /groups by the signed-in creator; newId and now are the id and
      the timestamp Group.create assigns. A blank name or a members value
      that is not a non-empty array is 400 "Invalid request"; fewer users
      found than emails is 400 "Some members not found"; a document the
      schema refuses (a name over 120 UTF-16 code units, a type outside the
      enum, no creator) or an id already taken is a 500. Any rejection
      leaves the store as it was; success appends the one new group, whose
      members are the resolved users' ids with the creator pushed on. */
  function CreateGroup(l: Ledger, req: GroupRequest, creator: Id, newId: Id, now: int): (s: Step<Group>)
    ensures s.response.Err? ==> s.after == l
    ensures s.response.Ok? ==> s.after == l.(groups := l.groups + [s.response.value])
    ensures s.response == Err(InvalidRequest) <==>
      Trim(req.name) == [] || req.members.None? || req.members == Some([])
    ensures s.response == Err(SomeMembersNotFound) <==>
      && Trim(req.name) != [] && req.members.Some? && req.members.value != []
      && |UsersWithEmails(l.users, CleanEmails(req.members.value))| != |CleanEmails(req.members.value)|
    ensures s.response == Err(ServerError) <==>
      && Trim(req.name) != [] && req.members.Some? && req.members.value != []
      && |UsersWithEmails(l.users, CleanEmails(req.members.value))| == |CleanEmails(req.members.value)|
      && (CategoryOf(req.category).None? || Utf16Length(Trim(req.name)) > MaxGroupName
          || creator == "" || FindGroup(l.groups, newId).Some?)
    ensures s.response.Err? ==> s.response.error in {InvalidRequest, SomeMembersNotFound, ServerError}
    ensures s.response.Ok? ==>
      s.response.value.members == WithCreator(Keys(UserKey, UsersWithEmails(l.users, CleanEmails(req.members.value))), creator)
    ensures s.response.Ok? ==>
      var g := s.response.value;
      && g.id == newId && g.name == Trim(req.name) && g.createdBy == creator && g.createdAt == now
      && Some(g.category) == CategoryOf(req.category)
      && GroupSchemaValid(g) && FindGroup(l.groups, newId).None?
  {
    var cleanName := Trim(req.name);
    if cleanName == [] || req.members.None? || req.members.value == [] then Step(l, Err(InvalidRequest))
    else
      var emails := CleanEmails(req.members.value);
      var found := UsersWithEmails(l.users, emails);
      if |found| != |emails| then Step(l, Err(SomeMembersNotFound))
      else
        match CategoryOf(req.category)
        case None => Step(l, Err(ServerError))
        case Some(category) =>
          var g := Group(newId, cleanName, category, WithCreator(Keys(UserKey, found), creator), creator, now);
          if !GroupSchemaValid(g) || FindGroup(l.groups, newId).Some? then Step(l, Err(ServerError))
          else Step(l.(groups := l.groups + [g]), Ok(g))
  }

  /** With unique emails in the store, the count check passes exactly when
      no email is listed twice and every listed email belongs to a user. */
  lemma ResolveExact(users: seq<User>, emails: seq<string>)
    requires UniqueBy(UserEmail, users)
    ensures |UsersWithEmails(users, emails)| == |emails| <==>
      NoDuplicates(emails) && forall e :: e in emails ==> exists v :: v in users && v.email == e
  {
    var found := UsersWithEmails(users, emails);
    FilterUnique((v: User) => v.email in emails, UserEmail, users);
    UniqueKeysCount(UserEmail, found);
    DistinctCount(emails);
    var a := KeySet(UserEmail, found);
    var b := Elements(emails);
    assert |a| == |found|;
    assert |b| <= |emails| && (|b| == |emails| <==> NoDuplicates(emails));
    SubsetCount(a, b);
    if |found| == |emails| {
      assert |a| == |b|;
      assert a == b;
      forall e | e in emails ensures exists v :: v in users && v.email == e {
        assert e in a;
      }
    }
    if NoDuplicates(emails) && forall e :: e in emails ==> exists v :: v in users && v.email == e {
      forall e | e in b ensures e in a {
        var v :| v in users && v.email == e;
        assert v in found && UserEmail(v) == e;
      }
      assert a == b;
    }
  }

  lemma MemberIdsMeans(users: seq<User>, emails: seq<string>, creator: Id, x: Id)
    ensures x in WithCreator(Keys(UserKey, UsersWithEmails(users, emails)), creator) <==>
      x == creator || exists v :: v in users && v.id == x && v.email in emails
  {
    var found := UsersWithEmails(users, emails);
    var ids := Keys(UserKey, found);
    assert x in ids <==> exists k :: 0 <= k < |found| && found[k].id == x;
    if x in ids {
      var k :| 0 <= k < |found| && found[k].id == x;
      assert found[k] in found;
    }
    if exists v :: v in users && v.id == x && v.email in emails {
      var v :| v in users && v.id == x && v.email in emails;
      assert v in found;
      var k :| 0 <= k < |found| && found[k] == v;
      assert ids[k] == x;
    }
  }

  /** The members of a created group: the creator, and the users whose
      email is among the cleaned request emails, each once. */
  lemma CreateGroupMembers(l: Ledger, req: GroupRequest, creator: Id, newId: Id, now: int, x: Id)
    requires CreateGroup(l, req, creator, newId, now).response.Ok?
    ensures var g := CreateGroup(l, req, creator, newId, now).response.value;
      && creator in g.members
      && (x in g.members <==>
            x == creator || exists v :: v in l.users && v.id == x && v.email in CleanEmails(req.members.value))
  {
    var emails := CleanEmails(req.members.value);
    var g := CreateGroup(l, req, creator, newId, now).response.value;
    assert g.members == WithCreator(Keys(UserKey, UsersWithEmails(l.users, emails)), creator);
    MemberIdsMeans(l.users, emails, creator, x);
  }

  lemma KeysUnique(us: seq<User>)
    requires UniqueBy(UserKey, us)
    ensures NoDuplicates(Keys(UserKey, us))
  {
  }

  /** Group creation keeps every store invariant: the new group's id is
      fresh, its creator is a member and no member is listed twice. */
  lemma CreateGroupValid(l: Ledger, req: GroupRequest, creator: Id, newId: Id, now: int)
    requires LedgerValid(l)
    ensures LedgerValid(CreateGroup(l, req, creator, newId, now).after)
  {
    var s := CreateGroup(l, req, creator, newId, now);
    if s.response.Ok? {
      var g := s.response.value;
      var found := UsersWithEmails(l.users, CleanEmails(req.members.value));
      assert GroupValid(g) by {
        FilterUnique((v: User) => v.email in CleanEmails(req.members.value), UserKey, l.users);
        KeysUnique(found);
      }
      AppendGroupValid(l, g);
    }
  }

  /** Appending a valid group with a fresh id keeps the store valid. */
  lemma AppendGroupValid(l: Ledger, g: Group)
    requires LedgerValid(l) && GroupValid(g) && FindGroup(l.groups, g.id).None?
    ensures LedgerValid(l.(groups := l.groups + [g]))
  {
    UniqueByAppend(GroupKey, l.groups, g);
    assert forall h :: h in l.groups + [g] ==> h in l.groups || h == g;
  }

  // ---------------------------------------------------------------------
  // DELETE /groups/:id

  /** 404 for a missing group, 403 unless the requester is among the stored
      member ids; otherwise the group's entries and then the group are
      removed and nothing else changes. */
  function DeleteGroup(l: Ledger, gid: Id, requester: Id): (s: Step<()>)
    ensures FindGroup(l.groups, gid).None? ==> s == Step(l, Err(GroupNotFound))
    ensures FindGroup(l.groups, gid).Some? && requester !in FindGroup(l.groups, gid).value.members ==>
      s == Step(l, Err(Forbidden))
    ensures FindGroup(l.groups, gid).Some? && requester in FindGroup(l.groups, gid).value.members ==> s.response.Ok?
    ensures s.response.Ok? ==>
      && FindGroup(l.groups, gid).Some? && requester in FindGroup(l.groups, gid).value.members
      && s.after.users == l.users
      && (forall e :: e in s.after.expenses <==> e in l.expenses && e.groupId != gid)
      && (forall g :: g in s.after.groups <==> g in l.groups && g.id != gid)
    ensures s.response.Ok? ==>
      && s.after.expenses == Filter((e: Entry) => e.groupId != gid, l.expenses)
      && s.after.groups == Filter((h: Group) => h.id != gid, l.groups)
    ensures s.response.Ok? || s.after == l
  {
    match FindGroup(l.groups, gid)
    case None => Step(l, Err(GroupNotFound))
    case Some(g) =>
      if requester !in g.members then Step(l, Err(Forbidden))
      else
        var expenses := Filter((e: Entry) => e.groupId != gid, l.expenses);
        var groups := Filter((h: Group) => h.id != gid, l.groups);
        Step(Ledger(l.users, groups, expenses), Ok(()))
  }

  /** Dropping one group's entries leaves every other group's entries as
      they were, in order and with their multiplicity. */
  lemma {:induction false} OtherGroupEntriesKept(es: seq<Entry>, gid: Id, h: Id)
    requires h != gid
    ensures GroupEntries(Filter((e: Entry) => e.groupId != gid, es), h) == GroupEntries(es, h)
    decreases |es|
  {
    if es != [] {
      var init, x := es[..|es| - 1], es[|es| - 1];
      OtherGroupEntriesKept(init, gid, h);
      var kept := if x.groupId != gid then [x] else [];
      FilterAppend((e: Entry) => e.groupId == h, Filter((e: Entry) => e.groupId != gid, init), kept);
    }
  }

  /** A successful delete empties the deleted group and leaves every other
      group with exactly the entries it had, so its balances and detail
      view are unchanged. */
  lemma DeleteKeepsOtherGroups(l: Ledger, gid: Id, requester: Id, h: Id)
    requires DeleteGroup(l, gid, requester).response.Ok?
    ensures GroupEntries(DeleteGroup(l, gid, requester).after.expenses, gid) == []
    ensures h != gid ==>
      GroupEntries(DeleteGroup(l, gid, requester).after.expenses, h) == GroupEntries(l.expenses, h)
  {
    var after := DeleteGroup(l, gid, requester).after.expenses;
    FilterNone((e: Entry) => e.groupId == gid, after);
    if h != gid {
      OtherGroupEntriesKept(l.expenses, gid, h);
    }
  }

  /** Deletion keeps every store invariant. */
  lemma DeleteGroupValid(l: Ledger, gid: Id, requester: Id)
    requires LedgerValid(l)
    ensures LedgerValid(DeleteGroup(l, gid, requester).after)
  {
    if DeleteGroup(l, gid, requester).response.Ok? {
      FilterUnique((h: Group) => h.id != gid, GroupKey, l.groups);
    }
  }
}
