/** The records the routes read and write (models/expense.js, models/group.js,
    models/User.js), the validation Mongoose applies when one is saved, and
    the sums over ledger entries that the views report. Amounts and shares
    are integer minor units (cents); timestamps are integers. */
module Model {

  import opened Wrappers
  import opened Seqs
  import opened Text

  /** Object ids, compared as the strings String(id) yields; "" stands for a
      missing or falsy id in a request. */
  type Id = string

  /** kind: 'expense' (the default) or 'payment'. */
  datatype Kind = Expense | Payment

  datatype Split = Split(userId: Id, share: int)

  /** A ledger entry: an expense, or a wallet payment recorded as an expense
      with a single split to the payee. */
  datatype Entry = Entry(
    groupId: Id,
    description: string,
    amount: int,
    paidBy: Id,
    splits: seq<Split>,
    createdAt: int,
    kind: Kind)

  /** The group type enum 'trip' | 'home' | 'couple' | 'other'. */
  datatype Category = Trip | Home | Couple | Other

  datatype Group = Group(
    id: Id,
    name: string,
    category: Category,
    members: seq<Id>,
    createdBy: Id,
    createdAt: int)

  /** password holds the stored bcrypt hash. */
  datatype User = User(
    id: Id,
    name: string,
    email: string,
    password: string,
    walletBalance: int,
    isActive: bool)

  /** A snapshot of the three collections, each in insertion order. */
  datatype Ledger = Ledger(users: seq<User>, groups: seq<Group>, expenses: seq<Entry>)

  /** A character outside the Basic Multilingual Plane, which UTF-16
      spells as a surrogate pair. */
  predicate Astral(c: char)
  {
    (c as int) >= 0x1_0000
  }

  /** String.prototype.length, which counts UTF-16 code units: one for a
      character of the Basic Multilingual Plane, two (a surrogate pair) for
      any other. Mongoose's minlength and maxlength compare this count. */
  function Utf16Length(s: string): nat
  {
    if s == [] then 0 else (if Astral(s[0]) then 2 else 1) + Utf16Length(s[1..])
  }

  /** The count lies between the number of characters and twice it. */
  lemma {:induction false} Utf16LengthBounds(s: string)
    ensures |s| <= Utf16Length(s) <= 2 * |s|
  {
    if s != [] {
      Utf16LengthBounds(s[1..]);
    }
  }

  /** The code units are the characters exactly when every character lies
      in the Basic Multilingual Plane. */
  lemma {:induction false} Utf16LengthBmp(s: string)
    ensures Utf16Length(s) == |s| <==> forall k :: 0 <= k < |s| ==> !Astral(s[k])
  {
    if s != [] {
      Utf16LengthBmp(s[1..]);
      Utf16LengthBounds(s[1..]);
      assert forall k :: 0 <= k < |s| - 1 ==> s[1..][k] == s[k + 1];
    }
  }

  /** A character outside the Basic Multilingual Plane counts twice. */
  lemma Utf16Astral()
    ensures |"\U{1F600}"| == 1 && Utf16Length("\U{1F600}") == 2
  {
  }

  const MaxDescription: nat := 200
  const MaxGroupName: nat := 120
  const MinUserName: nat := 2
  const MaxUserName: nat := 80
  const MinStoredPassword: nat := 6

  function ParseCategory(t: string): (r: Option<Category>)
    ensures r.Some? <==> t in {"trip", "home", "couple", "other"}
  {
    if t == "trip" then Some(Trip)
    else if t == "home" then Some(Home)
    else if t == "couple" then Some(Couple)
    else if t == "other" then Some(Other)
    else None
  }

  // ---------------------------------------------------------------------
  // Schema validation

  /** splitSchema: userId required, share required and at least 0. */
  predicate SplitValid(s: Split)
  {
    s.userId != "" && s.share >= 0
  }

  /** expenseSchema: groupId and paidBy required; description required,
      trimmed, at most 200 UTF-16 code units; amount at least 0; every split valid. */
  predicate EntryValid(e: Entry)
  {
    && e.groupId != ""
    && e.description != [] && Trimmed(e.description)
    && Utf16Length(e.description) <= MaxDescription
    && e.amount >= 0
    && e.paidBy != ""
    && forall s :: s in e.splits ==> SplitValid(s)
  }

  /** Expense.create: the trim setter runs on description, then validation;
      None is the validation error the route's catch turns into a 500. */
  function SaveEntry(e: Entry): (r: Option<Entry>)
    ensures r.Some? ==> EntryValid(r.value)
    ensures r.Some? ==> r.value == e.(description := Trim(e.description))
    ensures r.None? <==> !EntryValid(e.(description := Trim(e.description)))
  {
    TrimIdempotent(e.description);
    var saved := e.(description := Trim(e.description));
    if EntryValid(saved) then Some(saved) else None
  }

  /** userSchema: name trimmed, 2 to 80 UTF-16 code units; email required,
      trimmed and lower-cased; the stored password (the hash) at least 6
      code units;
      walletBalance at least 0. */
  predicate UserValid(u: User)
  {
    && MinUserName <= Utf16Length(u.name) <= MaxUserName && Trimmed(u.name)
    && u.email != "" && NormalEmail(u.email)
    && Utf16Length(u.password) >= MinStoredPassword
    && u.walletBalance >= 0
  }

  /** groupSchema: name required, trimmed, at most 120 UTF-16 code
      units;
      createdBy required. */
  predicate GroupSchemaValid(g: Group)
  {
    && g.name != [] && Trimmed(g.name) && Utf16Length(g.name) <= MaxGroupName
    && g.createdBy != ""
  }

  /** The schema and the membership rules group creation establishes: the
      creator is a member and no member is listed twice. */
  predicate GroupValid(g: Group)
  {
    && GroupSchemaValid(g)
    && g.createdBy in g.members
    && NoDuplicates(g.members)
  }

  function UserKey(u: User): Id
  {
    u.id
  }

  function UserEmail(u: User): string
  {
    u.email
  }

  function GroupKey(g: Group): Id
  {
    g.id
  }

  /** The invariant of the store: unique ids (and unique emails, the unique
      index on email), and every document valid against its schema. */
  predicate LedgerValid(l: Ledger)
  {
    && UniqueBy(UserKey, l.users) && UniqueBy(UserEmail, l.users)
    && (forall u :: u in l.users ==> UserValid(u))
    && UniqueBy(GroupKey, l.groups)
    && (forall g :: g in l.groups ==> GroupValid(g))
    && (forall e :: e in l.expenses ==> EntryValid(e))
  }

  // ---------------------------------------------------------------------
  // Lookups

  /** Group.findById */
  function FindGroup(groups: seq<Group>, id: Id): (r: Option<Group>)
    ensures r.Some? ==> r.value in groups && r.value.id == id
    ensures r.None? <==> forall g :: g in groups ==> g.id != id
  {
    match FindIndex((g: Group) => g.id == id, groups)
    case None => None
    case Some(k) => Some(groups[k])
  }

  /** User.findById, as a position in the user collection. */
  function FindUser(users: seq<User>, id: Id): (r: Option<nat>)
    ensures r.Some? ==> r.value < |users| && users[r.value].id == id
    ensures r.None? <==> forall u :: u in users ==> u.id != id
  {
    FindIndex((u: User) => u.id == id, users)
  }

  /** User.findOne({ email }), as a position in the user collection. */
  function FindUserByEmail(users: seq<User>, email: string): (r: Option<nat>)
    ensures r.Some? ==> r.value < |users| && users[r.value].email == email
    ensures r.None? <==> forall u :: u in users ==> u.email != email
  {
    FindIndex((u: User) => u.email == email, users)
  }

  // ---------------------------------------------------------------------
  // Sums over ledger entries

  function SumShares(splits: seq<Split>): int
  {
    Sum((s: Split) => s.share, splits)
  }

  /** The sum of all entry amounts: totalSpent. */
  function TotalAmount(es: seq<Entry>): int
  {
    Sum((e: Entry) => e.amount, es)
  }

  function PaidAmount(u: Id, e: Entry): int
  {
    if e.paidBy == u then e.amount else 0
  }

  /** What u paid across es. */
  function Paid(u: Id, es: seq<Entry>): int
  {
    Sum((e: Entry) => PaidAmount(u, e), es)
  }

  /** The sum of every share of u among splits. */
  function ShareOf(u: Id, splits: seq<Split>): int
  {
    Sum((s: Split) => if s.userId == u then s.share else 0, splits)
  }

  /** What u owes across es, counting every split that names u. */
  function Owed(u: Id, es: seq<Entry>): int
  {
    Sum((e: Entry) => ShareOf(u, e.splits), es)
  }

  /** The share of the first split naming u: splits.find(...). */
  function FirstShare(u: Id, splits: seq<Split>): (r: Option<int>)
    ensures r.None? <==> forall s :: s in splits ==> s.userId != u
    ensures r.Some? ==>
      (exists k :: 0 <= k < |splits| && splits[k].userId == u && r.value == splits[k].share &&
         forall l :: 0 <= l < k ==> splits[l].userId != u)
  {
    match FindIndex((s: Split) => s.userId == u, splits)
    case None => None
    case Some(k) => Some(splits[k].share)
  }

  function FirstShareOrZero(u: Id, splits: seq<Split>): int
  {
    match FirstShare(u, splits)
    case Some(x) => x
    case None => 0
  }

  /** What u owes across es when only the first split naming u counts. */
  function FirstOwed(u: Id, es: seq<Entry>): int
  {
    Sum((e: Entry) => FirstShareOrZero(u, e.splits), es)
  }

  /** The amount of each entry minus the sum of its shares, added up. */
  function Imbalance(es: seq<Entry>): int
  {
    Sum((e: Entry) => e.amount - SumShares(e.splits), es)
  }

  /** Expense.find({ groupId }) in natural (insertion) order. */
  function GroupEntries(es: seq<Entry>, gid: Id): seq<Entry>
  {
    Filter((e: Entry) => e.groupId == gid, es)
  }

  /** Appending an entry the schema accepts keeps the store valid. */
  lemma AppendEntryValid(l: Ledger, e: Entry)
    requires LedgerValid(l) && EntryValid(e)
    ensures LedgerValid(l.(expenses := l.expenses + [e]))
  {
    assert forall x :: x in l.expenses + [e] ==> x in l.expenses || x == e;
  }

  lemma GroupEntriesAppend(a: seq<Entry>, b: seq<Entry>, gid: Id)
    ensures GroupEntries(a + b, gid) == GroupEntries(a, gid) + GroupEntries(b, gid)
  {
    FilterAppend((e: Entry) => e.groupId == gid, a, b);
  }

  function EntryTime(e: Entry): int
  {
    e.createdAt
  }

  /** Expense.find({ groupId }).sort({ createdAt: -1 }). Entries are stored in
      the order they are created, so the sort puts the natural order
      backwards (see NewestFirstSorted). */
  function NewestFirst(es: seq<Entry>, gid: Id): (r: seq<Entry>)
    ensures multiset(r) == multiset(GroupEntries(es, gid))
    ensures forall e :: e in r <==> e in es && e.groupId == gid
  {
    var f := GroupEntries(es, gid);
    ReversePermutation(f);
    assert forall e :: e in Reverse(f) <==> e in multiset(f);
    Reverse(f)
  }

  /** When the store holds the entries in creation order, NewestFirst is
      ordered newest first. */
  lemma NewestFirstSorted(es: seq<Entry>, gid: Id)
    requires Ascending(EntryTime, es)
    ensures Descending(EntryTime, NewestFirst(es, gid))
  {
    FilterAscending((e: Entry) => e.groupId == gid, EntryTime, es);
    ReverseDescending(EntryTime, GroupEntries(es, gid));
  }

  /** The step a state-changing route makes: the store afterwards and the
      response. */
  datatype Step<T> = Step(after: Ledger, response: Result<T>)

  /** The accepted difference between the sum of the shares and the amount:
      0.01 in the currency unit, one minor unit. */
  const SplitTolerance: int := 1

  /** The split of a net position into youAreOwed and youOwe. */
  datatype Position = Position(youAreOwed: int, youOwe: int)

  function PositionOf(net: int): (p: Position)
    ensures p.youAreOwed >= 0 && p.youOwe >= 0
    ensures p.youAreOwed == 0 || p.youOwe == 0
    ensures p.youAreOwed - p.youOwe == net
  {
    Position(if net > 0 then net else 0, if net < 0 then -net else 0)
  }

  // ---------------------------------------------------------------------
  // Facts about the sums

  lemma PaidAppend(u: Id, a: seq<Entry>, b: seq<Entry>)
    ensures Paid(u, a + b) == Paid(u, a) + Paid(u, b)
  {
    SumAppend((e: Entry) => PaidAmount(u, e), a, b);
  }

  lemma OwedAppend(u: Id, a: seq<Entry>, b: seq<Entry>)
    ensures Owed(u, a + b) == Owed(u, a) + Owed(u, b)
  {
    SumAppend((e: Entry) => ShareOf(u, e.splits), a, b);
  }

  /** When no entry names u in two splits, counting only the first split of u
      is the same as counting all of them. */
  lemma {:induction false} FirstOwedIsOwed(u: Id, es: seq<Entry>)
    requires forall e :: e in es ==> AtMostOneSplit(u, e.splits)
    ensures FirstOwed(u, es) == Owed(u, es)
    decreases |es|
  {
    if es != [] {
      var last := es[|es| - 1];
      FirstOwedIsOwed(u, es[..|es| - 1]);
      FirstShareIsShare(u, last.splits);
    }
  }

  predicate AtMostOneSplit(u: Id, splits: seq<Split>)
  {
    forall i, j :: 0 <= i < j < |splits| && splits[i].userId == u ==> splits[j].userId != u
  }

  lemma {:induction false} FirstShareIsShare(u: Id, splits: seq<Split>)
    requires AtMostOneSplit(u, splits)
    ensures FirstShareOrZero(u, splits) == ShareOf(u, splits)
    decreases |splits|
  {
    if splits != [] {
      var rest := splits[..|splits| - 1];
      var last := splits[|splits| - 1];
      assert AtMostOneSplit(u, rest);
      FirstShareIsShare(u, rest);
      assert splits == rest + [last];
      if last.userId == u {
        assert forall s :: s in rest ==> s.userId != u;
        ShareOfNone(u, rest);
      } else {
        FirstShareOfExtended(u, rest, last);
      }
    }
  }

  lemma {:induction false} ShareOfNone(u: Id, splits: seq<Split>)
    requires forall s :: s in splits ==> s.userId != u
    ensures ShareOf(u, splits) == 0
    decreases |splits|
  {
    if splits != [] {
      ShareOfNone(u, splits[..|splits| - 1]);
    }
  }

  lemma FirstShareOfExtended(u: Id, rest: seq<Split>, last: Split)
    requires last.userId != u
    ensures FirstShareOrZero(u, rest + [last]) == FirstShareOrZero(u, rest)
  {
    var splits := rest + [last];
    assert forall k :: 0 <= k < |rest| ==> splits[k] == rest[k];
    var a := FindIndex((s: Split) => s.userId == u, rest);
    var b := FindIndex((s: Split) => s.userId == u, splits);
    if a.Some? {
      assert b.Some? && b.value == a.value;
    } else {
      assert b.None?;
    }
  }
}
