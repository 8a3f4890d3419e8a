/** The balance map of the group detail view (GET /groups/:id): every member
    starts at 0, then each entry credits its payer with the amount and debits
    each split user with the share. Ids outside the member list get an entry
    too, starting from "balances[id] || 0". */
module Balances {

  import opened Wrappers
  import opened Seqs
  import opened Model

  /** balances[id] || 0 */
  function Get(b: map<Id, int>, u: Id): int
  {
    if u in b then b[u] else 0
  }

  function Adjust(b: map<Id, int>, u: Id, delta: int): map<Id, int>
  {
    b[u := Get(b, u) + delta]
  }

  /** The map after "Initialize all members to 0". */
  function Zeroed(members: seq<Id>): (r: map<Id, int>)
    ensures r.Keys == set m | m in members
    ensures forall u :: u in r ==> r[u] == 0
  {
    if members == [] then map[]
    else
      assert members == members[..|members| - 1] + [members[|members| - 1]];
      Zeroed(members[..|members| - 1])[members[|members| - 1] := 0]
  }

  /** Debit every split user with the share, in order. */
  function ApplySplits(b: map<Id, int>, splits: seq<Split>): map<Id, int>
  {
    if splits == [] then b
    else
      var last := splits[|splits| - 1];
      Adjust(ApplySplits(b, splits[..|splits| - 1]), last.userId, -last.share)
  }

  /** Credit the payer with the amount, then debit the splits. */
  function ApplyEntry(b: map<Id, int>, e: Entry): map<Id, int>
  {
    ApplySplits(Adjust(b, e.paidBy, e.amount), e.splits)
  }

  function ApplyEntries(b: map<Id, int>, es: seq<Entry>): map<Id, int>
  {
    if es == [] then b else ApplyEntry(ApplyEntries(b, es[..|es| - 1]), es[|es| - 1])
  }

  /** The balance map of a group with these members and entries. */
  function BalancesOf(members: seq<Id>, es: seq<Entry>): map<Id, int>
  {
    ApplyEntries(Zeroed(members), es)
  }

  /** The ids an entry names: its payer and its split users. */
  function EntryIds(e: Entry): set<Id>
  {
    {e.paidBy} + set s | s in e.splits :: s.userId
  }

  /** Every id the entries name. */
  function Involved(es: seq<Entry>): set<Id>
  {
    if es == [] then {} else Involved(es[..|es| - 1]) + EntryIds(es[|es| - 1])
  }

  /** An id is involved exactly when some entry names it. */
  lemma {:induction false} InvolvedMeans(es: seq<Entry>, u: Id)
    ensures u in Involved(es) <==> exists e :: e in es && u in EntryIds(e)
    decreases |es|
  {
    if es != [] {
      var rest := es[..|es| - 1];
      InvolvedMeans(rest, u);
      assert es == rest + [es[|es| - 1]];
      if u in Involved(es) && u !in EntryIds(es[|es| - 1]) {
        var e :| e in rest && u in EntryIds(e);
        assert e in es;
      }
      if exists e :: e in es && u in EntryIds(e) {
        var e :| e in es && u in EntryIds(e);
        assert e in rest || e == es[|es| - 1];
      }
    }
  }

  /** The nested forEach loops of the detail view, updating the map in place. */
  method ComputeBalances(members: seq<Id>, es: seq<Entry>) returns (balances: map<Id, int>)
    ensures balances == BalancesOf(members, es)
  {
    balances := map[];
    for i := 0 to |members|
      invariant balances == Zeroed(members[..i])
    {
      assert members[..i + 1][..i] == members[..i];
      balances := balances[members[i] := 0];
    }
    assert members[..|members|] == members;
    for i := 0 to |es|
      invariant balances == ApplyEntries(Zeroed(members), es[..i])
    {
      var e := es[i];
      assert es[..i + 1][..i] == es[..i];
      balances := balances[e.paidBy := Get(balances, e.paidBy) + e.amount];
      ghost var credited := balances;
      for j := 0 to |e.splits|
        invariant balances == ApplySplits(credited, e.splits[..j])
      {
        var s := e.splits[j];
        assert e.splits[..j + 1][..j] == e.splits[..j];
        balances := balances[s.userId := Get(balances, s.userId) - s.share];
      }
      assert e.splits[..|e.splits|] == e.splits;
    }
    assert es[..|es|] == es;
  }

  // ---------------------------------------------------------------------
  // Each balance is what the user paid minus what the user owes

  lemma {:induction false} ApplySplitsGet(b: map<Id, int>, splits: seq<Split>, u: Id)
    ensures Get(ApplySplits(b, splits), u) == Get(b, u) - ShareOf(u, splits)
    decreases |splits|
  {
    if splits != [] {
      ApplySplitsGet(b, splits[..|splits| - 1], u);
    }
  }

  lemma {:induction false} ApplyEntriesGet(b: map<Id, int>, es: seq<Entry>, u: Id)
    ensures Get(ApplyEntries(b, es), u) == Get(b, u) + Paid(u, es) - Owed(u, es)
    decreases |es|
  {
    if es != [] {
      var e := es[|es| - 1];
      ApplyEntriesGet(b, es[..|es| - 1], u);
      ApplySplitsGet(Adjust(ApplyEntries(b, es[..|es| - 1]), e.paidBy, e.amount), e.splits, u);
    }
  }

  lemma {:induction false} ApplySplitsKeys(b: map<Id, int>, splits: seq<Split>)
    ensures ApplySplits(b, splits).Keys == b.Keys + set s | s in splits :: s.userId
    decreases |splits|
  {
    if splits != [] {
      var rest := splits[..|splits| - 1];
      ApplySplitsKeys(b, rest);
      assert splits == rest + [splits[|splits| - 1]];
      assert (set s | s in splits :: s.userId)
          == (set s | s in rest :: s.userId) + {splits[|splits| - 1].userId};
    }
  }

  lemma {:induction false} ApplyEntriesKeys(b: map<Id, int>, es: seq<Entry>)
    ensures ApplyEntries(b, es).Keys == b.Keys + Involved(es)
    decreases |es|
  {
    if es != [] {
      var rest := es[..|es| - 1];
      var e := es[|es| - 1];
      ApplyEntriesKeys(b, rest);
      ApplySplitsKeys(Adjust(ApplyEntries(b, rest), e.paidBy, e.amount), e.splits);
    }
  }

  /** The balance of every id is what it paid minus every share it owes. */
  lemma {:induction false} BalanceIsNet(members: seq<Id>, es: seq<Entry>, u: Id)
    ensures Get(BalancesOf(members, es), u) == Paid(u, es) - Owed(u, es)
  {
    ApplyEntriesGet(Zeroed(members), es, u);
  }

  /** The map holds exactly the members and the ids the entries name. */
  lemma {:induction false} BalanceKeys(members: seq<Id>, es: seq<Entry>)
    ensures BalancesOf(members, es).Keys == (set m | m in members) + Involved(es)
  {
    ApplyEntriesKeys(Zeroed(members), es);
  }

  lemma {:induction false} PaidByOthers(u: Id, es: seq<Entry>)
    requires forall e :: e in es ==> e.paidBy != u
    ensures Paid(u, es) == 0
    decreases |es|
  {
    if es != [] {
      PaidByOthers(u, es[..|es| - 1]);
    }
  }

  lemma {:induction false} OwedByOthers(u: Id, es: seq<Entry>)
    requires forall e, s :: e in es && s in e.splits ==> s.userId != u
    ensures Owed(u, es) == 0
    decreases |es|
  {
    if es != [] {
      OwedByOthers(u, es[..|es| - 1]);
      ShareOfNone(u, es[|es| - 1].splits);
    }
  }

  /** A member no entry names is present in the map with balance 0. */
  lemma {:induction false} IdleMemberIsZero(members: seq<Id>, es: seq<Entry>, u: Id)
    requires u in members && u !in Involved(es)
    ensures u in BalancesOf(members, es) && BalancesOf(members, es)[u] == 0
  {
    BalanceIsNet(members, es, u);
    BalanceKeys(members, es);
    InvolvedMeans(es, u);
    forall e, s | e in es && s in e.splits ensures s.userId != u {
      assert s.userId in EntryIds(e);
    }
    PaidByOthers(u, es);
    OwedByOthers(u, es);
  }

  lemma {:induction false} InvolvedIncluded(a: seq<Entry>, b: seq<Entry>, u: Id)
    requires multiset(a) == multiset(b)
    requires u in Involved(a)
    ensures u in Involved(b)
  {
    InvolvedMeans(a, u);
    InvolvedMeans(b, u);
    var e :| e in a && u in EntryIds(e);
    assert e in multiset(a);
    assert e in b;
  }

  lemma {:induction false} InvolvedSubset(a: seq<Entry>, b: seq<Entry>)
    requires multiset(a) == multiset(b)
    ensures Involved(a) <= Involved(b)
  {
    forall u | u in Involved(a) ensures u in Involved(b) {
      InvolvedIncluded(a, b, u);
    }
  }

  lemma {:induction false} NetPermutation(a: seq<Entry>, b: seq<Entry>, u: Id)
    requires multiset(a) == multiset(b)
    ensures Paid(u, a) == Paid(u, b) && Owed(u, a) == Owed(u, b)
  {
    SumPermutation((e: Entry) => PaidAmount(u, e), a, b);
    SumPermutation((e: Entry) => ShareOf(u, e.splits), a, b);
  }

  /** The order of the entries does not matter. */
  lemma {:induction false} BalancesPermutation(members: seq<Id>, a: seq<Entry>, b: seq<Entry>)
    requires multiset(a) == multiset(b)
    ensures BalancesOf(members, a) == BalancesOf(members, b)
  {
    var ma, mb := BalancesOf(members, a), BalancesOf(members, b);
    InvolvedSubset(a, b);
    InvolvedSubset(b, a);
    BalanceKeys(members, a);
    BalanceKeys(members, b);
    assert ma.Keys == mb.Keys;
    forall u | u in ma
      ensures ma[u] == mb[u]
    {
      BalanceIsNet(members, a, u);
      BalanceIsNet(members, b, u);
      NetPermutation(a, b, u);
    }
  }

  // ---------------------------------------------------------------------
  // Conservation: the balances add up to the entries' imbalance

  /** The sum of the balances of the distinct ids ks. */
  function SumOver(b: map<Id, int>, ks: seq<Id>): int
  {
    Sum((k: Id) => Get(b, k), ks)
  }

  lemma {:induction false} AdjustSum(b: map<Id, int>, u: Id, delta: int, ks: seq<Id>)
    requires NoDuplicates(ks)
    ensures SumOver(Adjust(b, u, delta), ks) == SumOver(b, ks) + (if u in ks then delta else 0)
    decreases |ks|
  {
    if ks != [] {
      var rest := ks[..|ks| - 1];
      assert ks == rest + [ks[|ks| - 1]];
      assert NoDuplicates(rest);
      AdjustSum(b, u, delta, rest);
    }
  }

  lemma {:induction false} ApplySplitsSum(b: map<Id, int>, splits: seq<Split>, ks: seq<Id>)
    requires NoDuplicates(ks)
    requires forall s :: s in splits ==> s.userId in ks
    ensures SumOver(ApplySplits(b, splits), ks) == SumOver(b, ks) - SumShares(splits)
    decreases |splits|
  {
    if splits != [] {
      var last := splits[|splits| - 1];
      ApplySplitsSum(b, splits[..|splits| - 1], ks);
      AdjustSum(ApplySplits(b, splits[..|splits| - 1]), last.userId, -last.share, ks);
    }
  }

  lemma {:induction false} ApplyEntriesSum(b: map<Id, int>, es: seq<Entry>, ks: seq<Id>)
    requires NoDuplicates(ks)
    requires Involved(es) <= set k | k in ks
    ensures SumOver(ApplyEntries(b, es), ks) == SumOver(b, ks) + Imbalance(es)
    decreases |es|
  {
    if es != [] {
      var rest := es[..|es| - 1];
      var e := es[|es| - 1];
      assert Involved(es) == Involved(rest) + EntryIds(e);
      assert e.paidBy in EntryIds(e);
      assert forall s :: s in e.splits ==> s.userId in EntryIds(e);
      ApplyEntriesSum(b, rest, ks);
      AdjustSum(ApplyEntries(b, rest), e.paidBy, e.amount, ks);
      ApplySplitsSum(Adjust(ApplyEntries(b, rest), e.paidBy, e.amount), e.splits, ks);
    }
  }

  lemma {:induction false} SumOverZero(b: map<Id, int>, ks: seq<Id>)
    requires forall k :: k in b ==> b[k] == 0
    ensures SumOver(b, ks) == 0
    decreases |ks|
  {
    if ks != [] {
      SumOverZero(b, ks[..|ks| - 1]);
    }
  }

  /** Summed over all the ids in the map, the balances equal the sum over the
      entries of amount minus the shares. */
  lemma {:induction false} Conservation(members: seq<Id>, es: seq<Entry>, ks: seq<Id>)
    requires NoDuplicates(ks)
    requires forall u :: u in BalancesOf(members, es) <==> u in ks
    ensures SumOver(BalancesOf(members, es), ks) == Imbalance(es)
  {
    BalanceKeys(members, es);
    assert Involved(es) <= set k | k in ks;
    ApplyEntriesSum(Zeroed(members), es, ks);
    SumOverZero(Zeroed(members), ks);
  }

  lemma {:induction false} ImbalanceOfExactSplits(es: seq<Entry>)
    requires forall e :: e in es ==> SumShares(e.splits) == e.amount
    ensures Imbalance(es) == 0
    decreases |es|
  {
    if es != [] {
      ImbalanceOfExactSplits(es[..|es| - 1]);
    }
  }

  /** When every entry's shares add up to its amount the balances sum to 0. */
  lemma {:induction false} ConservationExact(members: seq<Id>, es: seq<Entry>, ks: seq<Id>)
    requires NoDuplicates(ks)
    requires forall u :: u in BalancesOf(members, es) <==> u in ks
    requires forall e :: e in es ==> SumShares(e.splits) == e.amount
    ensures SumOver(BalancesOf(members, es), ks) == 0
  {
    Conservation(members, es, ks);
    ImbalanceOfExactSplits(es);
  }

  /** Shares accepted within the tolerance of one cent per entry leave the
      balances summing to at most one cent per entry away from 0. */
  lemma {:induction false} ImbalanceWithinTolerance(es: seq<Entry>)
    requires forall e :: e in es ==> -SplitTolerance <= e.amount - SumShares(e.splits) <= SplitTolerance
    ensures -SplitTolerance * |es| <= Imbalance(es) <= SplitTolerance * |es|
    decreases |es|
  {
    if es != [] {
      ImbalanceWithinTolerance(es[..|es| - 1]);
    }
  }

  /** A wallet payment entry (one split, to the payee, of the whole amount)
      raises the payer by the amount, lowers the payee by it, and leaves every
      other balance as it was. */
  lemma {:induction false} PaymentMovesBalance(b: map<Id, int>, e: Entry, payee: Id, u: Id)
    requires e.splits == [Split(payee, e.amount)] && e.paidBy != payee
    ensures Get(ApplyEntry(b, e), e.paidBy) == Get(b, e.paidBy) + e.amount
    ensures Get(ApplyEntry(b, e), payee) == Get(b, payee) - e.amount
    ensures u != e.paidBy && u != payee ==> Get(ApplyEntry(b, e), u) == Get(b, u)
  {
    var credited := Adjust(b, e.paidBy, e.amount);
    assert e.splits[..0] == [];
    assert ApplySplits(credited, e.splits)
        == Adjust(ApplySplits(credited, e.splits[..0]), payee, -e.amount);
  }
}
