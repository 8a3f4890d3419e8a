/** The balance summary ("who owes whom") of the group detail view: for every
    pair i < j of members in list order, one suggestion when one balance is
    positive and the other negative, the negative one owing the positive one
    the smaller of the two magnitudes. */
module Settlement {

  import opened Model
  import opened Balances

  /** One "debtor owes creditor amount" line of balanceSummary. */
  datatype Suggestion = Suggestion(debtor: Id, creditor: Id, amount: int)

  /** A pair of positions in the member list. */
  datatype Pair = Pair(i: nat, j: nat)

  function Min(x: int, y: int): int
  {
    if x <= y then x else y
  }

  predicate InRange(p: Pair, n: nat)
  {
    p.i < p.j < n
  }

  /** What the loop body pushes for the pair (i, j). */
  function PairEntry(members: seq<Id>, b: map<Id, int>, i: nat, j: nat): seq<Suggestion>
    requires i < j < |members|
  {
    var b1 := Get(b, members[i]);
    var b2 := Get(b, members[j]);
    if b1 > 0 && b2 < 0 then [Suggestion(members[j], members[i], Min(b1, -b2))]
    else if b2 > 0 && b1 < 0 then [Suggestion(members[i], members[j], Min(b2, -b1))]
    else []
  }

  /** What the inner loop for row i has pushed once it reaches j. */
  function RowEntries(members: seq<Id>, b: map<Id, int>, i: nat, j: nat): seq<Suggestion>
    requires i < j <= |members|
    decreases j
  {
    if j == i + 1 then [] else RowEntries(members, b, i, j - 1) + PairEntry(members, b, i, j - 1)
  }

  /** What the outer loop has pushed once it reaches row i. */
  function EntriesBelow(members: seq<Id>, b: map<Id, int>, i: nat): seq<Suggestion>
    requires i <= |members|
  {
    if i == 0 then [] else EntriesBelow(members, b, i - 1) + RowEntries(members, b, i - 1, |members|)
  }

  /** balanceSummary for these members and balances. */
  function Summary(members: seq<Id>, b: map<Id, int>): seq<Suggestion>
  {
    EntriesBelow(members, b, |members|)
  }

  /** The double for loop of the detail view, pushing onto the summary. */
  method BalanceSummary(members: seq<Id>, b: map<Id, int>) returns (summary: seq<Suggestion>)
    ensures summary == Summary(members, b)
  {
    var n := |members|;
    summary := [];
    for i := 0 to n
      invariant summary == EntriesBelow(members, b, i)
    {
      ghost var above := summary;
      for j := i + 1 to n
        invariant summary == above + RowEntries(members, b, i, j)
      {
        var b1 := Get(b, members[i]);
        var b2 := Get(b, members[j]);
        if b1 > 0 && b2 < 0 {
          summary := summary + [Suggestion(members[j], members[i], Min(b1, -b2))];
        } else if b2 > 0 && b1 < 0 {
          summary := summary + [Suggestion(members[i], members[j], Min(b2, -b1))];
        }
      }
    }
  }

  // ---------------------------------------------------------------------
  // What the summary contains

  /** The pairs for which a suggestion is emitted: opposite strict signs. */
  predicate Emits(members: seq<Id>, b: map<Id, int>, p: Pair)
  {
    && InRange(p, |members|)
    && var b1, b2 := Get(b, members[p.i]), Get(b, members[p.j]);
       (b1 > 0 && b2 < 0) || (b2 > 0 && b1 < 0)
  }

  /** The one suggestion emitted for such a pair: the member with the
      negative balance owes the other the smaller magnitude. */
  function SuggestionAt(members: seq<Id>, b: map<Id, int>, p: Pair): (s: Suggestion)
    requires Emits(members, b, p)
    ensures {s.debtor, s.creditor} == {members[p.i], members[p.j]} && s.debtor != s.creditor
    ensures Get(b, s.debtor) < 0 < Get(b, s.creditor)
    ensures 0 < s.amount && s.amount <= -Get(b, s.debtor) && s.amount <= Get(b, s.creditor)
    ensures s.amount == -Get(b, s.debtor) || s.amount == Get(b, s.creditor)
    ensures PairEntry(members, b, p.i, p.j) == [s]
  {
    PairEntry(members, b, p.i, p.j)[0]
  }

  /** The emitting pairs (i, k) with k < j, in visiting order. */
  function EmittedRow(members: seq<Id>, b: map<Id, int>, i: nat, j: nat): seq<Pair>
    requires i < j <= |members|
    decreases j
  {
    if j == i + 1 then []
    else
      var p := Pair(i, j - 1);
      EmittedRow(members, b, i, j - 1) + (if Emits(members, b, p) then [p] else [])
  }

  /** The emitting pairs whose first position is below i, in visiting order. */
  function EmittedBelow(members: seq<Id>, b: map<Id, int>, i: nat): seq<Pair>
    requires i <= |members|
  {
    if i == 0 then [] else EmittedBelow(members, b, i - 1) + EmittedRow(members, b, i - 1, |members|)
  }

  /** All emitting pairs, in the order of the two nested loops. */
  function EmittedPairs(members: seq<Id>, b: map<Id, int>): seq<Pair>
  {
    EmittedBelow(members, b, |members|)
  }

  /** s holds exactly the suggestions of the pairs ps, in the same order. */
  predicate Describes(members: seq<Id>, b: map<Id, int>, s: seq<Suggestion>, ps: seq<Pair>)
  {
    && |s| == |ps|
    && forall k :: 0 <= k < |ps| ==>
         Emits(members, b, ps[k]) && s[k] == SuggestionAt(members, b, ps[k])
  }

  lemma DescribesAppend(members: seq<Id>, b: map<Id, int>,
                        s1: seq<Suggestion>, p1: seq<Pair>, s2: seq<Suggestion>, p2: seq<Pair>)
    requires Describes(members, b, s1, p1) && Describes(members, b, s2, p2)
    ensures Describes(members, b, s1 + s2, p1 + p2)
  {
    forall k | 0 <= k < |p1 + p2|
      ensures Emits(members, b, (p1 + p2)[k]) && (s1 + s2)[k] == SuggestionAt(members, b, (p1 + p2)[k])
    {
      if k < |p1| {
        assert (p1 + p2)[k] == p1[k] && (s1 + s2)[k] == s1[k];
      } else {
        assert (p1 + p2)[k] == p2[k - |p1|] && (s1 + s2)[k] == s2[k - |s1|];
      }
    }
  }

  /** What the loop pushes for one pair is that pair's suggestion, or nothing. */
  lemma PairDescribed(members: seq<Id>, b: map<Id, int>, p: Pair)
    requires InRange(p, |members|)
    ensures Describes(members, b, PairEntry(members, b, p.i, p.j),
                      if Emits(members, b, p) then [p] else [])
  {
    if Emits(members, b, p) {
      assert PairEntry(members, b, p.i, p.j) == [SuggestionAt(members, b, p)];
    }
  }

  lemma {:induction false} RowDescribed(members: seq<Id>, b: map<Id, int>, i: nat, j: nat)
    requires i < j <= |members|
    ensures Describes(members, b, RowEntries(members, b, i, j), EmittedRow(members, b, i, j))
    decreases j
  {
    if j > i + 1 {
      var p := Pair(i, j - 1);
      RowDescribed(members, b, i, j - 1);
      PairDescribed(members, b, p);
      DescribesAppend(members, b, RowEntries(members, b, i, j - 1), EmittedRow(members, b, i, j - 1),
                      PairEntry(members, b, i, j - 1), if Emits(members, b, p) then [p] else []);
    }
  }

  lemma {:induction false} BelowDescribed(members: seq<Id>, b: map<Id, int>, i: nat)
    requires i <= |members|
    ensures Describes(members, b, EntriesBelow(members, b, i), EmittedBelow(members, b, i))
    decreases i
  {
    if i > 0 {
      var n := |members|;
      BelowDescribed(members, b, i - 1);
      RowDescribed(members, b, i - 1, n);
      DescribesAppend(members, b, EntriesBelow(members, b, i - 1), EmittedBelow(members, b, i - 1),
                      RowEntries(members, b, i - 1, n), EmittedRow(members, b, i - 1, n));
    }
  }

  /** One suggestion per emitting pair, in visiting order, each the member
      with the negative balance owing the other the smaller magnitude; and
      every suggestion comes from an emitting pair. */
  lemma SummaryEntries(members: seq<Id>, b: map<Id, int>)
    ensures Describes(members, b, Summary(members, b), EmittedPairs(members, b))
  {
    BelowDescribed(members, b, |members|);
  }

  lemma {:induction false} RowComplete(members: seq<Id>, b: map<Id, int>, i: nat, j: nat, k: nat)
    requires i < k < j <= |members| && Emits(members, b, Pair(i, k))
    ensures Pair(i, k) in EmittedRow(members, b, i, j)
    decreases j
  {
    if k < j - 1 {
      RowComplete(members, b, i, j - 1, k);
    }
  }

  lemma {:induction false} BelowComplete(members: seq<Id>, b: map<Id, int>, i: nat, p: Pair)
    requires i <= |members| && p.i < i && Emits(members, b, p)
    ensures p in EmittedBelow(members, b, i)
    decreases i
  {
    var below, row := EmittedBelow(members, b, i - 1), EmittedRow(members, b, i - 1, |members|);
    assert EmittedBelow(members, b, i) == below + row;
    if p.i < i - 1 {
      BelowComplete(members, b, i - 1, p);
      assert p in below;
    } else {
      RowComplete(members, b, i - 1, |members|, p.j);
      assert p in row;
    }
  }

  /** Every pair i < j with strictly opposite signs gets its suggestion. */
  lemma SummaryComplete(members: seq<Id>, b: map<Id, int>, p: Pair)
    requires Emits(members, b, p)
    ensures p in EmittedPairs(members, b)
  {
    BelowComplete(members, b, |members|, p);
  }

  predicate LexLess(p: Pair, q: Pair)
  {
    p.i < q.i || (p.i == q.i && p.j < q.j)
  }

  predicate StrictlyIncreasing(ps: seq<Pair>)
  {
    forall k, l :: 0 <= k < l < |ps| ==> LexLess(ps[k], ps[l])
  }

  lemma IncreasingAppend(a: seq<Pair>, r: seq<Pair>)
    requires StrictlyIncreasing(a) && StrictlyIncreasing(r)
    requires forall k, l :: 0 <= k < |a| && 0 <= l < |r| ==> LexLess(a[k], r[l])
    ensures StrictlyIncreasing(a + r)
  {
    forall k, l | 0 <= k < l < |a + r| ensures LexLess((a + r)[k], (a + r)[l]) {
      if l < |a| {
        assert (a + r)[k] == a[k] && (a + r)[l] == a[l];
      } else if k < |a| {
        assert (a + r)[k] == a[k] && (a + r)[l] == r[l - |a|];
      } else {
        assert (a + r)[k] == r[k - |a|] && (a + r)[l] == r[l - |a|];
      }
    }
  }

  lemma {:induction false} RowOrdered(members: seq<Id>, b: map<Id, int>, i: nat, j: nat)
    requires i < j <= |members|
    ensures var r := EmittedRow(members, b, i, j);
      && (forall k :: 0 <= k < |r| ==> r[k].i == i && r[k].j < j)
      && StrictlyIncreasing(r)
    decreases j
  {
    if j > i + 1 {
      RowOrdered(members, b, i, j - 1);
      var p := Pair(i, j - 1);
      IncreasingAppend(EmittedRow(members, b, i, j - 1), if Emits(members, b, p) then [p] else []);
    }
  }

  lemma {:induction false} BelowOrdered(members: seq<Id>, b: map<Id, int>, i: nat)
    requires i <= |members|
    ensures var r := EmittedBelow(members, b, i);
      && (forall k :: 0 <= k < |r| ==> r[k].i < i)
      && StrictlyIncreasing(r)
    decreases i
  {
    if i > 0 {
      BelowOrdered(members, b, i - 1);
      RowOrdered(members, b, i - 1, |members|);
      IncreasingAppend(EmittedBelow(members, b, i - 1), EmittedRow(members, b, i - 1, |members|));
    }
  }

  /** The suggestions follow the lexicographic order of (i, j), so no pair
      is reported twice. */
  lemma SummaryOrdered(members: seq<Id>, b: map<Id, int>)
    ensures StrictlyIncreasing(EmittedPairs(members, b))
  {
    BelowOrdered(members, b, |members|);
  }

  lemma {:induction false} RowCount(members: seq<Id>, b: map<Id, int>, i: nat, j: nat)
    requires i < j <= |members|
    ensures |EmittedRow(members, b, i, j)| <= j - i - 1
    decreases j
  {
    if j > i + 1 {
      RowCount(members, b, i, j - 1);
    }
  }

  /** The number of pairs (r, k) with r < i and r < k < n. */
  function PairCount(i: nat, n: nat): nat
    requires i <= n
  {
    if i == 0 then 0 else PairCount(i - 1, n) + (n - i)
  }

  lemma {:induction false} PairCountClosed(i: nat, n: nat)
    requires i <= n
    ensures 2 * PairCount(i, n) == i * (2 * n - i - 1)
    decreases i
  {
    if i > 0 {
      PairCountClosed(i - 1, n);
      assert (i - 1) * (2 * n - i) == i * (2 * n - i) - (2 * n - i);
      assert i * (2 * n - i) == i * (2 * n - i - 1) + i;
    }
  }

  lemma {:induction false} BelowCount(members: seq<Id>, b: map<Id, int>, i: nat)
    requires i <= |members|
    ensures |EmittedBelow(members, b, i)| <= PairCount(i, |members|)
    decreases i
  {
    if i > 0 {
      BelowCount(members, b, i - 1);
      RowCount(members, b, i - 1, |members|);
    }
  }

  /** At most n(n-1)/2 suggestions for n members. */
  lemma SummaryBound(members: seq<Id>, b: map<Id, int>)
    ensures 2 * |Summary(members, b)| <= |members| * (|members| - 1)
  {
    var n := |members|;
    SummaryEntries(members, b);
    BelowCount(members, b, n);
    PairCountClosed(n, n);
  }

  /** Three members with balances +30, -10 and -20, in that order: the two
      others each owe the first their whole debt. */
  lemma ThreeMembersExample()
    ensures Summary(["A", "B", "C"], map["A" := 30, "B" := -10, "C" := -20])
         == [Suggestion("B", "A", 10), Suggestion("C", "A", 20)]
  {
    var members, b := ["A", "B", "C"], map["A" := 30, "B" := -10, "C" := -20];
    assert RowEntries(members, b, 0, 3) == [Suggestion("B", "A", 10), Suggestion("C", "A", 20)];
    assert RowEntries(members, b, 1, 3) == [];
    assert RowEntries(members, b, 2, 3) == [];
  }
}
