/** `[...generatedEntries].sort((a, b) => b.votes - a.votes)` and
    `ranked[0]`: a stable sort by descending vote count, and the winner it
    yields. `Array.prototype.sort` has been required to be stable since
    ECMAScript 2019. */
module Ranking {
  import opened Entries

  /** Non-increasing in votes. */
  predicate SortedByVotes(s: seq<Entry>) {
    forall i, j :: 0 <= i < j < |s| ==> s[i].votes >= s[j].votes
  }

  /** The entries of `s` that have exactly `k` votes, in their order in `s`. */
  function WithVotes(s: seq<Entry>, k: nat): (r: seq<Entry>)
    ensures |r| <= |s|
  {
    if s == [] then []
    else (if s[0].votes == k then [s[0]] else []) + WithVotes(s[1..], k)
  }

  lemma {:induction false} WithVotesAppend(a: seq<Entry>, b: seq<Entry>, k: nat)
    ensures WithVotes(a + b, k) == WithVotes(a, k) + WithVotes(b, k)
  {
    if a == [] {
      assert a + b == b;
    } else {
      var head := if a[0].votes == k then [a[0]] else [];
      assert (a + b)[0] == a[0];
      assert (a + b)[1..] == a[1..] + b;
      WithVotesAppend(a[1..], b, k);
      calc {
        WithVotes(a + b, k);
        head + WithVotes(a[1..] + b, k);
        head + (WithVotes(a[1..], k) + WithVotes(b, k));
        (head + WithVotes(a[1..], k)) + WithVotes(b, k);
      }
    }
  }

  /** Every entry picked by `WithVotes` comes from `s` and has `k` votes. */
  lemma {:induction false} WithVotesMember(s: seq<Entry>, k: nat, e: Entry)
    requires e in WithVotes(s, k)
    ensures e in s && e.votes == k
  {
    if !(s[0] == e && s[0].votes == k) {
      WithVotesMember(s[1..], k, e);
    }
  }

  /** Prepending an entry with at least as many votes as the head keeps a
      sequence sorted. */
  lemma SortedCons(a: Entry, t: seq<Entry>)
    requires SortedByVotes(t)
    requires t == [] || a.votes >= t[0].votes
    ensures SortedByVotes([a] + t)
  {
    var u := [a] + t;
    forall i, j | 0 <= i < j < |u| ensures u[i].votes >= u[j].votes {
      if i == 0 && j > 1 {
        assert t[0].votes >= t[j - 1].votes;
      }
    }
  }

  lemma SortedTail(s: seq<Entry>)
    requires SortedByVotes(s) && s != []
    ensures SortedByVotes(s[1..])
    ensures |s| > 1 ==> s[0].votes >= s[1].votes
  {
  }

  /** `r` is what a stable descending sort of `s` returns: sorted, and for
      every vote count the entries having it keep their relative order. */
  ghost predicate IsStableRanking(s: seq<Entry>, r: seq<Entry>) {
    SortedByVotes(r) && forall k: nat :: WithVotes(r, k) == WithVotes(s, k)
  }

  /** Inserts `x` after the leading entries that have at least as many
      votes. */
  function Insert(x: Entry, r: seq<Entry>): (t: seq<Entry>)
    ensures |t| == |r| + 1
    ensures t[0] == x || (r != [] && t[0] == r[0])
  {
    if r == [] then [x]
    else if r[0].votes >= x.votes then [r[0]] + Insert(x, r[1..])
    else [x] + r
  }

  /** Inserting into a sorted sequence keeps it sorted and adds exactly
      `x`. */
  lemma InsertSortedPermutation(x: Entry, r: seq<Entry>)
    requires SortedByVotes(r)
    ensures SortedByVotes(Insert(x, r))
    ensures multiset(Insert(x, r)) == multiset(r) + multiset{x}
  {
    InsertSorted(x, r);
    InsertAddsOne(x, r);
  }

  lemma {:induction false} InsertSorted(x: Entry, r: seq<Entry>)
    requires SortedByVotes(r)
    ensures SortedByVotes(Insert(x, r))
  {
    if r == [] {
    } else if r[0].votes >= x.votes {
      SortedTail(r);
      InsertSorted(x, r[1..]);
      InsertUnfold(x, r);
      SortedCons(r[0], Insert(x, r[1..]));
    } else {
      SortedCons(x, r);
    }
  }

  lemma {:induction false} InsertAddsOne(x: Entry, r: seq<Entry>)
    ensures multiset(Insert(x, r)) == multiset(r) + multiset{x}
  {
    if r != [] && r[0].votes >= x.votes {
      InsertAddsOne(x, r[1..]);
      InsertUnfold(x, r);
      assert r == [r[0]] + r[1..];
    }
  }

  /** The ranking: an insertion sort of the entries by descending votes,
      inserting from the last entry back. */
  function Rank(s: seq<Entry>): (r: seq<Entry>)
    ensures |r| == |s|
  {
    if s == [] then [] else Insert(s[|s| - 1], Rank(s[..|s| - 1]))
  }

  /** The ranking is sorted and a permutation of the entries. */
  lemma {:induction false} RankSortedPermutation(s: seq<Entry>)
    ensures SortedByVotes(Rank(s))
    ensures multiset(Rank(s)) == multiset(s)
  {
    if s != [] {
      RankSortedPermutation(s[..|s| - 1]);
      RankUnfold(s);
      InsertSortedPermutation(s[|s| - 1], Rank(s[..|s| - 1]));
      SplitLast(s);
    }
  }

  lemma {:induction false} InsertKeepsEqualsInOrder(x: Entry, r: seq<Entry>, k: nat)
    requires SortedByVotes(r)
    ensures WithVotes(Insert(x, r), k) == WithVotes(r, k) + (if x.votes == k then [x] else [])
  {
    if r == [] {
      WithVotesCons(x, [], k);
    } else if r[0].votes >= x.votes {
      SortedTail(r);
      InsertKeepsEqualsInOrder(x, r[1..], k);
      InsertBehindHead(x, r, k);
    } else {
      InsertInFront(x, r, k);
    }
  }

  lemma InsertBehindHead(x: Entry, r: seq<Entry>, k: nat)
    requires SortedByVotes(r) && r != [] && r[0].votes >= x.votes
    requires WithVotes(Insert(x, r[1..]), k) == WithVotes(r[1..], k) + (if x.votes == k then [x] else [])
    ensures WithVotes(Insert(x, r), k) == WithVotes(r, k) + (if x.votes == k then [x] else [])
  {
    InsertUnfold(x, r);
    ConsKeepsClassStep(r[0], Insert(x, r[1..]), r[1..], if x.votes == k then [x] else [], k);
    assert [r[0]] + r[1..] == r;
  }

  /** If `rest` has the class of `t` followed by `tail`, putting the same
      entry in front of both keeps that relation. */
  lemma ConsKeepsClassStep(e: Entry, rest: seq<Entry>, t: seq<Entry>, tail: seq<Entry>, k: nat)
    requires WithVotes(rest, k) == WithVotes(t, k) + tail
    ensures WithVotes([e] + rest, k) == WithVotes([e] + t, k) + tail
  {
    var head := if e.votes == k then [e] else [];
    WithVotesCons(e, rest, k);
    WithVotesCons(e, t, k);
    ConcatAssociative(head, WithVotes(t, k), tail);
  }

  lemma ConcatAssociative<T>(a: seq<T>, b: seq<T>, c: seq<T>)
    ensures a + (b + c) == (a + b) + c
  {
  }

  lemma InsertUnfold(x: Entry, r: seq<Entry>)
    requires r != [] && r[0].votes >= x.votes
    ensures Insert(x, r) == [r[0]] + Insert(x, r[1..])
  {
  }

  lemma InsertInFront(x: Entry, r: seq<Entry>, k: nat)
    requires SortedByVotes(r) && r != [] && r[0].votes < x.votes
    ensures WithVotes(Insert(x, r), k) == WithVotes(r, k) + (if x.votes == k then [x] else [])
  {
    assert Insert(x, r) == [x] + r;
    WithVotesCons(x, r, k);
    if x.votes == k {
      forall i | 0 <= i < |r| ensures r[i].votes != k {
        assert r[0].votes >= r[i].votes;
      }
      NoneWithVotes(r, k);
    }
  }

  lemma WithVotesCons(e: Entry, t: seq<Entry>, k: nat)
    ensures WithVotes([e] + t, k) == (if e.votes == k then [e] else []) + WithVotes(t, k)
  {
    assert ([e] + t)[0] == e;
    assert ([e] + t)[1..] == t;
  }

  lemma {:induction false} NoneWithVotes(s: seq<Entry>, k: nat)
    requires forall i :: 0 <= i < |s| ==> s[i].votes != k
    ensures WithVotes(s, k) == []
  {
    if s != [] {
      NoneWithVotes(s[1..], k);
    }
  }

  /** The ranking is stable. */
  lemma {:induction false} RankIsStable(s: seq<Entry>)
    ensures IsStableRanking(s, Rank(s))
  {
    RankSortedPermutation(s);
    forall k: nat ensures WithVotes(Rank(s), k) == WithVotes(s, k) {
      RankKeepsEqualsInOrder(s, k);
    }
  }

  lemma {:induction false} RankKeepsEqualsInOrder(s: seq<Entry>, k: nat)
    ensures WithVotes(Rank(s), k) == WithVotes(s, k)
  {
    if s != [] {
      var init, last := s[..|s| - 1], s[|s| - 1];
      RankKeepsEqualsInOrder(init, k);
      RankSortedPermutation(init);
      RankUnfold(s);
      SplitLast(s);
      InsertAfterClasses(init, last, Rank(init), k);
    }
  }

  /** Inserting the last entry into a sorted sequence with the classes of
      the others gives the classes of the whole. */
  lemma InsertAfterClasses(init: seq<Entry>, last: Entry, r: seq<Entry>, k: nat)
    requires SortedByVotes(r)
    requires WithVotes(r, k) == WithVotes(init, k)
    ensures WithVotes(Insert(last, r), k) == WithVotes(init + [last], k)
  {
    InsertKeepsEqualsInOrder(last, r, k);
    WithVotesSnoc(init, last, k);
  }

  lemma WithVotesSnoc(s: seq<Entry>, e: Entry, k: nat)
    ensures WithVotes(s + [e], k) == WithVotes(s, k) + (if e.votes == k then [e] else [])
  {
    WithVotesCons(e, [], k);
    assert [e] + [] == [e];
    WithVotesAppend(s, [e], k);
  }

  lemma RankUnfold(s: seq<Entry>)
    requires s != []
    ensures Rank(s) == Insert(s[|s| - 1], Rank(s[..|s| - 1]))
  {
  }

  lemma SplitLast<T>(s: seq<T>)
    requires s != []
    ensures s == s[..|s| - 1] + [s[|s| - 1]]
  {
  }

  /** A stable descending sort has exactly one possible result, so `Rank`
      is what `Array.prototype.sort` returns for this comparator. */
  lemma {:induction false} StableRankingUnique(s: seq<Entry>, a: seq<Entry>, b: seq<Entry>)
    requires IsStableRanking(s, a) && IsStableRanking(s, b)
    ensures a == b
  {
    SameClassesSameSorted(a, b);
  }

  lemma {:induction false} SameClassesSameSorted(a: seq<Entry>, b: seq<Entry>)
    requires SortedByVotes(a) && SortedByVotes(b)
    requires forall k: nat :: WithVotes(a, k) == WithVotes(b, k)
    ensures a == b
  {
    if a == [] && b != [] {
      HeadClassNonEmpty(b);
      assert false;
    } else if a != [] && b == [] {
      HeadClassNonEmpty(a);
      assert false;
    } else if a != [] {
      HeadVotesBound(a, b);
      HeadVotesBound(b, a);
      SameHead(a, b);
      TailsShareClasses(a, b);
      SameClassesSameSorted(a[1..], b[1..]);
    }
  }

  /** With the same classes, the head of `a` cannot have more votes than
      the head of the sorted `b`: it occurs in `b`. */
  lemma HeadVotesBound(a: seq<Entry>, b: seq<Entry>)
    requires a != [] && SortedByVotes(b)
    requires forall k: nat :: WithVotes(a, k) == WithVotes(b, k)
    ensures b != [] && a[0].votes <= b[0].votes
  {
    var m := a[0].votes;
    WithVotesCons(a[0], a[1..], m);
    assert a == [a[0]] + a[1..];
    assert a[0] in WithVotes(b, m);
    WithVotesMember(b, m, a[0]);
    SortedHeadIsMax(b, a[0]);
  }

  lemma SortedHeadIsMax(s: seq<Entry>, e: Entry)
    requires SortedByVotes(s) && e in s
    ensures e.votes <= s[0].votes
  {
    var i :| 0 <= i < |s| && s[i] == e;
    assert s[0].votes >= s[i].votes;
  }

  /** Equal head vote counts and equal classes force equal heads: each head
      is the first member of its class. */
  lemma SameHead(a: seq<Entry>, b: seq<Entry>)
    requires a != [] && b != [] && a[0].votes == b[0].votes
    requires forall k: nat :: WithVotes(a, k) == WithVotes(b, k)
    ensures a[0] == b[0]
  {
    var m := a[0].votes;
    assert a == [a[0]] + a[1..] && b == [b[0]] + b[1..];
    WithVotesCons(a[0], a[1..], m);
    WithVotesCons(b[0], b[1..], m);
    assert a[0] == WithVotes(a, m)[0] == WithVotes(b, m)[0] == b[0];
  }

  /** Removing a common head keeps the classes equal. */
  lemma TailsShareClasses(a: seq<Entry>, b: seq<Entry>)
    requires a != [] && b != [] && a[0] == b[0]
    requires forall k: nat :: WithVotes(a, k) == WithVotes(b, k)
    ensures forall k: nat :: WithVotes(a[1..], k) == WithVotes(b[1..], k)
  {
    assert a == [a[0]] + a[1..] && b == [b[0]] + b[1..];
    forall k: nat ensures WithVotes(a[1..], k) == WithVotes(b[1..], k) {
      WithVotesCons(a[0], a[1..], k);
      WithVotesCons(b[0], b[1..], k);
      var x, y := WithVotes(a[1..], k), WithVotes(b[1..], k);
      assert WithVotes(a, k) == WithVotes(b, k);
      if k == a[0].votes {
        assert ([a[0]] + x)[1..] == x;
        assert ([b[0]] + y)[1..] == y;
      } else {
        assert [] + x == x && [] + y == y;
      }
    }
  }

  lemma HeadClassNonEmpty(s: seq<Entry>)
    ensures s != [] ==> WithVotes(s, s[0].votes) != []
  {
  }

  /** `w` is the first position holding the largest vote count. */
  predicate IsFirstMax(s: seq<Entry>, w: nat) {
    && w < |s|
    && (forall j :: 0 <= j < |s| ==> s[j].votes <= s[w].votes)
    && (forall j :: 0 <= j < w ==> s[j].votes < s[w].votes)
  }

  /** An independent reference for the winner: a left-to-right scan that
      only replaces its candidate on a strictly larger count. */
  function FirstMax(s: seq<Entry>): (w: nat)
    requires |s| > 0
    ensures IsFirstMax(s, w)
  {
    if |s| == 1 then 0
    else
      var w := FirstMax(s[..|s| - 1]);
      if s[|s| - 1].votes > s[w].votes then |s| - 1 else w
  }

  /** The winner `ranked[0]` is the first entry, in submission order, among
      those with the most votes. */
  lemma RankHeadIsFirstMax(s: seq<Entry>, w: nat)
    requires IsFirstMax(s, w)
    ensures Rank(s) != [] && Rank(s)[0] == s[w]
  {
    var r := Rank(s);
    var m := s[w].votes;
    RankSortedPermutation(s);
    assert r[0].votes <= m by {
      assert r[0] in multiset(s);
      var j :| 0 <= j < |s| && s[j] == r[0];
    }
    assert r[0].votes >= m by {
      assert s[w] in multiset(r);
      var i :| 0 <= i < |r| && r[i] == s[w];
      assert r[0].votes >= r[i].votes;
    }
    RankKeepsEqualsInOrder(s, m);
    FirstOfClass(r, 0, m);
    FirstOfClass(s, w, m);
  }

  /** The first entry with `k` votes heads the class of `k`. */
  lemma {:induction false} FirstOfClass(s: seq<Entry>, w: nat, k: nat)
    requires w < |s| && s[w].votes == k
    requires forall j :: 0 <= j < w ==> s[j].votes != k
    ensures WithVotes(s, k) != [] && WithVotes(s, k)[0] == s[w]
  {
    WithVotesCons(s[0], s[1..], k);
    assert s == [s[0]] + s[1..];
    if w > 0 {
      FirstOfClass(s[1..], w - 1, k);
    }
  }

  /** Whatever stable sort produced it, a ranking starts with the first
      entry holding the most votes. */
  lemma StableRankingHead(s: seq<Entry>, r: seq<Entry>)
    requires |s| > 0
    requires IsStableRanking(s, r)
    ensures |r| > 0 && r[0] == s[FirstMax(s)]
  {
    RankIsStable(s);
    StableRankingUnique(s, r, Rank(s));
    RankHeadIsFirstMax(s, FirstMax(s));
  }
}
