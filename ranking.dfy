/**
 Ranking of (name, votes) entries by vote count, as both the dashboard and the
 scraper do it: a stable sort in descending order of votes, followed by
 keeping at most the first N entries of the sorted list. A stable sort keeps
 entries with equal vote counts in their input order.
 */
module Ranking {

  /** One named count: a leaderboard row or an entity's latest cumulative count. */
  datatype Entry = Entry(name: string, votes: int)

  /** Votes never increase from left to right. */
  predicate NonIncreasing(s: seq<Entry>) {
    forall i, j :: 0 <= i < j < |s| ==> s[i].votes >= s[j].votes
  }

  /** The entries of `s` whose count is `v`, in their order in `s`. */
  function WithVotes(s: seq<Entry>, v: int): seq<Entry> {
    if s == [] then []
    else (if s[0].votes == v then [s[0]] else []) + WithVotes(s[1..], v)
  }

  /** The names of `s`, in order. */
  function Names(s: seq<Entry>): (r: seq<string>)
    ensures |r| == |s|
    ensures forall i :: 0 <= i < |s| ==> r[i] == s[i].name
  {
    seq(|s|, i requires 0 <= i < |s| => s[i].name)
  }

  /** Places `e` in front of the first entry whose count is not larger than its own. */
  function Insert(e: Entry, s: seq<Entry>): seq<Entry> {
    if s == [] || s[0].votes <= e.votes then [e] + s
    else [s[0]] + Insert(e, s[1..])
  }

  /** Stable sort by votes, largest first. */
  function SortByVotesDesc(s: seq<Entry>): seq<Entry> {
    if s == [] then [] else Insert(s[0], SortByVotesDesc(s[1..]))
  }

  /** The first n entries of the stable descending sort, or all of them when there are fewer. */
  function Top(s: seq<Entry>, n: nat): seq<Entry> {
    var sorted := SortByVotesDesc(s);
    sorted[..if n < |sorted| then n else |sorted|]
  }

  lemma {:induction false} WithVotesConcat(a: seq<Entry>, b: seq<Entry>, v: int)
    ensures WithVotes(a + b, v) == WithVotes(a, v) + WithVotes(b, v)
  {
    if a == [] {
      assert a + b == b;
    } else {
      assert (a + b)[1..] == a[1..] + b;
      WithVotesConcat(a[1..], b, v);
    }
  }

  lemma {:induction false} WithVotesMembers(s: seq<Entry>, v: int)
    ensures forall x :: x in WithVotes(s, v) <==> x in s && x.votes == v
  {
    if s != [] {
      WithVotesMembers(s[1..], v);
      assert s == [s[0]] + s[1..];
    }
  }

  lemma {:induction false} InsertPermutes(e: Entry, s: seq<Entry>)
    ensures multiset(Insert(e, s)) == multiset{e} + multiset(s)
  {
    if s != [] && s[0].votes > e.votes {
      InsertPermutes(e, s[1..]);
      assert s == [s[0]] + s[1..];
    }
  }

  lemma {:induction false} InsertOrders(e: Entry, s: seq<Entry>)
    requires NonIncreasing(s)
    ensures NonIncreasing(Insert(e, s))
  {
    if s != [] && s[0].votes > e.votes {
      var rest := Insert(e, s[1..]);
      InsertOrders(e, s[1..]);
      InsertPermutes(e, s[1..]);
      assert Insert(e, s) == [s[0]] + rest;
      // every entry of `rest` is `e` or an entry of `s[1..]`, all bounded by s[0]
      forall j | 0 <= j < |rest| ensures rest[j].votes <= s[0].votes {
        assert rest[j] in multiset(rest);
        assert rest[j] == e || rest[j] in multiset(s[1..]);
      }
    }
  }

  lemma {:induction false} InsertKeepsGroups(e: Entry, s: seq<Entry>, v: int)
    ensures WithVotes(Insert(e, s), v) == WithVotes([e] + s, v)
  {
    if s != [] && s[0].votes > e.votes {
      var rest := Insert(e, s[1..]);
      InsertKeepsGroups(e, s[1..], v);
      assert s == [s[0]] + s[1..];
      WithVotesConcat([s[0]], rest, v);
      WithVotesConcat([e], s[1..], v);
      WithVotesConcat([s[0]], s[1..], v);
      WithVotesConcat([e], s, v);
      // at most one of e and s[0] has count v
      assert WithVotes([s[0]], v) + WithVotes([e], v) == WithVotes([e], v) + WithVotes([s[0]], v);
    }
  }

  /** The sort orders by votes, permutes its input, and keeps equal counts in input order. */
  lemma {:induction false} SortIsStable(s: seq<Entry>)
    ensures NonIncreasing(SortByVotesDesc(s))
    ensures multiset(SortByVotesDesc(s)) == multiset(s)
    ensures forall v :: WithVotes(SortByVotesDesc(s), v) == WithVotes(s, v)
  {
    if s != [] {
      var rest := SortByVotesDesc(s[1..]);
      SortIsStable(s[1..]);
      InsertOrders(s[0], rest);
      InsertPermutes(s[0], rest);
      assert s == [s[0]] + s[1..];
      forall v ensures WithVotes(SortByVotesDesc(s), v) == WithVotes(s, v) {
        InsertKeepsGroups(s[0], rest, v);
        WithVotesConcat([s[0]], rest, v);
        WithVotesConcat([s[0]], s[1..], v);
      }
    }
  }

  lemma HeadHasGroup(s: seq<Entry>)
    requires s != []
    ensures WithVotes(s, s[0].votes) != []
  {
  }

  /**
   Any two orderings that are non-increasing and keep every group of equal
   counts in the same order are the same sequence: the stable descending sort
   is unique, so SortByVotesDesc is the order Python's stable sort produces.
   */
  lemma {:induction false} StableOrderUnique(a: seq<Entry>, b: seq<Entry>)
    requires NonIncreasing(a) && NonIncreasing(b)
    requires forall v :: WithVotes(a, v) == WithVotes(b, v)
    ensures a == b
  {
    if a == [] || b == [] {
      if a != [] { HeadHasGroup(a); }
      if b != [] { HeadHasGroup(b); }
    } else {
      WithVotesMembers(a, b[0].votes);
      WithVotesMembers(b, a[0].votes);
      assert b[0] in WithVotes(b, b[0].votes) by { WithVotesMembers(b, b[0].votes); }
      assert a[0] in WithVotes(a, a[0].votes) by { WithVotesMembers(a, a[0].votes); }
      assert a[0].votes == b[0].votes;
      var m := a[0].votes;
      assert a == [a[0]] + a[1..] && b == [b[0]] + b[1..];
      WithVotesConcat([a[0]], a[1..], m);
      WithVotesConcat([b[0]], b[1..], m);
      assert a[0] == WithVotes(a, m)[0] == WithVotes(b, m)[0] == b[0];
      forall v ensures WithVotes(a[1..], v) == WithVotes(b[1..], v) {
        WithVotesConcat([a[0]], a[1..], v);
        WithVotesConcat([b[0]], b[1..], v);
        var h := WithVotes([a[0]], v);
        assert h + WithVotes(a[1..], v) == h + WithVotes(b[1..], v);
        assert WithVotes(a[1..], v) == (h + WithVotes(a[1..], v))[|h|..];
      }
      StableOrderUnique(a[1..], b[1..]);
    }
  }

  lemma {:induction false} WithVotesPrefix(s: seq<Entry>, k: nat, v: int)
    requires k <= |s|
    ensures WithVotes(s[..k], v) <= WithVotes(s, v)
  {
    assert s == s[..k] + s[k..];
    WithVotesConcat(s[..k], s[k..], v);
  }

  /** The entries after position k of a non-increasing sequence are bounded by those before it. */
  lemma SuffixBounded(sorted: seq<Entry>, k: nat)
    requires NonIncreasing(sorted) && k <= |sorted|
    ensures forall x, y :: x in multiset(sorted[k..]) && y in sorted[..k] ==> x.votes <= y.votes
  {
  }

  /**
   The top-n selection: at most n entries (fewer exactly when the input is
   shorter), drawn from the input, largest counts first, ties in input order,
   and no entry left out has a larger count than one kept.
   */
  lemma TopSelects(s: seq<Entry>, n: nat)
    ensures |Top(s, n)| == if n < |s| then n else |s|
    ensures NonIncreasing(Top(s, n))
    ensures multiset(Top(s, n)) <= multiset(s)
    ensures forall x, y :: x in multiset(s) - multiset(Top(s, n)) && y in Top(s, n) ==> x.votes <= y.votes
    ensures forall v :: WithVotes(Top(s, n), v) <= WithVotes(s, v)
    ensures Top(s, n) <= SortByVotesDesc(s)
  {
    var sorted := SortByVotesDesc(s);
    SortIsStable(s);
    var k := if n < |sorted| then n else |sorted|;
    var top := sorted[..k];
    assert Top(s, n) == top;
    assert |sorted| == |s| by {
      assert |multiset(sorted)| == |multiset(s)|;
    }
    PrefixSplit(sorted, k);
    assert multiset(s) - multiset(top) == multiset(sorted[k..]);
    SuffixBounded(sorted, k);
    forall v ensures WithVotes(top, v) <= WithVotes(s, v) {
      WithVotesPrefix(sorted, k, v);
    }
  }

  lemma PrefixSplit(s: seq<Entry>, k: nat)
    requires k <= |s|
    ensures NonIncreasing(s) ==> NonIncreasing(s[..k])
    ensures multiset(s) - multiset(s[..k]) == multiset(s[k..])
    ensures multiset(s[..k]) <= multiset(s)
  {
    assert s == s[..k] + s[k..];
  }
}
