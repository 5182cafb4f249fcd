/** The index page query, `IndexView.get_queryset`: questions published at or
    before the current time, newest first, at most five of them. The clock is
    a parameter. The database leaves the order of equal publication times
    open; this model keeps table order among them, and nothing proved below
    depends on that choice. */
module Listing {
  import opened Entities

  /** Length of the index page (the `[:5]` slice). */
  const IndexSize := 5

  function PubDate(q: Row<Question>): int {
    q.fields.pubDate
  }

  /** `filter(pub_date__lte=now)`: the rows of `t` published by `now`, each as
      often as it occurs in `t`. */
  function Published(t: seq<Row<Question>>, now: int): (r: seq<Row<Question>>)
    ensures forall q :: multiset(r)[q] == if PubDate(q) <= now then multiset(t)[q] else 0
    ensures multiset(r) <= multiset(t)
  {
    if |t| == 0 then []
    else
      assert t == [t[0]] + t[1..];
      (if PubDate(t[0]) <= now then [t[0]] else []) + Published(t[1..], now)
  }

  /** `order_by('-pub_date')`: non-increasing publication time. */
  predicate NewestFirst(s: seq<Row<Question>>) {
    forall i, j :: 0 <= i < j < |s| ==> PubDate(s[i]) >= PubDate(s[j])
  }

  function Insert(q: Row<Question>, s: seq<Row<Question>>): (r: seq<Row<Question>>)
    requires NewestFirst(s)
    ensures NewestFirst(r)
    ensures multiset(r) == multiset(s) + multiset{q}
    ensures |r| == |s| + 1 && (r[0] == q || (|s| > 0 && r[0] == s[0]))
  {
    if |s| == 0 || PubDate(s[0]) <= PubDate(q) then [q] + s
    else
      assert s == [s[0]] + s[1..];
      var rest := Insert(q, s[1..]);
      assert PubDate(s[0]) >= PubDate(rest[0]);
      [s[0]] + rest
  }

  function SortNewestFirst(s: seq<Row<Question>>): (r: seq<Row<Question>>)
    ensures NewestFirst(r)
    ensures multiset(r) == multiset(s)
  {
    if |s| == 0 then []
    else
      assert s == [s[0]] + s[1..];
      Insert(s[0], SortNewestFirst(s[1..]))
  }

  /** The index page: every listed question is a stored one published by
      `now`, there are at most five, and they come newest first. */
  function Latest(t: seq<Row<Question>>, now: int): (r: seq<Row<Question>>)
    ensures |r| <= IndexSize
    ensures forall k :: 0 <= k < |r| ==> PubDate(r[k]) <= now
    ensures NewestFirst(r)
    ensures multiset(r) <= multiset(t)
  {
    var s := SortNewestFirst(Published(t, now));
    var n := if |s| <= IndexSize then |s| else IndexSize;
    PrefixOfPublished(t, now, s, n);
    s[..n]
  }

  lemma PrefixOfPublished(t: seq<Row<Question>>, now: int, s: seq<Row<Question>>, n: nat)
    requires multiset(s) == multiset(Published(t, now)) && n <= |s|
    requires NewestFirst(s)
    ensures NewestFirst(s[..n])
    ensures forall k :: 0 <= k < n ==> PubDate(s[k]) <= now
    ensures multiset(s[..n]) <= multiset(t)
  {
    var p := Published(t, now);
    forall k | 0 <= k < n ensures PubDate(s[k]) <= now {
      assert s[k] in multiset(s);
      assert multiset(p)[s[k]] > 0;
    }
    PrefixSubMultiset(s, n);
  }

  lemma PrefixSubMultiset<T>(s: seq<T>, n: nat)
    requires n <= |s|
    ensures multiset(s[..n]) <= multiset(s)
  {
    assert s == s[..n] + s[n..];
  }

  /** The listed questions are the most recent ones: a question published by
      `now` that is left off the page (more of its copies stored than listed)
      is only left off because the page is full, and every listed question is
      at least as recent as it. In particular, with fewer than five published
      questions all of them are listed. */
  lemma LatestAreMostRecent(t: seq<Row<Question>>, now: int)
    ensures forall q :: PubDate(q) <= now && multiset(Latest(t, now))[q] < multiset(t)[q] ==>
              && |Latest(t, now)| == IndexSize
              && forall k :: 0 <= k < IndexSize ==> PubDate(Latest(t, now)[k]) >= PubDate(q)
  {
    var p := Published(t, now);
    var s := SortNewestFirst(p);
    var n := if |s| <= IndexSize then |s| else IndexSize;
    forall q | PubDate(q) <= now && multiset(Latest(t, now))[q] < multiset(t)[q]
      ensures |Latest(t, now)| == IndexSize
      ensures forall k :: 0 <= k < IndexSize ==> PubDate(Latest(t, now)[k]) >= PubDate(q)
    {
      assert multiset(p)[q] == multiset(t)[q];
      SortedPrefixIsMostRecent(s, n, q);
    }
  }

  /** Cutting a newest-first sequence after `n` entries leaves out only
      entries no more recent than the ones kept. */
  lemma SortedPrefixIsMostRecent(s: seq<Row<Question>>, n: nat, q: Row<Question>)
    requires NewestFirst(s) && n <= |s|
    requires multiset(s[..n])[q] < multiset(s)[q]
    ensures n < |s|
    ensures forall k :: 0 <= k < n ==> PubDate(s[k]) >= PubDate(q)
  {
    assert s == s[..n] + s[n..];
    assert multiset(s) == multiset(s[..n]) + multiset(s[n..]);
    assert q in multiset(s[n..]);
    var j :| n <= j < |s| && s[j] == q;
  }
}
