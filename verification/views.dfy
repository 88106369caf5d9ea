/**
 * The two read-only views over the question store: the index (latest visible
 * questions, newest first) and the detail page of one question, which answers
 * "not found" for a missing or not yet published question.
 */
module Views {
  import opened Wrappers
  import opened Models
  import opened Ordering

  /** The questions of `qs` that are public at `now`, in store order, with their multiplicities. */
  function Visible(qs: seq<Question>, now: int): (r: seq<Question>)
    ensures forall q :: q in r <==> q in qs && IsVisible(q.pubDate, now)
    ensures forall q :: multiset(r)[q] == if IsVisible(q.pubDate, now) then multiset(qs)[q] else 0
  {
    if qs == [] then []
    else
      assert qs == [qs[0]] + qs[1..];
      (if IsVisible(qs[0].pubDate, now) then [qs[0]] else []) + Visible(qs[1..], now)
  }

  /** The filter leaves a store whose questions are all public unchanged. */
  lemma {:induction false} VisibleKeepsPublishedStore(qs: seq<Question>, now: int)
    requires forall i :: 0 <= i < |qs| ==> IsVisible(qs[i].pubDate, now)
    ensures Visible(qs, now) == qs
  {
    if qs != [] {
      VisibleKeepsPublishedStore(qs[1..], now);
    }
  }

  /** The index list: exactly the public questions, most recently published first. */
  function LatestVisible(qs: seq<Question>, now: int): (r: seq<Question>)
    ensures forall q :: q in r ==> q in qs && IsVisible(q.pubDate, now)
    ensures forall q :: q in qs && IsVisible(q.pubDate, now) ==> q in r
    ensures NewestFirst(r)
    ensures multiset(r) == multiset(Visible(qs, now))
    ensures r == [] <==> forall q :: q in qs ==> !IsVisible(q.pubDate, now)
  {
    var v := Visible(qs, now);
    var r := SortNewestFirst(v);
    assert forall q :: q in r <==> q in multiset(v);
    r
  }

  /** The first stored question carrying `id`, if any. */
  function Lookup(qs: seq<Question>, id: nat): (r: Option<Question>)
    ensures r.Some? ==> r.value in qs && r.value.id == id
    ensures r.None? <==> forall q :: q in qs ==> q.id != id
  {
    if qs == [] then None
    else if qs[0].id == id then Some(qs[0])
    else Lookup(qs[1..], id)
  }

  /** The detail page of question `id`: `None` when it is missing or not yet published. */
  function Detail(qs: seq<Question>, id: nat, now: int): (r: Option<Question>)
    ensures r.Some? ==> r.value in qs && r.value.id == id && IsVisible(r.value.pubDate, now)
    ensures (forall q :: q in qs && q.id == id ==> !IsVisible(q.pubDate, now)) ==> r.None?
  {
    match Lookup(qs, id)
    case None => None
    case Some(q) => if IsVisible(q.pubDate, now) then Some(q) else None
  }

  /** With distinct ids, looking up a stored question's id finds that very question. */
  lemma LookupFindsStored(qs: seq<Question>, q: Question)
    requires DistinctIds(qs)
    requires q in qs
    ensures Lookup(qs, q.id) == Some(q)
  {}

  /** Every stored question is served by the detail page exactly when it is public. */
  lemma DetailServesVisible(qs: seq<Question>, q: Question, now: int)
    requires DistinctIds(qs)
    requires q in qs
    ensures Detail(qs, q.id, now) == Some(q) <==> IsVisible(q.pubDate, now)
    ensures Detail(qs, q.id, now) == None <==> !IsVisible(q.pubDate, now)
  {
    LookupFindsStored(qs, q);
  }

  /** The index and the detail page agree: a question is listed iff its detail page is served. */
  lemma IndexAgreesWithDetail(qs: seq<Question>, q: Question, now: int)
    requires DistinctIds(qs)
    requires q in qs
    ensures q in LatestVisible(qs, now) <==> Detail(qs, q.id, now) == Some(q)
  {
    DetailServesVisible(qs, q, now);
  }

  /** No two questions of `s` share a publication instant. */
  predicate DistinctDates(s: seq<Question>) {
    forall i, j :: 0 <= i < j < |s| ==> s[i].pubDate != s[j].pubDate
  }

  /**
   * Two newest-first arrangements of the same questions coincide when no two of
   * those questions were published at the same instant.
   */
  lemma {:induction false} NewestFirstUnique(a: seq<Question>, b: seq<Question>)
    requires NewestFirst(a) && NewestFirst(b)
    requires DistinctDates(a)
    requires multiset(a) == multiset(b)
    ensures a == b
  {
    assert |a| == |multiset(a)| == |multiset(b)| == |b|;
    if a != [] {
      SameNewest(a, b);
      Tails(a, b);
      NewestFirstUnique(a[1..], b[1..]);
      assert a == [a[0]] + a[1..] && b == [b[0]] + b[1..];
    }
  }

  /** Dropping a shared head keeps both arrangements newest first, equal as multisets, and `a` date-distinct. */
  lemma Tails(a: seq<Question>, b: seq<Question>)
    requires NewestFirst(a) && NewestFirst(b)
    requires DistinctDates(a)
    requires multiset(a) == multiset(b)
    requires a != [] && b != [] && a[0] == b[0]
    ensures NewestFirst(a[1..]) && NewestFirst(b[1..])
    ensures DistinctDates(a[1..])
    ensures multiset(a[1..]) == multiset(b[1..])
  {
    SameTailMultiset(a, b);
  }

  /** Sequences equal as multisets with the same head are equal as multisets after it. */
  lemma SameTailMultiset<T>(a: seq<T>, b: seq<T>)
    requires multiset(a) == multiset(b)
    requires a != [] && b != [] && a[0] == b[0]
    ensures multiset(a[1..]) == multiset(b[1..])
  {
    assert a == [a[0]] + a[1..] && b == [b[0]] + b[1..];
    assert multiset(a) == multiset{a[0]} + multiset(a[1..]);
    assert multiset(b) == multiset{a[0]} + multiset(b[1..]);
    forall x
      ensures multiset(a[1..])[x] == multiset(b[1..])[x]
    {
      assert multiset(a)[x] == multiset{a[0]}[x] + multiset(a[1..])[x];
      assert multiset(b)[x] == multiset{a[0]}[x] + multiset(b[1..])[x];
    }
  }

  /** Two nonempty newest-first arrangements of the same questions with distinct dates share their head. */
  lemma SameNewest(a: seq<Question>, b: seq<Question>)
    requires NewestFirst(a) && NewestFirst(b)
    requires DistinctDates(a)
    requires multiset(a) == multiset(b)
    requires a != [] && b != []
    ensures a[0] == b[0]
  {
    assert b[0] in multiset(a) && a[0] in multiset(b);
    var k :| 0 <= k < |a| && a[k] == b[0];
    var m :| 0 <= m < |b| && b[m] == a[0];
    assert a[0].pubDate >= a[k].pubDate;
    assert b[0].pubDate >= b[m].pubDate;
  }

  /**
   * An independent description of the index: when the public questions have
   * distinct publication instants, the index is the one newest-first
   * arrangement of them.
   */
  lemma LatestVisibleIsTheNewestFirstArrangement(qs: seq<Question>, now: int, s: seq<Question>)
    requires NewestFirst(s) && DistinctDates(s)
    requires forall q :: multiset(s)[q] == if IsVisible(q.pubDate, now) then multiset(qs)[q] else 0
    ensures LatestVisible(qs, now) == s
  {
    assert multiset(s) == multiset(Visible(qs, now)) by {
      forall q
        ensures multiset(s)[q] == multiset(Visible(qs, now))[q]
      {}
    }
    NewestFirstUnique(s, LatestVisible(qs, now));
  }
}
