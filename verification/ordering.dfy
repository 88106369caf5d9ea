/** Ordering of questions by publication instant, most recent first. */
module Ordering {
  import opened Models

  /** Publication instants never increase along `s`; ties may appear in any order. */
  predicate NewestFirst(s: seq<Question>) {
    forall i, j :: 0 <= i < j < |s| ==> s[i].pubDate >= s[j].pubDate
  }

  /** `q` placed into the newest-first sequence `s`, ahead of everything not newer than it. */
  function Insert(q: Question, s: seq<Question>): (r: seq<Question>)
    requires NewestFirst(s)
    ensures NewestFirst(r)
    ensures multiset(r) == multiset(s) + multiset{q}
  {
    if s == [] || q.pubDate >= s[0].pubDate then
      [q] + s
    else
      var rest := Insert(q, s[1..]);
      assert s == [s[0]] + s[1..];
      forall y | y in rest
        ensures y.pubDate <= s[0].pubDate
      {
        assert y in multiset(rest);
        if y != q {
          assert y in multiset(s[1..]);
        }
      }
      PrependKeepsNewestFirst(s[0], rest);
      [s[0]] + rest
  }

  /** An element no older than everything in a newest-first sequence may head it. */
  lemma PrependKeepsNewestFirst(x: Question, s: seq<Question>)
    requires NewestFirst(s)
    requires forall y :: y in s ==> y.pubDate <= x.pubDate
    ensures NewestFirst([x] + s)
  {}

  /** `s` rearranged newest first. */
  function SortNewestFirst(s: seq<Question>): (r: seq<Question>)
    ensures NewestFirst(r)
    ensures multiset(r) == multiset(s)
  {
    if s == [] then []
    else
      assert s == [s[0]] + s[1..];
      Insert(s[0], SortNewestFirst(s[1..]))
  }
}
