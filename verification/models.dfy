/** The `Question` record and the publication rule that decides its visibility and recency. */
module Models {
  import opened Time

  /** A stored poll question; `pubDate` is the instant (in seconds) it becomes public. */
  datatype Question = Question(id: nat, text: string, pubDate: int)

  /** A question is public once its publication instant is not after `now`. */
  predicate IsVisible(pubDate: int, now: int) {
    pubDate <= now
  }

  /**
   * Published within the last day, and not in the future. The lower end of the
   * window is exclusive: a question exactly one day old is no longer recent.
   */
  function WasPublishedRecently(pubDate: int, now: int): (recent: bool)
    ensures pubDate > now ==> !recent
    ensures now - Day < pubDate <= now ==> recent
    ensures pubDate <= now - Day ==> !recent
    ensures recent ==> IsVisible(pubDate, now)
  {
    now - Day < pubDate <= now
  }

  /** The question the test helper creates: `days` whole days from `now`, future when positive. */
  function CreateQuestion(id: nat, text: string, days: int, now: int): (q: Question)
    ensures q.id == id && q.text == text
    ensures IsVisible(q.pubDate, now) <==> days <= 0
    ensures (q.pubDate - now) % Day == 0 && (q.pubDate - now) / Day == days
    ensures forall d :: Offset(now, d) < q.pubDate <==> d < days
  {
    Question(id, text, Offset(now, days))
  }

  /** The store's primary-key invariant: no two stored questions share an id. */
  predicate DistinctIds(qs: seq<Question>) {
    forall i, j :: 0 <= i < j < |qs| ==> qs[i].id != qs[j].id
  }
}
