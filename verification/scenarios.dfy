/**
 * The scenarios of the polls test suite, each stated for every instant `now`.
 * Question texts and ids are those the tests create.
 */
module Scenarios {
  import opened Time
  import opened Wrappers
  import opened Models
  import opened Views

  /** A question dated thirty days ahead is not recent. */
  lemma FutureQuestionIsNotRecent(now: int)
    ensures !WasPublishedRecently(now + Days(30), now)
  {}

  /** A question published 23 hours ago is recent. */
  lemma QuestionFrom23HoursAgoIsRecent(now: int)
    ensures WasPublishedRecently(now - 23 * Hour, now)
  {}

  /** A question published one day and one second ago is not recent. */
  lemma QuestionOlderThanADayIsNotRecent(now: int)
    ensures !WasPublishedRecently(now - (Day + Second), now)
  {}

  /** Where the window closes: the model's choice, not a tested behaviour. */
  lemma RecencyWindowEdges(now: int)
    ensures !WasPublishedRecently(now - Day, now)
    ensures WasPublishedRecently(now - Day + Second, now)
    ensures WasPublishedRecently(now, now)
  {}

  /** With no questions the index is empty. */
  lemma NoQuestions(now: int)
    ensures LatestVisible([], now) == []
  {}

  /** A future question is kept off the index. */
  lemma FutureQuestionNotListed(now: int)
    ensures LatestVisible([CreateQuestion(1, "future question", 30, now)], now) == []
  {}

  /** A past question is listed. */
  lemma PastQuestionListed(now: int)
    ensures var q := CreateQuestion(1, "past question", -10, now);
      LatestVisible([q], now) == [q]
  {}

  /** With one past and one future question only the past one is listed. */
  lemma FutureAndPastQuestion(now: int)
    ensures var past := CreateQuestion(1, "past question", -30, now);
      var future := CreateQuestion(2, "future question", 30, now);
      LatestVisible([past, future], now) == [past]
  {}

  /** Two published questions with distinct dates are listed newest first, in either store order. */
  lemma TwoPublishedNewestFirst(newer: Question, older: Question, now: int)
    requires older.pubDate < newer.pubDate <= now
    ensures LatestVisible([newer, older], now) == [newer, older]
    ensures LatestVisible([older, newer], now) == [newer, older]
  {
    VisibleKeepsPublishedStore([newer, older], now);
    VisibleKeepsPublishedStore([older, newer], now);
    assert multiset([older, newer]) == multiset([newer, older]);
    LatestVisibleIsTheNewestFirstArrangement([newer, older], now, [newer, older]);
    LatestVisibleIsTheNewestFirstArrangement([older, newer], now, [newer, older]);
  }

  /** Questions 30 and 40 days old are both listed, newest first, whatever order they were stored in. */
  lemma TwoPastQuestions(now: int)
    ensures var q1 := CreateQuestion(1, "past question 1 ", -30, now);
      var q2 := CreateQuestion(2, "past question 2", -40, now);
      LatestVisible([q1, q2], now) == [q1, q2] && LatestVisible([q2, q1], now) == [q1, q2]
  {
    TwoPublishedNewestFirst(CreateQuestion(1, "past question 1 ", -30, now),
                            CreateQuestion(2, "past question 2", -40, now), now);
  }

  /** Two future questions leave the index empty. */
  lemma TwoFutureQuestions(now: int)
    ensures var q1 := CreateQuestion(1, "future question 1", 30, now);
      var q2 := CreateQuestion(2, "future question 2", 40, now);
      LatestVisible([q1, q2], now) == []
  {}

  /** The detail page of a future question is not found. */
  lemma DetailOfFutureQuestion(now: int)
    ensures var q := CreateQuestion(1, "future question 1", 30, now);
      Detail([q], q.id, now) == None
  {}

  /** The detail page of a past question shows that question's text. */
  lemma DetailOfPastQuestion(now: int)
    ensures var q := CreateQuestion(1, "past question", -30, now);
      Detail([q], q.id, now).Some? && Detail([q], q.id, now).value.text == "past question"
  {}
}
