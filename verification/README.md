# Polls: publication visibility

A model of the publication rule of the `polls` web application, as its test
suite (`premiosplatziapp/polls/tests.py`) pins it down. A `Question` carries an
id, a text and a publication instant `pubDate`. Instants are whole seconds on
an integer time line (`Time.Day` is 86400), and the current instant `now` is
always an explicit argument, which plays the part of the injectable clock.

- `Models.WasPublishedRecently(pubDate, now)` is the recency predicate:
  published within the last day and not in the future.
- `Views.LatestVisible(qs, now)` is the index list. It keeps exactly the
  questions with `pubDate <= now` and orders them most recent first, built as a
  filter (`Views.Visible`) followed by an insertion sort
  (`Ordering.SortNewestFirst`).
- `Views.Detail(qs, id, now)` is the detail page. It gives `None` (not found,
  HTTP 404) when no stored question has that id or when the question is not yet
  published. Otherwise it gives the question, whose text is then rendered.
- `Scenarios` holds one lemma for each test method, stated for every `now`.

The store is a plain `seq<Question>`. Ids are distinct (`Models.DistinctIds`),
as a primary key guarantees. The results that need this property require it.

The tests do not fix the exact one-day boundary of the recency window. The
model chooses `now - Day < pubDate <= now`: a question exactly one day old is
no longer recent. `Scenarios.RecencyWindowEdges` records this choice. No test
checks it.

## Model

| member | source | states |
|---|---|---|
| Models.WasPublishedRecently | premiosplatziapp/polls/tests.py:16-34 | False for any future date. True for every date within the last day, up to and including now. False for anything a day old or older. A recent question is always visible. |
| Time.Days | premiosplatziapp/polls/tests.py:44 | The span is exactly `days` whole days: a multiple of a day whose quotient by a day is the day count, with the same sign. |
| Time.DaysAdd | premiosplatziapp/polls/tests.py:44 | One day spans one `Day`, and the spans of two day counts add up to the span of their sum. |
| Time.Offset | premiosplatziapp/polls/tests.py:37-45 | The instant lies exactly `days` whole days from now. It is in the past for a negative count, in the future for a positive one, and is now for zero. |
| Time.OffsetOrder | premiosplatziapp/polls/tests.py:37-45 | Offsets keep the order of their day counts, so a question created -30 days out is newer than one created -40 days out. |
| Models.CreateQuestion | premiosplatziapp/polls/tests.py:37-45 | The created question keeps the given id and text. It lies exactly `days` whole days from now. It is later than the offset of every smaller day count, and only of those. It is visible exactly when the offset is not positive. |
| Ordering.Insert | premiosplatziapp/polls/tests.py:88-98 | Inserting into a newest-first sequence keeps it newest first. It adds exactly the one new question. |
| Ordering.SortNewestFirst | premiosplatziapp/polls/tests.py:88-98 | The result is newest first and is a permutation of the input. |
| Views.Visible | premiosplatziapp/polls/tests.py:58-86 | A question is in the result iff it is stored and not dated in the future. Each public question keeps its multiplicity. |
| Views.VisibleKeepsPublishedStore | premiosplatziapp/polls/tests.py:88-98 | When every stored question is public, the filter returns the store unchanged. |
| Views.LatestVisible | premiosplatziapp/polls/tests.py:50-110 | Sound: every listed question is stored and public. Complete: every stored public question is listed. Newest first, and a permutation of the public questions. Empty exactly when nothing is public. |
| Views.Lookup | premiosplatziapp/polls/tests.py:120-122 | A found question is stored and has the requested id. Nothing is found iff no stored question has that id. |
| Views.Detail | premiosplatziapp/polls/tests.py:113-134 | A served question is stored, has the requested id and is public. The result is not found when the id is absent or every question with it is future-dated. |
| Views.LookupFindsStored | premiosplatziapp/polls/tests.py:131-134 | With distinct ids, looking up a stored question's id returns that question. |
| Views.DetailServesVisible | premiosplatziapp/polls/tests.py:115-134 | With distinct ids, a stored question's detail page is served iff the question is public, and not found iff it is future-dated. |
| Views.IndexAgreesWithDetail | premiosplatziapp/polls/tests.py:48-134 | With distinct ids, a stored question is on the index iff its detail page serves it. |
| Views.NewestFirstUnique | premiosplatziapp/polls/tests.py:88-98 | Two newest-first arrangements of the same questions with distinct dates are equal. |
| Views.LatestVisibleIsTheNewestFirstArrangement | premiosplatziapp/polls/tests.py:88-98 | Take any newest-first sequence with distinct dates that holds each public stored question as often as the store does and nothing else. The index equals it. This pins the index down without reference to how it is computed. |
| Scenarios.FutureQuestionIsNotRecent | premiosplatziapp/polls/tests.py:16-20 | A question dated 30 days ahead is not recent. |
| Scenarios.QuestionFrom23HoursAgoIsRecent | premiosplatziapp/polls/tests.py:23-27 | A question published 23 hours ago is recent. |
| Scenarios.QuestionOlderThanADayIsNotRecent | premiosplatziapp/polls/tests.py:30-34 | A question published one day and one second ago is not recent. |
| Scenarios.NoQuestions | premiosplatziapp/polls/tests.py:50-55 | An empty store gives an empty index. |
| Scenarios.FutureQuestionNotListed | premiosplatziapp/polls/tests.py:58-65 | A question 30 days ahead is not listed. |
| Scenarios.PastQuestionListed | premiosplatziapp/polls/tests.py:68-74 | A question 10 days old is the whole index. |
| Scenarios.FutureAndPastQuestion | premiosplatziapp/polls/tests.py:76-86 | With questions at -30 days and +30 days, only the past one is listed. |
| Scenarios.TwoPublishedNewestFirst | premiosplatziapp/polls/tests.py:88-98 | Any two published questions with distinct dates are listed newer first, in either store order. |
| Scenarios.TwoPastQuestions | premiosplatziapp/polls/tests.py:88-98 | Questions at -30 days and -40 days are listed as [-30d, -40d], in either store order. |
| Scenarios.TwoFutureQuestions | premiosplatziapp/polls/tests.py:100-110 | Questions at +30 days and +40 days give an empty index. |
| Scenarios.DetailOfFutureQuestion | premiosplatziapp/polls/tests.py:115-123 | The detail page of a question 30 days ahead is not found. |
| Scenarios.DetailOfPastQuestion | premiosplatziapp/polls/tests.py:126-134 | The detail page of a question 30 days old serves that question, with its text. |

## Left out

- Question model and views: `models.py` and `views.py` are not part of this model. Their behaviour is taken only from what the tests assert.
- Recency boundary: the exclusive lower bound at exactly one day is a modelling choice. No test fixes it.
- Database and ORM: `Question.objects.create`, the test database and auto-assigned ids are left out. The store is a sequence with distinct ids, and scenario ids are chosen explicitly.
- HTTP layer: the test client, `reverse` URL routing, status codes other than found/not found, and template rendering are left out. This includes the "No polls are avaliable" message and `assertContains` on the page body. The detail result is the question whose text would be rendered.
- Time: timezone-aware `datetime`/`timedelta` arithmetic and the real clock are left out. Instants are integer seconds, and `now` is a parameter.
- Choices: the `Choice` entity is not modelled, because no test asserts anything about it.
- Ties: the order among questions with equal publication instants is unspecified. Only non-increasing order is required.
