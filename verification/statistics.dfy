/** The aggregation in `main()`: answer ids, accepted scores, answers per
    question, comment counts of the first ten answers; the two exit gates;
    and the whole run from a date range and the two API responses. */
module Statistics {
  import opened Constants
  import opened Counting
  import opened Decimal
  import opened Utils

  // ---------------------------------------------------------------------
  // Records
  // ---------------------------------------------------------------------

  /** The fields of an item of the answers response that the program reads. */
  datatype Answer = Answer(answerId: int, questionId: int, isAccepted: bool, score: int)

  /** The field of an item of the comments response that the program reads. */
  datatype Comment = Comment(postId: int)

  /** A decoded response body: the success envelope's `items`, or the error envelope. */
  datatype Body<T> =
    | Items(items: seq<T>)
    | ErrorEnvelope(errorId: int, errorMessage: string, errorName: string)

  datatype Response<T> = Response(statusCode: int, body: Body<T>)

  /** How the process ends: with the result printed, through `exit(code)`
      after logging `log`, or by an uncaught exception. */
  datatype Termination =
    | Completed(result: map<ResultKey, Value>)
    | Exited(code: int, log: string)
    | Raised(exception: string)

  /** The URLs requested, in order, and how the run ended. */
  datatype Run = Run(requests: seq<string>, termination: Termination)

  const KEY_ERROR: string := "KeyError"
  const ZERO_DIVISION_ERROR: string := "ZeroDivisionError"
  const UNICODE_ENCODE_ERROR: string := "UnicodeEncodeError"
  const DATE_ORDER_LOG: string := "--since argument date/time cannot be greater than --until's"

  /** How many of the first answers have their comments counted. */
  const TOP_ANSWERS: nat := 10

  // ---------------------------------------------------------------------
  // Aggregation
  // ---------------------------------------------------------------------

  /** The `answer_id` of every answer item, in response order. */
  function AnswerIds(items: seq<Answer>): (ids: seq<int>)
    ensures |ids| == |items|
    ensures forall i :: 0 <= i < |items| ==> ids[i] == items[i].answerId
  {
    if |items| == 0 then [] else [items[0].answerId] + AnswerIds(items[1..])
  }

  /** The `question_id` of every answer item, in response order. */
  function QuestionIdList(items: seq<Answer>): (qs: seq<int>)
    ensures |qs| == |items|
    ensures forall i :: 0 <= i < |items| ==> qs[i] == items[i].questionId
  {
    seq(|items|, i requires 0 <= i < |items| => items[i].questionId)
  }

  /** The `post_id` of every comment item, in response order. */
  function PostIdList(comments: seq<Comment>): (ps: seq<int>)
    ensures |ps| == |comments|
    ensures forall i :: 0 <= i < |comments| ==> ps[i] == comments[i].postId
  {
    seq(|comments|, i requires 0 <= i < |comments| => comments[i].postId)
  }

  /** The scores of the accepted answers, in response order. */
  function AcceptedScores(items: seq<Answer>): (scores: seq<int>)
    ensures |scores| <= |items|
  {
    if |items| == 0 then []
    else if items[0].isAccepted then [items[0].score] + AcceptedScores(items[1..])
    else AcceptedScores(items[1..])
  }

  /** The accepted scores are exactly the scores of the accepted items, in
      order: `idx` lists the positions of the accepted items, ascending, and
      the k-th accepted score is the score of the item at `idx[k]`. */
  lemma {:induction false} AcceptedScoresSelect(items: seq<Answer>) returns (idx: seq<int>)
    ensures Selects(items, idx, AcceptedScores(items), 0)
    decreases |items|
  {
    if |items| == 0 {
      idx := [];
    } else {
      var rest := AcceptedScoresSelect(items[1..]);
      var tail := AcceptedScores(items[1..]);
      var shifted := ShiftSelection(items, rest, tail);
      if items[0].isAccepted {
        assert AcceptedScores(items) == [items[0].score] + tail;
        idx := ConsSelection(items, shifted, tail);
      } else {
        assert AcceptedScores(items) == tail;
        idx := shifted;
      }
    }
  }

  /** `idx` lists, ascending, the positions from `from` on of the accepted
      items, all of them and only them, and `scores[k]` is the score of the
      item at `idx[k]`. */
  ghost predicate Selects(items: seq<Answer>, idx: seq<int>, scores: seq<int>, from: nat)
  {
    && |idx| == |scores|
    && (forall k :: 0 <= k < |idx| ==>
          from <= idx[k] < |items| && items[idx[k]].isAccepted && scores[k] == items[idx[k]].score)
    && (forall k, l :: 0 <= k < l < |idx| ==> idx[k] < idx[l])
    && (forall i :: from <= i < |items| && items[i].isAccepted ==> i in idx)
  }

  /** A selection for `items[1..]`, moved one position right, is a selection
      for `items` from position 1 on. */
  lemma ShiftSelection(items: seq<Answer>, rest: seq<int>, tail: seq<int>) returns (shifted: seq<int>)
    requires |items| > 0
    requires Selects(items[1..], rest, tail, 0)
    ensures Selects(items, shifted, tail, 1)
  {
    shifted := seq(|rest|, k requires 0 <= k < |rest| => rest[k] + 1);
    ShiftedSorted(rest, shifted);
    ShiftedPositions(items, rest, tail, shifted);
    ShiftedCovers(items, rest, shifted);
  }

  lemma ShiftedSorted(rest: seq<int>, shifted: seq<int>)
    requires |shifted| == |rest| && forall k :: 0 <= k < |rest| ==> shifted[k] == rest[k] + 1
    requires forall k, l :: 0 <= k < l < |rest| ==> rest[k] < rest[l]
    ensures forall k, l :: 0 <= k < l < |shifted| ==> shifted[k] < shifted[l]
  {
    forall k, l | 0 <= k < l < |shifted|
      ensures shifted[k] < shifted[l]
    {
      assert rest[k] < rest[l];
    }
  }

  lemma ShiftedPositions(items: seq<Answer>, rest: seq<int>, tail: seq<int>, shifted: seq<int>)
    requires |items| > 0 && |rest| == |tail|
    requires |shifted| == |rest| && forall k :: 0 <= k < |rest| ==> shifted[k] == rest[k] + 1
    requires forall k :: 0 <= k < |rest| ==>
      0 <= rest[k] < |items[1..]| && items[1..][rest[k]].isAccepted && tail[k] == items[1..][rest[k]].score
    ensures forall k :: 0 <= k < |shifted| ==>
      1 <= shifted[k] < |items| && items[shifted[k]].isAccepted && tail[k] == items[shifted[k]].score
  {
    forall k | 0 <= k < |shifted|
      ensures 1 <= shifted[k] < |items| && items[shifted[k]].isAccepted && tail[k] == items[shifted[k]].score
    {
      assert items[1..][rest[k]] == items[shifted[k]];
    }
  }

  lemma ShiftedCovers(items: seq<Answer>, rest: seq<int>, shifted: seq<int>)
    requires |items| > 0
    requires |shifted| == |rest| && forall k :: 0 <= k < |rest| ==> shifted[k] == rest[k] + 1
    requires forall i :: 0 <= i < |items[1..]| && items[1..][i].isAccepted ==> i in rest
    ensures forall i :: 1 <= i < |items| && items[i].isAccepted ==> i in shifted
  {
    forall i | 1 <= i < |items| && items[i].isAccepted
      ensures i in shifted
    {
      assert items[1..][i - 1] == items[i];
      var k :| 0 <= k < |rest| && rest[k] == i - 1;
      assert shifted[k] == i;
    }
  }

  /** An accepted first item extends a selection from position 1 to one from position 0. */
  lemma ConsSelection(items: seq<Answer>, shifted: seq<int>, tail: seq<int>) returns (idx: seq<int>)
    requires |items| > 0 && items[0].isAccepted
    requires Selects(items, shifted, tail, 1)
    ensures Selects(items, idx, [items[0].score] + tail, 0)
  {
    idx := [0] + shifted;
    var scores := [items[0].score] + tail;
    forall k | 0 <= k < |idx|
      ensures 0 <= idx[k] < |items| && items[idx[k]].isAccepted && scores[k] == items[idx[k]].score
    {
      if k > 0 {
        assert idx[k] == shifted[k - 1] && scores[k] == tail[k - 1];
      }
    }
    forall k, l | 0 <= k < l < |idx|
      ensures idx[k] < idx[l]
    {
      assert idx[l] == shifted[l - 1];
      if k > 0 {
        assert idx[k] == shifted[k - 1];
      }
    }
    forall i | 0 <= i < |items| && items[i].isAccepted
      ensures i in idx
    {
      if i > 0 {
        assert i in shifted;
      }
    }
  }

  /** `defaultdict(int)` after the loop over the answer items: each question
      id that occurs maps to its number of answers, and no other id is a key. */
  function AnswersPerQuestion(items: seq<Answer>): (m: map<int, int>)
    ensures m.Keys == Elements(QuestionIdList(items))
    ensures forall q :: q in m ==> m[q] == Count(QuestionIdList(items), q) && m[q] >= 1
    decreases |items|
  {
    if |items| == 0 then map[]
    else
      var init := items[..|items| - 1];
      var m0 := AnswersPerQuestion(init);
      var q := items[|items| - 1].questionId;
      assert QuestionIdList(items) == QuestionIdList(init) + [q];
      IncrementCount(m0, QuestionIdList(init), q);
      m0[q := (if q in m0 then m0[q] else 0) + 1]
  }

  /** One more occurrence of `q` raises its count by one, or enters it with count 1. */
  lemma IncrementCount(m0: map<int, int>, qs: seq<int>, q: int)
    requires m0.Keys == Elements(qs)
    requires forall v :: v in m0 ==> m0[v] == Count(qs, v) && m0[v] >= 1
    ensures var m := m0[q := (if q in m0 then m0[q] else 0) + 1];
      && m.Keys == Elements(qs + [q])
      && forall v :: v in m ==> m[v] == Count(qs + [q], v) && m[v] >= 1
  {
    CountsAfterAppend(qs, q);
    ElementsAppend(qs, q);
  }

  lemma CountsAfterAppend(qs: seq<int>, q: int)
    ensures forall v :: Count(qs + [q], v) == Count(qs, v) + (if v == q then 1 else 0)
  {
    forall v
      ensures Count(qs + [q], v) == Count(qs, v) + (if v == q then 1 else 0)
    {
      CountAppend(qs, [q], v);
    }
  }

  /** The question ids without repetition, in order of first occurrence: the
      insertion order of the per-question dictionary. */
  function QuestionOrder(items: seq<Answer>): (order: seq<int>)
    ensures Distinct(order)
    ensures Elements(order) == Elements(QuestionIdList(items))
    decreases |items|
  {
    if |items| == 0 then []
    else
      var init := items[..|items| - 1];
      var q := items[|items| - 1].questionId;
      assert QuestionIdList(items) == QuestionIdList(init) + [q];
      var order0 := QuestionOrder(init);
      ElementsAppend(QuestionIdList(init), q);
      ElementsAppend(order0, q);
      if q in order0 then order0 else order0 + [q]
  }

  /** `d.values()` listed in the key order `keys`. */
  function ValuesAt(m: map<int, int>, keys: seq<int>): (vs: seq<int>)
    requires forall i :: 0 <= i < |keys| ==> keys[i] in m
    ensures |vs| == |keys|
    ensures forall i :: 0 <= i < |keys| ==> vs[i] == m[keys[i]]
  {
    if |keys| == 0 then [] else [m[keys[0]]] + ValuesAt(m, keys[1..])
  }

  /** Summing values that are occurrence counts of `xs` is summing the counts. */
  lemma {:induction false} SumOfCountValues(m: map<int, int>, keys: seq<int>, xs: seq<int>)
    requires forall i :: 0 <= i < |keys| ==> keys[i] in m && m[keys[i]] == Count(xs, keys[i])
    ensures Sum(ValuesAt(m, keys)) == SumCounts(keys, xs)
    decreases |keys|
  {
    if |keys| > 0 {
      var vs := ValuesAt(m, keys);
      assert vs[1..] == ValuesAt(m, keys[1..]);
      SumOfCountValues(m, keys[1..], xs);
    }
  }

  /** Listed in any order without repetition, the per-question counts sum to
      the number of answer items and there is one count per question. */
  lemma AnswerCountsSum(items: seq<Answer>, order: seq<int>)
    requires Distinct(order)
    requires Elements(order) == AnswersPerQuestion(items).Keys
    ensures Sum(ValuesAt(AnswersPerQuestion(items), order)) == |items|
    ensures |order| == |AnswersPerQuestion(items)|
  {
    var m, qs := AnswersPerQuestion(items), QuestionIdList(items);
    forall i | 0 <= i < |order|
      ensures order[i] in m && m[order[i]] == Count(qs, order[i])
    {
      assert order[i] in Elements(order);
    }
    SumOfCountValues(m, order, qs);
    forall x | x in qs
      ensures x in order
    {
      assert x in Elements(qs);
    }
    SumCountsOfDistinct(order, qs);
    DistinctCardinality(order);
    assert |m| == |m.Keys|;
  }

  /** The first ten answer ids (fewer if fewer answers were returned). */
  function TopTen(ids: seq<int>): (top: seq<int>)
    ensures |top| == if |ids| < TOP_ANSWERS then |ids| else TOP_ANSWERS
    ensures top == ids[..|top|]
  {
    if |ids| < TOP_ANSWERS then ids else ids[..TOP_ANSWERS]
  }

  /** `dict(zip(ids[:10], [0] * 10))`. */
  function InitialCommentCounts(ids: seq<int>): (counts: map<int, int>)
    ensures counts.Keys == Elements(TopTen(ids))
    ensures forall k :: k in counts ==> counts[k] == 0
  {
    map k | k in TopTen(ids) :: 0
  }

  /** With distinct answer ids the top-ten map has min(10, n) entries. */
  lemma InitialCommentCountsSize(ids: seq<int>)
    requires Distinct(TopTen(ids))
    ensures |InitialCommentCounts(ids)| == if |ids| < TOP_ANSWERS then |ids| else TOP_ANSWERS
  {
    DistinctCardinality(TopTen(ids));
  }

  /** The loop over the comment items: a comment whose `post_id` is in `top`
      adds one to that id's entry. The keys never change, entries outside
      `top` keep their value, and entries in `top` grow by the number of
      comments on that post. */
  function TallyComments(counts: map<int, int>, top: set<int>, comments: seq<Comment>): (r: map<int, int>)
    requires top <= counts.Keys
    ensures r.Keys == counts.Keys
    ensures forall k :: k in r ==>
      r[k] == counts[k] + (if k in top then Count(PostIdList(comments), k) else 0)
    decreases |comments|
  {
    if |comments| == 0 then counts
    else
      var init := comments[..|comments| - 1];
      var r0 := TallyComments(counts, top, init);
      var p := comments[|comments| - 1].postId;
      assert PostIdList(comments) == PostIdList(init) + [p];
      CountsAfterAppend(PostIdList(init), p);
      if p in top then r0[p := r0[p] + 1] else r0
  }

  /** A comment on a post outside `top` changes nothing, wherever it occurs. */
  lemma TallyIgnoresOtherPosts(counts: map<int, int>, top: set<int>,
                               before: seq<Comment>, c: Comment, after: seq<Comment>)
    requires top <= counts.Keys
    requires c.postId !in top
    ensures TallyComments(counts, top, before + [c] + after) == TallyComments(counts, top, before + after)
  {
    var ps, p, qs := PostIdList(before), PostIdList([c]), PostIdList(after);
    assert p == [c.postId];
    PostIdListAppend(before + [c], after);
    PostIdListAppend(before, [c]);
    PostIdListAppend(before, after);
    var withIds, withoutIds := PostIdList(before + [c] + after), PostIdList(before + after);
    assert withIds == (ps + p) + qs;
    assert withoutIds == ps + qs;
    forall k | k in top
      ensures Count(withIds, k) == Count(withoutIds, k)
    {
      CountAppend(ps + p, qs, k);
      CountAppend(ps, p, k);
      CountAppend(ps, qs, k);
      assert Count(p, k) == 0;
    }
    TallyDeterminedByCounts(counts, top, before + [c] + after, before + after);
  }

  /** Two comment lists with the same number of comments on every post in
      `top` tally to the same map. */
  lemma TallyDeterminedByCounts(counts: map<int, int>, top: set<int>, xs: seq<Comment>, ys: seq<Comment>)
    requires top <= counts.Keys
    requires forall k :: k in top ==> Count(PostIdList(xs), k) == Count(PostIdList(ys), k)
    ensures TallyComments(counts, top, xs) == TallyComments(counts, top, ys)
  {
    var r1, r2 := TallyComments(counts, top, xs), TallyComments(counts, top, ys);
    assert r1.Keys == r2.Keys;
    assert forall k :: k in r1 ==> r1[k] == r2[k];
  }

  lemma PostIdListAppend(a: seq<Comment>, b: seq<Comment>)
    ensures PostIdList(a + b) == PostIdList(a) + PostIdList(b)
  {
  }

  /** The comment count of each of the first ten answers, as `main()` builds it. */
  function CommentCounts(ids: seq<int>, comments: seq<Comment>): (r: map<int, int>)
    ensures r.Keys == Elements(TopTen(ids))
    ensures forall k :: k in r ==> r[k] == Count(PostIdList(comments), k)
  {
    var initial := InitialCommentCounts(ids);
    TallyComments(initial, initial.Keys, comments)
  }

  /** Listed once per key, in any order, the comment counts add up to at most
      the number of comment items; duplicate ids among the first ten are one key. */
  lemma CommentCountsTotal(ids: seq<int>, comments: seq<Comment>, order: seq<int>)
    requires Distinct(order)
    requires Elements(order) == CommentCounts(ids, comments).Keys
    ensures Sum(ValuesAt(CommentCounts(ids, comments), order)) <= |comments|
  {
    var r, ps := CommentCounts(ids, comments), PostIdList(comments);
    forall i | 0 <= i < |order|
      ensures order[i] in r && r[order[i]] == Count(ps, order[i])
    {
      assert order[i] in Elements(order);
    }
    SumOfCountValues(r, order, ps);
    SumCountsOfDistinct(order, ps);
  }

  // ---------------------------------------------------------------------
  // Gates
  // ---------------------------------------------------------------------

  /** The outcome of a gate: go on, exit with a code after logging, or raise. */
  datatype Check = Pass | Exit(code: int, log: string) | Raise(exception: string)

  /** The date-order gate: `since` after `until` exits with the ordering
      error; equal timestamps pass. */
  function CheckDateOrder(since: int, until: int): (c: Check)
    ensures c.Pass? <==> since <= until
    ensures !c.Pass? ==> c == Exit(ERROR_DATE_ARGUMENTS_ORDER, DATE_ORDER_LOG)
  {
    if since > until then Exit(ERROR_DATE_ARGUMENTS_ORDER, DATE_ORDER_LOG) else Pass
  }

  /** Every character is in the ASCII range. */
  predicate IsAscii(s: string)
  {
    forall k :: 0 <= k < |s| ==> s[k] as int < 128
  }

  /** A failing response whose error message and name are both ASCII. */
  predicate AsciiEnvelope<T>(body: Body<T>)
  {
    body.ErrorEnvelope? && IsAscii(body.errorMessage) && IsAscii(body.errorName)
  }

  /** `_verify_api_response`: status 200 passes; any other status logs the
      status and the remote error message and name, then exits with the API
      error code. Building the log line raises instead when the response lacks
      the error fields (`KeyError`), or when the decoded message or name holds
      a non-ASCII character, which Python 2's byte-string `format` cannot
      encode (`UnicodeEncodeError`). */
  function VerifyApiResponse<T>(response: Response<T>): (c: Check)
    ensures c.Pass? <==> response.statusCode == API_SUCCESS_CODE_RESPONSE
    ensures !c.Pass? && AsciiEnvelope(response.body) ==>
      && c.Exit? && c.code == ERROR_API_RESPONSE
      && var reason := response.body.errorMessage + ": " + response.body.errorName;
         |reason| <= |c.log| && c.log[|c.log| - |reason|..] == reason
    ensures !c.Pass? && response.body.ErrorEnvelope? && !AsciiEnvelope(response.body) ==>
      c == Raise(UNICODE_ENCODE_ERROR)
    ensures !c.Pass? && response.body.Items? ==> c == Raise(KEY_ERROR)
  {
    if response.statusCode == API_SUCCESS_CODE_RESPONSE then Pass
    else
      match response.body
      case ErrorEnvelope(_, message, name) =>
        if !IsAscii(message) || !IsAscii(name) then Raise(UNICODE_ENCODE_ERROR)
        else
          var log := "Status code: " + IntToString(response.statusCode) + ". Reason: " + message + ": " + name;
          assert log == ("Status code: " + IntToString(response.statusCode) + ". Reason: ") + (message + ": " + name);
          Exit(ERROR_API_RESPONSE, log)
      case Items(_) => Raise(KEY_ERROR)
  }

  /** A failing response whose message is not ASCII ends in `UnicodeEncodeError`. */
  lemma NonAsciiReasonRaises()
    ensures VerifyApiResponse<Comment>(Response(400, ErrorEnvelope(400, "caf\U{e9}", "bad_parameter")))
      == Raise(UNICODE_ENCODE_ERROR)
  {
    assert !IsAscii("caf\U{e9}") by { assert "caf\U{e9}"[3] as int == 233; }
  }

  /** The termination a failed gate leads to. */
  function Stop(c: Check): Termination
    requires !c.Pass?
  {
    match c
    case Exit(code, log) => Exited(code, log)
    case Raise(e) => Raised(e)
  }

  // ---------------------------------------------------------------------
  // The run
  // ---------------------------------------------------------------------

  /** `main()` once the arguments are parsed: `since` and `until` are the two
      timestamps, `answers` and `comments` the responses the two requests
      receive. */
  function Main(since: int, until: int, answers: Response<Answer>, comments: Response<Comment>): (run: Run)
    ensures since > until ==> run == Run([], Exited(ERROR_DATE_ARGUMENTS_ORDER, DATE_ORDER_LOG))
    ensures since <= until ==> 1 <= |run.requests| <= 2 && run.requests[0] == AnswersUrl(since, until)
    ensures since <= until && answers.statusCode != API_SUCCESS_CODE_RESPONSE ==>
      run.requests == [AnswersUrl(since, until)] && !run.termination.Completed?
    ensures since <= until && answers.statusCode != API_SUCCESS_CODE_RESPONSE && AsciiEnvelope(answers.body) ==>
      run.termination.Exited? && run.termination.code == ERROR_API_RESPONSE
    ensures since <= until && answers.statusCode == API_SUCCESS_CODE_RESPONSE && !answers.body.Items? ==>
      run == Run([AnswersUrl(since, until)], Raised(KEY_ERROR))
    ensures since <= until && answers.statusCode == API_SUCCESS_CODE_RESPONSE && answers.body.Items? ==>
      run == AfterAnswers(AnswersUrl(since, until), answers.body.items, comments)
    ensures run.termination.Completed? ==>
      && since <= until
      && answers.statusCode == API_SUCCESS_CODE_RESPONSE && answers.body.Items?
      && comments.statusCode == API_SUCCESS_CODE_RESPONSE && comments.body.Items?
  {
    var order := CheckDateOrder(since, until);
    if !order.Pass? then Run([], Stop(order))
    else
      var answersUrl := AnswersUrl(since, until);
      var answersCheck := VerifyApiResponse(answers);
      if !answersCheck.Pass? then Run([answersUrl], Stop(answersCheck))
      else if !answers.body.Items? then Run([answersUrl], Raised(KEY_ERROR))
      else AfterAnswers(answersUrl, answers.body.items, comments)
  }

  /** The rest of `main()` once the answer items are in: the comments request
      for the answer ids, its status gate, the comment loop and `create`. */
  function AfterAnswers(answersUrl: string, items: seq<Answer>, comments: Response<Comment>): (run: Run)
    ensures run.requests == [answersUrl, CommentsUrl(AnswerIds(items))]
    ensures comments.statusCode != API_SUCCESS_CODE_RESPONSE && AsciiEnvelope(comments.body) ==>
      run.termination.Exited? && run.termination.code == ERROR_API_RESPONSE
    ensures comments.statusCode == API_SUCCESS_CODE_RESPONSE && !comments.body.Items? ==>
      run.termination == Raised(KEY_ERROR)
    ensures comments.statusCode == API_SUCCESS_CODE_RESPONSE && comments.body.Items? && |AcceptedScores(items)| == 0 ==>
      run.termination == Raised(ZERO_DIVISION_ERROR)
    ensures run.termination.Completed? ==>
      comments.statusCode == API_SUCCESS_CODE_RESPONSE && comments.body.Items?
  {
    var ids := AnswerIds(items);
    var scores := AcceptedScores(items);
    var perQuestion := AnswersPerQuestion(items);
    var requests := [answersUrl, CommentsUrl(ids)];
    var commentsCheck := VerifyApiResponse(comments);
    if !commentsCheck.Pass? then Run(requests, Stop(commentsCheck))
    else if !comments.body.Items? then Run(requests, Raised(KEY_ERROR))
    else
      var counts := CommentCounts(ids, comments.body.items);
      var answerCounts := ValuesAt(perQuestion, QuestionOrder(items));
      if |scores| == 0 || |answerCounts| == 0 then Run(requests, Raised(ZERO_DIVISION_ERROR))
      else Run(requests, Completed(Create(scores, answerCounts, counts)))
  }

  /** Some accepted item makes the accepted-score list non-empty. */
  lemma AcceptedScoresNonEmpty(items: seq<Answer>, i: int)
    requires 0 <= i < |items| && items[i].isAccepted
    ensures |AcceptedScores(items)| > 0
  {
    var idx := AcceptedScoresSelect(items);
    assert i in idx;
  }

  /** The mean of the per-question counts is the number of answer items over
      the number of distinct questions. */
  lemma MeanAnswersPerQuestion(items: seq<Answer>)
    requires |items| > 0
    ensures var counts := ValuesAt(AnswersPerQuestion(items), QuestionOrder(items));
      && |counts| > 0
      && Mean(counts) == (|items| as real) / (|Elements(QuestionIdList(items))| as real)
  {
    var order := QuestionOrder(items);
    AnswerCountsSum(items, order);
    assert items[0].questionId in Elements(QuestionIdList(items));
  }

  /** With both responses successful and an accepted answer among the items,
      the run prints: the number of accepted answers, their mean score, the
      number of answer items over the number of distinct questions, and for
      each of the first ten answer ids the number of comments on it. */
  lemma MainCompleted(since: int, until: int, items: seq<Answer>, commentItems: seq<Comment>, i: int)
    requires since <= until
    requires 0 <= i < |items| && items[i].isAccepted
    ensures var run := Main(since, until, Response(API_SUCCESS_CODE_RESPONSE, Items(items)),
                            Response(API_SUCCESS_CODE_RESPONSE, Items(commentItems)));
      && run.requests == [AnswersUrl(since, until), CommentsUrl(AnswerIds(items))]
      && run.termination.Completed?
      && var r := run.termination.result;
      && r.Keys == RESULT_KEYS
      && r[TotalAcceptedAnswers] == IntValue(|AcceptedScores(items)|)
      && r[AcceptedAnswersAverageScore] == RealValue(Mean(AcceptedScores(items)))
      && r[AverageAnswersPerQuestion]
           == RealValue((|items| as real) / (|Elements(QuestionIdList(items))| as real))
      && r[TopTenAnswersCommentCount] == CountsValue(CommentCounts(AnswerIds(items), commentItems))
  {
    var scores := AcceptedScores(items);
    var counts := ValuesAt(AnswersPerQuestion(items), QuestionOrder(items));
    var commentCounts := CommentCounts(AnswerIds(items), commentItems);
    AcceptedScoresNonEmpty(items, i);
    MeanAnswersPerQuestion(items);
    MainSucceeds(since, until, items, commentItems);
    CreateMeans(scores, counts, commentCounts);
    var r := Create(scores, counts, commentCounts);
    assert r[AverageAnswersPerQuestion]
      == RealValue((|items| as real) / (|Elements(QuestionIdList(items))| as real));
  }

  lemma MainSucceeds(since: int, until: int, items: seq<Answer>, commentItems: seq<Comment>)
    requires since <= until && |AcceptedScores(items)| > 0
    ensures |items| > 0
    ensures Main(since, until, Response(API_SUCCESS_CODE_RESPONSE, Items(items)),
                 Response(API_SUCCESS_CODE_RESPONSE, Items(commentItems)))
      == Run([AnswersUrl(since, until), CommentsUrl(AnswerIds(items))],
             Completed(Create(AcceptedScores(items),
                              ValuesAt(AnswersPerQuestion(items), QuestionOrder(items)),
                              CommentCounts(AnswerIds(items), commentItems))))
  {
    MeanAnswersPerQuestion(items);
  }
}
