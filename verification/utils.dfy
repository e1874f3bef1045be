/** The request URLs of `APIRequest` and the result dictionary of
    `ResultDictionaryFactory`. */
module Utils {
  import opened Wrappers
  import opened Constants
  import opened Counting
  import opened Decimal
  import opened Strings

  // ---------------------------------------------------------------------
  // Answers endpoint
  // ---------------------------------------------------------------------

  /** Everything of the answers URL before the date range. */
  const ANSWERS_PREFIX: string := API_URI_SCHEME_AUTHORITY + API_URI_ANSWERS_PATH + API_URI_ANSWERS_COMMON_QUERY

  /** The answers URL for the timestamps `since` and `until`: the fixed
      prefix, then `&fromdate=<since>`, then `&todate=<until>`. */
  function AnswersUrl(since: int, until: int): (url: string)
    ensures |ANSWERS_PREFIX| < |url| && url[..|ANSWERS_PREFIX|] == ANSWERS_PREFIX
  {
    ANSWERS_PREFIX + API_URI_ANSWERS_SINCE_QUERY + IntToString(since)
      + API_URI_ANSWERS_UNTIL_QUERY + IntToString(until)
  }

  function StripPrefix(s: string, p: string): (r: Option<string>)
    ensures r.Some? <==> |p| <= |s| && s[..|p|] == p
    ensures r.Some? ==> s == p + r.value
  {
    if |p| <= |s| && s[..|p|] == p then Some(s[|p|..]) else None
  }

  /** Reads the date range back out of an answers URL. */
  function ParseAnswersUrl(url: string): Option<(int, int)>
  {
    match StripPrefix(url, ANSWERS_PREFIX)
    case None => None
    case Some(query) => ParseDateQuery(query)
  }

  /** Reads `&fromdate=<since>&todate=<until>`. */
  function ParseDateQuery(query: string): Option<(int, int)>
  {
    var fields := Split(query, '&');
    if |fields| != 3 || fields[0] != "" then None
    else
      match (ParseField(fields[1], API_URI_ANSWERS_SINCE_QUERY[1..]),
             ParseField(fields[2], API_URI_ANSWERS_UNTIL_QUERY[1..]))
      case (Some(since), Some(until)) => Some((since, until))
      case _ => None
  }

  /** Reads the integer of a `key=value` query field. */
  function ParseField(field: string, key: string): Option<int>
  {
    match StripPrefix(field, key)
    case None => None
    case Some(value) => ParseInt(value)
  }

  lemma NoSeparatorInInt(i: int, sep: char)
    requires !IsDigit(sep) && sep != '-'
    ensures sep !in IntToString(i)
  {
    var s := IntToString(i);
    assert forall k :: 0 <= k < |s| ==> s[k] != sep;
  }

  /** A separator, a separator-free field, a separator and a second field
      split into the empty piece and the two fields. */
  lemma SplitTwoFields(a: string, b: string, sep: char)
    requires sep !in a && sep !in b
    ensures Split([sep] + a + [sep] + b, sep) == ["", a, b]
  {
    var parts := ["", a, b];
    assert Join(parts[1..], sep) == a + [sep] + b;
    assert Join(parts, sep) == [sep] + a + [sep] + b;
    SplitJoin(parts, sep);
  }

  /** A field `key + str(i)` yields the integer `i` back. */
  lemma FieldValue(key: string, i: int)
    ensures ParseField(key + IntToString(i), key) == Some(i)
  {
    assert (key + IntToString(i))[..|key|] == key;
    IntRoundTrip(i);
  }

  /** The date range is recoverable from the answers URL, so distinct ranges
      give distinct URLs and the two timestamps appear in the order since, until. */
  lemma AnswersUrlRoundTrip(since: int, until: int)
    ensures ParseAnswersUrl(AnswersUrl(since, until)) == Some((since, until))
  {
    var sinceKey, untilKey := API_URI_ANSWERS_SINCE_QUERY[1..], API_URI_ANSWERS_UNTIL_QUERY[1..];
    var s, u := IntToString(since), IntToString(until);
    assert API_URI_ANSWERS_SINCE_QUERY == ['&'] + sinceKey;
    assert API_URI_ANSWERS_UNTIL_QUERY == ['&'] + untilKey;
    var query := ['&'] + (sinceKey + s) + ['&'] + (untilKey + u);
    QueryShape(ANSWERS_PREFIX, sinceKey, s, untilKey, u);
    StripConcat(ANSWERS_PREFIX, query);
    DateQueryRoundTrip(since, until);
  }

  lemma StripConcat(p: string, q: string)
    ensures StripPrefix(p + q, p) == Some(q)
  {
    assert (p + q)[..|p|] == p;
  }

  /** Regroups the answers URL into prefix and date query; stated over plain
      strings so that the URL constants are never unfolded. */
  lemma QueryShape(p: string, k1: string, s: string, k2: string, u: string)
    ensures p + (['&'] + k1) + s + (['&'] + k2) + u == p + (['&'] + (k1 + s) + ['&'] + (k2 + u))
  {
  }

  lemma DateQueryRoundTrip(since: int, until: int)
    ensures var sinceKey, untilKey := API_URI_ANSWERS_SINCE_QUERY[1..], API_URI_ANSWERS_UNTIL_QUERY[1..];
      ParseDateQuery(['&'] + (sinceKey + IntToString(since)) + ['&'] + (untilKey + IntToString(until)))
        == Some((since, until))
  {
    var sinceKey, untilKey := API_URI_ANSWERS_SINCE_QUERY[1..], API_URI_ANSWERS_UNTIL_QUERY[1..];
    assert '&' !in sinceKey && '&' !in untilKey;
    FieldsRoundTrip(sinceKey, untilKey, since, until);
  }

  /** Two `&`-led `key=value` fields split and parse back into their values. */
  lemma FieldsRoundTrip(k1: string, k2: string, since: int, until: int)
    requires '&' !in k1 && '&' !in k2
    ensures var fields := Split(['&'] + (k1 + IntToString(since)) + ['&'] + (k2 + IntToString(until)), '&');
      && fields == ["", k1 + IntToString(since), k2 + IntToString(until)]
      && ParseField(fields[1], k1) == Some(since)
      && ParseField(fields[2], k2) == Some(until)
  {
    NoSeparatorInInt(since, '&');
    NoSeparatorInInt(until, '&');
    SplitTwoFields(k1 + IntToString(since), k2 + IntToString(until), '&');
    FieldValue(k1, since);
    FieldValue(k2, until);
  }

  // ---------------------------------------------------------------------
  // Comments endpoint
  // ---------------------------------------------------------------------

  const COMMENTS_PREFIX: string := API_URI_SCHEME_AUTHORITY + API_URI_ANSWERS_PATH + "/"
  const COMMENTS_SUFFIX: string := API_URI_COMMENTS_PATH + API_URI_ANSWERS_COMMON_QUERY

  /** The decimal form of every answer id, in order. */
  function IdStrings(ids: seq<int>): (parts: seq<string>)
    ensures |parts| == |ids|
    ensures forall i :: 0 <= i < |ids| ==> parts[i] == IntToString(ids[i])
  {
    seq(|ids|, i requires 0 <= i < |ids| => IntToString(ids[i]))
  }

  /** The id segment of the comments path: the decimal ids joined with ';'. */
  function JoinIds(ids: seq<int>): (segment: string)
    ensures |ids| == 0 <==> segment == ""
  {
    if |ids| == 0 then ""
    else JoinIdsEnds(ids); Join(IdStrings(ids), ';')
  }

  lemma JoinIdsEnds(ids: seq<int>)
    requires |ids| > 0
    ensures var segment := Join(IdStrings(ids), ';');
      |segment| > 0 && segment[0] != ';' && segment[|segment| - 1] != ';'
  {
    var parts := IdStrings(ids);
    forall i | 0 <= i < |parts|
      ensures |parts[i]| > 0 && ';' !in parts[i]
    {
      NoSeparatorInInt(ids[i], ';');
    }
    JoinEnds(parts, ';');
  }

  /** Parses every piece as an integer; fails if any piece is not one. */
  function ParseAll(parts: seq<string>): (r: Option<seq<int>>)
    ensures r.Some? ==> |r.value| == |parts|
  {
    if |parts| == 0 then Some([])
    else
      match (ParseInt(parts[0]), ParseAll(parts[1..]))
      case (Some(x), Some(xs)) => Some([x] + xs)
      case _ => None
  }

  /** Reads the answer ids back out of an id segment. */
  function ParseIds(segment: string): Option<seq<int>>
  {
    ParseAll(Split(segment, ';'))
  }

  /** Pieces that each parse as the integer at the same position parse as the whole list. */
  lemma {:induction false} ParseAllPointwise(parts: seq<string>, ids: seq<int>)
    requires |parts| == |ids|
    requires forall i :: 0 <= i < |parts| ==> ParseInt(parts[i]) == Some(ids[i])
    ensures ParseAll(parts) == Some(ids)
    decreases |parts|
  {
    if |parts| > 0 {
      assert forall i :: 0 <= i < |parts[1..]| ==> ParseInt(parts[1..][i]) == Some(ids[1..][i]) by {
        forall i | 0 <= i < |parts[1..]|
          ensures ParseInt(parts[1..][i]) == Some(ids[1..][i])
        {
          assert parts[1..][i] == parts[i + 1] && ids[1..][i] == ids[i + 1];
        }
      }
      ParseAllPointwise(parts[1..], ids[1..]);
      assert [ids[0]] + ids[1..] == ids;
    }
  }

  lemma ParseAllIdStrings(ids: seq<int>)
    ensures ParseAll(IdStrings(ids)) == Some(ids)
  {
    var parts := IdStrings(ids);
    forall i | 0 <= i < |parts|
      ensures ParseInt(parts[i]) == Some(ids[i])
    {
      IntRoundTrip(ids[i]);
    }
    ParseAllPointwise(parts, ids);
  }

  /** A non-empty id list joins to a segment with no separator at either end,
      whose ';'-pieces are the ids' decimal forms in order, and which parses
      back to the ids. */
  lemma JoinIdsRoundTrip(ids: seq<int>)
    requires |ids| > 0
    ensures var segment := JoinIds(ids);
      && segment[0] != ';' && segment[|segment| - 1] != ';'
      && Split(segment, ';') == IdStrings(ids)
      && ParseIds(segment) == Some(ids)
  {
    JoinIdsEnds(ids);
    var parts := IdStrings(ids);
    forall i | 0 <= i < |parts|
      ensures ';' !in parts[i]
    {
      NoSeparatorInInt(ids[i], ';');
    }
    SplitJoin(parts, ';');
    ParseAllIdStrings(ids);
  }

  /** The comments URL for the given answer ids. An empty list leaves the id
      segment empty: the path reads `/2.2/answers//comments` and no error is
      raised on this side. */
  function CommentsUrl(ids: seq<int>): (url: string)
    ensures |ids| == 0 ==> url == COMMENTS_PREFIX + COMMENTS_SUFFIX
    ensures |COMMENTS_PREFIX| + |COMMENTS_SUFFIX| <= |url|
    ensures url[..|COMMENTS_PREFIX|] == COMMENTS_PREFIX
    ensures url[|url| - |COMMENTS_SUFFIX|..] == COMMENTS_SUFFIX
  {
    COMMENTS_PREFIX + JoinIds(ids) + COMMENTS_SUFFIX
  }

  /** With no answer ids the path has an empty segment between two slashes. */
  lemma CommentsUrlEmpty()
    ensures var url, n := CommentsUrl([]), |API_URI_SCHEME_AUTHORITY|;
      && |url| == n + 22 + |API_URI_ANSWERS_COMMON_QUERY|
      && url[..n] == API_URI_SCHEME_AUTHORITY
      && url[n..n + 22] == "/2.2/answers//comments"
      && url[n + 22..] == API_URI_ANSWERS_COMMON_QUERY
  {
    var path := API_URI_ANSWERS_PATH + "/" + API_URI_COMMENTS_PATH;
    assert path == "/2.2/answers//comments";
    assert JoinIds([]) == "";
    Regroup(API_URI_SCHEME_AUTHORITY, API_URI_ANSWERS_PATH, "/", API_URI_COMMENTS_PATH, API_URI_ANSWERS_COMMON_QUERY);
    ThreeParts(API_URI_SCHEME_AUTHORITY, path, API_URI_ANSWERS_COMMON_QUERY);
  }

  /** The empty-list comments URL regrouped around its path; stated over plain
      strings so that the URL constants are never unfolded. */
  lemma Regroup(a: string, p: string, s: string, c: string, q: string)
    ensures (a + p + s) + "" + (c + q) == a + (p + s + c) + q
  {
  }

  /** The three pieces of a concatenation can be read back by position. */
  lemma ThreeParts(a: string, b: string, c: string)
    ensures var u := a + b + c;
      && |u| == |a| + |b| + |c|
      && u[..|a|] == a && u[|a|..|a| + |b|] == b && u[|a| + |b|..] == c
  {
  }

  /** Reads the answer ids back out of a comments URL. */
  function ParseCommentsUrl(url: string): Option<seq<int>>
  {
    if |COMMENTS_PREFIX| + |COMMENTS_SUFFIX| <= |url|
       && url[..|COMMENTS_PREFIX|] == COMMENTS_PREFIX
       && url[|url| - |COMMENTS_SUFFIX|..] == COMMENTS_SUFFIX
    then ParseIds(url[|COMMENTS_PREFIX|..|url| - |COMMENTS_SUFFIX|])
    else None
  }

  /** The comments URL of a non-empty id list determines the ids, in order;
      that of the empty list carries no id at all. */
  lemma CommentsUrlRoundTrip(ids: seq<int>)
    ensures |ids| > 0 ==> ParseCommentsUrl(CommentsUrl(ids)) == Some(ids)
    ensures |ids| == 0 ==> ParseCommentsUrl(CommentsUrl(ids)) == None
  {
    var url := CommentsUrl(ids);
    var segment := JoinIds(ids);
    assert url[|COMMENTS_PREFIX|..|url| - |COMMENTS_SUFFIX|] == segment;
    if |ids| > 0 {
      JoinIdsRoundTrip(ids);
    } else {
      assert Split(segment, ';') == [""];
      assert ParseInt("") == None;
    }
  }

  // ---------------------------------------------------------------------
  // Result dictionary
  // ---------------------------------------------------------------------

  /** `ResultDictionaryFactory.mean`: the arithmetic mean, exact. An empty list
      divides by zero in the source, so it is excluded here. */
  function Mean(xs: seq<int>): (r: real)
    requires |xs| > 0
    ensures r * (|xs| as real) == Sum(xs) as real
  {
    (Sum(xs) as real) / (|xs| as real)
  }

  /** The mean of a non-empty list lies between its least and greatest element. */
  lemma MeanBounds(xs: seq<int>)
    requires |xs| > 0
    ensures Minimum(xs) as real <= Mean(xs) <= Maximum(xs) as real
  {
    SumLowerBound(xs, Minimum(xs));
    SumUpperBound(xs, Maximum(xs));
    QuotientBounds(Sum(xs), |xs|, Minimum(xs), Maximum(xs));
  }

  /** Integer bounds `n * lo <= s <= n * hi` carry over to the exact quotient. */
  lemma QuotientBounds(s: int, n: int, lo: int, hi: int)
    requires n > 0 && n * lo <= s <= n * hi
    ensures lo as real <= (s as real) / (n as real) <= hi as real
  {
    assert (n * lo) as real == (n as real) * (lo as real);
    assert (n * hi) as real == (n as real) * (hi as real);
    RealQuotientBounds(s as real, n as real, lo as real, hi as real);
  }

  lemma RealQuotientBounds(s: real, n: real, lo: real, hi: real)
    requires n > 0.0 && n * lo <= s <= n * hi
    ensures lo <= s / n <= hi
  {
    assert s / n * n == s;
  }

  lemma MeanExample()
    ensures Mean([4, 3, 4, 5]) == 4.0
  {
    assert Sum([4, 3, 4, 5]) == 16;
  }

  /** Answer counts 1, 1 and 2 average to 4/3, the 1.33 of two-decimal rounding. */
  lemma MeanAnswerCountsExample()
    ensures Mean([1, 1, 2]) == 4.0 / 3.0
  {
    assert Sum([1, 1, 2]) == 4;
  }

  /** A value of the result dictionary. */
  datatype Value =
    | IntValue(n: int)
    | RealValue(x: real)
    | CountsValue(counts: map<int, int>)

  /** The keys of the result dictionary. */
  datatype ResultKey =
    | TotalAcceptedAnswers
    | AcceptedAnswersAverageScore
    | AverageAnswersPerQuestion
    | TopTenAnswersCommentCount

  /** The string under which each key is stored in the source's dictionary. */
  function KeyName(k: ResultKey): string
  {
    match k
    case TotalAcceptedAnswers => "total_accepted_answers"
    case AcceptedAnswersAverageScore => "accepted_answers_average_score"
    case AverageAnswersPerQuestion => "average_answers_per_question"
    case TopTenAnswersCommentCount => "top_ten_answers_comment_count"
  }

  const RESULT_KEYS: set<ResultKey> :=
    {TotalAcceptedAnswers, AcceptedAnswersAverageScore, AverageAnswersPerQuestion, TopTenAnswersCommentCount}

  /** The four key strings differ, so a dictionary keyed by them has as many
      entries as one keyed by `ResultKey`. */
  lemma KeyNamesDistinct(j: ResultKey, k: ResultKey)
    ensures KeyName(j) == KeyName(k) <==> j == k
  {
    if j != k {
      assert |KeyName(TotalAcceptedAnswers)| == 22;
      assert |KeyName(AcceptedAnswersAverageScore)| == 30;
      assert |KeyName(AverageAnswersPerQuestion)| == 28;
      assert |KeyName(TopTenAnswersCommentCount)| == 29;
    }
  }

  /** `ResultDictionaryFactory.create`: exactly the four result keys, the count
      of accepted answers, the two means, and the comment counts unchanged. */
  function Create(acceptedScores: seq<int>, answersPerQuestion: seq<int>,
                  commentsPerAnswer: map<int, int>): (r: map<ResultKey, Value>)
    requires |acceptedScores| > 0 && |answersPerQuestion| > 0
    ensures r.Keys == RESULT_KEYS
    ensures r[TotalAcceptedAnswers] == IntValue(|acceptedScores|)
    ensures r[AcceptedAnswersAverageScore].RealValue?
    ensures r[AcceptedAnswersAverageScore].x * (|acceptedScores| as real) == Sum(acceptedScores) as real
    ensures r[AverageAnswersPerQuestion].RealValue?
    ensures r[AverageAnswersPerQuestion].x * (|answersPerQuestion| as real) == Sum(answersPerQuestion) as real
    ensures r[TopTenAnswersCommentCount] == CountsValue(commentsPerAnswer)
  {
    map[TotalAcceptedAnswers := IntValue(|acceptedScores|),
        AcceptedAnswersAverageScore := RealValue(Mean(acceptedScores)),
        AverageAnswersPerQuestion := RealValue(Mean(answersPerQuestion)),
        TopTenAnswersCommentCount := CountsValue(commentsPerAnswer)]
  }

  /** The two averages of `create` are the means of their lists: a real that
      times the length gives the sum is the mean. */
  lemma CreateMeans(acceptedScores: seq<int>, answersPerQuestion: seq<int>,
                    commentsPerAnswer: map<int, int>)
    requires |acceptedScores| > 0 && |answersPerQuestion| > 0
    ensures var r := Create(acceptedScores, answersPerQuestion, commentsPerAnswer);
      && r[AcceptedAnswersAverageScore] == RealValue(Mean(acceptedScores))
      && r[AverageAnswersPerQuestion] == RealValue(Mean(answersPerQuestion))
  {
    var r := Create(acceptedScores, answersPerQuestion, commentsPerAnswer);
    ProductDeterminesFactor(r[AcceptedAnswersAverageScore].x, Mean(acceptedScores), |acceptedScores| as real);
    ProductDeterminesFactor(r[AverageAnswersPerQuestion].x, Mean(answersPerQuestion), |answersPerQuestion| as real);
  }

  lemma ProductDeterminesFactor(x: real, y: real, n: real)
    requires n != 0.0 && x * n == y * n
    ensures x == y
  {
    assert (x - y) * n == 0.0;
  }

  /** Each average of `create` lies between the least and the greatest element
      of its list. */
  lemma CreateAverageBounds(acceptedScores: seq<int>, answersPerQuestion: seq<int>,
                            commentsPerAnswer: map<int, int>)
    requires |acceptedScores| > 0 && |answersPerQuestion| > 0
    ensures var r := Create(acceptedScores, answersPerQuestion, commentsPerAnswer);
      && Minimum(acceptedScores) as real <= r[AcceptedAnswersAverageScore].x <= Maximum(acceptedScores) as real
      && Minimum(answersPerQuestion) as real <= r[AverageAnswersPerQuestion].x <= Maximum(answersPerQuestion) as real
  {
    CreateMeans(acceptedScores, answersPerQuestion, commentsPerAnswer);
    MeanBounds(acceptedScores);
    MeanBounds(answersPerQuestion);
  }
}
