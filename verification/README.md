# stackstatistics, modelled in Dafny

stackstatistics is a command-line tool. It asks the StackExchange API for the
answers posted between two timestamps and for the comments on those answers,
then prints four figures:

- the number of accepted answers;
- their mean score;
- the mean number of answers per question;
- the comment count of each of the first ten answers in response order, which
  the API sorts by votes.

This project models the tool's one piece of logic. That piece is the
aggregation inside `main()` and in `ResultDictionaryFactory`, together with
three decisions around it:

- the date-order gate, which rejects `since > until` before any request;
- the status gate `_verify_api_response`, where any status other than 200
  exits with `ERROR_API_RESPONSE`;
- the two request URLs. In the comments URL the answer ids are joined with `;`.

The model is functional. Answer and comment items are immutable records. Every
step is a pure function over `seq` and `map`. The whole run is the function
`Statistics.Main`. It takes the two timestamps and the two responses the HTTP
calls would receive. It returns the URLs requested, in order, and how the
process ends: the result dictionary is printed, `exit(code)` is called after a
logged message, or an exception escapes.

Modules:

- `Constants`: the exit codes, URL fragments and success status of `constants.py`.
- `Counting`: sums, occurrence counts, extrema and distinctness. The contracts
  are stated with these.
- `Decimal`: `str` on Python integers and a parser that reads it back.
- `Strings`: `sep.join` and `str.split` for a one-character separator.
- `Utils`: the URLs of `APIRequest`, plus `ResultDictionaryFactory.create` and `mean`.
- `Statistics`: the answer and comment records, the aggregation steps, the two
  gates and `Main`.

Notes on how the model reads the code:

- Duplicate answer ids among the first ten are handled as the source handles
  them. Both the key set and `dict(zip(...))` collapse duplicates, and the
  model's map comprehension does the same. Only
  `Statistics.InitialCommentCountsSize` assumes distinct ids, because it
  states that there are min(10, n) entries.
- In Python 2, `number_of_answers_per_question.values()` comes in no specified
  order. The model lists the values in first-occurrence order.
  `Statistics.AnswerCountsSum` is proved for every enumeration of the keys
  without repetition, so the mean does not depend on that choice.
- When no answer in the range is accepted, the source fails inside `mean` with
  `ZeroDivisionError`, after both requests. `Utils.Mean` therefore requires a
  non-empty list, and `Statistics.Main` ends such a run with
  `Raised("ZeroDivisionError")`.
- Some responses lack the keys the code reads next. A failing response without
  `error_message`/`error_name` makes the log line raise `KeyError`, and so does
  a status-200 response without `items`. Both end in `Raised("KeyError")`.
- The result dictionary is keyed by the datatype `Utils.ResultKey`, one
  constructor per key. `Utils.KeyName` gives the string under which the source
  stores each entry, such as `total_accepted_answers`.
- The source is Python 2. Decoded JSON strings are `unicode`, and the log line
  of `_verify_api_response` is built by formatting them into a byte string.
  A non-ASCII error message or name therefore raises `UnicodeEncodeError`
  before `exit` is reached, and the model ends such a run with
  `Raised("UnicodeEncodeError")`.
- The docstring of `_verify_api_response` speaks of a response that did not
  succeed. The code compares the status against exactly 200 (`is not 200`,
  which CPython's small-integer cache makes equivalent to `!= 200`). The model
  follows the code: every other status, 2xx included, is an API error.

## Model

| member | source | states |
|---|---|---|
| `Statistics.AnswerIds` | stackstatistics/statistics.py:57 | the id list has one entry per answer item, in response order; entry i is item i's `answer_id` |
| `Statistics.AcceptedScores` | stackstatistics/statistics.py:60 | the accepted-score list is never longer than the list of answer items |
| `Statistics.AcceptedScoresSelect` | stackstatistics/statistics.py:60 | the accepted-score list is exactly the accepted items' scores, in order: there is an ascending list of positions that covers every accepted item and only accepted items, and the k-th score belongs to the k-th of those positions |
| `Statistics.AnswersPerQuestion` | stackstatistics/statistics.py:63-65 | the keys are exactly the question ids that occur among the items (questions with no fetched answer are absent); each count is the number of items with that question id and is at least 1 |
| `Statistics.QuestionOrder` | stackstatistics/statistics.py:84 | the enumeration of the per-question keys has no repetition and contains exactly the question ids that occur |
| `Statistics.ValuesAt` | stackstatistics/statistics.py:84 | the listed values are the map's entries at the given keys, one per key, in key order |
| `Statistics.AnswerCountsSum` | stackstatistics/statistics.py:63-65 | in any order without repetition, the per-question counts sum to the number of answer items, and there are as many counts as questions |
| `Statistics.MeanAnswersPerQuestion` | stackstatistics/utils.py:73 | the mean answers per question equals the number of answer items divided by the number of distinct question ids |
| `Statistics.TopTen` | stackstatistics/statistics.py:75-76 | the top ten is the prefix of the id list of length min(10, n) |
| `Statistics.InitialCommentCounts` | stackstatistics/statistics.py:75-76 | before the comment loop, the keys are exactly the first min(10, n) answer ids and every entry is 0 |
| `Statistics.InitialCommentCountsSize` | stackstatistics/statistics.py:75-76 | with distinct ids, the initial map has exactly min(10, n) entries |
| `Statistics.TallyComments` | stackstatistics/statistics.py:78-80 | the comment loop never adds or removes a key; an id in the top-ten set grows by the number of comments whose `post_id` is that id; any other key keeps its value |
| `Statistics.TallyIgnoresOtherPosts` | stackstatistics/statistics.py:78-80 | inserting a comment whose `post_id` is outside the top ten, at any position, leaves the resulting map unchanged |
| `Statistics.CommentCounts` | stackstatistics/statistics.py:74-80 | each of the first ten answer ids maps to the number of comment items whose `post_id` equals it, so ids without comments stay at 0, and no other id is a key |
| `Statistics.CommentCountsTotal` | stackstatistics/statistics.py:74-80 | the comment counts, each key listed once in any order, add up to at most the number of comment items, duplicate ids among the first ten included |
| `Statistics.CheckDateOrder` | stackstatistics/statistics.py:41-43 | the gate passes exactly when since <= until (equal timestamps pass); otherwise it exits with `ERROR_DATE_ARGUMENTS_ORDER` (-2) and logs the ordering message |
| `Statistics.VerifyApiResponse` | stackstatistics/statistics.py:113-120 | the gate passes exactly when the status is 200; with any other status and an error envelope whose message and name are ASCII it exits with `ERROR_API_RESPONSE` (-3), and its log line ends with the remote error message and error name; with a non-ASCII message or name it raises `UnicodeEncodeError`; with any other status and no error envelope it raises `KeyError` |
| `Statistics.NonAsciiReasonRaises` | stackstatistics/statistics.py:116-119 | status 400 with the message `café` raises `UnicodeEncodeError` while the log line is built, before `exit` |
| `Statistics.Main` | stackstatistics/statistics.py:40-84 | since > until issues no request and exits with -2; otherwise the first request is the answers URL; a failing answers status stops after that request without a result, and with an ASCII error envelope exits with -3; status 200 without `items` raises `KeyError` after the answers request; a successful answers response with items continues with the comments stage; a result is printed only if both statuses are 200 and both bodies carry items |
| `Statistics.AfterAnswers` | stackstatistics/statistics.py:57-84 | once the answer items are in, the run makes exactly the answers request and then the comments request for the answer ids, in that order; a failing comments status with an ASCII error envelope exits with -3; status 200 without `items` raises `KeyError`; status 200 with items but no accepted answer raises `ZeroDivisionError`; a result is printed only if the comments status is 200 and its body carries items |
| `Statistics.MainCompleted` | stackstatistics/statistics.py:55-84 | under the same conditions the printed dictionary has the four result keys: the count of accepted answers, their mean score, the number of items over the number of distinct questions, and the top-ten comment counts |
| `Utils.AnswersUrl` | stackstatistics/utils.py:28-37 | the answers URL starts with the scheme/authority, the `/2.2/answers` path and the common query, and continues past that prefix |
| `Utils.AnswersUrlRoundTrip` | stackstatistics/utils.py:30-37 | after the fixed prefix, the answers URL reads `&fromdate=<since>&todate=<until>`, in that order: parsing it gives back exactly (since, until) |
| `Utils.IdStrings` | stackstatistics/utils.py:49 | the pieces are the decimal forms of the answer ids, one per id, in order |
| `Utils.JoinIds` | stackstatistics/utils.py:49 | the id segment is empty exactly when the id list is empty |
| `Utils.JoinIdsRoundTrip` | stackstatistics/utils.py:49 | a non-empty id segment neither starts nor ends with `;`; splitting it on `;` gives the decimal ids in order; parsing it gives back the ids |
| `Utils.CommentsUrl` | stackstatistics/utils.py:46-51 | the comments URL starts with `https://api.stackexchange.com/2.2/answers/` and ends with `/comments` plus the common query; for an empty id list nothing lies between the two |
| `Utils.CommentsUrlEmpty` | tests/test_utils.py:103-110 | with no answer ids the path is `/2.2/answers//comments`, followed by the common query; the URL is still built, because this side has no guard against an empty list |
| `Utils.CommentsUrlRoundTrip` | stackstatistics/utils.py:46-51 | the comments URL of a non-empty id list gives back exactly those ids, in order; that of the empty list carries no id |
| `Utils.Mean` | stackstatistics/utils.py:77-80 | for a non-empty list, the mean times the length equals the sum; the empty list is excluded, since the source divides by zero there |
| `Utils.MeanBounds` | stackstatistics/utils.py:80 | the mean of a non-empty list lies between its minimum and its maximum |
| `Utils.MeanExample` | tests/test_utils.py:127-144 | the mean of [4, 3, 4, 5] is exactly 4 |
| `Utils.MeanAnswerCountsExample` | tests/test_utils.py:56-58 | the answer counts 1, 1, 2 have mean exactly 4/3 |
| `Utils.Create` | stackstatistics/utils.py:62-75 | the dictionary has exactly the four keys `total_accepted_answers`, `accepted_answers_average_score`, `average_answers_per_question`, `top_ten_answers_comment_count`; the total is the length of the accepted-score list; each average times its list's length is that list's sum; the comment-count map is passed through unchanged |
| `Utils.CreateAverageBounds` | stackstatistics/utils.py:72-73 | each average in the dictionary lies between the least and the greatest element of the list it averages |
| `Utils.KeyNamesDistinct` | stackstatistics/utils.py:71-74 | two result keys have the same dictionary string exactly when they are the same key, so the four entries stay four under their string names |
| `Decimal.IntToString` | stackstatistics/utils.py:49 | `str` of an integer is non-empty and contains only digits and `-`, hence never `;` or `&` |
| `Decimal.IntRoundTrip` | stackstatistics/utils.py:49 | `str` of any integer reads back as that integer |
| `Strings.SplitJoin` | stackstatistics/utils.py:49 | splitting a `;`-join of a non-empty list of separator-free parts gives back the parts |
| `Strings.JoinEnds` | stackstatistics/utils.py:49 | a join of non-empty separator-free parts has no separator at either end |

## Left out

- HTTP requests and JSON decoding (`requests.get`, `.json()`): this is network I/O. `Statistics.Main` takes the two decoded responses as parameters. It therefore takes whatever the comments endpoint would answer to an empty id list, which is a remote error.
- `APIRequest._datetime_to_timestamp` (`time.mktime`): it depends on the local timezone. Timestamps are opaque integers, and the date-order gate compares the same integers the URL carries. The source compares the `datetime` values instead, and the two agree wherever the conversion is monotone.
- `validations.valid_date_is`: it is a thin wrapper over `datetime.strptime`, whose accepted formats belong to the standard library.
- Utils.Create: the two averages are the exact means as reals; the source rounds them with `round(…, 2)` on floats, which is not modelled.
- Utils.CreateMeans: states the exact means, not their `round(…, 2)` values, for the same reason.
- Statistics.MainCompleted: states the exact mean answers per question, not its two-decimal rounding, for the same reason.
- Statistics.InitialCommentCountsSize: requires distinct answer ids among the first ten. With duplicates the map has fewer entries, as `dict(zip(...))` does.
- `PrintOption` (`json`, `tabular`, `html`), `Item`, `_ItemTable` and `_ItemSubTable`: output formatting through `json`, `tabulate` and `flask_table`.
- Argument parsing (`ArgumentParser`, `--output-format`, `--version`) and the no-arguments branch (`len(argv) > 1`, else `ERROR_NO_ARGUMENTS`): CLI plumbing. `Statistics.Main` starts from parsed timestamps.
- Logging configuration and the `logging.info` progress messages. The messages the two gates log before exiting are kept as strings, without the time/level prefix the logging format adds.
- `setup.py`: packaging.
