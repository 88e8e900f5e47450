# Quiz solver core, modelled in Dafny

This project models the core of an automated quiz solver. Given an email, a secret and a start URL, the solver:

1. Opens a headless browser.
2. Loads a quiz page.
3. Pulls an embedded base64 block and the answer endpoint out of the page HTML.
4. POSTs `{"email": …, "answer": …}` to that endpoint.
5. Follows the `"url"` of the JSON reply to the next page, until something stops it.

In a `finally` block it then closes the browser context, the browser and Playwright.

The model has four modules:

- `Wrappers` (`wrappers.dfy`): `Option` and `Result`.
- `Patterns` (`patterns.dfy`): the four fixed regular expressions of `solver/utils.py`.
  - Each is a hand-written scanner anchored at the start of a text.
  - Each also has a declarative description of the texts it matches and of the group it captures.
  - A lemma proves that the scanner finds exactly the described group.
  - `re.search` is the leftmost index at which the scanner succeeds. A lemma proves that it returns the leftmost match and only it.
  - Python's `\s` is the exact set of code points for which `str.isspace()` holds.
- `Utils` (`utils.dfy`): `extract_base64` and `extract_submit_url` as functions over `Search`. Lemmas cover:
  - precedence between the two patterns of each function;
  - the exact result on well-formed input;
  - the alphabet and length bounds of the result;
  - failure exactly when nothing matches.
- `QuizSolver` (`quiz_solver.dfy`): `compute_answer` and `solve_quiz`.
  - The browser, the HTTP client and the JSON parser are replaced by a `World`. It says, per loop iteration, what `page.goto`/`page.content`, `page.title`, `client.post` and `resp.json` did. It also says whether each cleanup step raised.
  - `solve_quiz` is an imperative method, `SolveQuiz`. Its `while` loop reassigns `url` and `break`s out on each failure. It is proved equal to the specification function `Run`, which returns the log of observable actions (page loads, POSTs, cleanup steps) and how the call ended.
  - Lemmas about `Run` state when the loop stops, what is POSTed and how many times, where the next page comes from, and that cleanup always runs.
  - The line-44 call is modelled both as written and as intended (see Findings).

## Model

| member | source | states |
|---|---|---|
| Patterns.RunEnd | solver/utils.py:7 | a greedy character-class repetition stops at the first character outside the class, and every character it consumed is in the class |
| Patterns.DataUriAt | solver/utils.py:7 | an anchored match of `data:[^;]+;base64,([A-Za-z0-9+/=]+)` captures a non-empty group drawn only from the base64 alphabet |
| Patterns.DataUriAtIff | solver/utils.py:7 | the scanner captures `b` exactly when the text begins `data:<m>;base64,<b>`, where `m` is non-empty without `;`, `b` is non-empty base64 and no base64 character follows `b` |
| Patterns.LongRunAt | solver/utils.py:11 | an anchored match of `([A-Za-z0-9+/=]{100,})` captures at least 100 base64-alphabet characters |
| Patterns.LongRunAtIff | solver/utils.py:11 | the scanner captures `b` exactly when the text begins with `b`, `b` is 100 or more base64 characters, and no base64 character follows it |
| Patterns.UrlEnd | solver/utils.py:20-23 | `https?://` followed by a non-empty greedy run closed by a character outside the run's class yields an http(s) URL that lies entirely in the class |
| Patterns.FormActionAt | solver/utils.py:20 | an anchored match of ``action=["'](https?://[^"']+)["']`` captures an http(s) URL with no `"` or `'` |
| Patterns.FormActionAtIff | solver/utils.py:20 | the scanner captures `g` exactly when the text begins `action=<q1><scheme>://<host><q2>` with `g == <scheme>://<host>`, where the quotes are either kind (not necessarily equal), the scheme is http or https, and the host is non-empty and quote-free |
| Patterns.SubmitUrlFieldAt | solver/utils.py:23 | an anchored match of `"submit_url"\s*:\s*"(https?://[^"]+)"` captures an http(s) URL with no `"` |
| Patterns.SubmitUrlFieldAtIff | solver/utils.py:23 | the scanner captures `g` exactly when the text begins `"submit_url"<ws>:<ws>"<scheme>://<host>"` with `g == <scheme>://<host>` and whitespace as `str.isspace` defines it |
| Patterns.MatchAtIff | solver/utils.py:7-23 | for each of the four patterns, the scanner's group at a position is exactly the group the declarative description gives |
| Patterns.SearchFrom | solver/utils.py:7 | the scan from index `i` returns the first index at or after `i` where the matcher succeeds, with its group, or None when it succeeds nowhere from `i` on |
| Patterns.Search | solver/utils.py:7-23 | `re.search` returns a match at the leftmost start index where the pattern matches, or None when it matches at no index |
| Patterns.SearchIff | solver/utils.py:7-23 | `re.search` returns start `k` and group `g` exactly when the pattern matches at `k` with `g` and at no earlier index |
| Patterns.SearchNoneIff | solver/utils.py:7-23 | `re.search` returns None exactly when the pattern matches nowhere |
| Utils.ExtractBase64 | solver/utils.py:5-12 | any string returned is non-empty and uses only `[A-Za-z0-9+/=]` |
| Utils.ExtractBase64Iff | solver/utils.py:7-12 | the result is `b` exactly when `b` is the group of the leftmost data-URI match, or, when no data URI matches anywhere, the group of the leftmost long-run match |
| Utils.ExtractBase64NoneIff | solver/utils.py:12 | the result is None exactly when neither pattern matches anywhere |
| Utils.ExtractBase64AfterPrefix | solver/utils.py:7-9 | after a prefix in which no data URI matches (it may hold a 100+ character base64 run), a well-formed `data:<m>;base64,<b>` yields exactly `b` |
| Utils.ExtractBase64OfDataUri | solver/utils.py:7-9 | a page that begins with a well-formed `data:<m>;base64,<b>` yields exactly `b` |
| Utils.LongRunAtIffRunOf100 | solver/utils.py:11 | the long-run pattern matches at index `k` exactly when 100 base64 characters follow `k` |
| Utils.LeftmostLongRunMatch | solver/utils.py:11-12 | the leftmost long-run match is the whole of the leftmost maximal base64 run that is 100 or more characters long |
| Utils.LongRunMatchOfLeftmost | solver/utils.py:11-12 | the leftmost maximal base64 run of 100 or more characters is the leftmost long-run match |
| Utils.ExtractBase64Fallback | solver/utils.py:10-12 | when no data URI matches, the result is `b` exactly when `b` is the whole of the leftmost maximal base64 run of length 100 or more |
| Utils.ExtractSubmitUrl | solver/utils.py:15-26 | a URL returned starts with `http://` or `https://`, has at least one character after `://` and contains no `"`; the only failure is ValueError("Submit URL not found on page") |
| Utils.ExtractSubmitUrlIff | solver/utils.py:20-25 | the result is `u` exactly when `u` is the group of the leftmost form-action match, or, when no form action matches anywhere, of the leftmost `"submit_url"` field |
| Utils.ExtractSubmitUrlErrIff | solver/utils.py:26 | ValueError is raised exactly when neither pattern matches anywhere, so there is no default URL |
| Utils.FormActionTakesPrecedence | solver/utils.py:20-22 | the leftmost form action is returned wherever it stands, even after a `"submit_url"` field |
| Utils.FormActionResultHasNoQuotes | solver/utils.py:20-22 | when any form action matches, the URL returned contains neither `"` nor `'` |
| Utils.FormActionQuotesNeedNotMatch | solver/utils.py:20 | `action="http://q.test'` yields `http://q.test`: the two quotes need not be the same kind |
| QuizSolver.ComputeAnswer | solver/quiz_solver.py:10-20 | the answer is `"42"` whatever `page.title()` returned or raised |
| QuizSolver.CallExtractSubmitUrl | solver/quiz_solver.py:43-47 | a call with other than one argument raises TypeError and nothing else does; a URL found is an http(s) URL without `"`; not finding one is the ValueError |
| QuizSolver.VisitPage | solver/quiz_solver.py:32-65 | one pass of the loop body takes exactly the steps of the specification function Iteration |
| QuizSolver.SolveQuiz | solver/quiz_solver.py:23-79 | the log and the exit of the imperative loop with its `finally` block are those of the specification function Run; the secret does not affect them |
| QuizSolver.IterationShape | solver/quiz_solver.py:32-65 | an iteration loads its page and then POSTs at most one answer; a POST holds the email and "42", goes to the URL that extract_submit_url found on that page, and is reached only by the intended call; the loop goes on only to a reply's non-empty "url" |
| QuizSolver.IterationActions | solver/quiz_solver.py:32-52 | an iteration's actions are the page load alone, or the page load followed by the POST of the answer to the page's submit URL |
| QuizSolver.IterationOutcome | solver/quiz_solver.py:51-65 | an iteration POSTs exactly when it goes on or ends after the POST; it goes on only when the reply is a JSON object whose "url" is non-empty, and then to that URL |
| QuizSolver.FoundEndpointIsAnswered | solver/quiz_solver.py:44-52 | with the intended call, a loaded page that names a submit URL is answered there, right after it is loaded |
| QuizSolver.FoundEndpointContinues | solver/quiz_solver.py:61-65 | with the intended call, a reply naming a non-empty URL sends the loop to exactly that URL |
| QuizSolver.LoopStopsAtFirstHalt | solver/quiz_solver.py:28-65 | a falsy URL loads nothing and returns; otherwise the start URL is loaded first, with at most one page per iteration; each page but the last went on to the URL loaded next; the last page is the first whose iteration left the loop, and its exit is the loop's; the log is the iterations' actions in order |
| QuizSolver.HaltingPageIsLast | solver/quiz_solver.py:30-64 | the first page whose iteration breaks out is the last page loaded; the loop's exit is that iteration's, and the log ends with its actions |
| QuizSolver.NavigationFailureEndsRun | solver/quiz_solver.py:32-36 | a page whose `goto` raised is the last; nothing is POSTed for it and the run returns |
| QuizSolver.MissingEndpointEndsRun | solver/quiz_solver.py:43-47 | with the intended call, a page without a submit URL is the last; the run returns with nothing POSTed for it, so compute_answer and the POST are not reached |
| QuizSolver.UnusableReplyEndsRun | solver/quiz_solver.py:51-64 | a POST that raised, a non-JSON reply, a JSON non-object (AttributeError escapes) or a missing or falsy "url" ends the run right after that POST |
| QuizSolver.NextPageComesFromReply | solver/quiz_solver.py:61-65 | every page but the last was loaded and had a submit URL, and the reply to its answer was a JSON object whose "url" is the next page's non-empty URL |
| QuizSolver.ReplyLeadsToNextPage | solver/quiz_solver.py:61-65 | a reply naming a non-empty "url" makes the next iteration load exactly that URL |
| QuizSolver.SubmissionCount | solver/quiz_solver.py:30-65 | the number of POSTs equals the number of pages loaded, less one when the last page was left before its POST |
| QuizSolver.CleanupAlwaysRuns | solver/quiz_solver.py:26-79 | once the browser is open, the log ends with closing the context, then the browser, then stopping Playwright. Each step is attempted whether or not an earlier one raised, and none comes earlier. Their failures do not change how the run ends |
| QuizSolver.PostsAnswerTheirPage | solver/quiz_solver.py:48-52 | every POST comes right after the page load it answers, goes to an http(s) URL, and sends exactly `{"email": email, "answer": "42"}`, never the secret |
| QuizSolver.FalsyStartUrl | solver/quiz_solver.py:28-79 | a falsy start URL loads nothing and POSTs nothing; only the cleanup runs, and the run returns |
| QuizSolver.AsWrittenNeverSubmits | solver/quiz_solver.py:44-45 | as written, the first page that loads ends the run with TypeError escaping `except ValueError`; no answer is ever POSTed and the cleanup still runs |
| QuizSolver.IntendedSubmitsFirstPage | solver/quiz_solver.py:43-52 | with the single-argument call, a start page that loads and names a submit URL is answered there right after it is loaded |
| QuizSolver.TwoQuestionRun | solver/quiz_solver.py:30-79 | two pages, where the first reply names the second page and the second reply has no "url": both answers are POSTed to the pages' submit URLs, the cleanup runs and the run returns |

## Left out

- Browser and network I/O are outcomes supplied by a `World`, one per loop iteration. This covers `open_browser`, `page.goto`, `page.content`, `page.title`, `client.post` and `resp.json`. solver/browser.py is not part of this model.
- The World lists finitely many iterations. When the loop wants another one, the model stops with `OutOfScript`. That stop is not a behaviour of the program: it bounds the model, while the program itself may loop forever.
- `asyncio.sleep` and all logging are left out: they do not affect any control decision.
- `extract_base64` is called in the loop body, but its result is only logged. The loop model calls it and discards the result.
- The `async with httpx.AsyncClient()` block closing the client is left out. The model lists only the three guarded cleanup steps of the `finally` block.
- The HTTP status of the POST is not modelled: the source never checks it.
- A reply's `"url"` is modelled as absent or a string. A truthy non-string JSON value (a number, a list) is left out; the source would pass it to `page.goto`.
- `Exception` raised by `data.get` is modelled only for a JSON value that is not an object (AttributeError).
- Base64 decoding is left out: the source does not decode anything.
- A general regular-expression engine is left out. Only the four fixed patterns are modelled. Each is deterministic: every greedy run is followed either by a literal character outside its class or by the end of the pattern (the group at solver/utils.py:7 and the whole pattern at solver/utils.py:11), so backtracking never finds a second match.
- server.py, helpers/helper_functions.py and src/main.py are not part of this model. They are request plumbing, a single string comparison, and a script that imports a name that does not exist.
- The code has only two strategies for the submit URL: a form action, then a `"submit_url"` field. There is no `/submit`-path or fallback-host strategy, and the model has none.

## Findings

| source | as written | input that shows it | evidently intended | confidence | as-written member | corrected member |
|---|---|---|---|---|---|---|
| solver/quiz_solver.py:44 | `extract_submit_url(html, url)` passes two arguments, but solver/utils.py:15 declares only `html`. Python raises TypeError, which `except ValueError` at line 45 does not catch, so the exception leaves `solve_quiz` after the `finally` cleanup. | any start URL whose page loads, e.g. a page `action="https://x.test/submit"` | `extract_submit_url(html)`, so the endpoint is found and the answer POSTed | high (not executed) | QuizSolver.AsWrittenNeverSubmits | QuizSolver.IntendedSubmitsFirstPage |
