/**
 * solver/quiz_solver.py: compute_answer and the solve loop.
 *
 * The browser, the HTTP client and the JSON parser are replaced by a World: for
 * each iteration of the loop, what page.goto / page.content did, what page.title
 * did, and what client.post and resp.json did; and whether each cleanup step
 * raised. The loop's observable behaviour is a log of Actions (pages loaded,
 * answers POSTed, cleanup steps attempted) and an Exit (how solve_quiz ended).
 */
module QuizSolver {
  import opened Wrappers
  import opened Patterns
  import opened Utils

  // ---------------------------------------------------------------------------
  // compute_answer
  // ---------------------------------------------------------------------------

  /** What `await page.title()` did. */
  datatype TitleOutcome = Title(text: string) | TitleRaised

  const PlaceholderAnswer: string := "42"

  /**
   * compute_answer: reads the page title, with any exception replaced by the empty
   * title, and returns the placeholder answer whatever the title was.
   */
  function ComputeAnswer(title: TitleOutcome): (answer: string)
    ensures answer == "42"
  {
    var titleText := match title case Title(text) => text case TitleRaised => "";
    PlaceholderAnswer
  }

  // ---------------------------------------------------------------------------
  // The call at solver/quiz_solver.py:44
  // ---------------------------------------------------------------------------

  /** Exceptions that leave solve_quiz (the `finally` block still runs for all but the first). */
  datatype Fault =
    | LaunchFailed    // open_browser() raised, before the try block
    | ContentFailed   // page.content() raised; that call is inside no try
    | TypeError       // extract_submit_url called with the wrong number of arguments
    | AttributeError  // data.get("url") on a JSON reply that is not an object

  /** The outcome of calling extract_submit_url. */
  datatype Extraction = Found(url: string) | NotFound(error: ValueError) | Raised(fault: Fault)

  /**
   * Calling extract_submit_url with the positional arguments `args`. Python checks
   * the number of arguments against the single parameter `html` before running the
   * body, and raises TypeError on a mismatch.
   */
  function CallExtractSubmitUrl(args: seq<string>): (r: Extraction)
    ensures r.Raised? <==> |args| != 1
    ensures r.Raised? ==> r.fault == TypeError
    ensures r.Found? ==> IsHttpUrl(r.url) && AllIn(r.url, NotDoubleQuote)
    ensures r.NotFound? ==> r.error == ValueError(SubmitUrlNotFound)
  {
    if |args| != 1 then Raised(TypeError)
    else
      match ExtractSubmitUrl(args[0])
      case Ok(u) => Found(u)
      case Err(e) => NotFound(e)
  }

  /** Line 44 as written passes the page URL as a second argument; as intended it passes only the HTML. */
  datatype CallSite = AsWritten | Intended

  function ExtractionArgs(site: CallSite, html: string, url: string): seq<string> {
    match site
    case AsWritten => [html, url]
    case Intended => [html]
  }

  // ---------------------------------------------------------------------------
  // The world the loop runs against
  // ---------------------------------------------------------------------------

  /** What page.goto(url) and then page.content() did. */
  datatype PageLoad = GotoRaised | ContentRaised | Loaded(html: string)

  /** What resp.json() made of the response body. */
  datatype ReplyBody = NotJson | JsonObject(url: Option<string>) | JsonNotObject

  /** What client.post did: raised, or returned a response. */
  datatype PostOutcome = PostRaised | Replied(body: ReplyBody)

  /** The outside world's behaviour during one iteration of the loop. */
  datatype PageVisit = PageVisit(load: PageLoad, title: TitleOutcome, post: PostOutcome)

  /** Whether context.close(), browser.close() and p.stop() raised. */
  datatype CleanupOutcomes = CleanupOutcomes(contextCloseRaises: bool, browserCloseRaises: bool, stopRaises: bool)

  /** Whether open_browser() raised, the iterations in order, and the cleanup. */
  datatype World = World(launchRaises: bool, visits: seq<PageVisit>, cleanup: CleanupOutcomes)

  // ---------------------------------------------------------------------------
  // What the loop does
  // ---------------------------------------------------------------------------

  datatype CleanupStep = CloseContext | CloseBrowser | StopPlaywright

  /** An externally visible step of solve_quiz. */
  datatype Action =
    | Goto(url: string)                                  // page.goto(url) attempted
    | Post(endpoint: string, json: seq<(string, string)>) // client.post(endpoint, json=...) attempted
    | Cleanup(step: CleanupStep, raised: bool)           // a cleanup step attempted

  /** The JSON object POSTed: `{"email": email, "answer": answer}`. */
  function SubmitPayload(email: string, answer: string): seq<(string, string)> {
    [("email", email), ("answer", answer)]
  }

  /** Why solve_quiz returned normally. */
  datatype Stop =
    | NoUrl             // `while url` found url falsy
    | LoadFailed        // page.goto raised
    | EndpointNotFound  // extract_submit_url raised ValueError
    | SubmissionFailed  // client.post raised
    | NonJsonReply      // resp.json() raised
    | NoNextUrl         // the reply's "url" was missing or falsy
    | OutOfScript       // the World describes no further iteration (not a behaviour of the source)

  datatype Exit = Returned(stop: Stop) | Escaped(fault: Fault)

  /** Python truthiness of an Optional[str]. */
  predicate Truthy(url: Option<string>) {
    url.Some? && url.value != ""
  }

  /** The result of one iteration: go on with the next URL, or leave the loop. */
  datatype Step = Continue(actions: seq<Action>, next: string) | Halt(actions: seq<Action>, exit: Exit)

  /** One pass of the loop body on page `url`, as the source's branches decide it. */
  function Iteration(email: string, url: string, v: PageVisit, site: CallSite): Step {
    match v.load
    case GotoRaised => Halt([Goto(url)], Returned(LoadFailed))
    case ContentRaised => Halt([Goto(url)], Escaped(ContentFailed))
    case Loaded(html) =>
      match CallExtractSubmitUrl(ExtractionArgs(site, html, url))
      case Raised(f) => Halt([Goto(url)], Escaped(f))
      case NotFound(_) => Halt([Goto(url)], Returned(EndpointNotFound))
      case Found(endpoint) =>
        var sent := [Goto(url), Post(endpoint, SubmitPayload(email, ComputeAnswer(v.title)))];
        match v.post
        case PostRaised => Halt(sent, Returned(SubmissionFailed))
        case Replied(NotJson) => Halt(sent, Returned(NonJsonReply))
        case Replied(JsonNotObject) => Halt(sent, Escaped(AttributeError))
        case Replied(JsonObject(next)) =>
          if !Truthy(next) then Halt(sent, Returned(NoNextUrl)) else Continue(sent, next.value)
  }

  /** A loop body: the Step one iteration takes on a URL, given what the World does during it. */
  type Body = (string, PageVisit) -> Step

  /** The `while url:` loop with body `body`, from `url` over the remaining iterations of the World. */
  function Walk(body: Body, url: Option<string>, visits: seq<PageVisit>): (seq<Action>, Exit)
    decreases |visits|
  {
    if !Truthy(url) then ([], Returned(NoUrl))
    else if visits == [] then ([], Returned(OutOfScript))
    else
      match body(url.value, visits[0])
      case Halt(actions, exit) => (actions, exit)
      case Continue(actions, next) =>
        var (rest, exit) := Walk(body, Some(next), visits[1..]);
        (actions + rest, exit)
  }

  /** The body of solve_quiz's loop. */
  function SolveBody(email: string, site: CallSite): Body {
    (url, v) => Iteration(email, url, v, site)
  }

  /** solve_quiz's `while url:` loop. */
  function Loop(email: string, url: Option<string>, visits: seq<PageVisit>, site: CallSite): (seq<Action>, Exit) {
    Walk(SolveBody(email, site), url, visits)
  }

  /** One unfolding of Walk on a truthy URL with an iteration left. */
  lemma WalkStep(body: Body, url: Option<string>, visits: seq<PageVisit>, step: Step)
    requires Truthy(url) && visits != [] && step == body(url.value, visits[0])
    ensures step.Halt? ==> Walk(body, url, visits) == (step.actions, step.exit)
    ensures step.Continue? ==>
              Walk(body, url, visits) == (step.actions + Walk(body, Some(step.next), visits[1..]).0, Walk(body, Some(step.next), visits[1..]).1)
  {
  }

  lemma AppendAssoc(a: seq<Action>, b: seq<Action>, c: seq<Action>)
    ensures a + (b + c) == a + b + c
  {
  }

  /** The `finally` block: three steps, each attempted whatever the others did. */
  function CleanupLog(c: CleanupOutcomes): seq<Action> {
    [Cleanup(CloseContext, c.contextCloseRaises), Cleanup(CloseBrowser, c.browserCloseRaises),
     Cleanup(StopPlaywright, c.stopRaises)]
  }

  /** solve_quiz from start to end. */
  function Run(email: string, startUrl: Option<string>, world: World, site: CallSite): (seq<Action>, Exit) {
    if world.launchRaises then ([], Escaped(LaunchFailed))
    else
      var (log, exit) := Loop(email, startUrl, world.visits, site);
      (log + CleanupLog(world.cleanup), exit)
  }

  /** The body of the `while url:` loop on page `url`: the branches of Iteration, taken in the source's order. */
  method VisitPage(email: string, url: string, visit: PageVisit, site: CallSite) returns (step: Step)
    ensures step == Iteration(email, url, visit, site)
  {
    if visit.load.GotoRaised? {
      return Halt([Goto(url)], Returned(LoadFailed));
    }
    if visit.load.ContentRaised? {
      return Halt([Goto(url)], Escaped(ContentFailed));
    }
    var html := visit.load.html;
    var dataPayload := ExtractBase64(html);
    var extraction := CallExtractSubmitUrl(ExtractionArgs(site, html, url));
    if extraction.Raised? {
      return Halt([Goto(url)], Escaped(extraction.fault));
    }
    if extraction.NotFound? {
      return Halt([Goto(url)], Returned(EndpointNotFound));
    }
    var answer := ComputeAnswer(visit.title);
    var sent := [Goto(url), Post(extraction.url, SubmitPayload(email, answer))];
    if visit.post.PostRaised? {
      return Halt(sent, Returned(SubmissionFailed));
    }
    var body := visit.post.body;
    if body.NotJson? {
      return Halt(sent, Returned(NonJsonReply));
    }
    if body.JsonNotObject? {
      return Halt(sent, Escaped(AttributeError));
    }
    var nextUrl := body.url;
    if !Truthy(nextUrl) {
      return Halt(sent, Returned(NoNextUrl));
    }
    return Continue(sent, nextUrl.value);
  }

  /**
   * solve_quiz. The secret is accepted and never used: the log and the exit are
   * those of Run, which does not take it.
   */
  method SolveQuiz(email: string, secret: string, startUrl: Option<string>, world: World, site: CallSite)
    returns (log: seq<Action>, exit: Exit)
    ensures (log, exit) == Run(email, startUrl, world, site)
  {
    log := [];
    if world.launchRaises {
      exit := Escaped(LaunchFailed);
      return;
    }
    var url := startUrl;
    var i := 0;
    exit := Returned(NoUrl);
    assert world.visits[i..] == world.visits;
    ghost var whole := Loop(email, startUrl, world.visits, site);
    assert log + whole.0 == whole.0;
    while Truthy(url)
      invariant 0 <= i <= |world.visits|
      invariant exit == Returned(NoUrl)
      invariant whole.0 == log + Loop(email, url, world.visits[i..], site).0
      invariant whole.1 == Loop(email, url, world.visits[i..], site).1
      decreases |world.visits| - i
    {
      if i == |world.visits| {
        assert world.visits[i..] == [];
        exit := Returned(OutOfScript);
        break;
      }
      assert world.visits[i..][0] == world.visits[i] && world.visits[i..][1..] == world.visits[i + 1..];
      var step := VisitPage(email, url.value, world.visits[i], site);
      WalkStep(SolveBody(email, site), url, world.visits[i..], step);
      ghost var oldLog := log;
      log := log + step.actions;
      if step.Halt? {
        exit := step.exit;
        break;
      }
      AppendAssoc(oldLog, step.actions, Loop(email, Some(step.next), world.visits[i + 1..], site).0);
      url := Some(step.next);
      i := i + 1;
    }
    assert log == whole.0 && exit == whole.1;
    // finally: each of the three steps is attempted, and what it raises is swallowed
    log := log + CleanupLog(world.cleanup);
  }

  // ---------------------------------------------------------------------------
  // Reading a log
  // ---------------------------------------------------------------------------

  /** The URLs of the pages loaded, in order. */
  function Gotos(log: seq<Action>): seq<string> {
    if log == [] then [] else (if log[0].Goto? then [log[0].url] else []) + Gotos(log[1..])
  }

  /** How many answers were POSTed. */
  function CountPosts(log: seq<Action>): nat {
    if log == [] then 0 else (if log[0].Post? then 1 else 0) + CountPosts(log[1..])
  }

  lemma {:induction false} GotosAppend(a: seq<Action>, b: seq<Action>)
    ensures Gotos(a + b) == Gotos(a) + Gotos(b)
    decreases |a|
  {
    if a == [] {
      assert a + b == b;
    } else {
      assert (a + b)[1..] == a[1..] + b;
      GotosAppend(a[1..], b);
    }
  }

  lemma {:induction false} CountPostsAppend(a: seq<Action>, b: seq<Action>)
    ensures CountPosts(a + b) == CountPosts(a) + CountPosts(b)
    decreases |a|
  {
    if a == [] {
      assert a + b == b;
    } else {
      assert (a + b)[1..] == a[1..] + b;
      CountPostsAppend(a[1..], b);
    }
  }

  /**
   * `log` holds page loads and answers only: no cleanup step, and each POST comes
   * right after a page load, goes to an http(s) URL and carries the email and "42".
   */
  predicate LoadsAndAnswers(email: string, log: seq<Action>) {
    forall j {:trigger log[j]} :: 0 <= j < |log| ==>
      && !log[j].Cleanup?
      && (log[j].Post? ==> 0 < j && log[j - 1].Goto? && log[j].json == SubmitPayload(email, "42") && IsHttpUrl(log[j].endpoint))
  }

  /** Exits reached after the answer for the last page was POSTed. */
  predicate Submitted(exit: Exit) {
    exit in {Returned(SubmissionFailed), Returned(NonJsonReply), Returned(NoNextUrl), Returned(OutOfScript), Escaped(AttributeError)}
  }

  // ---------------------------------------------------------------------------
  // One iteration
  // ---------------------------------------------------------------------------

  /**
   * An iteration on `url` loads that page and then POSTs at most one answer, with
   * the email and "42", to an http(s) URL. It POSTs exactly when it goes on to a
   * next page or ends with a Submitted exit, and a next page's URL is never empty.
   */
  predicate StepShape(email: string, url: string, st: Step) {
    && (st.actions == [Goto(url)]
        || (&& |st.actions| == 2 && st.actions[0] == Goto(url) && st.actions[1].Post?
            && st.actions[1].json == SubmitPayload(email, "42") && IsHttpUrl(st.actions[1].endpoint)))
    && Gotos(st.actions) == [url]
    && CountPosts(st.actions) == |st.actions| - 1
    && (|st.actions| == 2 <==> st.Continue? || Submitted(st.exit))
    && (st.Continue? ==> st.next != "")
  }

  /** Every iteration of `body` has that shape. */
  ghost predicate Shaped(email: string, body: Body) {
    forall url, v :: StepShape(email, url, body(url, v))
  }

  /**
   * solve_quiz's iterations have that shape, and the answer an iteration POSTs goes
   * to the URL extract_submit_url finds on the page just loaded, which only the
   * intended call reaches.
   */
  lemma IterationShape(email: string, url: string, v: PageVisit, site: CallSite)
    ensures StepShape(email, url, Iteration(email, url, v, site))
    ensures var st := Iteration(email, url, v, site);
      |st.actions| == 2 ==>
        && v.load.Loaded? && site == Intended && ExtractSubmitUrl(v.load.html).Ok?
        && st.actions[1] == Post(ExtractSubmitUrl(v.load.html).value, SubmitPayload(email, "42"))
    ensures var st := Iteration(email, url, v, site);
      st.Continue? ==> v.post == Replied(JsonObject(Some(st.next)))
  {
    var st := Iteration(email, url, v, site);
    IterationActions(email, url, v, site);
    IterationOutcome(email, url, v, site);
    LogShapes(email, url, if |st.actions| == 2 then st.actions[1].endpoint else "");
  }

  /** The actions of an iteration: the page load, then possibly the answer to the page's submit URL. */
  lemma IterationActions(email: string, url: string, v: PageVisit, site: CallSite)
    ensures var st := Iteration(email, url, v, site);
      || st.actions == [Goto(url)]
      || (&& v.load.Loaded? && site == Intended && ExtractSubmitUrl(v.load.html).Ok?
          && st.actions == [Goto(url), Post(ExtractSubmitUrl(v.load.html).value, SubmitPayload(email, "42"))])
  {
  }

  /** An iteration POSTs exactly when it goes on or ends with a Submitted exit; it goes on only to a reply's non-empty "url". */
  lemma IterationOutcome(email: string, url: string, v: PageVisit, site: CallSite)
    ensures var st := Iteration(email, url, v, site);
      && (|st.actions| == 2 <==> st.Continue? || Submitted(st.exit))
      && (st.Continue? ==> st.next != "" && v.post == Replied(JsonObject(Some(st.next))))
  {
  }

  /** With the intended call, an iteration on a page that names a submit URL loads the page and POSTs the answer there. */
  lemma FoundEndpointIsAnswered(email: string, url: string, v: PageVisit, html: string, endpoint: string)
    requires v.load == Loaded(html) && ExtractSubmitUrl(html) == Ok(endpoint)
    ensures Iteration(email, url, v, Intended).actions == [Goto(url), Post(endpoint, SubmitPayload(email, "42"))]
  {
  }

  /** With the intended call, a reply naming a non-empty URL to the answer for a page sends the loop there. */
  lemma FoundEndpointContinues(email: string, url: string, v: PageVisit, html: string, endpoint: string, next: string)
    requires v.load == Loaded(html) && ExtractSubmitUrl(html) == Ok(endpoint)
    requires v.post == Replied(JsonObject(Some(next))) && next != ""
    ensures Iteration(email, url, v, Intended).Continue? && Iteration(email, url, v, Intended).next == next
  {
  }

  /** The two logs an iteration can produce, read back. */
  lemma LogShapes(email: string, url: string, endpoint: string)
    ensures Gotos([Goto(url)]) == [url] && CountPosts([Goto(url)]) == 0
    ensures Gotos([Goto(url), Post(endpoint, SubmitPayload(email, "42"))]) == [url]
    ensures CountPosts([Goto(url), Post(endpoint, SubmitPayload(email, "42"))]) == 1
  {
    var sent := [Goto(url), Post(endpoint, SubmitPayload(email, "42"))];
    assert sent[1..] == [Post(endpoint, SubmitPayload(email, "42"))] && sent[1..][1..] == [];
  }

  lemma SolveBodyShaped(email: string, site: CallSite)
    ensures Shaped(email, SolveBody(email, site))
  {
    forall url, v
      ensures StepShape(email, url, SolveBody(email, site)(url, v))
    {
      IterationShape(email, url, v, site);
    }
  }

  // ---------------------------------------------------------------------------
  // The loop, for any body of that shape
  // ---------------------------------------------------------------------------

  /** The pages the loop from `url` loads. */
  function WalkPages(body: Body, url: Option<string>, visits: seq<PageVisit>): seq<string> {
    Gotos(Walk(body, url, visits).0)
  }

  /** The actions of the iterations on pages `urls`, in order. */
  function WalkTrace(body: Body, urls: seq<string>, visits: seq<PageVisit>): seq<Action>
    requires |urls| <= |visits|
    decreases |urls|
  {
    if urls == [] then [] else body(urls[0], visits[0]).actions + WalkTrace(body, urls[1..], visits[1..])
  }

  /** The iteration on each page of `urls` but the last went on to the next page of `urls`. */
  predicate EachPageLeadsToNext(body: Body, urls: seq<string>, visits: seq<PageVisit>)
    requires |urls| <= |visits|
  {
    forall k :: 0 <= k < |urls| - 1 ==> body(urls[k], visits[k]) == Continue(body(urls[k], visits[k]).actions, urls[k + 1])
  }

  /** The iteration on the last page of `urls` left the loop with `exit`, or it went on and the World ran out. */
  predicate LastPageEnds(body: Body, urls: seq<string>, visits: seq<PageVisit>, exit: Exit)
    requires 0 < |urls| <= |visits|
  {
    var st := body(urls[|urls| - 1], visits[|urls| - 1]);
    (st.Halt? && st.exit == exit) || (st.Continue? && |urls| == |visits| && exit == Returned(OutOfScript))
  }

  /**
   * Where the loop starts: it loads no page when the URL is falsy (and returns) or
   * no iteration is left, and otherwise loads the start URL first.
   */
  lemma WalkStart(email: string, body: Body, url: Option<string>, visits: seq<PageVisit>)
    requires Shaped(email, body)
    ensures WalkPages(body, url, visits) == [] <==> !Truthy(url) || visits == []
    ensures !Truthy(url) ==> Walk(body, url, visits) == ([], Returned(NoUrl))
    ensures Truthy(url) && visits == [] ==> Walk(body, url, visits) == ([], Returned(OutOfScript))
    ensures WalkPages(body, url, visits) != [] ==> WalkPages(body, url, visits)[0] == url.value
  {
    if Truthy(url) && visits != [] {
      var st := body(url.value, visits[0]);
      assert StepShape(email, url.value, st);
      WalkStep(body, url, visits, st);
      if st.Continue? {
        GotosAppend(st.actions, Walk(body, Some(st.next), visits[1..]).0);
      }
    }
  }

  /** The loop loads at most one page per iteration of the World, and its log is the iterations' actions in order. */
  lemma {:induction false} WalkIsTrace(email: string, body: Body, url: Option<string>, visits: seq<PageVisit>)
    requires Shaped(email, body)
    ensures |WalkPages(body, url, visits)| <= |visits|
    ensures Walk(body, url, visits).0 == WalkTrace(body, WalkPages(body, url, visits), visits)
    decreases |visits|
  {
    WalkStart(email, body, url, visits);
    if !Truthy(url) || visits == [] {
      return;
    }
    var st := body(url.value, visits[0]);
    assert StepShape(email, url.value, st);
    WalkStep(body, url, visits, st);
    var urls := WalkPages(body, url, visits);
    if st.Halt? {
      assert urls == [url.value];
      assert WalkTrace(body, urls, visits) == st.actions + WalkTrace(body, [], visits[1..]);
    } else {
      var next := Some(st.next);
      var rest := Walk(body, next, visits[1..]);
      WalkIsTrace(email, body, next, visits[1..]);
      GotosAppend(st.actions, rest.0);
      assert urls[1..] == WalkPages(body, next, visits[1..]);
      assert WalkTrace(body, urls, visits) == st.actions + WalkTrace(body, urls[1..], visits[1..]);
    }
  }

  /** Each page loaded but the last is one whose iteration went on to the URL loaded next. */
  lemma {:induction false} WalkFollowsNextUrls(email: string, body: Body, url: Option<string>, visits: seq<PageVisit>)
    requires Shaped(email, body)
    ensures |WalkPages(body, url, visits)| <= |visits|
    ensures EachPageLeadsToNext(body, WalkPages(body, url, visits), visits)
    decreases |visits|
  {
    WalkIsTrace(email, body, url, visits);
    if !Truthy(url) || visits == [] {
      return;
    }
    var st := body(url.value, visits[0]);
    assert StepShape(email, url.value, st);
    WalkStep(body, url, visits, st);
    var urls := WalkPages(body, url, visits);
    if st.Continue? {
      var next := Some(st.next);
      var rest := Walk(body, next, visits[1..]);
      WalkFollowsNextUrls(email, body, next, visits[1..]);
      WalkStart(email, body, next, visits[1..]);
      GotosAppend(st.actions, rest.0);
      var later := WalkPages(body, next, visits[1..]);
      assert urls == [url.value] + later;
      assert EachPageLeadsToNext(body, later, visits[1..]);
      forall k | 0 <= k < |urls| - 1
        ensures body(urls[k], visits[k]) == Continue(body(urls[k], visits[k]).actions, urls[k + 1])
      {
        if k > 0 {
          assert visits[1..][k - 1] == visits[k] && later[k - 1] == urls[k] && later[k] == urls[k + 1];
        }
      }
    } else {
      assert urls == [url.value];
    }
  }

  /**
   * The last page loaded is the first whose iteration left the loop, and the loop's
   * exit is that iteration's; or its iteration went on and the World ran out.
   */
  lemma {:induction false} WalkEndsAtLastPage(email: string, body: Body, url: Option<string>, visits: seq<PageVisit>)
    requires Shaped(email, body)
    ensures |WalkPages(body, url, visits)| <= |visits|
    ensures WalkPages(body, url, visits) != [] ==>
              LastPageEnds(body, WalkPages(body, url, visits), visits, Walk(body, url, visits).1)
    decreases |visits|
  {
    WalkStart(email, body, url, visits);
    if !Truthy(url) || visits == [] {
      return;
    }
    var st := body(url.value, visits[0]);
    assert StepShape(email, url.value, st);
    WalkStep(body, url, visits, st);
    var urls := WalkPages(body, url, visits);
    if st.Continue? {
      var next := Some(st.next);
      var rest := Walk(body, next, visits[1..]);
      WalkEndsAtLastPage(email, body, next, visits[1..]);
      WalkStart(email, body, next, visits[1..]);
      GotosAppend(st.actions, rest.0);
      var later := WalkPages(body, next, visits[1..]);
      assert urls == [url.value] + later;
      if later != [] {
        assert visits[1..][|later| - 1] == visits[|urls| - 1] && later[|later| - 1] == urls[|urls| - 1];
      }
    } else {
      assert urls == [url.value];
    }
  }

  lemma {:induction false} WalkTraceSnoc(body: Body, urls: seq<string>, visits: seq<PageVisit>)
    requires 0 < |urls| <= |visits|
    ensures WalkTrace(body, urls, visits)
      == WalkTrace(body, urls[..|urls| - 1], visits) + body(urls[|urls| - 1], visits[|urls| - 1]).actions
    decreases |urls|
  {
    if |urls| > 1 {
      WalkTraceSnoc(body, urls[1..], visits[1..]);
      assert urls[1..][..|urls| - 2] == urls[..|urls| - 1][1..];
      assert urls[1..][|urls| - 2] == urls[|urls| - 1] && visits[1..][|urls| - 2] == visits[|urls| - 1];
    } else {
      assert urls[..0] == [];
    }
  }

  lemma {:induction false} WalkTraceActions(email: string, body: Body, urls: seq<string>, visits: seq<PageVisit>)
    requires Shaped(email, body) && |urls| <= |visits|
    ensures LoadsAndAnswers(email, WalkTrace(body, urls, visits))
    decreases |urls|
  {
    if urls != [] {
      var a := body(urls[0], visits[0]).actions;
      assert StepShape(email, urls[0], body(urls[0], visits[0]));
      var rest := WalkTrace(body, urls[1..], visits[1..]);
      WalkTraceActions(email, body, urls[1..], visits[1..]);
      var t := a + rest;
      forall j | 0 <= j < |t|
        ensures !t[j].Cleanup?
        ensures t[j].Post? ==> 0 < j && t[j - 1].Goto? && t[j].json == SubmitPayload(email, "42") && IsHttpUrl(t[j].endpoint)
      {
        if j < |a| {
          assert t[j] == a[j];
          if j == 1 {
            assert t[0] == a[0];
          }
        } else {
          assert t[j] == rest[j - |a|];
          if j > |a| {
            assert t[j - 1] == rest[j - |a| - 1];
          }
        }
      }
      assert WalkTrace(body, urls, visits) == t;
      assert LoadsAndAnswers(email, t);
    }
  }

  /** The first page whose iteration leaves the loop is the last page loaded. */
  lemma WalkHaltingPageIsLast(email: string, body: Body, url: Option<string>, visits: seq<PageVisit>, k: nat)
    requires Shaped(email, body)
    requires k < |WalkPages(body, url, visits)| && k < |visits|
    requires body(WalkPages(body, url, visits)[k], visits[k]).Halt?
    ensures k == |WalkPages(body, url, visits)| - 1
    ensures Walk(body, url, visits).1 == body(WalkPages(body, url, visits)[k], visits[k]).exit
    ensures Walk(body, url, visits).0
      == WalkTrace(body, WalkPages(body, url, visits)[..k], visits) + body(WalkPages(body, url, visits)[k], visits[k]).actions
  {
    WalkIsTrace(email, body, url, visits);
    WalkFollowsNextUrls(email, body, url, visits);
    WalkEndsAtLastPage(email, body, url, visits);
    var urls := WalkPages(body, url, visits);
    assert EachPageLeadsToNext(body, urls, visits);
    forall i | 0 <= i < |urls| - 1
      ensures body(urls[i], visits[i]).Continue?
    {
      assert body(urls[i], visits[i]) == Continue(body(urls[i], visits[i]).actions, urls[i + 1]);
    }
    WalkTraceSnoc(body, urls, visits);
  }

  /** A page whose iteration goes on is followed by the page it names, unless the World ran out. */
  lemma WalkNextOrEnd(email: string, body: Body, url: Option<string>, visits: seq<PageVisit>, k: nat)
    requires Shaped(email, body)
    requires k < |WalkPages(body, url, visits)| && k < |visits|
    requires body(WalkPages(body, url, visits)[k], visits[k]).Continue?
    ensures k < |WalkPages(body, url, visits)| - 1 ==>
              WalkPages(body, url, visits)[k + 1] == body(WalkPages(body, url, visits)[k], visits[k]).next
    ensures k == |WalkPages(body, url, visits)| - 1 ==>
              |visits| == k + 1 && Walk(body, url, visits).1 == Returned(OutOfScript)
  {
    WalkFollowsNextUrls(email, body, url, visits);
    WalkEndsAtLastPage(email, body, url, visits);
    var urls := WalkPages(body, url, visits);
    assert EachPageLeadsToNext(body, urls, visits);
    if k < |urls| - 1 {
      assert body(urls[k], visits[k]) == Continue(body(urls[k], visits[k]).actions, urls[k + 1]);
    }
  }

  /** How many answers the loop POSTs: one per page loaded, except a last page it left before POSTing. */
  lemma {:induction false} WalkSubmissionCount(email: string, body: Body, url: Option<string>, visits: seq<PageVisit>)
    requires Shaped(email, body)
    ensures CountPosts(Walk(body, url, visits).0)
      == if WalkPages(body, url, visits) == [] || Submitted(Walk(body, url, visits).1)
         then |WalkPages(body, url, visits)|
         else |WalkPages(body, url, visits)| - 1
    decreases |visits|
  {
    WalkStart(email, body, url, visits);
    if !Truthy(url) || visits == [] {
      return;
    }
    var st := body(url.value, visits[0]);
    assert StepShape(email, url.value, st);
    WalkStep(body, url, visits, st);
    if st.Continue? {
      var next := Some(st.next);
      var rest := Walk(body, next, visits[1..]);
      WalkSubmissionCount(email, body, next, visits[1..]);
      WalkStart(email, body, next, visits[1..]);
      GotosAppend(st.actions, rest.0);
      CountPostsAppend(st.actions, rest.0);
    }
  }

  // ---------------------------------------------------------------------------
  // solve_quiz's loop
  // ---------------------------------------------------------------------------

  /** The pages solve_quiz's loop loads from `url`. */
  function Pages(email: string, url: Option<string>, visits: seq<PageVisit>, site: CallSite): seq<string> {
    WalkPages(SolveBody(email, site), url, visits)
  }

  /** The actions of solve_quiz's iterations on pages `urls`, in order. */
  function Trace(email: string, urls: seq<string>, visits: seq<PageVisit>, site: CallSite): seq<Action>
    requires |urls| <= |visits|
  {
    WalkTrace(SolveBody(email, site), urls, visits)
  }

  /**
   * When the loop stops: it loads no page when the URL is falsy (and returns) or no
   * iteration is left; otherwise it loads the start URL first, at most one page per
   * iteration, each page but the last is one whose iteration went on to the URL
   * loaded next, and the last page is the first whose iteration left the loop, with
   * that iteration's exit (or the World ran out). The log is the iterations'
   * actions in order.
   */
  lemma LoopStopsAtFirstHalt(email: string, url: Option<string>, visits: seq<PageVisit>, site: CallSite)
    ensures Pages(email, url, visits, site) == [] <==> !Truthy(url) || visits == []
    ensures !Truthy(url) ==> Loop(email, url, visits, site) == ([], Returned(NoUrl))
    ensures Truthy(url) && visits == [] ==> Loop(email, url, visits, site) == ([], Returned(OutOfScript))
    ensures Pages(email, url, visits, site) != [] ==> Pages(email, url, visits, site)[0] == url.value
    ensures |Pages(email, url, visits, site)| <= |visits|
    ensures Loop(email, url, visits, site).0 == Trace(email, Pages(email, url, visits, site), visits, site)
    ensures forall k :: 0 <= k < |Pages(email, url, visits, site)| - 1 ==>
              Iteration(email, Pages(email, url, visits, site)[k], visits[k], site).Continue?
              && Iteration(email, Pages(email, url, visits, site)[k], visits[k], site).next == Pages(email, url, visits, site)[k + 1]
    ensures Pages(email, url, visits, site) != [] ==>
              LastPageEnds(SolveBody(email, site), Pages(email, url, visits, site), visits, Loop(email, url, visits, site).1)
  {
    var body := SolveBody(email, site);
    SolveBodyShaped(email, site);
    WalkStart(email, body, url, visits);
    WalkIsTrace(email, body, url, visits);
    WalkFollowsNextUrls(email, body, url, visits);
    WalkEndsAtLastPage(email, body, url, visits);
    var urls := Pages(email, url, visits, site);
    assert EachPageLeadsToNext(body, urls, visits);
    forall k | 0 <= k < |urls| - 1
      ensures Iteration(email, urls[k], visits[k], site).Continue? && Iteration(email, urls[k], visits[k], site).next == urls[k + 1]
    {
      assert body(urls[k], visits[k]) == Continue(body(urls[k], visits[k]).actions, urls[k + 1]);
    }
  }

  /**
   * The first page whose iteration leaves the loop is the last page loaded: the
   * loop's exit is that iteration's, and the log ends with that iteration's actions.
   */
  lemma HaltingPageIsLast(email: string, url: Option<string>, visits: seq<PageVisit>, site: CallSite, k: nat)
    requires k < |Pages(email, url, visits, site)| && k < |visits|
    requires Iteration(email, Pages(email, url, visits, site)[k], visits[k], site).Halt?
    ensures k == |Pages(email, url, visits, site)| - 1
    ensures Loop(email, url, visits, site).1 == Iteration(email, Pages(email, url, visits, site)[k], visits[k], site).exit
    ensures Loop(email, url, visits, site).0
      == Trace(email, Pages(email, url, visits, site)[..k], visits, site)
         + Iteration(email, Pages(email, url, visits, site)[k], visits[k], site).actions
  {
    var body := SolveBody(email, site);
    SolveBodyShaped(email, site);
    var urls := Pages(email, url, visits, site);
    assert body(urls[k], visits[k]) == Iteration(email, urls[k], visits[k], site);
    WalkHaltingPageIsLast(email, body, url, visits, k);
  }

  /** A page whose load raised is the last: no answer is POSTed for it and the run returns. */
  lemma NavigationFailureEndsRun(email: string, url: Option<string>, visits: seq<PageVisit>, site: CallSite, k: nat)
    requires k < |Pages(email, url, visits, site)| && k < |visits| && visits[k].load == GotoRaised
    ensures k == |Pages(email, url, visits, site)| - 1
    ensures Loop(email, url, visits, site).1 == Returned(LoadFailed)
    ensures Loop(email, url, visits, site).0
      == Trace(email, Pages(email, url, visits, site)[..k], visits, site) + [Goto(Pages(email, url, visits, site)[k])]
  {
    HaltingPageIsLast(email, url, visits, site, k);
  }

  /** With the intended call, a page with no submit URL is the last: nothing is POSTed for it and the run returns. */
  lemma MissingEndpointEndsRun(email: string, url: Option<string>, visits: seq<PageVisit>, site: CallSite, k: nat, html: string)
    requires site == Intended
    requires k < |Pages(email, url, visits, site)| && k < |visits| && visits[k].load == Loaded(html) && ExtractSubmitUrl(html).Err?
    ensures k == |Pages(email, url, visits, site)| - 1
    ensures Loop(email, url, visits, site).1 == Returned(EndpointNotFound)
    ensures Loop(email, url, visits, site).0
      == Trace(email, Pages(email, url, visits, site)[..k], visits, site) + [Goto(Pages(email, url, visits, site)[k])]
  {
    HaltingPageIsLast(email, url, visits, site, k);
  }

  /**
   * With the intended call, a page whose answer was POSTed but whose reply gives no
   * next URL (the POST raised, the body is not JSON, not an object, or its "url" is
   * missing or falsy) is the last, and the log ends with that POST.
   */
  lemma UnusableReplyEndsRun(email: string, url: Option<string>, visits: seq<PageVisit>, site: CallSite, k: nat,
                             html: string, endpoint: string)
    requires site == Intended
    requires k < |Pages(email, url, visits, site)| && k < |visits|
    requires visits[k].load == Loaded(html) && ExtractSubmitUrl(html) == Ok(endpoint)
    requires !(visits[k].post.Replied? && visits[k].post.body.JsonObject? && Truthy(visits[k].post.body.url))
    ensures k == |Pages(email, url, visits, site)| - 1
    ensures Loop(email, url, visits, site).0
      == Trace(email, Pages(email, url, visits, site)[..k], visits, site)
         + [Goto(Pages(email, url, visits, site)[k]), Post(endpoint, SubmitPayload(email, "42"))]
    ensures visits[k].post == PostRaised ==> Loop(email, url, visits, site).1 == Returned(SubmissionFailed)
    ensures visits[k].post == Replied(NotJson) ==> Loop(email, url, visits, site).1 == Returned(NonJsonReply)
    ensures visits[k].post == Replied(JsonNotObject) ==> Loop(email, url, visits, site).1 == Escaped(AttributeError)
    ensures visits[k].post.Replied? && visits[k].post.body.JsonObject? ==> Loop(email, url, visits, site).1 == Returned(NoNextUrl)
  {
    HaltingPageIsLast(email, url, visits, site, k);
  }

  /**
   * The loop goes from a page to the next only through a reply: every page but the
   * last was loaded, had a submit URL, and the reply to its answer was a JSON
   * object whose "url" is the next page's (non-empty) URL.
   */
  lemma NextPageComesFromReply(email: string, url: Option<string>, visits: seq<PageVisit>, site: CallSite, k: nat)
    requires k < |Pages(email, url, visits, site)| - 1 && k < |visits|
    ensures visits[k].load.Loaded? && site == Intended && ExtractSubmitUrl(visits[k].load.html).Ok?
    ensures visits[k].post == Replied(JsonObject(Some(Pages(email, url, visits, site)[k + 1])))
    ensures Pages(email, url, visits, site)[k + 1] != ""
  {
    var body := SolveBody(email, site);
    SolveBodyShaped(email, site);
    WalkFollowsNextUrls(email, body, url, visits);
    var urls := Pages(email, url, visits, site);
    assert EachPageLeadsToNext(body, urls, visits);
    assert body(urls[k], visits[k]) == Continue(body(urls[k], visits[k]).actions, urls[k + 1]);
    assert body(urls[k], visits[k]) == Iteration(email, urls[k], visits[k], site);
    IterationShape(email, urls[k], visits[k], site);
  }

  /**
   * A reply naming a next URL, to an answer POSTed for a loaded page, always leads
   * the loop to that URL, unless the World describes no further iteration.
   */
  lemma ReplyLeadsToNextPage(email: string, url: Option<string>, visits: seq<PageVisit>, site: CallSite, k: nat,
                             html: string, endpoint: string, next: string)
    requires site == Intended && k < |Pages(email, url, visits, site)| && k < |visits|
    requires visits[k].load == Loaded(html) && ExtractSubmitUrl(html) == Ok(endpoint)
    requires visits[k].post == Replied(JsonObject(Some(next))) && next != ""
    ensures k < |Pages(email, url, visits, site)| - 1 ==> Pages(email, url, visits, site)[k + 1] == next
    ensures k == |Pages(email, url, visits, site)| - 1 ==>
              |visits| == k + 1 && Loop(email, url, visits, site).1 == Returned(OutOfScript)
  {
    var body := SolveBody(email, site);
    SolveBodyShaped(email, site);
    var urls := Pages(email, url, visits, site);
    FoundEndpointContinues(email, urls[k], visits[k], html, endpoint, next);
    assert body(urls[k], visits[k]) == Iteration(email, urls[k], visits[k], site);
    WalkNextOrEnd(email, body, url, visits, k);
  }

  /** How many answers the loop POSTs: one per page loaded, except a last page it left before POSTing. */
  lemma SubmissionCount(email: string, url: Option<string>, visits: seq<PageVisit>, site: CallSite)
    ensures CountPosts(Loop(email, url, visits, site).0)
      == if Pages(email, url, visits, site) == [] || Submitted(Loop(email, url, visits, site).1)
         then |Pages(email, url, visits, site)|
         else |Pages(email, url, visits, site)| - 1
  {
    SolveBodyShaped(email, site);
    WalkSubmissionCount(email, SolveBody(email, site), url, visits);
  }

  // ---------------------------------------------------------------------------
  // The whole run
  // ---------------------------------------------------------------------------

  /**
   * The cleanup runs whenever the browser was opened: the log ends with closing the
   * context, then the browser, then stopping Playwright, each attempted whether or
   * not an earlier one raised, and no cleanup step comes earlier. Their failures do
   * not change how the run ends. If opening the browser raised, nothing happens.
   */
  lemma CleanupAlwaysRuns(email: string, startUrl: Option<string>, world: World, site: CallSite)
    ensures world.launchRaises ==> Run(email, startUrl, world, site) == ([], Escaped(LaunchFailed))
    ensures !world.launchRaises ==>
              && |Run(email, startUrl, world, site).0| >= 3
              && Run(email, startUrl, world, site).0[|Run(email, startUrl, world, site).0| - 3..]
                 == [Cleanup(CloseContext, world.cleanup.contextCloseRaises),
                     Cleanup(CloseBrowser, world.cleanup.browserCloseRaises),
                     Cleanup(StopPlaywright, world.cleanup.stopRaises)]
              && (forall j :: 0 <= j < |Run(email, startUrl, world, site).0| - 3 ==> !Run(email, startUrl, world, site).0[j].Cleanup?)
              && Run(email, startUrl, world, site).1 == Loop(email, startUrl, world.visits, site).1
  {
    if !world.launchRaises {
      var body := SolveBody(email, site);
      SolveBodyShaped(email, site);
      WalkIsTrace(email, body, startUrl, world.visits);
      WalkTraceActions(email, body, Pages(email, startUrl, world.visits, site), world.visits);
      var loopLog := Loop(email, startUrl, world.visits, site).0;
      var log := Run(email, startUrl, world, site).0;
      assert LoadsAndAnswers(email, loopLog);
      assert log == loopLog + CleanupLog(world.cleanup);
      assert log[|log| - 3..] == CleanupLog(world.cleanup);
      forall j | 0 <= j < |log| - 3
        ensures !log[j].Cleanup?
      {
        assert log[j] == loopLog[j];
      }
    }
  }

  /**
   * Every POST of a run comes right after the page load it answers, goes to an
   * http(s) URL, and sends exactly the email and the answer "42" (never the secret).
   */
  lemma PostsAnswerTheirPage(email: string, startUrl: Option<string>, world: World, site: CallSite)
    ensures forall j :: 0 <= j < |Run(email, startUrl, world, site).0| && Run(email, startUrl, world, site).0[j].Post? ==>
              && 0 < j && Run(email, startUrl, world, site).0[j - 1].Goto?
              && IsHttpUrl(Run(email, startUrl, world, site).0[j].endpoint)
              && Run(email, startUrl, world, site).0[j].json == [("email", email), ("answer", "42")]
  {
    if !world.launchRaises {
      var body := SolveBody(email, site);
      SolveBodyShaped(email, site);
      WalkIsTrace(email, body, startUrl, world.visits);
      WalkTraceActions(email, body, Pages(email, startUrl, world.visits, site), world.visits);
      var loopLog := Loop(email, startUrl, world.visits, site).0;
      var log := Run(email, startUrl, world, site).0;
      assert LoadsAndAnswers(email, loopLog);
      assert log == loopLog + CleanupLog(world.cleanup);
      forall j | 0 <= j < |log| && log[j].Post?
        ensures 0 < j && log[j - 1].Goto? && IsHttpUrl(log[j].endpoint) && log[j].json == [("email", email), ("answer", "42")]
      {
        assert j < |loopLog| && log[j] == loopLog[j];
        assert log[j - 1] == loopLog[j - 1];
      }
    }
  }

  /** A falsy start URL loads nothing: only the cleanup happens and the run returns. */
  lemma FalsyStartUrl(email: string, startUrl: Option<string>, world: World, site: CallSite)
    requires !Truthy(startUrl) && !world.launchRaises
    ensures Run(email, startUrl, world, site) == (CleanupLog(world.cleanup), Returned(NoUrl))
  {
    assert [] + CleanupLog(world.cleanup) == CleanupLog(world.cleanup);
  }

  /**
   * As written, line 44 passes two arguments to a one-parameter function: the
   * TypeError escapes the `except ValueError`, so the first page that loads ends the
   * run with that exception and no answer is ever POSTed.
   */
  lemma AsWrittenNeverSubmits(email: string, startUrl: Option<string>, world: World)
    requires !world.launchRaises
    ensures Run(email, startUrl, world, AsWritten).0
      == (if Truthy(startUrl) && world.visits != [] then [Goto(startUrl.value)] else []) + CleanupLog(world.cleanup)
    ensures Run(email, startUrl, world, AsWritten).1
      == if !Truthy(startUrl) then Returned(NoUrl)
         else if world.visits == [] then Returned(OutOfScript)
         else match world.visits[0].load
              case GotoRaised => Returned(LoadFailed)
              case ContentRaised => Escaped(ContentFailed)
              case Loaded(_) => Escaped(TypeError)
  {
    if Truthy(startUrl) && world.visits != [] {
      var st := Iteration(email, startUrl.value, world.visits[0], AsWritten);
      assert SolveBody(email, AsWritten)(startUrl.value, world.visits[0]) == st;
      WalkStep(SolveBody(email, AsWritten), startUrl, world.visits, st);
    } else {
      assert [] + CleanupLog(world.cleanup) == CleanupLog(world.cleanup);
    }
  }

  /**
   * With the intended single-argument call, a start page that loads and names a
   * submit URL gets its answer POSTed there, right after it is loaded.
   */
  lemma IntendedSubmitsFirstPage(email: string, startUrl: Option<string>, world: World, html: string, endpoint: string)
    requires !world.launchRaises && Truthy(startUrl) && world.visits != []
    requires world.visits[0].load == Loaded(html) && ExtractSubmitUrl(html) == Ok(endpoint)
    ensures |Run(email, startUrl, world, Intended).0| >= 2
    ensures Run(email, startUrl, world, Intended).0[..2] == [Goto(startUrl.value), Post(endpoint, SubmitPayload(email, "42"))]
  {
    var body := SolveBody(email, Intended);
    var st := body(startUrl.value, world.visits[0]);
    FoundEndpointIsAnswered(email, startUrl.value, world.visits[0], html, endpoint);
    WalkStep(body, startUrl, world.visits, st);
    var loopLog := Loop(email, startUrl, world.visits, Intended).0;
    assert loopLog[..2] == st.actions;
    var log := Run(email, startUrl, world, Intended).0;
    assert log == loopLog + CleanupLog(world.cleanup);
    assert log[..2] == loopLog[..2];
  }

  /**
   * Two questions: the first reply names the second page, the second reply has no
   * "url". Both answers are POSTed to the pages' submit URLs and the run returns.
   */
  lemma TwoQuestionRun(email: string, first: string, second: string, html1: string, html2: string,
                       endpoint1: string, endpoint2: string, t1: TitleOutcome, t2: TitleOutcome, c: CleanupOutcomes)
    requires first != "" && second != ""
    requires ExtractSubmitUrl(html1) == Ok(endpoint1) && ExtractSubmitUrl(html2) == Ok(endpoint2)
    ensures Run(email, Some(first),
                World(false, [PageVisit(Loaded(html1), t1, Replied(JsonObject(Some(second)))),
                              PageVisit(Loaded(html2), t2, Replied(JsonObject(None)))], c),
                Intended)
        == ([Goto(first), Post(endpoint1, SubmitPayload(email, "42")),
             Goto(second), Post(endpoint2, SubmitPayload(email, "42"))] + CleanupLog(c),
            Returned(NoNextUrl))
  {
    var body := SolveBody(email, Intended);
    var visits := [PageVisit(Loaded(html1), t1, Replied(JsonObject(Some(second)))),
                   PageVisit(Loaded(html2), t2, Replied(JsonObject(None)))];
    var st1 := Iteration(email, first, visits[0], Intended);
    assert st1 == Continue([Goto(first), Post(endpoint1, SubmitPayload(email, "42"))], second);
    assert body(first, visits[0]) == st1;
    WalkStep(body, Some(first), visits, st1);
    var st2 := Iteration(email, second, visits[1], Intended);
    assert st2 == Halt([Goto(second), Post(endpoint2, SubmitPayload(email, "42"))], Returned(NoNextUrl));
    assert visits[1..] == [visits[1]];
    assert body(second, visits[1..][0]) == st2;
    WalkStep(body, Some(second), visits[1..], st2);
    assert Loop(email, Some(first), visits, Intended) == (st1.actions + st2.actions, Returned(NoNextUrl));
    assert st1.actions + st2.actions
      == [Goto(first), Post(endpoint1, SubmitPayload(email, "42")), Goto(second), Post(endpoint2, SubmitPayload(email, "42"))];
  }
}
