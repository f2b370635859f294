/**
 The chat overlay of the earlier portfolio page (`Home` component): a draft,
 a history of question/answer pairs, and a flag telling whether the overlay
 is open. There is no busy flag. The asynchronous submit handler is split
 into `Submit` (the guard, which also captures the draft and the history the
 handler's closure will use) and `Settle` (everything after the `await`).
 Runs of events keep the request being awaited next to the page (`Screen`),
 since nothing on the page stops the overlay from closing before it settles.
 */
module ChatHistory {
  import opened Text
  import opened Machine

  /** One question and the answer the server gave to it. */
  datatype Exchange = Exchange(query: string, response: string)

  datatype Page = Page(input: string, chatHistory: seq<Exchange>, chatMode: bool)

  /** How the awaited request ended: a response with its `ok` flag and the
      `response` field of its parsed body, or an exception from `fetch` or
      from `res.json()`. */
  datatype Fetched = Answered(ok: bool, response: string) | Thrown

  /** The draft and history as the handler's closure saw them when it ran;
      the draft is sent and stored as typed, untrimmed. */
  datatype Request = Request(query: string, history: seq<Exchange>)

  /** The early return, or a request on its way. */
  datatype Submission = Skipped | Requested(request: Request)

  /** The state of the first render. */
  function Initial(): Page {
    Page("", [], false)
  }

  /** The submit handler up to its `await`; it changes no state. */
  function Submit(p: Page): (r: Submission)
    ensures r.Skipped? <==> AllWhitespace(p.input)
    ensures r.Requested? ==> r.request == Request(p.input, p.chatHistory)
  {
    if Trim(p.input) == [] then Skipped else Requested(Request(p.input, p.chatHistory))
  }

  /** The request counts as answered only for an `ok` status whose body
      parsed; an error status is thrown on purpose and lands in the catch. */
  predicate Succeeded(f: Fetched) {
    f.Answered? && f.ok
  }

  /** The submit handler after its `await`. On success the captured history
      plus the new pair replaces the history and the draft is cleared; on any
      failure the error is only logged, so nothing changes. */
  function Settle(p: Page, req: Request, f: Fetched): (r: Page)
    ensures Succeeded(f) ==>
      && r.chatHistory == req.history + [Exchange(req.query, f.response)]
      && r.input == [] && r.chatMode == p.chatMode
    ensures !Succeeded(f) ==> r == p
  {
    match f
    case Answered(ok, response) =>
      if ok then p.(chatHistory := req.history + [Exchange(req.query, response)], input := "")
      else p
    case Thrown => p
  }

  /** A submit whose request settles before anything else happens. */
  function Ask(p: Page, f: Fetched): (r: Page)
    ensures AllWhitespace(p.input) ==> r == p
    ensures !Succeeded(f) ==> r == p
    ensures !AllWhitespace(p.input) && Succeeded(f) ==>
      && |r.chatHistory| == |p.chatHistory| + 1
      && r.chatHistory[..|p.chatHistory|] == p.chatHistory
      && r.chatHistory[|p.chatHistory|] == Exchange(p.input, f.response)
      && r.input == [] && r.chatMode == p.chatMode
  {
    match Submit(p)
    case Skipped => p
    case Requested(req) => Settle(p, req, f)
  }

  /** Focusing the teaser input opens the overlay. */
  function EnterChatMode(p: Page): (r: Page)
    ensures r.chatMode
    ensures r.chatHistory == p.chatHistory && r.input == p.input
  {
    p.(chatMode := true)
  }

  /** The exit button closes the overlay and clears the history and the
      draft. A request still outstanding is not cancelled. */
  function ExitChatMode(p: Page): (r: Page)
    ensures !r.chatMode && r.chatHistory == [] && r.input == []
  {
    Page("", [], false)
  }

  /** The overlay input's change handler. */
  function Edit(p: Page, value: string): (r: Page)
    ensures r.input == value
    ensures r.(input := p.input) == p
  {
    p.(input := value)
  }

  /** The request the submit handler is awaiting, if any. */
  datatype Outstanding = Idle | Awaiting(request: Request)

  /** The component's state together with its outstanding request. */
  datatype Screen = Screen(page: Page, outstanding: Outstanding)

  function Start(): Screen {
    Screen(Initial(), Idle)
  }

  datatype Event = Focused | Typed(value: string) | Submitted | Replied(fetched: Fetched) | ExitClicked

  /** The teaser input (which has no change handler) is on screen only while
      the overlay is closed; the overlay's input, send and exit buttons only
      while it is open, and none of them is disabled while a request is out.
      Only the outstanding request can be answered. A second send while one
      is outstanding starts an overlapping request, which this model does not
      follow, so a send is enabled only when nothing is outstanding. */
  predicate Enabled(s: Screen, e: Event) {
    match e
    case Focused => !s.page.chatMode
    case Submitted => s.page.chatMode && s.outstanding.Idle?
    case Replied(_) => s.outstanding.Awaiting?
    case _ => s.page.chatMode
  }

  function Step(s: Screen, e: Event): Screen {
    match e
    case Focused => s.(page := EnterChatMode(s.page))
    case Typed(value) => s.(page := Edit(s.page, value))
    case Submitted =>
      (match Submit(s.page)
       case Skipped => s
       case Requested(req) => s.(outstanding := Awaiting(req)))
    case Replied(f) =>
      (match s.outstanding
       case Idle => s
       case Awaiting(req) => Screen(Settle(s.page, req, f), Idle))
    case ExitClicked => s.(page := ExitChatMode(s.page))
  }

  /** No stored question is blank. */
  predicate NonBlankQueries(h: seq<Exchange>) {
    forall i :: 0 <= i < |h| ==> !AllWhitespace(h[i].query)
  }

  /** What holds in every reachable state: a closed overlay has an empty
      draft, no stored or pending question is blank, and while a request is
      out the history is either the one it captured or, after an exit, empty.
      A closed overlay may hold a history: see `LateReplyRefillsClosedOverlay`. */
  predicate Inv(s: Screen) {
    && (!s.page.chatMode ==> s.page.input == [])
    && NonBlankQueries(s.page.chatHistory)
    && (s.outstanding.Awaiting? ==>
          var req := s.outstanding.request;
          && !AllWhitespace(req.query)
          && NonBlankQueries(req.history)
          && (s.page.chatHistory == req.history || s.page.chatHistory == []))
  }

  lemma StartInv()
    ensures Inv(Start())
    ensures Start().page == Page("", [], false) && Start().outstanding.Idle?
  {
  }

  lemma AppendNonBlank(h: seq<Exchange>, x: Exchange)
    requires NonBlankQueries(h) && !AllWhitespace(x.query)
    ensures NonBlankQueries(h + [x])
  {
    forall i | 0 <= i < |h + [x]| ensures !AllWhitespace((h + [x])[i].query) {
      if i < |h| {
        assert (h + [x])[i] == h[i];
      }
    }
  }

  lemma StepInv(s: Screen, e: Event)
    requires Inv(s) && Enabled(s, e)
    ensures Inv(Step(s, e))
  {
    if e.Replied? && s.outstanding.Awaiting? && Succeeded(e.fetched) {
      var req := s.outstanding.request;
      AppendNonBlank(req.history, Exchange(req.query, e.fetched.response));
    }
  }

  /** Every run of enabled events from a reachable state keeps `Inv`. */
  lemma RunInv(s: Screen, events: seq<Event>)
    requires Inv(s) && Accepts(Enabled, Step, s, events)
    ensures Inv(Run(Step, s, events))
  {
    forall x, e | Inv(x) && Enabled(x, e) ensures Inv(Step(x, e)) {
      StepInv(x, e);
    }
    InvariantHolds(Enabled, Step, Inv, s, events);
  }

  /** A submit answered before anything else happens is `Ask`. */
  lemma SubmitThenReplyIsAsk(p: Page, f: Fetched)
    ensures Run(Step, Screen(p, Idle), [Submitted, Replied(f)]) == Screen(Ask(p, f), Idle)
  {
    var s0 := Screen(p, Idle);
    var s1 := Step(s0, Submitted);
    var s2 := Step(s1, Replied(f));
    assert [Submitted, Replied(f)][1..] == [Replied(f)];
    assert [Replied(f)][1..] == [];
    assert Run(Step, s1, [Replied(f)]) == Run(Step, s2, []) == s2;
    assert Run(Step, s0, [Submitted, Replied(f)]) == Run(Step, s1, [Replied(f)]);
    if AllWhitespace(p.input) {
      assert s1 == s0;
    } else {
      assert s1 == Screen(p, Awaiting(Request(p.input, p.chatHistory)));
    }
  }

  /** Closing the overlay while a request is out does not stop its reply:
      the reply writes the history the handler captured, plus the new pair,
      into the closed overlay, and reopening it shows the old conversation. */
  lemma LateReplyRefillsClosedOverlay(p: Page, response: string)
    requires p.chatMode && !AllWhitespace(p.input)
    ensures var events := [Submitted, ExitClicked, Replied(Answered(true, response))];
            var s := Run(Step, Screen(p, Idle), events);
      && Accepts(Enabled, Step, Screen(p, Idle), events)
      && !s.page.chatMode
      && s.page.chatHistory == p.chatHistory + [Exchange(p.input, response)]
  {
    var req := Request(p.input, p.chatHistory);
    var s0 := Screen(p, Idle);
    var s1 := Screen(p, Awaiting(req));
    assert Step(s0, Submitted) == s1 && Enabled(s0, Submitted) by {
      assert Submit(p) == Requested(req);
    }
    var e := [Submitted, ExitClicked, Replied(Answered(true, response))];
    assert e[1..] == [ExitClicked, Replied(Answered(true, response))];
    ExitThenReply(p, req, response);
  }

  /** The last two steps of `LateReplyRefillsClosedOverlay`. */
  lemma ExitThenReply(p: Page, req: Request, response: string)
    requires p.chatMode
    ensures var events := [ExitClicked, Replied(Answered(true, response))];
            var s := Run(Step, Screen(p, Awaiting(req)), events);
      && Accepts(Enabled, Step, Screen(p, Awaiting(req)), events)
      && s == Screen(Page("", req.history + [Exchange(req.query, response)], false), Idle)
  {
    var f := Answered(true, response);
    var s1 := Screen(p, Awaiting(req));
    var s2 := Screen(Page("", [], false), Awaiting(req));
    assert Step(s1, ExitClicked) == s2 && Enabled(s1, ExitClicked);
    var s3 := Screen(Page("", req.history + [Exchange(req.query, response)], false), Idle);
    assert Step(s2, Replied(f)) == s3 && Enabled(s2, Replied(f));
    var e := [ExitClicked, Replied(f)];
    assert e[1..] == [Replied(f)];
    assert Run(Step, s2, [Replied(f)]) == s3 && Accepts(Enabled, Step, s2, [Replied(f)]) by {
      assert [Replied(f)][1..] == [];
    }
  }

  /** Under any enabled event the history stays, gains one pair at its end,
      or is cleared, with one more fate: a reply to a request sent before an
      exit replaces the cleared history with the captured one plus a pair. */
  lemma StepEditsHistory(s: Screen, e: Event)
    requires Inv(s) && Enabled(s, e)
    ensures var h := s.page.chatHistory;
            var h' := Step(s, e).page.chatHistory;
      || h' == h
      || h' == []
      || (|h'| == |h| + 1 && h'[..|h|] == h)
      || (h == [] && e.Replied? && s.outstanding.Awaiting?
          && h' == s.outstanding.request.history
                   + [Exchange(s.outstanding.request.query, e.fetched.response)])
  {
    if e.Replied? && s.outstanding.Awaiting? && Succeeded(e.fetched) {
      var req := s.outstanding.request;
      var h' := req.history + [Exchange(req.query, e.fetched.response)];
      assert h'[..|req.history|] == req.history;
    }
  }

  /** While a request is out, the history is still the one it captured. */
  predicate Synced(s: Screen) {
    s.outstanding.Awaiting? ==> s.page.chatHistory == s.outstanding.request.history
  }

  lemma StepExtendsHistory(s: Screen, e: Event)
    requires Synced(s) && !e.ExitClicked?
    requires e.Submitted? ==> s.outstanding.Idle?
    ensures Synced(Step(s, e))
    ensures s.page.chatHistory <= Step(s, e).page.chatHistory
    ensures |Step(s, e).page.chatHistory| <= |s.page.chatHistory| + 1
  {
    if e.Replied? && s.outstanding.Awaiting? && Succeeded(e.fetched) {
      var req := s.outstanding.request;
      var h' := req.history + [Exchange(req.query, e.fetched.response)];
      assert h'[..|req.history|] == req.history;
    }
  }

  /** Without an exit every reply lands on the history it was asked
      against, so the history only grows, one pair per event at most, and
      what was there stays in place. Runs with a second send while a request
      is out are not among them: see `DoubleSubmitRewritesLastPair`. */
  lemma {:induction false} RunExtendsHistory(s: Screen, events: seq<Event>)
    requires Synced(s) && Accepts(Enabled, Step, s, events)
    requires forall i :: 0 <= i < |events| ==> !events[i].ExitClicked?
    ensures s.page.chatHistory <= Run(Step, s, events).page.chatHistory
    ensures |Run(Step, s, events).page.chatHistory| <= |s.page.chatHistory| + |events|
    decreases |events|
  {
    if events != [] {
      StepExtendsHistory(s, events[0]);
      RunExtendsHistory(Step(s, events[0]), events[1..]);
    }
  }

  /** Two sends of the same draft before either reply arrives: both handler
      closures captured the same history, so the second ok reply does not add
      a pair after the first one but rewrites it. */
  lemma DoubleSubmitRewritesLastPair(p: Page, r1: string, r2: string)
    requires !AllWhitespace(p.input)
    ensures Submit(p).Requested?
    ensures var req := Submit(p).request;
            var p1 := Settle(p, req, Answered(true, r1));
            var p2 := Settle(p1, req, Answered(true, r2));
      && p1.chatHistory == p.chatHistory + [Exchange(p.input, r1)]
      && p2.chatHistory == p.chatHistory + [Exchange(p.input, r2)]
      && |p2.chatHistory| == |p1.chatHistory|
  {
  }
}
