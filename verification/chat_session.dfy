/**
 The chat modal of the single-page portfolio (`App` component): a list of
 chat bubbles, a draft and a busy flag shown as a typing indicator, plus a
 width (`chatWidth`) with pointer handlers for dragging it. The handlers are
 modelled as written, but the one that starts a drag is bound to no element
 and nothing on the page reads the width, so on the page a drag never starts
 and the width stays at its default. Every React handler is a
 pure transition on an explicit `Session`; the asynchronous send handler is
 split into `Send` (everything before the `await`) and `Settle` (everything
 after it).
 */
module ChatSession {
  import opened Text
  import opened Machine

  datatype Sender = User | Bot

  /** One chat bubble. The source takes `id` from the wall clock, so here it
      is whatever clock reading the caller passes in. */
  datatype Message = Message(id: int, text: string, sender: Sender)

  datatype Session = Session(
    messages: seq<Message>,
    inputValue: string,
    isSending: bool,
    chatWidth: int,
    isResizing: bool)

  /** How the awaited request ended: a parsed body whose `text` field is
      `text`, or an exception from `fetch` or from `response.json()`. The
      HTTP status is never inspected, so an error status with a JSON body is
      an `Ok`. */
  datatype Outcome = Ok(text: string) | Fail

  /** Result of the synchronous half of the send handler: either the early
      return, or the new session together with the question put on the wire. */
  datatype Submission = Ignored | Sent(next: Session, question: string)

  const Welcome: string :=
    "Hi! I'm Khalid's AI assistant. Ask me anything about his work, skills, or experience."
  const Fallback: string :=
    "Sorry, I'm having trouble connecting right now. Please try again later."
  const DefaultWidth: int := 300
  const MinWidth: int := 250

  /** The state of the first render. */
  function Initial(): Session {
    Session([], "", false, DefaultWidth, false)
  }

  /** The mount effect: greet the visitor, but only into an empty list. */
  function Mount(s: Session, now: int): (r: Session)
    ensures |s.messages| == 0 ==> r.messages == [Message(now, Welcome, Bot)]
    ensures |s.messages| != 0 ==> r == s
    ensures r.(messages := s.messages) == s
  {
    if |s.messages| == 0 then s.(messages := [Message(now, Welcome, Bot)]) else s
  }

  /** The controlled input's change handler. */
  function Edit(s: Session, value: string): (r: Session)
    ensures r.inputValue == value
    ensures r.(inputValue := s.inputValue) == s
  {
    s.(inputValue := value)
  }

  /** The send button is enabled exactly when no reply is outstanding and the
      draft holds a non-whitespace character. */
  predicate CanSubmit(s: Session)
    ensures CanSubmit(s) <==> !s.isSending && !AllWhitespace(s.inputValue)
  {
    !s.isSending && Trim(s.inputValue) != []
  }

  /** The send handler up to its `await`. It does not look at `isSending`:
      only the button (`CanSubmit`) keeps a second send from starting. */
  function Send(s: Session, now: int): (r: Submission)
    ensures r.Ignored? <==> AllWhitespace(s.inputValue)
    ensures r.Sent? ==>
      && r.question != [] && Trimmed(r.question)
      && (exists k :: PaddedAt(s.inputValue, k, r.question))
      && r.next.messages == s.messages + [Message(now, r.question, User)]
      && r.next.inputValue == [] && r.next.isSending
      && r.next.chatWidth == s.chatWidth && r.next.isResizing == s.isResizing
  {
    var question := Trim(s.inputValue);
    if question == [] then Ignored
    else
      Sent(s.(messages := s.messages + [Message(now, question, User)],
              inputValue := "", isSending := true),
           question)
  }

  /** The session after the send handler ran, whichever way it returned. */
  function AfterSend(s: Session, now: int): Session {
    match Send(s, now)
    case Ignored => s
    case Sent(next, _) => next
  }

  /** The bubble text a settled request produces. */
  function Reply(o: Outcome): string {
    match o
    case Ok(text) => text
    case Fail => Fallback
  }

  /** The send handler after its `await`: one bot bubble (the reply, or the
      fixed apology when anything was thrown) is appended to the current
      list, and the `finally` clause clears the busy flag. */
  function Settle(s: Session, o: Outcome, now: int): (r: Session)
    ensures |r.messages| == |s.messages| + 1
    ensures r.messages[..|s.messages|] == s.messages
    ensures r.messages[|s.messages|].sender == Bot
    ensures r.messages[|s.messages|].id == now + 1
    ensures o.Ok? ==> r.messages[|s.messages|].text == o.text
    ensures o.Fail? ==> r.messages[|s.messages|].text == Fallback
    ensures !r.isSending
    ensures r.inputValue == s.inputValue
    ensures r.chatWidth == s.chatWidth && r.isResizing == s.isResizing
  {
    s.(messages := s.messages + [Message(now + 1, Reply(o), Bot)], isSending := false)
  }

  /** The mouse-down handler: starts a drag. */
  function MouseDown(s: Session): (r: Session)
    ensures r.isResizing
    ensures r.(isResizing := s.isResizing) == s
  {
    s.(isResizing := true)
  }

  /** A drag position is accepted when the width would be at least
      `MinWidth` wide and at most half the window (`innerWidth * 0.5`,
      compared here without the fraction). */
  predicate FitsWindow(width: int, innerWidth: int) {
    MinWidth <= width && 2 * width <= innerWidth
  }

  /** The document's mouse-move listener: during a drag the width becomes
      the distance from the pointer to the right edge, when that width fits. */
  function MouseMove(s: Session, clientX: int, innerWidth: int): (r: Session)
    ensures !s.isResizing ==> r == s
    ensures s.isResizing && FitsWindow(innerWidth - clientX, innerWidth) ==>
      r.chatWidth == innerWidth - clientX
    ensures r.chatWidth != s.chatWidth ==>
      s.isResizing && r.chatWidth == innerWidth - clientX && FitsWindow(r.chatWidth, innerWidth)
    ensures r.(chatWidth := s.chatWidth) == s
  {
    if !s.isResizing then s
    else
      var newWidth := innerWidth - clientX;
      if newWidth >= MinWidth && 2 * newWidth <= innerWidth then
        s.(chatWidth := newWidth)
      else s
  }

  /** The document's mouse-up listener: ends the drag. */
  function MouseUp(s: Session): (r: Session)
    ensures !r.isResizing
    ensures r.(isResizing := s.isResizing) == s
  {
    s.(isResizing := false)
  }

  /** What the component's handlers can receive. */
  datatype Event =
    | Mounted(now: int)
    | Typed(value: string)
    | SendClicked(now: int)
    | ReplyArrived(outcome: Outcome, now: int)
    | PointerPressed
    | PointerMoved(clientX: int, innerWidth: int)
    | PointerReleased

  /** When the page can deliver an event: the input is disabled while a reply
      is outstanding, the button follows `CanSubmit`, and only an outstanding
      request can settle. No element carries the mouse-down handler, so a drag
      never starts, and the document listeners for moving and releasing the
      pointer are attached only during a drag. Whether the modal is open
      (`chatOpen`) is not tracked, so typing and sending are allowed more
      often than the page allows them. */
  predicate Enabled(s: Session, e: Event) {
    match e
    case Typed(_) => !s.isSending
    case SendClicked(_) => CanSubmit(s)
    case ReplyArrived(_, _) => s.isSending
    case PointerPressed => false
    case PointerMoved(_, _) => s.isResizing
    case PointerReleased => s.isResizing
    case Mounted(_) => true
  }

  function Step(s: Session, e: Event): Session {
    match e
    case Mounted(now) => Mount(s, now)
    case Typed(value) => Edit(s, value)
    case SendClicked(now) => AfterSend(s, now)
    case ReplyArrived(o, now) => Settle(s, o, now)
    case PointerPressed => MouseDown(s)
    case PointerMoved(x, w) => MouseMove(s, x, w)
    case PointerReleased => MouseUp(s)
  }

  /** The first render followed by the mount effect. */
  function Start(now: int): Session {
    Mount(Initial(), now)
  }

  /** A conversation opens with a bot bubble, never has the same sender
      twice in a row, and every question in it is trimmed and non-empty. */
  predicate Alternates(ms: seq<Message>) {
    && (|ms| > 0 ==> ms[0].sender == Bot)
    && (forall i :: 0 < i < |ms| ==> ms[i].sender != ms[i - 1].sender)
    && (forall i :: 0 <= i < |ms| && ms[i].sender == User ==>
          ms[i].text != [] && Trimmed(ms[i].text))
  }

  /** The shape every reachable session has: the welcome first, then each
      question immediately followed by its answer, a trailing question
      exactly while a reply is outstanding (with the draft cleared), every
      question trimmed and non-empty, and no drag, so the width is the
      default. */
  predicate Inv(s: Session) {
    && |s.messages| >= 1
    && s.messages[0].text == Welcome
    && Alternates(s.messages)
    && (s.isSending <==> s.messages[|s.messages| - 1].sender == User)
    && (s.isSending ==> s.inputValue == [])
    && !s.isResizing && s.chatWidth == DefaultWidth
  }

  lemma AppendAlternates(ms: seq<Message>, m: Message)
    requires Alternates(ms)
    requires |ms| == 0 ==> m.sender == Bot
    requires |ms| > 0 ==> m.sender != ms[|ms| - 1].sender
    requires m.sender == User ==> m.text != [] && Trimmed(m.text)
    ensures Alternates(ms + [m])
  {
    var ms' := ms + [m];
    forall i | 0 <= i < |ms'|
      ensures 0 < i ==> ms'[i].sender != ms'[i - 1].sender
      ensures ms'[i].sender == User ==> ms'[i].text != [] && Trimmed(ms'[i].text)
    {
      if i < |ms| {
        assert ms'[i] == ms[i];
      }
      if 0 < i {
        assert ms'[i - 1] == ms[i - 1];
      }
    }
  }

  lemma StartInv(now: int)
    ensures Inv(Start(now))
    ensures Start(now).messages == [Message(now, Welcome, Bot)]
    ensures !Start(now).isSending && Start(now).chatWidth == DefaultWidth
  {
  }

  lemma SendInv(s: Session, now: int)
    requires Inv(s) && !s.isSending && !AllWhitespace(s.inputValue)
    ensures Inv(AfterSend(s, now))
  {
    var r := Send(s, now);
    assert r.Sent?;
    AppendAlternates(s.messages, Message(now, r.question, User));
    assert r.next.messages[0] == s.messages[0];
  }

  lemma SettleInv(s: Session, o: Outcome, now: int)
    requires Inv(s) && s.isSending
    ensures Inv(Settle(s, o, now))
  {
    AppendAlternates(s.messages, Message(now + 1, Reply(o), Bot));
    assert Settle(s, o, now).messages[0] == s.messages[0];
  }

  lemma StepInv(s: Session, e: Event)
    requires Inv(s) && Enabled(s, e)
    ensures Inv(Step(s, e))
  {
    match e
    case SendClicked(now) =>
      assert CanSubmit(s);
      SendInv(s, now);
    case ReplyArrived(o, now) => SettleInv(s, o, now);
    case _ =>
  }

  /** Every run of enabled events from a reachable session keeps the
      conversation well formed. */
  lemma RunInv(s: Session, events: seq<Event>)
    requires Inv(s) && Accepts(Enabled, Step, s, events)
    ensures Inv(Run(Step, s, events))
  {
    forall x, e | Inv(x) && Enabled(x, e) ensures Inv(Step(x, e)) {
      StepInv(x, e);
    }
    InvariantHolds(Enabled, Step, Inv, s, events);
  }

  /** A pressed send while a reply is outstanding is a no-op, even though the
      handler never consults `isSending`: the draft was cleared when the
      outstanding question was sent and the input stays disabled until the
      reply arrives. */
  lemma SendWhilePendingIgnored(s: Session, now: int)
    requires Inv(s) && s.isSending
    ensures Send(s, now).Ignored?
    ensures AfterSend(s, now) == s
  {
  }

  /** One full exchange started under the button's condition: the
      conversation grows by exactly two bubbles, the trimmed question and
      then its answer, and the session is idle again. */
  lemma ExchangeAppendsTwo(s: Session, o: Outcome, sentAt: int, repliedAt: int)
    requires !s.isSending && !AllWhitespace(s.inputValue)
    ensures var r := Settle(AfterSend(s, sentAt), o, repliedAt);
      && |r.messages| == |s.messages| + 2
      && r.messages[..|s.messages|] == s.messages
      && r.messages[|s.messages|] == Message(sentAt, Trim(s.inputValue), User)
      && r.messages[|s.messages| + 1] == Message(repliedAt + 1, Reply(o), Bot)
      && !r.isSending && r.inputValue == []
  {
    var q := Message(sentAt, Trim(s.inputValue), User);
    var a := Message(repliedAt + 1, Reply(o), Bot);
    var mid := AfterSend(s, sentAt);
    assert mid == s.(messages := s.messages + [q], inputValue := "", isSending := true) by {
      assert Send(s, sentAt).Sent?;
    }
    var ms' := Settle(mid, o, repliedAt).messages;
    assert ms' == s.messages + [q, a];
    assert ms'[..|s.messages|] == s.messages;
  }

  /** No event removes or rewrites a bubble: the list only ever grows at its
      end, by at most one bubble per event. */
  lemma StepKeepsMessages(s: Session, e: Event)
    ensures s.messages <= Step(s, e).messages
    ensures |Step(s, e).messages| <= |s.messages| + 1
  {
  }

  lemma {:induction false} RunKeepsMessages(s: Session, events: seq<Event>)
    ensures s.messages <= Run(Step, s, events).messages
    ensures |Run(Step, s, events).messages| <= |s.messages| + |events|
    decreases |events|
  {
    if events != [] {
      StepKeepsMessages(s, events[0]);
      RunKeepsMessages(Step(s, events[0]), events[1..]);
    }
  }

  /** The drag clamp: whatever events arrive, enabled or not (as if the
      mouse-down handler were bound to some element), the width never drops below
      `MinWidth` once it is at least that. */
  lemma {:induction false} RunKeepsMinWidth(s: Session, events: seq<Event>)
    requires s.chatWidth >= MinWidth
    ensures Run(Step, s, events).chatWidth >= MinWidth
    decreases |events|
  {
    if events != [] {
      var e := events[0];
      assert Step(s, e).chatWidth >= MinWidth by {
        if e.PointerMoved? {
          assert Step(s, e) == MouseMove(s, e.clientX, e.innerWidth);
        }
      }
      RunKeepsMinWidth(Step(s, e), events[1..]);
    }
  }

  /** Bubble ids are clock readings and need not be distinct: the reply to
      a question, settled at millisecond `t`, and the next question, sent at
      millisecond `t + 1`, get the same id. */
  lemma IdsCanCollide(s: Session, first: string, o: Outcome, second: string, t: int)
    requires !AllWhitespace(first) && !AllWhitespace(second)
    ensures var s1 := Settle(AfterSend(Edit(s, first), t), o, t);
            var s2 := AfterSend(Edit(s1, second), t + 1);
      && |s2.messages| == |s.messages| + 3
      && s2.messages[|s.messages| + 1].sender == Bot
      && s2.messages[|s.messages| + 2].sender == User
      && s2.messages[|s.messages| + 1].id == s2.messages[|s.messages| + 2].id
  {
    var n := |s.messages|;
    var b := AfterSend(Edit(s, first), t);
    assert |b.messages| == n + 1;
    var s1 := Settle(b, o, t);
    assert s1.messages[n + 1] == Message(t + 1, Reply(o), Bot);
    var s2 := AfterSend(Edit(s1, second), t + 1);
    assert s2.messages == s1.messages + [Message(t + 1, Trim(second), User)];
    assert s2.messages[n + 1] == s1.messages[n + 1];
  }
}
