# Portfolio chat widgets, modelled in Dafny

The repository is a personal portfolio site with an embedded chat widget that
forwards a visitor's question to an assistant endpoint and shows the answer.
Two front-end variants hold the only local logic:

- `frontend/src/App.tsx`: a chat modal opened from a floating button. It
  keeps a list of chat bubbles (each tagged `user` or `bot`), a draft and a
  busy flag (`isSending`). Sending appends the trimmed question. When the
  request settles, one bot bubble is appended: the answer, or a fixed
  apology. The component also keeps a width (`chatWidth`) with handlers for
  dragging it. They are modelled as written, but the mouse-down handler that
  starts a drag is bound to no element and nothing reads the width.
- `portfolio-frontend/src/app/page.tsx`: a full-screen chat overlay. It keeps
  a history of question/answer pairs, a draft and an open/closed flag. It has
  no busy flag. A failed request leaves everything unchanged. The exit button
  clears the history and the draft, but a request still outstanding is not
  cancelled: its reply writes the history it captured, plus the new pair,
  back into the closed overlay.

Each React handler is a pure function on an explicit state record. Each
asynchronous handler is split in two: the part before its `await`
(`ChatSession.Send`, `ChatHistory.Submit`) and the part after it
(`ChatSession.Settle`, `ChatHistory.Settle`). The network call is a value
passed to the second half. `ChatSession.Outcome` is `Ok(text)` or `Fail`.
`ChatHistory.Fetched` is `Answered(ok, response)` or `Thrown`. Each module
also has an `Event` type, an `Enabled` predicate saying which UI elements are
on screen or enabled, and a `Step` function. For the overlay the state of a
run (`ChatHistory.Screen`) holds the page and the request being awaited, so
that a reply can arrive after other events. `Machine.Run` delivers a sequence
of events, and `Machine.InvariantHolds` carries an invariant along every run
of enabled events.

Files:

- `text.dfy` (module `Text`): ECMAScript `String.prototype.trim`, with its
  whitespace set. Both variants use it to decide whether a draft is blank.
- `machine.dfy` (module `Machine`): runs of events and the invariant induction.
- `chat_session.dfy` (module `ChatSession`): the `App.tsx` chat modal.
- `chat_history.dfy` (module `ChatHistory`): the `page.tsx` overlay.

Points where the code behaves differently from what one might expect:

- Bubble ids are `Date.now()` readings: the question gets the clock value,
  and the reply gets the clock value plus one. They are not unique, and
  `ChatSession.IdsCanCollide` shows two equal ids.
- `App.tsx` never checks the HTTP status. A non-OK status with a JSON body is
  an `Ok` outcome there. Only `page.tsx` throws on a non-OK status.
- `App.tsx`'s send handler does not check `isSending` itself. Only the button
  predicate `CanSubmit` stops a second send. Even so, a send while a reply is
  outstanding is a no-op in every reachable state
  (`ChatSession.SendWhilePendingIgnored`). The draft was cleared when the
  question went out, and the input stays disabled until the reply arrives.
- In `App.tsx` the drag handlers exist, but no element receives the
  mouse-down handler, so on the page the width stays 300
  (`ChatSession.RunInv`). `ChatSession.RunKeepsMinWidth` states what the
  clamp would guarantee if a drag could start.
- `page.tsx` sends and stores the untrimmed draft. It uses `trim` only for
  the blank check.
- `page.tsx`'s exit button does not cancel a request in flight, and the
  reply handler writes the history its closure captured. Sending, closing
  the overlay and then receiving the reply leaves a closed overlay holding
  the old conversation plus the new pair, which reappears when the overlay
  is reopened (`ChatHistory.LateReplyRefillsClosedOverlay`).
- `page.tsx`'s send button is never disabled, so a double click starts two
  requests whose closures captured the same history. The second ok reply
  does not append after the first one but rewrites the last pair
  (`ChatHistory.DoubleSubmitRewritesLastPair`).

## Model

| member | source | states |
|---|---|---|
| `Text.Trim` | frontend/src/App.tsx:37 | The result is empty or starts and ends with non-whitespace. It is empty exactly when the input is all whitespace. The input is the result with only whitespace before and after it. |
| `Text.TrimOfPadded` | frontend/src/App.tsx:37 | Trimming any whitespace-padded trimmed core gives back exactly that core, so the contract of `Trim` fixes its result. |
| `Text.TrimOfTrimmed` | frontend/src/App.tsx:37 | A string that neither starts nor ends with whitespace is its own trim. |
| `ChatSession.Mount` | frontend/src/App.tsx:25-33 | An empty list becomes exactly one bot bubble holding the welcome text. A non-empty list and every other field are left alone. |
| `ChatSession.Edit` | frontend/src/App.tsx:383 | Typing replaces the draft and nothing else. |
| `ChatSession.CanSubmit` | frontend/src/App.tsx:386-388 | The send button is enabled exactly when no reply is outstanding and the draft has a non-whitespace character. |
| `ChatSession.Send` | frontend/src/App.tsx:35-47 | A blank draft means an early return with no change. Otherwise the question is the draft trimmed. Exactly one user bubble with that text is appended after the unchanged earlier bubbles. The draft is cleared and the busy flag is set. The width and the drag flag are untouched. |
| `ChatSession.Settle` | frontend/src/App.tsx:49-76 | Exactly one bot bubble is appended after the unchanged prefix. It holds the answer text on `Ok` and the fixed apology on `Fail`, and its id is the clock plus one. The busy flag is cleared on both paths. The draft, the width and the drag flag are untouched. |
| `ChatSession.MouseDown` | frontend/src/App.tsx:80-83 | The mouse-down handler, as written: it starts a drag and changes nothing else. No element is bound to it. |
| `ChatSession.MouseMove` | frontend/src/App.tsx:86-96 | Outside a drag nothing changes. During a drag the width becomes `innerWidth - clientX` exactly when that is at least 250 and at most half the window. Otherwise the width is kept. Nothing else changes. |
| `ChatSession.MouseUp` | frontend/src/App.tsx:98-100 | Ends the drag and changes nothing else. |
| `ChatSession.Enabled` | frontend/src/App.tsx:80-111 | Which events the page can deliver: typing only while no reply is outstanding (`disabled={isSending}`, line 386), a send only under `CanSubmit` (line 388), a reply only while one is outstanding, the mouse-down event never (no element carries `handleMouseDown`), and pointer moves and releases only during a drag, when the document listeners are attached (lines 102-105). The mount effect is always possible. |
| `ChatSession.StartInv` | frontend/src/App.tsx:11-33 | After the first render and the mount effect, the list is just the welcome bubble. Nothing is outstanding, no drag is under way, the width is 300, and the session invariant holds. |
| `ChatSession.SendInv` | frontend/src/App.tsx:35-47 | A send while idle with a non-blank draft (the button condition) keeps the invariant. It adds a trailing question while a reply is pending. |
| `ChatSession.SettleInv` | frontend/src/App.tsx:49-76 | A reply to the outstanding question keeps the invariant. The answer lands right after its question. |
| `ChatSession.StepInv` | frontend/src/App.tsx:379-390 | Every enabled event keeps the session invariant. |
| `ChatSession.RunInv` | frontend/src/App.tsx:35-111 | In every run of enabled events the list is the welcome, then questions, each followed immediately by its answer. A question is outstanding exactly while the busy flag is set, and the draft is empty then. Every question is trimmed and non-empty. No drag is ever under way and the width stays 300, since nothing starts a drag. |
| `ChatSession.SendWhilePendingIgnored` | frontend/src/App.tsx:37-38 | In a reachable state with a reply outstanding, the send handler returns early and changes nothing, although it never reads the busy flag. |
| `ChatSession.ExchangeAppendsTwo` | frontend/src/App.tsx:35-76 | A send allowed by the button, followed by its settle, grows the list by exactly two. The new bubbles are the trimmed question and then the answer or apology. The earlier bubbles are unchanged, and the session ends idle with an empty draft. |
| `ChatSession.StepKeepsMessages` | frontend/src/App.tsx:45-73 | No event removes or rewrites a bubble. Each event appends at most one. |
| `ChatSession.RunKeepsMessages` | frontend/src/App.tsx:45-73 | Over any run of events, the earlier list is a prefix of the later one. It grows by at most one bubble per event. |
| `ChatSession.RunKeepsMinWidth` | frontend/src/App.tsx:86-96 | Over any run of events, even one that starts drags, a width of at least 250 never drops below 250. |
| `ChatSession.IdsCanCollide` | frontend/src/App.tsx:41-69 | Take a reply settled at millisecond `t` and the next question sent at millisecond `t + 1`. The two bubbles get the same id. |
| `ChatHistory.Submit` | portfolio-frontend/src/app/page.tsx:9-11 | A blank draft is skipped. Otherwise the request carries the untrimmed draft and the history as the handler saw it. |
| `ChatHistory.Settle` | portfolio-frontend/src/app/page.tsx:13-23 | On an ok status with a parsed body, the history becomes the captured history plus the one new pair, and the draft is cleared. A non-OK status or a thrown error changes nothing. |
| `ChatHistory.Ask` | portfolio-frontend/src/app/page.tsx:9-24 | A blank draft or a failed request changes nothing. Otherwise exactly one pair of untrimmed draft and answer is appended after the unchanged history, and the draft is cleared. |
| `ChatHistory.EnterChatMode` | portfolio-frontend/src/app/page.tsx:26-28 | Opens the overlay and keeps the history and the draft. |
| `ChatHistory.ExitChatMode` | portfolio-frontend/src/app/page.tsx:30-34 | Whatever the prior state, the overlay is closed and the history and the draft are empty. |
| `ChatHistory.Edit` | portfolio-frontend/src/app/page.tsx:96 | Typing replaces the draft and nothing else. |
| `ChatHistory.Enabled` | portfolio-frontend/src/app/page.tsx:62-112 | Which events the page can deliver: a focus of the teaser input only while the overlay is closed (line 62), typing and exit only while it is open (line 74), never disabled while a request is out (lines 92-112), and a reply only while a request is awaited. A send needs the overlay open and, unlike the page, no request already awaited. |
| `ChatHistory.StartInv` | portfolio-frontend/src/app/page.tsx:5-7 | The first render is a closed overlay with an empty draft and history, nothing is awaited, and the page invariant holds. |
| `ChatHistory.StepInv` | portfolio-frontend/src/app/page.tsx:9-34 | Every enabled event, a reply after an exit included, keeps the page invariant. |
| `ChatHistory.RunInv` | portfolio-frontend/src/app/page.tsx:62-113 | In every run of enabled events, a closed overlay has an empty draft, no stored or awaited question is blank, and while a request is out the history is the one it captured or, after an exit, empty. |
| `ChatHistory.SubmitThenReplyIsAsk` | portfolio-frontend/src/app/page.tsx:9-24 | A submit whose reply arrives before any other event has exactly the effect `Ask` describes, and leaves nothing awaited. |
| `ChatHistory.LateReplyRefillsClosedOverlay` | portfolio-frontend/src/app/page.tsx:9-34 | From an open overlay with a non-blank draft, the run submit, exit, successful reply is allowed by the page and ends with the overlay closed and the history equal to the old history plus the new pair. |
| `ChatHistory.ExitThenReply` | portfolio-frontend/src/app/page.tsx:19-34 | With a request out, an exit followed by a successful reply is allowed and leaves a closed overlay, an empty draft, nothing awaited, and the captured history plus the new pair. |
| `ChatHistory.StepEditsHistory` | portfolio-frontend/src/app/page.tsx:19-32 | Under any enabled event the history stays, gains one pair at its end, or is cleared. The one other edit is a reply after an exit, which replaces the empty history with the captured history plus the new pair. |
| `ChatHistory.StepExtendsHistory` | portfolio-frontend/src/app/page.tsx:9-28 | With no exit, and no send while a request is awaited, an event keeps the history a prefix of the next one, adds at most one pair, and keeps an awaited request's captured history equal to the current one. |
| `ChatHistory.RunExtendsHistory` | portfolio-frontend/src/app/page.tsx:9-28 | In a run of enabled events without an exit, starting where any awaited request captured the current history, the earlier history is a prefix of the later one. It grows by at most one pair per event. |
| `ChatHistory.DoubleSubmitRewritesLastPair` | portfolio-frontend/src/app/page.tsx:9-24 | Two requests sent from the same non-blank draft and history, both answered ok: the first reply appends the pair with its answer, and the second replaces that pair with its own answer instead of adding one. |

## Left out

- `backend/main.py` and `portfolio-backend/main.py` are not modelled. They only route HTTP requests to a language model and a vector store, neither of which can be seen here.
- The request itself is not modelled: `fetch`, the JSON body, `encodeURIComponent` and `response.json()`. It becomes the `Outcome` or `Fetched` value passed to the settle step.
- `ChatHistory.Fetched`: a parsed body whose `response` field is missing or is not a string is not distinguished. `Answered` always carries a string.
- `ChatSession.Outcome`: a successful body whose `text` field is missing or is not a string (JavaScript `undefined`) is not distinguished. `Ok` always carries a string.
- `Date.now()` is a parameter (`now`) of the handlers that create bubbles. No clock discipline is assumed.
- `MouseEvent.clientX` is modelled as an integer. Fractional pointer coordinates under zoom are not modelled.
- `Text.IsWhitespace` works on Unicode scalar values. Lone UTF-16 surrogates, which a JavaScript string may contain, cannot be represented. They are never whitespace, so trimming is unaffected.
- Not modelled because they only affect presentation: scroll-into-view, the unused `chatSidebarRef`, the typing indicator's rendering, the contact form, and all static biographical markup.
- `ChatSession.Enabled`: the modal's open flag `chatOpen` (set by the floating button, cleared by the close button and by a click on the backdrop) is not tracked, so typing and sending are enabled even while the modal is closed. Every run the page allows is still a run of the model, so the invariant lemmas cover them all.
- `ChatSession`: a reply that settles after the component unmounts is not modelled. React drops that state update.
- `ChatHistory.Enabled`: a second send while a request is out starts a second, overlapping request, because nothing on the overlay is disabled while one is awaited. The model keeps at most one request outstanding, so runs with overlapping requests are not covered by the `ChatHistory` run lemmas.
- `ChatHistory.RunExtendsHistory`: covers only runs in which no second send happens while a request is out. On the page such a send starts a second request, and its ok reply rewrites the last pair instead of appending, so the history is then not append-only (`ChatHistory.DoubleSubmitRewritesLastPair` shows this for two replies).
