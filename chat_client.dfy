/**
 * The browser half: the `ChatApp` session of app/static/js/chat.js.
 *
 * The page is represented only as far as the session changes it: `view`
 * is the list of message bubbles in the chat container, `inputEnabled`
 * whether the message box and the send button accept input.  Transport
 * events (the fetch outcome, each `reader.read()` result) are the inputs
 * of the event methods; chunks are already-decoded text.
 */
module ChatClient {
  import opened Wrappers
  import opened Json
  import opened EventStream
  import opened SeqFacts

  datatype Role = User | Assistant

  /** An entry of `messageHistory` (Message in the server's schema). */
  datatype Message = Message(role: Role, content: string)

  /** What one `fetch` to /api/chat/stream carries (temperature is left out). */
  datatype ChatRequest = ChatRequest(messages: seq<Message>, model: string, maxTokens: nat)

  const Model: string := "gpt-3.5-turbo"
  const MaxTokens: nat := 1000

  /** A message bubble on the page: the role it is styled as and the text it shows. */
  datatype Bubble = Bubble(role: Role, text: string)

  /** The text of the placeholder bubble until the first fragment arrives. */
  const TypingIndicator: string := "AI печатает..."

  /** The handle `createEventSource` returns; its `close()` cancels the read. */
  datatype EventSource = EventSource

  /** Why the request failed before a stream was produced. */
  datatype FetchFailure =
    | HttpStatus(status: nat)      // `response.ok` was false
    | NetworkError(message: string) // `fetch` itself threw

  /** How the read loop ends: `done`, or `reader.read()` rejected. */
  datatype StreamEnd = Done | ReadError

  /** What the server does with one request: refuse it, or stream chunks and end. */
  datatype Reply =
    | Refused(failure: FetchFailure)
    | Streamed(chunks: seq<string>, end: StreamEnd)

  /** The session's lifecycle, read off its fields. */
  datatype Phase = Idle | AwaitingResponse | Reading

  // ---------------------------------------------------------------------
  // String.prototype.trim

  /** The characters `trim` removes: WhiteSpace and LineTerminator of ECMAScript. */
  predicate IsJsWhitespace(c: char) {
    c == '\t' || c == '\n' || c == 11 as char || c == 12 as char || c == '\r' || c == ' ' ||
    c == '\U{00A0}' || c == '\U{1680}' || ('\U{2000}' <= c <= '\U{200A}') ||
    c == '\U{2028}' || c == '\U{2029}' || c == '\U{202F}' || c == '\U{205F}' ||
    c == '\U{3000}' || c == '\U{FEFF}'
  }

  function TrimStart(s: string): string {
    if s != [] && IsJsWhitespace(s[0]) then TrimStart(s[1..]) else s
  }

  function TrimEnd(s: string): string {
    if s != [] && IsJsWhitespace(s[|s| - 1]) then TrimEnd(s[..|s| - 1]) else s
  }

  /** `s.trim()`: `s` without its leading and trailing whitespace. */
  function Trim(s: string): string {
    TrimEnd(TrimStart(s))
  }

  /** `TrimStart` drops a whitespace prefix and stops at the first other character. */
  lemma {:induction false} TrimStartShape(s: string)
    ensures |TrimStart(s)| <= |s| && TrimStart(s) == s[|s| - |TrimStart(s)|..]
    ensures forall k :: 0 <= k < |s| - |TrimStart(s)| ==> IsJsWhitespace(s[k])
    ensures TrimStart(s) != [] ==> !IsJsWhitespace(TrimStart(s)[0])
  {
    if s != [] && IsJsWhitespace(s[0]) {
      TrimStartShape(s[1..]);
      assert forall k :: 1 <= k < |s| ==> s[k] == s[1..][k - 1];
    }
  }

  /** `TrimEnd` drops a whitespace suffix and stops at the last other character. */
  lemma {:induction false} TrimEndShape(s: string)
    ensures |TrimEnd(s)| <= |s| && TrimEnd(s) == s[..|TrimEnd(s)|]
    ensures forall k :: |TrimEnd(s)| <= k < |s| ==> IsJsWhitespace(s[k])
    ensures TrimEnd(s) != [] ==> !IsJsWhitespace(TrimEnd(s)[|TrimEnd(s)| - 1])
  {
    if s != [] && IsJsWhitespace(s[|s| - 1]) {
      var u := s[..|s| - 1];
      TrimEndShape(u);
      assert forall k :: 0 <= k < |u| ==> s[k] == u[k];
      assert u[..|TrimEnd(u)|] == s[..|TrimEnd(u)|];
    }
  }

  /** The trimmed text is empty exactly when the input is whitespace only. */
  lemma TrimEmptyIff(s: string)
    ensures Trim(s) == [] <==> forall k :: 0 <= k < |s| ==> IsJsWhitespace(s[k])
  {
    var t := TrimStart(s);
    TrimStartShape(s);
    TrimEndShape(t);
    if !forall k :: 0 <= k < |s| ==> IsJsWhitespace(s[k]) {
      var k :| 0 <= k < |s| && !IsJsWhitespace(s[k]);
      assert k >= |s| - |t|;
      assert t[k - (|s| - |t|)] == s[k];
    }
  }

  /**
   * Trimming keeps the text between the first and last non-whitespace
   * characters: what it drops is whitespace, and what it keeps, unless
   * empty, starts and ends with another character.
   */
  lemma TrimIsInfix(s: string)
    ensures exists i, j ::
      && 0 <= i <= j <= |s| && Trim(s) == s[i..j]
      && (forall k :: 0 <= k < i ==> IsJsWhitespace(s[k]))
      && (forall k :: j <= k < |s| ==> IsJsWhitespace(s[k]))
      && (i < j ==> !IsJsWhitespace(s[i]) && !IsJsWhitespace(s[j - 1]))
  {
    var t := TrimStart(s);
    TrimStartShape(s);
    TrimEndShape(t);
    var i := |s| - |t|;
    var j := i + |Trim(s)|;
    assert Trim(s) == t[..|Trim(s)|];
    assert t[..|Trim(s)|] == s[i..j];
    assert forall k :: j <= k < |s| ==> s[k] == t[k - i];
    assert 0 <= i <= j <= |s| && Trim(s) == s[i..j];
  }

  // ---------------------------------------------------------------------
  // What the read loop takes from the stream

  /**
   * The text one segment of a chunk adds to `fullResponse`: present when the
   * segment starts with "data: ", the rest parses (`JSON.parse`, as
   * `Json.Decode`), and `is_final` is false.
   */
  function Fragment(segment: string): Option<string> {
    if DataPrefix <= segment then
      match Decode(segment[|DataPrefix|..])
      case None => None
      case Some(data) => if data.isFinal then None else Some(data.content)
    else None
  }

  function FragmentText(segment: string): string {
    match Fragment(segment)
    case Some(text) => text
    case None => ""
  }

  /** The fragments of `segments`, in order. */
  function Contribution(segments: seq<string>): string {
    ConcatMap(FragmentText, segments)
  }

  /** Whether any of `segments` applies a fragment (and so repaints the reply). */
  predicate AnyApplied(segments: seq<string>) {
    segments != [] && (Fragment(segments[0]).Some? || AnyApplied(segments[1..]))
  }

  /** What one decoded chunk adds to `fullResponse`. */
  function ChunkText(chunk: string): string {
    Contribution(Split(chunk))
  }

  /** What a sequence of chunks adds to `fullResponse`. */
  function StreamText(chunks: seq<string>): string {
    ConcatMap(ChunkText, chunks)
  }

  predicate StreamApplied(chunks: seq<string>) {
    chunks != [] && (AnyApplied(Split(chunks[0])) || StreamApplied(chunks[1..]))
  }

  /**
   * A segment that is final, lacks the prefix or does not parse adds
   * nothing, and the segments after it still count.
   */
  lemma SkippedSegmentDoesNotBlock(segments: seq<string>, k: nat)
    requires k < |segments| && Fragment(segments[k]).None?
    ensures Contribution(segments) == Contribution(segments[..k]) + Contribution(segments[k + 1..])
  {
    var a, x, b := segments[..k], segments[k], segments[k + 1..];
    assert segments == (a + [x]) + b;
    ConcatMapConcat(FragmentText, a + [x], b);
    ConcatMapAppend(FragmentText, a, x);
  }

  lemma ContributionAppend(segments: seq<string>, s: string)
    ensures Contribution(segments + [s]) == Contribution(segments) + FragmentText(s)
  {
    ConcatMapAppend(FragmentText, segments, s);
  }

  lemma StreamTextAppend(chunks: seq<string>, chunk: string)
    ensures StreamText(chunks + [chunk]) == StreamText(chunks) + ChunkText(chunk)
  {
    ConcatMapAppend(ChunkText, chunks, chunk);
  }

  lemma {:induction false} AnyAppliedAppend(segments: seq<string>, s: string)
    ensures AnyApplied(segments + [s]) <==> AnyApplied(segments) || Fragment(s).Some?
  {
    if segments == [] {
      assert [] + [s] == [s];
    } else {
      assert (segments + [s])[1..] == segments[1..] + [s];
      AnyAppliedAppend(segments[1..], s);
    }
  }
  /** Segments none of which applies leave `fullResponse` as it was. */
  lemma {:induction false} NothingAppliedNothingAdded(segments: seq<string>)
    requires !AnyApplied(segments)
    ensures Contribution(segments) == ""
  {
    if segments != [] {
      NothingAppliedNothingAdded(segments[1..]);
    }
  }

  lemma {:induction false} StreamAppliedAppend(chunks: seq<string>, chunk: string)
    ensures StreamApplied(chunks + [chunk]) <==> StreamApplied(chunks) || AnyApplied(Split(chunk))
  {
    if chunks == [] {
      assert [] + [chunk] == [chunk];
    } else {
      assert (chunks + [chunk])[1..] == chunks[1..] + [chunk];
      StreamAppliedAppend(chunks[1..], chunk);
    }
  }

  // ---------------------------------------------------------------------
  // Error text

  predicate AllDigits(r: string) {
    forall k :: 0 <= k < |r| ==> '0' <= r[k] <= '9'
  }

  /** The number a run of decimal digits denotes, most significant first. */
  function DecimalValue(r: string): nat
    requires AllDigits(r)
  {
    if r == [] then 0
    else DecimalValue(r[..|r| - 1]) * 10 + (r[|r| - 1] as int - '0' as int)
  }

  /**
   * The decimal form of a number, as a template literal writes it: the
   * digits denote `n`, and there is no leading zero.
   */
  function DecimalDigits(n: nat): (r: string)
    ensures |r| >= 1 && AllDigits(r)
    ensures DecimalValue(r) == n
    ensures n > 0 ==> r[0] != '0'
    ensures |r| > 1 ==> r[0] != '0'
  {
    var d := [('0' as int + n % 10) as char];
    if n < 10 then d
    else
      var high := DecimalDigits(n / 10);
      assert (high + d)[..|high + d| - 1] == high;
      high + d
  }

  /** What the error bubble shows: "Ошибка: " and the thrown error's message. */
  function ErrorText(failure: FetchFailure): string {
    "Ошибка: " + match failure
      case HttpStatus(status) => "HTTP error! status: " + DecimalDigits(status)
      case NetworkError(message) => message
  }

  /** The assistant entry a turn commits: only a stream that ends normally with text. */
  function Answer(reply: Reply): seq<Message> {
    match reply
    case Refused(_) => []
    case Streamed(chunks, end) =>
      if end == Done && StreamText(chunks) != "" then [Message(Assistant, StreamText(chunks))] else []
  }

  /**
   * The reply bubble after one more step: repainted with `text` when this
   * step or an earlier one applied text, and otherwise as it started.
   */
  lemma RepaintStep(start: seq<Bubble>, idx: nat, before: seq<Bubble>, after: seq<Bubble>,
    textBefore: string, text: string, appliedBefore: bool, appliedNow: bool)
    requires idx < |start|
    requires before == if appliedBefore then start[idx := Bubble(Assistant, textBefore)] else start
    requires after == if appliedNow then before[idx := Bubble(Assistant, text)] else before
    requires !appliedNow ==> text == textBefore
    ensures after == if appliedBefore || appliedNow then start[idx := Bubble(Assistant, text)] else start
  {
  }


  // ---------------------------------------------------------------------
  // The session object

  class ChatApp {
    var messageHistory: seq<Message>
    var isStreaming: bool
    var fullResponse: string
    var currentEventSource: Option<EventSource>
    /** The reply bubble being streamed into, as its position in `view` (a page element, so ghost). */
    ghost var currentAiMessageElement: Option<nat>
    ghost var view: seq<Bubble>
    ghost var inputEnabled: bool

    function CurrentPhase(): Phase
      reads this
    {
      if !isStreaming then Idle
      else if currentEventSource.None? then AwaitingResponse
      else Reading
    }

    /**
     * The session invariant: an idle session holds no stream handle, no reply
     * bubble and no partial text; the input is enabled exactly when idle; a
     * streaming session has a reply bubble on the page; no history entry is
     * empty.
     */
    ghost predicate Valid()
      reads this
    {
      (!isStreaming ==> currentEventSource.None? && currentAiMessageElement.None? && fullResponse == "") &&
      (isStreaming ==> currentAiMessageElement.Some? && currentAiMessageElement.value < |view|) &&
      (CurrentPhase() == AwaitingResponse ==> fullResponse == "") &&
      inputEnabled == !isStreaming &&
      (forall i :: 0 <= i < |messageHistory| ==> messageHistory[i].content != "")
    }

    constructor ()
      ensures Valid() && CurrentPhase() == Idle
      ensures messageHistory == [] && view == [] && fullResponse == ""
    {
      messageHistory := [];
      currentEventSource := None;
      isStreaming := false;
      currentAiMessageElement := None;
      fullResponse := "";
      view := [];
      inputEnabled := true;
    }

    /**
     * `sendMessage`, up to the `fetch`: an empty trimmed input or a session
     * already streaming is ignored; otherwise the user turn is appended, the
     * page shows it and a typing placeholder, and input is disabled.  The
     * result is the request sent, None when the call was ignored.
     */
    method SendMessage(inputValue: string) returns (request: Option<ChatRequest>)
      requires Valid()
      modifies this
      ensures Valid()
      ensures request.None? <==> Trim(inputValue) == [] || old(isStreaming)
      ensures request.None? ==> unchanged(this)
      ensures request.Some? ==>
        messageHistory == old(messageHistory) + [Message(User, Trim(inputValue))] &&
        request.value == ChatRequest(messageHistory, Model, MaxTokens) &&
        CurrentPhase() == AwaitingResponse && fullResponse == "" && !inputEnabled &&
        view == old(view) + [Bubble(User, Trim(inputValue)), Bubble(Assistant, TypingIndicator)] &&
        currentAiMessageElement == Some(|old(view)| + 1)
    {
      var message := Trim(inputValue);
      if message == [] || isStreaming {
        return None;
      }
      inputEnabled := false;
      isStreaming := true;
      messageHistory := messageHistory + [Message(User, message)];
      view := view + [Bubble(User, message)];
      // addMessage('assistant', '') whose content is then the typing indicator
      view := view + [Bubble(Assistant, TypingIndicator)];
      currentAiMessageElement := Some(|view| - 1);
      // An idle session holds no stream, so the close() of a previous one is never reached.
      assert currentEventSource.None?;
      request := Some(ChatRequest(messageHistory, Model, MaxTokens));
    }

    /**
     * `resetInput`: back to idle, with input enabled and both handles and the
     * partial text dropped; history and the page's bubbles are untouched.
     */
    method ResetInput()
      requires Valid()
      modifies this
      ensures Valid() && CurrentPhase() == Idle && inputEnabled
      ensures fullResponse == "" && currentEventSource.None? && currentAiMessageElement.None?
      ensures messageHistory == old(messageHistory) && view == old(view)
    {
      inputEnabled := true;
      isStreaming := false;
      currentEventSource := None;
      currentAiMessageElement := None;
      fullResponse := "";
    }

    /**
     * The `catch` of `sendMessage`: a non-OK status or a failed `fetch` shows
     * the error in a new assistant bubble and resets; history is unchanged.
     */
    method OnFetchFailed(failure: FetchFailure)
      requires Valid() && CurrentPhase() == AwaitingResponse
      modifies this
      ensures Valid() && CurrentPhase() == Idle && inputEnabled
      ensures messageHistory == old(messageHistory)
      ensures view == old(view) + [Bubble(Assistant, ErrorText(failure))]
    {
      view := view + [Bubble(Assistant, ErrorText(failure))];
      ResetInput();
    }

    /**
     * A successful response: the stream handle is stored and `fullResponse`
     * is cleared before the first chunk is read.
     */
    method OnStreamOpened()
      requires Valid() && CurrentPhase() == AwaitingResponse
      modifies this
      ensures Valid() && CurrentPhase() == Reading && fullResponse == ""
      ensures messageHistory == old(messageHistory) && view == old(view)
      ensures currentAiMessageElement == old(currentAiMessageElement)
    {
      currentEventSource := Some(EventSource);
      fullResponse := "";
    }

    /**
     * One segment of a chunk: when it starts with "data: ", parses and is not
     * final, its content is appended and the reply bubble is repainted with
     * the whole `fullResponse`; otherwise nothing changes.
     */
    method ApplySegment(line: string)
      requires Valid() && CurrentPhase() == Reading
      modifies this
      ensures Valid() && CurrentPhase() == Reading
      ensures fullResponse == old(fullResponse) + FragmentText(line)
      ensures messageHistory == old(messageHistory)
      ensures currentEventSource == old(currentEventSource)
      ensures currentAiMessageElement == old(currentAiMessageElement)
      ensures view == if Fragment(line).Some?
        then old(view)[currentAiMessageElement.value := Bubble(Assistant, fullResponse)]
        else old(view)
    {
      // startsWith('data: '), JSON.parse, and the is_final check: a
      // segment that fails any of them is skipped.
      match Fragment(line) {
        case None =>
        case Some(content) =>
          fullResponse := fullResponse + content;
          if currentAiMessageElement.Some? {
            view := view[currentAiMessageElement.value := Bubble(Assistant, fullResponse)];
          }
      }
    }

    /**
     * One chunk of the read loop: split on "\n\n" and apply each segment in
     * order; the reply bubble ends up showing the whole `fullResponse` if any
     * segment applied.
     */
    method ProcessChunk(chunk: string)
      requires Valid() && CurrentPhase() == Reading
      modifies this
      ensures Valid() && CurrentPhase() == Reading
      ensures fullResponse == old(fullResponse) + ChunkText(chunk)
      ensures messageHistory == old(messageHistory)
      ensures currentEventSource == old(currentEventSource)
      ensures currentAiMessageElement == old(currentAiMessageElement)
      ensures view == if AnyApplied(Split(chunk))
        then old(view)[old(currentAiMessageElement).value := Bubble(Assistant, fullResponse)]
        else old(view)
    {
      var lines := Split(chunk);
      for k := 0 to |lines|
        invariant Valid() && CurrentPhase() == Reading
        invariant messageHistory == old(messageHistory)
        invariant currentEventSource == old(currentEventSource)
        invariant currentAiMessageElement == old(currentAiMessageElement)
        invariant fullResponse == old(fullResponse) + Contribution(lines[..k])
        invariant view == if AnyApplied(lines[..k])
          then old(view)[old(currentAiMessageElement).value := Bubble(Assistant, fullResponse)]
          else old(view)
      {
        ghost var before, textBefore := view, fullResponse;
        ApplySegment(lines[k]);
        if Fragment(lines[k]).None? {
          assert FragmentText(lines[k]) == "";
        }
        RepaintStep(old(view), old(currentAiMessageElement).value, before, view, textBefore, fullResponse,
          AnyApplied(lines[..k]), Fragment(lines[k]).Some?);
        assert lines[..k + 1] == lines[..k] + [lines[k]];
        ContributionAppend(lines[..k], lines[k]);
        AppendAssoc(old(fullResponse), Contribution(lines[..k]), FragmentText(lines[k]));
        AnyAppliedAppend(lines[..k], lines[k]);
      }
      assert lines[..|lines|] == lines;
    }

    /**
     * The reply so far after the chunks `prefix`, from a reading session that
     * began with the page `start` and the text `startText`.
     */
    ghost predicate ShowsStream(start: seq<Bubble>, idx: nat, startText: string, prefix: seq<string>)
      reads this
    {
      && idx < |start|
      && fullResponse == startText + StreamText(prefix)
      && view == if StreamApplied(prefix) then start[idx := Bubble(Assistant, fullResponse)] else start
    }

    /** One iteration of the read loop: the next chunk of the stream. */
    method ReadNext(chunk: string, ghost start: seq<Bubble>, ghost idx: nat, ghost startText: string,
      ghost prefix: seq<string>)
      requires Valid() && CurrentPhase() == Reading && currentAiMessageElement == Some(idx)
      requires ShowsStream(start, idx, startText, prefix)
      modifies this
      ensures Valid() && CurrentPhase() == Reading && currentAiMessageElement == Some(idx)
      ensures messageHistory == old(messageHistory)
      ensures ShowsStream(start, idx, startText, prefix + [chunk])
    {
      ghost var before, textBefore := view, fullResponse;
      ProcessChunk(chunk);
      if !AnyApplied(Split(chunk)) {
        NothingAppliedNothingAdded(Split(chunk));
      }
      RepaintStep(start, idx, before, view, textBefore, fullResponse,
        StreamApplied(prefix), AnyApplied(Split(chunk)));
      StreamTextAppend(prefix, chunk);
      AppendAssoc(startText, StreamText(prefix), ChunkText(chunk));
      StreamAppliedAppend(prefix, chunk);
    }

    /**
     * The read loop of `processStream` over the chunks `chunks`, ending as
     * `end` says.  On `done` a non-empty `fullResponse` becomes one assistant
     * entry of the history; on a read error nothing is committed.  Either way
     * the session resets.
     */
    method ConsumeStream(chunks: seq<string>, end: StreamEnd)
      requires Valid() && CurrentPhase() == Reading
      modifies this
      ensures Valid() && CurrentPhase() == Idle && inputEnabled && fullResponse == ""
      ensures var reply := old(fullResponse) + StreamText(chunks);
        messageHistory == old(messageHistory) +
          (if end == Done && reply != "" then [Message(Assistant, reply)] else [])
      ensures view == if StreamApplied(chunks)
        then old(view)[old(currentAiMessageElement).value :=
          Bubble(Assistant, old(fullResponse) + StreamText(chunks))]
        else old(view)
    {
      ghost var start, idx, startText := view, currentAiMessageElement.value, fullResponse;
      assert ShowsStream(start, idx, startText, chunks[..0]);
      var i := 0;
      while i < |chunks|
        invariant 0 <= i <= |chunks|
        invariant Valid() && CurrentPhase() == Reading && currentAiMessageElement == Some(idx)
        invariant messageHistory == old(messageHistory)
        invariant ShowsStream(start, idx, startText, chunks[..i])
      {
        ReadNext(chunks[i], start, idx, startText, chunks[..i]);
        assert chunks[..i + 1] == chunks[..i] + [chunks[i]];
        i := i + 1;
      }
      assert chunks[..|chunks|] == chunks;
      match end {
        case Done =>
          if fullResponse != "" {
            messageHistory := messageHistory + [Message(Assistant, fullResponse)];
          }
          ResetInput();
        case ReadError =>
          ResetInput();
      }
    }

    /**
     * One whole turn: `sendMessage` with the server's `reply`, through the
     * read loop when a stream is produced.  An accepted turn ends idle, with
     * the user entry and at most one assistant entry appended.
     */
    method Exchange(inputValue: string, reply: Reply) returns (request: Option<ChatRequest>)
      requires Valid()
      modifies this
      ensures Valid()
      ensures request.None? <==> Trim(inputValue) == [] || old(isStreaming)
      ensures request.None? ==> unchanged(this)
      ensures request.Some? ==>
        request.value.messages == old(messageHistory) + [Message(User, Trim(inputValue))] &&
        messageHistory == request.value.messages + Answer(reply) &&
        CurrentPhase() == Idle && inputEnabled
    {
      request := SendMessage(inputValue);
      if request.Some? {
        match reply {
          case Refused(failure) =>
            OnFetchFailed(failure);
          case Streamed(chunks, end) =>
            OnStreamOpened();
            ConsumeStream(chunks, end);
            assert "" + StreamText(chunks) == StreamText(chunks);
        }
      }
    }
  }

  /** `resetInput` is idempotent: a second call changes nothing. */
  method ResetInputTwice(app: ChatApp)
    requires app.Valid()
    modifies app
    ensures app.Valid() && app.CurrentPhase() == Idle
    ensures app.messageHistory == old(app.messageHistory) && app.view == old(app.view)
  {
    app.ResetInput();
    ghost var once := (app.messageHistory, app.isStreaming, app.fullResponse, app.currentEventSource,
      app.currentAiMessageElement, app.view, app.inputEnabled);
    app.ResetInput();
    assert once == (app.messageHistory, app.isStreaming, app.fullResponse, app.currentEventSource,
      app.currentAiMessageElement, app.view, app.inputEnabled);
  }
}
