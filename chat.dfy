/** The transcript logic of the chat widget in components/AIChat.tsx.

    The widget's state is an object whose fields the send handler updates
    step by step: the transcript `messages`, the text field `input` and the
    `isLoading` flag. The language-model service is an external collaborator:
    one send hands it the earlier transcript and the new user message, and
    receives a sequence of text chunks that either ends normally or is cut
    short by an error. The model takes that outcome as a parameter. */
module AIChat {
  import opened Wrappers

  datatype Role = User | Model

  /** One transcript entry; an absent `isError` is `false`. */
  datatype ChatMessage = ChatMessage(role: Role, text: string, isError: bool)

  const GreetingText: string :=
    "Hello! I am Devanand's AI Assistant. Ask me anything about his .NET experience, skills, or projects."

  const DefaultErrorText: string := "Connection interrupted. Please try again."

  /** What the chat service answers one request with: the chunks it yields,
      then either a normal end (`failure == None`) or a thrown error carrying
      an optional message (`failure == Some(message)`). */
  datatype ChatStream = ChatStream(chunks: seq<string>, failure: Option<Option<string>>)

  /** The two arguments a send passes to the chat service. */
  datatype ChatRequest = ChatRequest(history: seq<ChatMessage>, userMessage: string)

  /** The characters JavaScript's `String.prototype.trim` removes: the
      WhiteSpace code points (tab, vertical tab, form feed, no-break space,
      the byte order mark and the Unicode space separators) and the four
      line terminators. */
  predicate IsWhitespace(c: char) {
    var n := c as int;
    n == 0x09 || n == 0x0A || n == 0x0B || n == 0x0C || n == 0x0D || n == 0x20 ||
    n == 0xA0 || n == 0x1680 || (0x2000 <= n <= 0x200A) || n == 0x2028 || n == 0x2029 ||
    n == 0x202F || n == 0x205F || n == 0x3000 || n == 0xFEFF
  }

  /** The number of whitespace characters at the start of `s`. */
  function LeadingWhitespace(s: string): (n: nat)
    ensures n <= |s|
    ensures forall k :: 0 <= k < n ==> IsWhitespace(s[k])
    ensures n < |s| ==> !IsWhitespace(s[n])
  {
    if s == [] || !IsWhitespace(s[0]) then 0 else 1 + LeadingWhitespace(s[1..])
  }

  /** The number of whitespace characters at the end of `s`. */
  function TrailingWhitespace(s: string): (n: nat)
    ensures n <= |s|
    ensures forall k :: |s| - n <= k < |s| ==> IsWhitespace(s[k])
    ensures n < |s| ==> !IsWhitespace(s[|s| - 1 - n])
  {
    if s == [] || !IsWhitespace(s[|s| - 1]) then 0 else 1 + TrailingWhitespace(s[..|s| - 1])
  }

  /** `s.trim()`: the longest piece of `s` that neither starts nor ends with
      whitespace once the whitespace around it is cut away. */
  function Trim(s: string): (r: string)
    ensures |r| <= |s| - LeadingWhitespace(s)
    ensures r == s[LeadingWhitespace(s)..LeadingWhitespace(s) + |r|]
    ensures forall k :: LeadingWhitespace(s) + |r| <= k < |s| ==> IsWhitespace(s[k])
    ensures r != [] ==> !IsWhitespace(r[0]) && !IsWhitespace(r[|r| - 1])
    ensures r == [] <==> forall k :: 0 <= k < |s| ==> IsWhitespace(s[k])
  {
    var rest := s[LeadingWhitespace(s)..];
    rest[..|rest| - TrailingWhitespace(rest)]
  }

  /** The running text of a streamed reply: all chunks so far, in order. */
  function Concat(chunks: seq<string>): string {
    if chunks == [] then "" else chunks[0] + Concat(chunks[1..])
  }

  lemma {:induction false} ConcatSnoc(chunks: seq<string>, c: string)
    ensures Concat(chunks + [c]) == Concat(chunks) + c
  {
    if chunks == [] {
      assert chunks + [c] == [c];
    } else {
      assert (chunks + [c])[1..] == chunks[1..] + [c];
      ConcatSnoc(chunks[1..], c);
    }
  }

  /** The state updater applied on each chunk: the last entry's text becomes
      `text` when that entry is the model's; everything else is kept. */
  function WithLastText(prev: seq<ChatMessage>, text: string): (r: seq<ChatMessage>)
    requires |prev| > 0
    ensures |r| == |prev|
    ensures r[..|r| - 1] == prev[..|prev| - 1]
    ensures r[|r| - 1].role == prev[|prev| - 1].role
    ensures r[|r| - 1].isError == prev[|prev| - 1].isError
    ensures r[|r| - 1].text == if prev[|prev| - 1].role == Model then text else prev[|prev| - 1].text
  {
    var last := prev[|prev| - 1];
    if last.role == Model then prev[..|prev| - 1] + [last.(text := text)] else prev
  }

  /** The transcript after the updates for the chunks `chunks`, applied in
      order, each with the concatenation of the chunks up to it. */
  function Streamed(m: seq<ChatMessage>, chunks: seq<string>): (r: seq<ChatMessage>)
    requires |m| > 0
    ensures |r| == |m|
    decreases |chunks|
  {
    if chunks == [] then m
    else WithLastText(Streamed(m, chunks[..|chunks| - 1]), Concat(chunks))
  }

  /** After k chunks the last entry's text is the concatenation of those k
      chunks when that entry belongs to the model (and is untouched before
      the first chunk or when the entry is the user's); earlier entries and
      the length never change. */
  lemma {:induction false} StreamedShape(m: seq<ChatMessage>, chunks: seq<string>)
    requires |m| > 0
    ensures Streamed(m, chunks)[..|m| - 1] == m[..|m| - 1]
    ensures m[|m| - 1].role == Model && chunks != [] ==>
      Streamed(m, chunks)[|m| - 1] == m[|m| - 1].(text := Concat(chunks))
    ensures m[|m| - 1].role == User || chunks == [] ==> Streamed(m, chunks) == m
    decreases |chunks|
  {
    if chunks != [] {
      StreamedShape(m, chunks[..|chunks| - 1]);
    }
  }

  /** The entry appended when the request fails: `Error: ` and the error's
      message, or the default text when there is no (or an empty) message. */
  function ErrorEntry(message: Option<string>): (r: ChatMessage)
    ensures r.role == Model && r.isError
    ensures |r.text| > 7 && r.text[..7] == "Error: "
    ensures message.Some? && message.value != [] ==> r.text[7..] == message.value
    ensures (message.None? || message.value == []) ==> r.text[7..] == DefaultErrorText
  {
    var detail := if message.Some? && message.value != [] then message.value else DefaultErrorText;
    ChatMessage(Model, "Error: " + detail, true)
  }

  class ChatWidget {
    var messages: seq<ChatMessage>
    var input: string
    var isLoading: bool

    /** The initial transcript holds exactly the model's greeting. */
    constructor ()
      ensures messages == [ChatMessage(Model, GreetingText, false)]
      ensures input == [] && !isLoading
    {
      messages := [ChatMessage(Model, GreetingText, false)];
      input := [];
      isLoading := false;
    }

    /** The text field's change handler. */
    method SetInput(text: string)
      modifies this`input
      ensures input == text
    {
      input := text;
    }

    /** The `for await` loop of a send: each chunk extends the running reply
        and the state updater writes it into the last entry, the model's
        placeholder; the text field and the loading flag are not touched. */
    method StreamReply(chunks: seq<string>)
      requires |messages| > 0 && messages[|messages| - 1] == ChatMessage(Model, [], false)
      modifies this`messages
      ensures messages == old(messages)[..|old(messages)| - 1] + [ChatMessage(Model, Concat(chunks), false)]
    {
      ghost var start := messages;
      var fullResponse := [];
      var i := 0;
      while i < |chunks|
        invariant 0 <= i <= |chunks|
        invariant fullResponse == Concat(chunks[..i])
        invariant messages == Streamed(start, chunks[..i])
      {
        ConcatSnoc(chunks[..i], chunks[i]);
        assert chunks[..i + 1] == chunks[..i] + [chunks[i]];
        assert chunks[..i + 1][..i] == chunks[..i];
        fullResponse := fullResponse + chunks[i];
        messages := WithLastText(messages, fullResponse);
        i := i + 1;
      }
      assert chunks[..i] == chunks;
      StreamedShape(start, chunks);
      assert |messages| == |start|;
      assert messages == messages[..|messages| - 1] + [messages[|messages| - 1]];
    }

    /** One send, run to completion against the service's answer `stream`.
        Nothing happens when the trimmed input is empty or a request is in
        flight; otherwise the returned request carries the transcript as it
        was before this send, and the new transcript is that one, the user's
        trimmed message, the model's reply built from every chunk, and an
        error entry when the stream failed. */
    method HandleSend(stream: ChatStream) returns (request: Option<ChatRequest>)
      modifies this
      ensures var userMsg := Trim(old(input));
        if userMsg == [] || old(isLoading) then
          && request == None
          && messages == old(messages) && input == old(input) && isLoading == old(isLoading)
        else
          && request == Some(ChatRequest(old(messages), userMsg))
          && input == [] && !isLoading
          && messages == old(messages)
               + [ChatMessage(User, userMsg, false), ChatMessage(Model, Concat(stream.chunks), false)]
               + (if stream.failure.Some? then [ErrorEntry(stream.failure.value)] else [])
    {
      var userMsg := Trim(input);
      if userMsg == [] || isLoading {
        return None;
      }
      var history := messages;
      input := [];
      messages := messages + [ChatMessage(User, userMsg, false)];
      isLoading := true;
      messages := messages + [ChatMessage(Model, [], false)];
      request := Some(ChatRequest(history, userMsg));
      ghost var placed := messages;
      assert placed[..|placed| - 1] == history + [ChatMessage(User, userMsg, false)];
      StreamReply(stream.chunks);
      assert messages == history + [ChatMessage(User, userMsg, false), ChatMessage(Model, Concat(stream.chunks), false)];
      if stream.failure.Some? {
        messages := messages + [ErrorEntry(stream.failure.value)];
      }
      isLoading := false;
    }
  }
}
