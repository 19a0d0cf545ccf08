/**
  The chat assistant's component state: the transcript, the input box and the
  loading flag. `HandleSubmit` is the submit handler run to its end: the awaited
  stream is a parameter, and the clock-derived message ids are parameters too.
 */
module ChatSession {
  import opened Wrappers
  import opened Chat

  class ChatBot {
    var messages: seq<Message>
    var input: string
    var isLoading: bool

    /** The transcript is never empty: clearing keeps its first message. */
    ghost predicate Valid()
      reads this
    {
      |messages| >= 1
    }

    constructor ()
      ensures Valid()
      ensures messages == [WelcomeMessage()] && input == "" && !isLoading
    {
      messages := [WelcomeMessage()];
      input := "";
      isLoading := false;
    }

    /** Typing into the input box. */
    method SetInput(text: string)
      requires Valid()
      modifies this`input
      ensures Valid()
      ensures input == text
    {
      input := text;
    }

    /** The clear button: only the first (welcome) message remains. */
    method ClearChat()
      requires Valid()
      modifies this`messages
      ensures Valid()
      ensures messages == [old(messages)[0]]
    {
      messages := [messages[0]];
    }

    /** A blank input or a request in flight changes nothing. Otherwise the user
        message and an empty reply placeholder are appended, each delivered chunk
        extends the reply text, a failure appends a separate error message, and the
        loading flag is raised for the request and lowered at its end. `history` is
        what is sent with the request: the transcript from before the submit. */
    method HandleSubmit(userId: string, botId: string, errorId: string, stream: Stream)
      returns (accepted: bool, history: seq<HistoryEntry>)
      requires Valid()
      modifies this
      ensures Valid()
      ensures accepted == !(IsBlank(old(input)) || old(isLoading))
      ensures !accepted ==>
        messages == old(messages) && input == old(input) && isLoading == old(isLoading) && history == []
      ensures accepted ==>
        history == History(old(messages)) && input == "" && !isLoading &&
        messages == AfterTurn(old(messages), old(input), userId, botId, errorId, stream)
    {
      if IsBlank(input) || isLoading {
        return false, [];
      }
      var pre := messages;
      var text := input;
      messages := messages + [UserMessage(userId, text)];
      input := "";
      isLoading := true;

      history := History(pre);
      messages := messages + [Placeholder(botId)];
      assert messages == Opened(pre, text, userId, botId);

      var delivered := Delivered(stream);
      var fullText := "";
      var i := 0;
      while i < delivered
        invariant 0 <= i <= delivered
        invariant fullText == Concat(stream.chunks[..i])
        invariant messages == Streamed(Opened(pre, text, userId, botId), botId, stream.chunks[..i])
        invariant isLoading && input == ""
      {
        StreamedStep(Opened(pre, text, userId, botId), botId, stream.chunks, i);
        assert stream.chunks[..i + 1][..i] == stream.chunks[..i];
        fullText := fullText + stream.chunks[i];
        messages := RewriteText(messages, botId, fullText);
        i := i + 1;
      }
      if stream.failAt.Some? {
        messages := messages + [ErrorMessage(errorId)];
      }
      isLoading := false;
      accepted := true;
    }
  }
}
