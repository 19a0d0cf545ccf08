/**
  The chat assistant's transcript and the values that shape one streamed turn:
  the history sent with a request, the placeholder rewrite as chunks arrive, and
  the transcript a completed or failed turn leaves behind.
 */
module Chat {
  import opened Wrappers

  datatype Role = User | Model | System

  /** A transcript entry; the timestamp is not modelled. */
  datatype Message = Message(id: string, role: Role, text: string, isError: bool)

  /** One turn of the history handed to the model: a role and its text parts. */
  datatype HistoryEntry = HistoryEntry(role: Role, parts: seq<string>)

  /** The text fragments a reply delivers, in order. `failAt == Some(k)` means the
      stream raises an error after `k` fragments (after all of them when `k` is not
      below their number). */
  datatype Stream = Stream(chunks: seq<string>, failAt: Option<nat>)

  const WelcomeId := "welcome"
  const WelcomeText := "Hello! I'm your QuizWizard AI assistant. I can help you understand complex topics, draft content, or navigate the platform. How can I assist you today?"
  const ErrorText := "Sorry, I encountered an error processing your request. Please try again."

  function WelcomeMessage(): Message {
    Message(WelcomeId, Model, WelcomeText, false)
  }

  function UserMessage(id: string, text: string): Message {
    Message(id, User, text, false)
  }

  function Placeholder(id: string): Message {
    Message(id, Model, "", false)
  }

  function ErrorMessage(id: string): Message {
    Message(id, System, ErrorText, true)
  }

  /** The characters `String.prototype.trim` removes. */
  predicate IsWhitespace(c: char) {
    c in {'\t', '\n', '\U{B}', '\U{C}', '\r', ' ', '\U{A0}', '\U{1680}', '\U{2028}', '\U{2029}',
          '\U{202F}', '\U{205F}', '\U{3000}', '\U{FEFF}'} ||
    ('\U{2000}' <= c <= '\U{200A}')
  }

  /** `!input.trim()`: the input is empty once surrounding whitespace is removed. */
  predicate IsBlank(s: string) {
    forall k :: 0 <= k < |s| ==> IsWhitespace(s[k])
  }

  /** Among ASCII characters, `trim` removes exactly tab, line feed, vertical tab,
      form feed, carriage return and space. */
  lemma WhitespaceAscii(c: char)
    requires c <= '\U{7F}'
    ensures IsWhitespace(c) <==> c in {'\t', '\n', '\U{B}', '\U{C}', '\r', ' '}
  {
  }

  /** Leading whitespace removed. */
  function TrimStart(s: string): (t: string)
    ensures |t| <= |s| && t == s[|s| - |t|..]
    ensures t == [] || !IsWhitespace(t[0])
    ensures forall k :: 0 <= k < |s| - |t| ==> IsWhitespace(s[k])
  {
    if s == [] || !IsWhitespace(s[0]) then s
    else
      var t := TrimStart(s[1..]);
      assert forall k :: 1 <= k < |s| ==> s[k] == s[1..][k - 1];
      t
  }

  /** Trailing whitespace removed. */
  function TrimEnd(s: string): (t: string)
    ensures |t| <= |s| && t == s[..|t|]
    ensures t == [] || !IsWhitespace(t[|t| - 1])
    ensures forall k :: |t| <= k < |s| ==> IsWhitespace(s[k])
  {
    if s == [] || !IsWhitespace(s[|s| - 1]) then s
    else TrimEnd(s[..|s| - 1])
  }

  /** `trim`: whitespace removed from both ends. */
  function Trim(s: string): string {
    TrimEnd(TrimStart(s))
  }

  /** The submit guard's blank test agrees with trimming: an input is blank exactly
      when trimming leaves nothing. */
  lemma BlankIffTrimEmpty(s: string)
    ensures IsBlank(s) <==> Trim(s) == ""
  {
  }

  /** Trimming twice is trimming once. */
  lemma TrimIdempotent(s: string)
    ensures Trim(Trim(s)) == Trim(s)
  {
    var t := Trim(s);
    if t != [] {
      assert TrimStart(t) == t;
    }
  }

  /** `messages.map(m => ({ role: m.role, parts: [{ text: m.text }] }))`. */
  function History(ms: seq<Message>): (h: seq<HistoryEntry>)
    ensures |h| == |ms|
    ensures forall k :: 0 <= k < |ms| ==> h[k].role == ms[k].role && h[k].parts == [ms[k].text]
  {
    if ms == [] then [] else [HistoryEntry(ms[0].role, [ms[0].text])] + History(ms[1..])
  }

  /** Every message with the given id gets the new text; nothing else changes. */
  function RewriteText(ms: seq<Message>, id: string, text: string): (r: seq<Message>)
    ensures |r| == |ms|
    ensures forall k :: 0 <= k < |ms| && ms[k].id != id ==> r[k] == ms[k]
    ensures forall k :: 0 <= k < |ms| && ms[k].id == id ==> r[k] == ms[k].(text := text)
  {
    if ms == [] then []
    else [if ms[0].id == id then ms[0].(text := text) else ms[0]] + RewriteText(ms[1..], id, text)
  }

  /** `fullText += chunk` over the chunks in arrival order. */
  function Concat(chunks: seq<string>): (r: string)
    ensures r == "" <==> forall k :: 0 <= k < |chunks| ==> chunks[k] == ""
  {
    if chunks == [] then "" else Concat(chunks[..|chunks| - 1]) + chunks[|chunks| - 1]
  }

  /** The text shown only grows: the text after some chunks starts with the text
      after any first part of them. */
  lemma {:induction false} ConcatPrefix(chunks: seq<string>, i: nat)
    requires i <= |chunks|
    ensures Concat(chunks[..i]) <= Concat(chunks)
  {
    assert chunks == chunks[..i] + chunks[i..];
    ConcatAppend(chunks[..i], chunks[i..]);
  }

  /** Only the concatenation counts, not how the text was cut into chunks. */
  lemma {:induction false} ConcatAppend(a: seq<string>, b: seq<string>)
    ensures Concat(a + b) == Concat(a) + Concat(b)
  {
    if b == [] {
      assert a + b == a;
    } else {
      var last := |b| - 1;
      assert (a + b)[..|a + b| - 1] == a + b[..last];
      ConcatAppend(a, b[..last]);
    }
  }

  /** Cutting "Hello" as ["He", "llo"] or delivering it whole gives the same text. */
  lemma ConcatExample()
    ensures Concat(["He", "llo"]) == Concat(["Hello"]) == "Hello"
  {
    assert ["He", "llo"][..1] == ["He"];
    assert ["He"][..0] == [];
    assert ["Hello"][..0] == [];
  }

  /** The number of chunks that arrive before the stream ends or fails. */
  function Delivered(s: Stream): (n: nat)
    ensures n <= |s.chunks|
    ensures s.failAt.Some? && s.failAt.value < |s.chunks| ==> n == s.failAt.value
    ensures s.failAt.None? ==> n == |s.chunks|
    ensures s.failAt.Some? && s.failAt.value >= |s.chunks| ==> n == |s.chunks|
  {
    if s.failAt.Some? && s.failAt.value < |s.chunks| then s.failAt.value else |s.chunks|
  }

  /** The transcript after the user message and the empty reply placeholder. */
  function Opened(pre: seq<Message>, text: string, userId: string, botId: string): seq<Message> {
    pre + [UserMessage(userId, text), Placeholder(botId)]
  }

  /** The transcript after the given chunks: untouched before the first chunk, then
      the messages with the reply's id carry the text received so far. */
  function Streamed(ms: seq<Message>, botId: string, chunks: seq<string>): seq<Message> {
    if chunks == [] then ms else RewriteText(ms, botId, Concat(chunks))
  }

  /** The transcript an accepted turn leaves behind. */
  function AfterTurn(pre: seq<Message>, text: string, userId: string, botId: string, errorId: string, s: Stream): (r: seq<Message>)
    ensures |r| == |pre| + 2 + (if s.failAt.Some? then 1 else 0)
    ensures forall k :: 0 <= k < |pre| && pre[k].id != botId ==> r[k] == pre[k]
    ensures s.failAt.Some? ==> r[|r| - 1] == ErrorMessage(errorId)
  {
    var streamed := Streamed(Opened(pre, text, userId, botId), botId, s.chunks[..Delivered(s)]);
    if s.failAt.Some? then streamed + [ErrorMessage(errorId)] else streamed
  }

  /** The reply id names no earlier message and not the user message. */
  predicate FreshReplyId(pre: seq<Message>, userId: string, botId: string) {
    userId != botId && forall k :: 0 <= k < |pre| ==> pre[k].id != botId
  }

  /** With a fresh reply id, a turn keeps the earlier transcript, appends the user
      message and the reply whose text is the concatenation of the delivered chunks,
      and on failure appends one separate error message after them. */
  lemma TurnShape(pre: seq<Message>, text: string, userId: string, botId: string, errorId: string, s: Stream)
    requires FreshReplyId(pre, userId, botId)
    ensures var r := AfterTurn(pre, text, userId, botId, errorId, s);
      |r| == |pre| + 2 + (if s.failAt.Some? then 1 else 0) &&
      r[..|pre|] == pre &&
      r[|pre|] == UserMessage(userId, text) &&
      r[|pre| + 1] == Message(botId, Model, Concat(s.chunks[..Delivered(s)]), false) &&
      (s.failAt.Some? ==> r[|pre| + 2] == ErrorMessage(errorId))
  {
    var o := Opened(pre, text, userId, botId);
    var d := s.chunks[..Delivered(s)];
    var st := Streamed(o, botId, d);
    assert o[|pre| + 1] == Placeholder(botId);
    if d == [] {
      assert Concat(d) == "";
    }
    assert st[..|pre|] == pre;
  }

  /** With a fresh reply id, two streams whose delivered text is the same and that
      fail alike leave the same transcript, however the text was cut into chunks. */
  lemma GranularityIrrelevant(pre: seq<Message>, text: string, userId: string, botId: string, errorId: string, s1: Stream, s2: Stream)
    requires FreshReplyId(pre, userId, botId)
    requires Concat(s1.chunks[..Delivered(s1)]) == Concat(s2.chunks[..Delivered(s2)])
    requires s1.failAt.Some? == s2.failAt.Some?
    ensures AfterTurn(pre, text, userId, botId, errorId, s1) == AfterTurn(pre, text, userId, botId, errorId, s2)
  {
    var o := Opened(pre, text, userId, botId);
    UntouchedIsRewrittenEmpty(pre, text, userId, botId);
    var d1 := s1.chunks[..Delivered(s1)];
    var d2 := s2.chunks[..Delivered(s2)];
    if d1 == [] { assert Concat(d1) == ""; }
    if d2 == [] { assert Concat(d2) == ""; }
    assert Streamed(o, botId, d1) == RewriteText(o, botId, Concat(d1));
    assert Streamed(o, botId, d2) == RewriteText(o, botId, Concat(d2));
  }

  /** Before any chunk, the placeholder already holds the empty text. */
  lemma UntouchedIsRewrittenEmpty(pre: seq<Message>, text: string, userId: string, botId: string)
    requires FreshReplyId(pre, userId, botId)
    ensures RewriteText(Opened(pre, text, userId, botId), botId, "") == Opened(pre, text, userId, botId)
  {
    var o := Opened(pre, text, userId, botId);
    var r := RewriteText(o, botId, "");
    assert forall k :: 0 <= k < |o| ==> r[k] == o[k];
  }

  /** Rewriting twice under the same id leaves the second text. */
  lemma RewriteTwice(ms: seq<Message>, id: string, a: string, b: string)
    ensures RewriteText(RewriteText(ms, id, a), id, b) == RewriteText(ms, id, b)
  {
    var r1 := RewriteText(RewriteText(ms, id, a), id, b);
    var r2 := RewriteText(ms, id, b);
    assert forall k :: 0 <= k < |ms| ==> r1[k] == r2[k];
  }

  /** One more chunk: the reply's text grows by that chunk. */
  lemma StreamedStep(ms: seq<Message>, botId: string, chunks: seq<string>, i: nat)
    requires i < |chunks|
    ensures Streamed(ms, botId, chunks[..i + 1]) ==
            RewriteText(Streamed(ms, botId, chunks[..i]), botId, Concat(chunks[..i]) + chunks[i])
  {
    assert chunks[..i + 1][..i] == chunks[..i];
    if i > 0 {
      RewriteTwice(ms, botId, Concat(chunks[..i]), Concat(chunks[..i + 1]));
    }
  }
}
