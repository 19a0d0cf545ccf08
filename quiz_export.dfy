/**
  The quiz title that the export script embeds between double quotes:
  `var title = "QuizWizard: <topic>";`. The topic falls back to a default when it is
  empty and is escaped so that it stays inside that string literal.
 */
module QuizExport {

  const DefaultTopic := "Generated Quiz"
  const Backslash := '\\'
  const Quote := '"'
  const Backtick := '`'

  /** `topic || "Generated Quiz"`. */
  function TopicOrDefault(topic: string): (t: string)
    ensures t != ""
    ensures topic != "" ==> t == topic
    ensures topic == "" ==> t == DefaultTopic
  {
    if topic == "" then DefaultTopic else topic
  }

  /** One `replace(/c/g, ...)` pass: a backslash is put before every `c`. */
  function EscapeEach(s: string, c: char): (r: string)
    ensures |s| <= |r| <= 2 * |s|
    ensures (forall k :: 0 <= k < |s| ==> s[k] != c) ==> r == s
    ensures c != Backslash ==> forall k :: 0 <= k < |r| && r[k] == c ==> 0 < k && r[k - 1] == Backslash
  {
    if s == [] then []
    else
      var head := if s[0] == c then [Backslash, c] else [s[0]];
      var tail := EscapeEach(s[1..], c);
      assert forall k :: 1 <= k < |s| ==> s[k] == s[1..][k - 1];
      assert forall k :: |head| <= k < |head + tail| ==> (head + tail)[k] == tail[k - |head|];
      head + tail
  }

  /** A backslash put before every character of `cs`, in a single pass. */
  function EscapeChars(s: string, cs: set<char>): string {
    if s == [] then []
    else (if s[0] in cs then [Backslash, s[0]] else [s[0]]) + EscapeChars(s[1..], cs)
  }

  /** A later pass over a character other than the backslash does not see what
      earlier passes inserted, so passes compose into one. */
  lemma {:induction false} EscapeEachAfter(s: string, cs: set<char>, c: char)
    requires c != Backslash && c !in cs
    ensures EscapeEach(EscapeChars(s, cs), c) == EscapeChars(s, cs + {c})
  {
    if s != [] {
      EscapeEachAfter(s[1..], cs, c);
      var head := if s[0] in cs then [Backslash, s[0]] else [s[0]];
      EscapeEachAppend(head, EscapeChars(s[1..], cs), c);
      if s[0] in cs {
        assert head[1..] == [s[0]];
        assert [s[0]][1..] == [];
        assert EscapeEach(head, c) == head;
      } else {
        assert head[1..] == [];
      }
    }
  }

  lemma {:induction false} EscapeEachAppend(a: string, b: string, c: char)
    ensures EscapeEach(a + b, c) == EscapeEach(a, c) + EscapeEach(b, c)
  {
    if a == [] {
      assert a + b == b;
    } else {
      assert (a + b)[1..] == a[1..] + b;
      EscapeEachAppend(a[1..], b, c);
    }
  }

  /** The title text as the export builds it: quotes escaped, then backticks.
      Backslashes are left as they are. */
  function SafeTopic(topic: string): (r: string)
    ensures r == EscapeChars(TopicOrDefault(topic), {Quote, Backtick})
  {
    var t := TopicOrDefault(topic);
    QuotesThenBackticks(t);
    EscapeEach(EscapeEach(t, Quote), Backtick)
  }

  lemma QuotesThenBackticks(t: string)
    ensures EscapeEach(EscapeEach(t, Quote), Backtick) == EscapeChars(t, {Quote, Backtick})
  {
    EscapeCharsEmpty(t);
    EscapeEachAfter(t, {}, Quote);
    assert {} + {Quote} == {Quote};
    EscapeEachAfter(t, {Quote}, Backtick);
    assert {Quote} + {Backtick} == {Quote, Backtick};
  }

  lemma {:induction false} EscapeCharsEmpty(s: string)
    ensures EscapeChars(s, {}) == s
  {
    if s != [] {
      EscapeCharsEmpty(s[1..]);
    }
  }

  /** The title text with backslashes escaped first, then quotes and backticks. */
  function SafeTopicFixed(topic: string): (r: string)
    ensures r == EscapeChars(TopicOrDefault(topic), {Backslash, Quote, Backtick})
  {
    var t := TopicOrDefault(topic);
    ThreePasses(t);
    EscapeEach(EscapeEach(EscapeEach(t, Backslash), Quote), Backtick)
  }

  lemma ThreePasses(t: string)
    ensures EscapeEach(EscapeEach(EscapeEach(t, Backslash), Quote), Backtick) ==
            EscapeChars(t, {Backslash, Quote, Backtick})
  {
    BackslashPassFirst(t);
    EscapeEachAfter(t, {Backslash}, Quote);
    assert {Backslash} + {Quote} == {Backslash, Quote};
    EscapeEachAfter(t, {Backslash, Quote}, Backtick);
    assert {Backslash, Quote} + {Backtick} == {Backslash, Quote, Backtick};
  }

  lemma {:induction false} BackslashPassFirst(s: string)
    ensures EscapeEach(s, Backslash) == EscapeChars(s, {Backslash})
  {
    if s != [] {
      BackslashPassFirst(s[1..]);
    }
  }

  // ---------------------------------------------------------------------------
  // Reading the text back as the body of a double-quoted JavaScript string literal
  // ---------------------------------------------------------------------------

  /** How the body of a `"..."` literal reads: its value and what follows the
      closing quote; or the text ends before a closing quote; or an escape other
      than `\\`, `\"` and `` \` `` is met, whose meaning this model does not give. */
  datatype Literal = Closed(value: string, rest: string) | Unterminated | OtherEscape

  function ReadBody(s: string): Literal {
    if s == [] then Unterminated
    else if s[0] == Quote then Closed([], s[1..])
    else if s[0] == Backslash then
      if |s| < 2 then Unterminated
      else if s[1] in {Backslash, Quote, Backtick} then Prepend(s[1], ReadBody(s[2..]))
      else OtherEscape
    else Prepend(s[0], ReadBody(s[1..]))
  }

  function Prepend(c: char, l: Literal): Literal {
    if l.Closed? then Closed([c] + l.value, l.rest) else l
  }

  /** Escaping every quote, and every backslash the text contains, with escapes the
      reader knows, makes the body read back as the original text. */
  lemma {:induction false} ReadEscaped(s: string, cs: set<char>, rest: string)
    requires Quote in cs && cs <= {Backslash, Quote, Backtick}
    requires Backslash in s ==> Backslash in cs
    ensures ReadBody(EscapeChars(s, cs) + [Quote] + rest) == Closed(s, rest)
  {
    var e := EscapeChars(s, cs) + [Quote] + rest;
    if s == [] {
      assert e == [Quote] + rest;
    } else {
      ReadEscaped(s[1..], cs, rest);
      var tail := EscapeChars(s[1..], cs) + [Quote] + rest;
      if s[0] in cs {
        assert e == [Backslash, s[0]] + tail;
        assert e[2..] == tail;
      } else {
        assert e == [s[0]] + tail;
        assert e[1..] == tail;
      }
      assert [s[0]] + s[1..] == s;
    }
  }

  /** Corrected: every topic reads back exactly, and the literal closes where the
      script closes it. */
  lemma FixedTitleReadsBack(topic: string, rest: string)
    ensures ReadBody(SafeTopicFixed(topic) + [Quote] + rest) == Closed(TopicOrDefault(topic), rest)
  {
    ReadEscaped(TopicOrDefault(topic), {Backslash, Quote, Backtick}, rest);
  }

  /** As written, the title reads back exactly when the topic has no backslash. */
  lemma TitleReadsBackWithoutBackslash(topic: string, rest: string)
    requires Backslash !in topic
    ensures ReadBody(SafeTopic(topic) + [Quote] + rest) == Closed(TopicOrDefault(topic), rest)
  {
    var t := TopicOrDefault(topic);
    assert Backslash !in t by {
      if topic == "" {
        assert t == DefaultTopic;
      }
    }
    ReadEscaped(t, {Quote, Backtick}, rest);
  }

  /** As written, the topic `\` escapes the script's closing quote: the title
      literal never closes. */
  lemma TrailingBackslashEscapesClosingQuote()
    ensures SafeTopic([Backslash]) == [Backslash]
    ensures ReadBody(SafeTopic([Backslash]) + [Quote]) == Unterminated
  {
    assert EscapeChars([Backslash], {Quote, Backtick}) == [Backslash] + EscapeChars([], {Quote, Backtick});
  }

  /** As written, the topic `\"` ends the title literal early. */
  lemma EscapedQuoteEndsTitleEarly()
    ensures ReadBody(SafeTopic([Backslash, Quote]) + [Quote]) == Closed([Backslash], [Quote])
  {
    var s := [Backslash, Quote];
    assert s[1..] == [Quote];
    assert [Quote][1..] == [];
    assert EscapeChars([Quote], {Quote, Backtick}) == [Backslash, Quote] + EscapeChars([], {Quote, Backtick});
    assert EscapeChars(s, {Quote, Backtick}) == [Backslash, Backslash, Quote];
    assert [Backslash, Backslash, Quote] + [Quote] == [Backslash, Backslash, Quote, Quote];
  }
}
