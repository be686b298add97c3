/**
 * The assistant page's chat adapter: the citation formatter, and `run`,
 * which checks the session, maps the thread into a chat request and folds
 * the stream's events into the answers it yields.
 */
module Assistant {
  import opened Wrappers
  import opened Text
  import opened Json
  import opened Schemas
  import opened Errors
  import opened Translation
  import opened SseFraming
  import opened ChatStream
  import Http

  /* ------------------------------------------------------------------ */
  /* formatWithCitations                                                 */
  /* ------------------------------------------------------------------ */

  /** `pages.join(", ")`: the page numbers in decimal, comma-separated. */
  function PagesText(pages: seq<int>): string {
    Join(seq(|pages|, i requires 0 <= i < |pages| => IntToString(pages[i])), ", ")
  }

  /** The values an entry template is filled with, in the order the record literal lists them. */
  function EntryVars(index: nat, c: Citation): seq<(string, VarValue)> {
    [("position", IntVar(index + 1)), ("filename", StrVar(c.filename)), ("pages", StrVar(PagesText(c.pages)))]
  }

  /** One entry per citation, in order, numbered from 1. */
  function Entries(citations: seq<Citation>, entryTemplate: string): (entries: seq<string>)
    ensures |entries| == |citations|
  {
    seq(|citations|, i requires 0 <= i < |citations| => FormatMessage(entryTemplate, Some(EntryVars(i, citations[i]))))
  }

  /**
   * An entry template of the shape `{{position}}. {{filename}} · pages
   * {{pages}}`: position, a full stop, the file name, then the pages. The
   * translation tables themselves are not part of this model.
   */
  const EntryLayout: seq<Piece> := [Hole("position"), Literal(". "), Hole("filename"), Literal(" · pages "), Hole("pages")]

  /** The entry template's text and keys are plain. */
  lemma LayoutPlain()
    ensures PlainPieces(EntryLayout)
  {
    assert IsPlain("position") && IsPlain(". ") && IsPlain("filename") && IsPlain(" · pages ") && IsPlain("pages");
    forall i | 0 <= i < 5
      ensures IsPlain(if EntryLayout[i].Literal? then EntryLayout[i].text else EntryLayout[i].key)
    {
    }
  }

  /** Decimal text is plain. */
  lemma IntTextPlain(n: int)
    ensures IsPlain(IntToString(n))
  {
    var r := NatToString(if n < 0 then -n else n);
    assert forall i :: 0 <= i < |r| ==> IsDigit(r[i]);
  }

  /** Joining plain parts with a plain separator gives plain text. */
  lemma {:induction false} JoinPlain(parts: seq<string>, sep: string)
    requires IsPlain(sep) && forall i :: 0 <= i < |parts| ==> IsPlain(parts[i])
    ensures IsPlain(Join(parts, sep))
    decreases |parts|
  {
    if |parts| > 1 {
      JoinPlain(parts[1..], sep);
      var rest := Join(parts[1..], sep);
      forall i | 0 <= i < |parts[0] + sep + rest| ensures (parts[0] + sep + rest)[i] !in {'{', '}', '$'} {
        if i < |parts[0]| {
          assert (parts[0] + sep + rest)[i] == parts[0][i];
        } else if i < |parts[0]| + |sep| {
          assert (parts[0] + sep + rest)[i] == sep[i - |parts[0]|];
        } else {
          assert (parts[0] + sep + rest)[i] == rest[i - |parts[0]| - |sep|];
        }
      }
    }
  }

  /** The joined page numbers are plain. */
  lemma PagesTextPlain(pages: seq<int>)
    ensures IsPlain(PagesText(pages))
  {
    var texts := seq(|pages|, i requires 0 <= i < |pages| => IntToString(pages[i]));
    forall i | 0 <= i < |texts| ensures IsPlain(texts[i]) {
      IntTextPlain(pages[i]);
    }
    JoinPlain(texts, ", ");
  }

  /** The entry template with its three keys filled, one after the other. */
  lemma EntryFilled(n: int, filename: string, pages: string)
    ensures FillAll(EntryLayout, [("position", IntVar(n)), ("filename", StrVar(filename)), ("pages", StrVar(pages))])
         == [Literal(IntToString(n)), Literal(". "), Literal(filename), Literal(" · pages "), Literal(pages)]
  {
    var vars := [("position", IntVar(n)), ("filename", StrVar(filename)), ("pages", StrVar(pages))];
    var one := Fill(EntryLayout, "position", IntToString(n));
    assert one == [Literal(IntToString(n)), Literal(". "), Hole("filename"), Literal(" · pages "), Hole("pages")];
    var two := Fill(one, "filename", filename);
    assert two == [Literal(IntToString(n)), Literal(". "), Literal(filename), Literal(" · pages "), Hole("pages")];
    var three := Fill(two, "pages", pages);
    assert three == [Literal(IntToString(n)), Literal(". "), Literal(filename), Literal(" · pages "), Literal(pages)];
    assert FillAll(EntryLayout, vars) == FillAll(one, vars[1..]);
    assert FillAll(one, vars[1..]) == FillAll(two, vars[2..]);
    assert FillAll(two, vars[2..]) == FillAll(three, []);
  }

  /** Five literals render as their texts in order. */
  lemma RenderLiterals(a: string, b: string, c: string, d: string, e: string)
    ensures Render([Literal(a), Literal(b), Literal(c), Literal(d), Literal(e)]) == a + b + c + d + e
  {
    var pieces := [Literal(a), Literal(b), Literal(c), Literal(d), Literal(e)];
    assert Render(pieces[4..]) == e + Render([]);
    assert Render(pieces[3..]) == d + Render(pieces[4..]);
    assert Render(pieces[2..]) == c + Render(pieces[3..]);
    assert Render(pieces[1..]) == b + Render(pieces[2..]);
    assert Render(pieces) == a + Render(pieces[1..]);
  }

  /**
   * With that template, entry i reads: its position counted from 1, a
   * full stop, the file name, and the pages joined by ", ", for a file
   * name with no brace and no '$'.
   */
  lemma EntryText(citations: seq<Citation>, i: nat)
    requires i < |citations| && IsPlain(citations[i].filename)
    ensures Entries(citations, Render(EntryLayout))[i]
         == IntToString(i + 1) + ". " + citations[i].filename + " · pages " + PagesText(citations[i].pages)
  {
    var c := citations[i];
    var pages := PagesText(c.pages);
    EntryVarsPlain(i, c);
    LayoutPlain();
    FormatFills(EntryLayout, EntryVars(i, c));
    EntryFilled(i + 1, c.filename, pages);
    RenderLiterals(IntToString(i + 1), ". ", c.filename, " · pages ", pages);
  }

  /** The position, a plain file name and the pages are all plain values. */
  lemma EntryVarsPlain(i: nat, c: Citation)
    requires IsPlain(c.filename)
    ensures PlainVars(EntryVars(i, c))
  {
    IntTextPlain(i + 1);
    PagesTextPlain(c.pages);
  }

  /** Pages 1 and 2 read "1, 2". */
  lemma PagesOneTwo()
    ensures PagesText([1, 2]) == "1, 2"
  {
    assert IntToString(1) == "1" && IntToString(2) == "2";
    assert seq(2, i requires 0 <= i < 2 => IntToString([1, 2][i])) == ["1", "2"];
    assert Join(["1", "2"], ", ") == "1" + ", " + Join(["2"], ", ");
  }

  /** The first of the citations [a.pdf, pages 1 and 2] reads "1. a.pdf · pages 1, 2". */
  lemma EntryExample(docId: string, snippet: string)
    ensures Entries([Citation(docId, "a.pdf", [1, 2], snippet)], Render(EntryLayout))[0] == "1. a.pdf · pages 1, 2"
  {
    var citations := [Citation(docId, "a.pdf", [1, 2], snippet)];
    assert IsPlain(citations[0].filename);
    EntryText(citations, 0);
    assert IntToString(0 + 1) == "1";
    PagesOneTwo();
    ExampleParts();
  }

  /** The literal pieces of the example entry, in order, spell the entry itself. */
  lemma ExampleParts()
    ensures "1" + ". " + "a.pdf" + " · pages " + "1, 2" == "1. a.pdf · pages 1, 2"
  {
  }

  /**
   * formatWithCitations: the trimmed answer, then, when there are
   * citations, a blank line, the translated "sources" label with a colon,
   * and the entries one per line; the whole trimmed. `sourcesLabel` and
   * `entryTemplate` are the translations of "assistant.sources" and
   * "assistant.sourcesEntry".
   */
  function FormatWithCitations(body: string, citations: seq<Citation>, sourcesLabel: string, entryTemplate: string): (answer: string)
    ensures IsTrimmed(answer)
    ensures answer == "" <==> Trim(body) == "" && citations == []
  {
    var trimmed := Trim(body);
    TrimIsTrimmed(body);
    if trimmed == "" && |citations| == 0 then ""
    else if |citations| == 0 then trimmed
    else
      var s := trimmed + "\n\n" + sourcesLabel + ":\n" + Join(Entries(citations, entryTemplate), "\n");
      TrimIsTrimmed(s);
      assert s[|trimmed| + 2 + |sourcesLabel|] == ':';
      TrimEmptyIffBlank(s);
      Trim(s)
  }

  /** Without citations the answer is the trimmed body. */
  lemma FormattedWithoutCitations(body: string, sourcesLabel: string, entryTemplate: string)
    ensures FormatWithCitations(body, [], sourcesLabel, entryTemplate) == Trim(body)
  {
  }

  /**
   * With citations and a body that is not blank, the answer opens with the
   * trimmed body, word for word, then a blank line and the label with its
   * colon; only the entries after it lose trailing white space.
   */
  lemma FormattedWithSources(body: string, citations: seq<Citation>, sourcesLabel: string, entryTemplate: string)
    requires citations != [] && Trim(body) != ""
    ensures FormatWithCitations(body, citations, sourcesLabel, entryTemplate)
         == Trim(body) + "\n\n" + sourcesLabel + ":" + TrimEnd("\n" + Join(Entries(citations, entryTemplate), "\n"))
  {
    var head := Trim(body) + "\n\n" + sourcesLabel + ":";
    var tail := "\n" + Join(Entries(citations, entryTemplate), "\n");
    TrimIsTrimmed(body);
    assert head[0] == Trim(body)[0];
    assert head[|head| - 1] == ':';
    TrimAfterTrimmed(head, tail);
    SourcesSplit(Trim(body), sourcesLabel, Join(Entries(citations, entryTemplate), "\n"));
  }

  /** The formatted text splits after the label's colon. */
  lemma SourcesSplit(body: string, name: string, entries: string)
    ensures body + "\n\n" + name + ":\n" + entries == (body + "\n\n" + name + ":") + ("\n" + entries)
  {
  }

  /* ------------------------------------------------------------------ */
  /* The request payload                                                 */
  /* ------------------------------------------------------------------ */

  /** A piece of a thread message's content: text, or anything else (an image, a tool call). */
  datatype Part = TextPart(text: string) | OtherPart(kind: string)

  /** A message of the thread as the runtime hands it over. */
  datatype ThreadMessage = ThreadMessage(role: string, content: seq<Part>)

  /** The texts of the text parts, in order. */
  function Texts(content: seq<Part>): (texts: seq<string>)
    ensures |texts| <= |content|
  {
    if content == [] then []
    else Texts(content[..|content| - 1]) + (if content[|content| - 1].TextPart? then [content[|content| - 1].text] else [])
  }

  /** A message as sent: its role, and its text parts joined by a space, trimmed. */
  function ToChatMessage(m: ThreadMessage): ChatMessage {
    ChatMessage(m.role, Trim(Join(Texts(m.content), " ")))
  }

  /** The chat request for a thread: the selected knowledge base and every message, in order. */
  function BuildPayload(ragSlug: string, messages: seq<ThreadMessage>): (r: ChatRequest)
    ensures r.ragSlug == ragSlug && r.opts.None? && |r.messages| == |messages|
    ensures forall i :: 0 <= i < |messages| ==> r.messages[i].role == messages[i].role
    ensures forall i :: 0 <= i < |messages| ==> r.messages[i].content == Trim(Join(Texts(messages[i].content), " "))
    ensures forall i :: 0 <= i < |messages| ==> IsTrimmed(r.messages[i].content)
  {
    var mapped := seq(|messages|, i requires 0 <= i < |messages| => ToChatMessage(messages[i]));
    forall i | 0 <= i < |messages| ensures IsTrimmed(mapped[i].content) {
      TrimIsTrimmed(Join(Texts(messages[i].content), " "));
    }
    ChatRequest(ragSlug, mapped, None)
  }

  /**
   * The request passes the ChatRequest schema exactly when the selection
   * is a RAG slug, the thread has a message, and every role is "system",
   * "user" or "assistant"; the content is any string, so the texts do not
   * matter.
   */
  lemma PayloadValidIff(ragSlug: string, messages: seq<ThreadMessage>)
    ensures ValidChatRequest(BuildPayload(ragSlug, messages))
        <==> IsRagSlug(ragSlug) && |messages| >= 1 && forall i :: 0 <= i < |messages| ==> IsMessageRole(messages[i].role)
  {
    var r := BuildPayload(ragSlug, messages);
    assert forall i :: 0 <= i < |messages| ==> r.messages[i].role == messages[i].role;
  }

  /** A message with a single text part is sent as that text, trimmed; one without text parts is sent empty. */
  lemma SingleTextMessage(ragSlug: string, role: string, text: string, others: seq<string>)
    ensures BuildPayload(ragSlug, [ThreadMessage(role, [TextPart(text)])]).messages[0].content == Trim(text)
    ensures BuildPayload(ragSlug, [ThreadMessage(role, seq(|others|, i requires 0 <= i < |others| => OtherPart(others[i])))]).messages[0].content == ""
  {
    assert [TextPart(text)][..0] == [];
    var parts := seq(|others|, i requires 0 <= i < |others| => OtherPart(others[i]));
    NoTexts(parts);
    assert Trim("") == "";
  }

  /** Two text parts with another part between them are sent joined by one space, trimmed. */
  lemma PartsJoinedBySpace(ragSlug: string, role: string, first: string, kind: string, second: string)
    ensures BuildPayload(ragSlug, [ThreadMessage(role, [TextPart(first), OtherPart(kind), TextPart(second)])]).messages[0].content
      == Trim(first + " " + second)
  {
    var content := [TextPart(first), OtherPart(kind), TextPart(second)];
    assert content == [TextPart(first)] + [OtherPart(kind)] + [TextPart(second)];
    TextsAppend([TextPart(first)] + [OtherPart(kind)], [TextPart(second)]);
    TextsAppend([TextPart(first)], [OtherPart(kind)]);
    assert [TextPart(first)][..0] == [] && [OtherPart(kind)][..0] == [] && [TextPart(second)][..0] == [];
    assert Texts(content) == [first, second];
    assert Join([first, second], " ") == first + " " + Join([second], " ");
  }

  lemma {:induction false} NoTexts(content: seq<Part>)
    requires forall i :: 0 <= i < |content| ==> !content[i].TextPart?
    ensures Texts(content) == []
  {
    if content != [] {
      NoTexts(content[..|content| - 1]);
    }
  }

  /** Two text parts are joined by one space: other parts between them leave no trace. */
  lemma {:induction false} TextsAppend(a: seq<Part>, b: seq<Part>)
    ensures Texts(a + b) == Texts(a) + Texts(b)
    decreases |b|
  {
    if b == [] {
      assert a + b == a;
    } else {
      assert (a + b)[..|a + b| - 1] == a + b[..|b| - 1];
      TextsAppend(a, b[..|b| - 1]);
    }
  }

  /* ------------------------------------------------------------------ */
  /* The answer accumulator                                              */
  /* ------------------------------------------------------------------ */

  /** The translated strings the adapter formats answers with. */
  datatype Labels = Labels(sources: string, sourcesEntry: string)

  /** Where `run` stands between events: the text so far, the pending citations, the answers yielded, and the error that stopped it. */
  datatype Turn = Turn(accumulated: string, citations: seq<Citation>, yielded: seq<string>, error: Option<string>)

  /**
   * `event.envelope.error?.message ?? "Chat stream error"`, as `new Error`
   * turns it into text: a string message is the text itself, any other
   * non-null message its `String` form, and a missing `error` object or a
   * missing or null `message` gives the fallback.
   */
  function ErrorEventMessage(envelope: Json, host: Host): (message: string)
    ensures
      && envelope.JObject? && "error" in envelope.fields && envelope.fields["error"].JObject?
      && "message" in envelope.fields["error"].fields && envelope.fields["error"].fields["message"].JString?
      ==> message == envelope.fields["error"].fields["message"].s
    ensures
      && envelope.JObject? && "error" in envelope.fields && envelope.fields["error"].JObject?
      && "message" in envelope.fields["error"].fields && !envelope.fields["error"].fields["message"].JNull?
      ==> message == ToJsString(envelope.fields["error"].fields["message"], host)
    ensures
      || !(envelope.JObject? && "error" in envelope.fields && envelope.fields["error"].JObject?
           && "message" in envelope.fields["error"].fields)
      || envelope.fields["error"].fields["message"].JNull?
      ==> message == "Chat stream error"
  {
    var message := match Get(envelope, "error") case Some(err) => Get(err, "message") case None => None;
    if message.Some? && !message.value.JNull? then ToJsString(message.value, host) else "Chat stream error"
  }

  /**
   * One event: a chunk appends its delta, citations replace the pending
   * list, done formats and yields a non-empty answer then starts afresh,
   * error stops; ready and ping change nothing.
   */
  function Consume(t: Turn, e: ChatStreamEvent, labels: Labels, host: Host): (next: Turn)
    ensures e.Chunk? ==> next.accumulated == t.accumulated + e.delta
    ensures !e.Chunk? && !e.Done? ==> next.accumulated == t.accumulated
    ensures e.Citations? ==> next.citations == e.citations
    ensures !e.Citations? && !e.Done? ==> next.citations == t.citations
    ensures e.Done? ==>
      && next.accumulated == "" && next.citations == []
      && |t.yielded| <= |next.yielded| <= |t.yielded| + 1 && next.yielded[..|t.yielded|] == t.yielded
    ensures !e.Done? ==> next.yielded == t.yielded
    ensures e.Error? ==> next.error == Some(ErrorEventMessage(e.envelope, host))
    ensures !e.Error? ==> next.error == t.error
  {
    match e
    case Chunk(delta) => if delta != "" then t.(accumulated := t.accumulated + delta) else t
    case Citations(cs) => t.(citations := cs)
    case Done(_) =>
      var text := FormatWithCitations(t.accumulated, t.citations, labels.sources, labels.sourcesEntry);
      Turn("", [], t.yielded + (if text != "" then [text] else []), t.error)
    case Error(envelope) => t.(error := Some(ErrorEventMessage(envelope, host)))
    case _ => t
  }

  /** The turn at the start of `run`. */
  const Start := Turn("", [], [], None)

  /**
   * The events consumed in order; nothing is consumed once an error event
   * has stopped the turn. Every answer yielded is non-empty and trimmed,
   * and there is at most one per done event.
   */
  function ConsumeAll(events: seq<ChatStreamEvent>, labels: Labels, host: Host): (t: Turn)
    ensures |t.yielded| <= DoneCount(events)
    ensures forall i :: 0 <= i < |t.yielded| ==> t.yielded[i] != "" && IsTrimmed(t.yielded[i])
  {
    if events == [] then Start
    else
      var prev := ConsumeAll(events[..|events| - 1], labels, host);
      if prev.error.Some? then prev else Consume(prev, events[|events| - 1], labels, host)
  }

  /** The deltas of the chunk events, one after another. */
  function Deltas(events: seq<ChatStreamEvent>): string {
    if events == [] then ""
    else Deltas(events[..|events| - 1]) + (if events[|events| - 1].Chunk? then events[|events| - 1].delta else "")
  }

  /** The citations of the last citations event, or none. */
  function LastCitations(events: seq<ChatStreamEvent>): seq<Citation> {
    if events == [] then []
    else if events[|events| - 1].Citations? then events[|events| - 1].citations
    else LastCitations(events[..|events| - 1])
  }

  /** `e` is neither done nor error: it cannot yield, reset or stop. */
  predicate Quiet(e: ChatStreamEvent) {
    !e.Done? && !e.Error?
  }

  /**
   * Until a done or an error event, the text is every delta so far, in
   * order, and the pending citations are those of the last citations event:
   * a later list replaces an earlier one.
   */
  lemma {:induction false} QuietAccumulates(events: seq<ChatStreamEvent>, labels: Labels, host: Host)
    requires forall i :: 0 <= i < |events| ==> Quiet(events[i])
    ensures var t := ConsumeAll(events, labels, host);
      t == Turn(Deltas(events), LastCitations(events), [], None)
  {
    if events != [] {
      QuietAccumulates(events[..|events| - 1], labels, host);
    }
  }

  /** Until an error event, the turn has not stopped. */
  lemma {:induction false} NoErrorKeepsGoing(events: seq<ChatStreamEvent>, labels: Labels, host: Host)
    requires forall i :: 0 <= i < |events| ==> !events[i].Error?
    ensures ConsumeAll(events, labels, host).error.None?
  {
    if events != [] {
      NoErrorKeepsGoing(events[..|events| - 1], labels, host);
    }
  }

  /**
   * The first error event throws its envelope's message: the turn is the
   * one before it, stopped with that message, whatever follows.
   */
  lemma ErrorEventThrown(pre: seq<ChatStreamEvent>, envelope: Json, post: seq<ChatStreamEvent>, labels: Labels, host: Host)
    requires forall i :: 0 <= i < |pre| ==> !pre[i].Error?
    ensures ConsumeAll(pre + [ChatStreamEvent.Error(envelope)] + post, labels, host)
         == ConsumeAll(pre, labels, host).(error := Some(ErrorEventMessage(envelope, host)))
  {
    var stopped := pre + [ChatStreamEvent.Error(envelope)];
    NoErrorKeepsGoing(pre, labels, host);
    assert stopped[..|pre|] == pre;
    ErrorStops(stopped, post, labels, host);
  }

  /** A prefix that stopped the turn fixes the turn of the whole stream. */
  lemma StoppedPrefix(events: seq<ChatStreamEvent>, n: nat, labels: Labels, host: Host)
    requires n <= |events| && ConsumeAll(events[..n], labels, host).error.Some?
    ensures ConsumeAll(events, labels, host) == ConsumeAll(events[..n], labels, host)
  {
    assert events[..n] + events[n..] == events;
    ErrorStops(events[..n], events[n..], labels, host);
  }

  /** A stream without a done event yields nothing: no partial answer comes out. */
  lemma {:induction false} NoDoneNoAnswer(events: seq<ChatStreamEvent>, labels: Labels, host: Host)
    requires forall i :: 0 <= i < |events| ==> !events[i].Done?
    ensures ConsumeAll(events, labels, host).yielded == []
  {
    if events != [] {
      NoDoneNoAnswer(events[..|events| - 1], labels, host);
    }
  }

  /** How many done events there are. */
  function DoneCount(events: seq<ChatStreamEvent>): nat {
    if events == [] then 0 else DoneCount(events[..|events| - 1]) + (if events[|events| - 1].Done? then 1 else 0)
  }

  /** After a done event the text and the citations are empty again, so the next answer starts fresh. */
  lemma ResetAfterDone(events: seq<ChatStreamEvent>, usage: Usage, labels: Labels, host: Host)
    requires ConsumeAll(events, labels, host).error.None?
    ensures var t := ConsumeAll(events + [ChatStreamEvent.Done(usage)], labels, host);
      t.accumulated == "" && t.citations == [] && t.error.None?
  {
    assert (events + [ChatStreamEvent.Done(usage)])[..|events|] == events;
  }

  /**
   * A done event yields the formatted answer exactly when it is not empty:
   * one answer when the text or the citations hold something.
   */
  lemma DoneYields(events: seq<ChatStreamEvent>, usage: Usage, labels: Labels, host: Host)
    requires ConsumeAll(events, labels, host).error.None?
    ensures var t := ConsumeAll(events, labels, host);
      var t' := ConsumeAll(events + [ChatStreamEvent.Done(usage)], labels, host);
      var text := FormatWithCitations(t.accumulated, t.citations, labels.sources, labels.sourcesEntry);
      && (Trim(t.accumulated) == "" && t.citations == [] ==> t'.yielded == t.yielded)
      && (Trim(t.accumulated) != "" || t.citations != [] ==> t'.yielded == t.yielded + [text] && text != "")
  {
    assert (events + [ChatStreamEvent.Done(usage)])[..|events|] == events;
  }

  /** An error event stops the turn: the events after it change nothing. */
  lemma {:induction false} ErrorStops(events: seq<ChatStreamEvent>, rest: seq<ChatStreamEvent>, labels: Labels, host: Host)
    requires ConsumeAll(events, labels, host).error.Some?
    ensures ConsumeAll(events + rest, labels, host) == ConsumeAll(events, labels, host)
    decreases |rest|
  {
    if rest == [] {
      assert events + rest == events;
    } else {
      assert (events + rest)[..|events + rest| - 1] == events + rest[..|rest| - 1];
      ErrorStops(events, rest[..|rest| - 1], labels, host);
    }
  }

  /* ------------------------------------------------------------------ */
  /* run                                                                 */
  /* ------------------------------------------------------------------ */

  /** Consuming one more event is one more step, unless the turn has stopped. */
  lemma ConsumeSnoc(events: seq<ChatStreamEvent>, n: nat, labels: Labels, host: Host)
    requires n < |events|
    ensures ConsumeAll(events[..n + 1], labels, host) ==
      var t := ConsumeAll(events[..n], labels, host);
      if t.error.Some? then t else Consume(t, events[n], labels, host)
  {
    assert events[..n + 1][..n] == events[..n];
  }

  /**
   * The `for await` loop of run over the events: the answers yielded, and
   * the message of the error event that stopped it, if any.
   */
  method Answer(events: seq<ChatStreamEvent>, labels: Labels, host: Host)
    returns (yielded: seq<string>, error: Option<string>)
    ensures ConsumeAll(events, labels, host).yielded == yielded
    ensures ConsumeAll(events, labels, host).error == error
  {
    var accumulated := "";
    var citations: seq<Citation> := [];
    yielded := [];
    for n := 0 to |events|
      invariant ConsumeAll(events[..n], labels, host) == Turn(accumulated, citations, yielded, None)
    {
      ConsumeSnoc(events, n, labels, host);
      match events[n] {
        case Chunk(delta) =>
          if delta != "" {
            accumulated := accumulated + delta;
          }
        case Citations(cs) =>
          citations := cs;
        case Done(_) =>
          var text := FormatWithCitations(accumulated, citations, labels.sources, labels.sourcesEntry);
          if text != "" {
            yielded := yielded + [text];
          }
          accumulated := "";
          citations := [];
        case Error(envelope) =>
          StoppedPrefix(events, n + 1, labels, host);
          return yielded, Some(ErrorEventMessage(envelope, host));
        case _ =>
      }
    }
    assert events[..|events|] == events;
    error := None;
  }

  /** `!token`: no token, or an empty one. */
  predicate Falsy(token: Option<string>) {
    token.None? || token.value == ""
  }

  /**
   * run: without a token it throws "Not authenticated", without a selected
   * knowledge base "No RAG selected", both before any request; otherwise it
   * sends the thread as a chat request and folds the events of the answer
   * into the answers it yields. An error event throws its message; a
   * failure of the stream itself is thrown after the answers before it.
   */
  method Run(token: Option<string>, selectedRag: string, messages: seq<ThreadMessage>,
             res: StreamResponse, labels: Labels, host: Host)
    returns (payload: Option<ChatRequest>, yielded: seq<string>, thrown: Option<Thrown>)
    ensures Falsy(token) ==> payload.None? && yielded == [] && thrown == Some(Plain("Not authenticated"))
    ensures !Falsy(token) && selectedRag == "" ==> payload.None? && yielded == [] && thrown == Some(Plain("No RAG selected"))
    ensures !Falsy(token) && selectedRag != "" ==> payload == Some(BuildPayload(selectedRag, messages))
    ensures !Falsy(token) && selectedRag != "" && (!Http.Ok(res.status) || res.body.None?) ==>
      && yielded == [] && thrown.Some? && thrown.value.Api?
      && thrown.value.err.name == "ApiError" && thrown.value.err.status == res.status
      && thrown.value.err.message ==
           (if BodyText(res) != "" then BodyText(res) else "Chat stream failed with status " + IntToString(res.status))
    ensures !Falsy(token) && selectedRag != "" && Http.Ok(res.status) && res.body.Some? ==>
      var r := Events(SseBlocks(Concat(res.body.value)), host);
      var t := ConsumeAll(r.events, labels, host);
      && yielded == t.yielded
      && thrown == (if t.error.Some? then Some(Plain(t.error.value)) else if r.failed then Some(Syntax) else None)
  {
    if Falsy(token) {
      return None, [], Some(Plain("Not authenticated"));
    }
    if selectedRag == "" {
      return None, [], Some(Plain("No RAG selected"));
    }
    payload := Some(BuildPayload(selectedRag, messages));
    var events, failure := StreamChat(res, host);
    var error;
    yielded, error := Answer(events, labels, host);
    thrown := if error.Some? then Some(Plain(error.value)) else failure;
  }
}
