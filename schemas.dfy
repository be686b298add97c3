/**
 * The Zod schemas of the client written as predicates and decoders: the
 * string formats (ObjectId, RAG slug, ISO-8601 timestamp), the records the
 * chat stream carries (Citation, Usage), the job-status record polled while
 * a RAG is indexed, and the request records with their bounds.
 *
 * A Zod object schema accepts an object whose listed keys validate and
 * strips every other key; each decoder below returns the stripped, typed
 * value, and the lemmas beside it prove that encoding a valid value and
 * decoding it again gives it back.
 */
module Schemas {
  import opened Wrappers
  import opened Text
  import opened Json

  /* ------------------------------------------------------------------ */
  /* String formats                                                      */
  /* ------------------------------------------------------------------ */

  predicate IsHexDigit(c: char) {
    '0' <= c <= '9' || 'a' <= c <= 'f' || 'A' <= c <= 'F'
  }

  /** The length of the run of hexadecimal characters that opens `s`. */
  function HexRun(s: string): (n: nat)
    ensures n <= |s|
    decreases |s|
  {
    if s != [] && IsHexDigit(s[0]) then 1 + HexRun(s[1..]) else 0
  }

  /** `^[a-fA-F0-9]{24}$`: a run of 24 hexadecimal characters that is the whole string. */
  predicate IsObjectId(s: string) {
    |s| == 24 && HexRun(s) == 24
  }

  lemma {:induction false} HexRunWhole(s: string)
    ensures HexRun(s) == |s| <==> forall i :: 0 <= i < |s| ==> IsHexDigit(s[i])
    decreases |s|
  {
    if s != [] {
      HexRunWhole(s[1..]);
      if IsHexDigit(s[0]) && forall i :: 0 <= i < |s| - 1 ==> IsHexDigit(s[1..][i]) {
        forall i | 0 <= i < |s| ensures IsHexDigit(s[i]) {
          if i > 0 { assert s[i] == s[1..][i - 1]; }
        }
      }
    }
  }

  /** An ObjectId is exactly 24 hexadecimal characters of either case. */
  lemma {:induction false} ObjectIdCharacterization(s: string)
    ensures IsObjectId(s) <==> |s| == 24 && forall i :: 0 <= i < |s| ==> IsHexDigit(s[i])
  {
    HexRunWhole(s);
  }

  predicate IsSlugChar(c: char) {
    'a' <= c <= 'z' || '0' <= c <= '9'
  }

  /** `[a-z0-9]+(?:-[a-z0-9]+)*` read from the left: a slug character, then the end, a hyphen and more, or more. */
  predicate SlugPattern(s: string)
    decreases |s|
  {
    && |s| >= 1
    && IsSlugChar(s[0])
    && (|s| == 1 || (if s[1] == '-' then SlugPattern(s[2..]) else SlugPattern(s[1..])))
  }

  /** Lower-case letters and digits in non-empty groups joined by single hyphens. */
  predicate HyphenatedWords(s: string) {
    && |s| >= 1
    && s[0] != '-'
    && s[|s| - 1] != '-'
    && (forall i :: 0 <= i < |s| ==> IsSlugChar(s[i]) || s[i] == '-')
    && (forall i :: 0 <= i < |s| - 1 ==> !(s[i] == '-' && s[i + 1] == '-'))
  }

  lemma {:induction false} SlugPatternIsHyphenatedWords(s: string)
    ensures SlugPattern(s) <==> HyphenatedWords(s)
    decreases |s|
  {
    if |s| >= 2 && IsSlugChar(s[0]) {
      var k := if s[1] == '-' then 2 else 1;
      var t := s[k..];
      SlugPatternIsHyphenatedWords(t);
      if HyphenatedWords(t) {
        forall i | 0 <= i < |s| ensures IsSlugChar(s[i]) || s[i] == '-' {
          if i >= k { assert s[i] == t[i - k]; }
        }
        forall i | 0 <= i < |s| - 1 ensures !(s[i] == '-' && s[i + 1] == '-') {
          if i >= k { assert s[i] == t[i - k] && s[i + 1] == t[i + 1 - k]; }
          if i == 1 && k == 2 { assert s[2] == t[0]; }
        }
        assert s[|s| - 1] == t[|t| - 1];
      }
      if HyphenatedWords(s) {
        if k == 2 {
          assert |s| >= 3;
          assert t[0] == s[2];
        }
        forall i | 0 <= i < |t| ensures IsSlugChar(t[i]) || t[i] == '-' {
          assert t[i] == s[i + k];
        }
        forall i | 0 <= i < |t| - 1 ensures !(t[i] == '-' && t[i + 1] == '-') {
          assert t[i] == s[i + k] && t[i + 1] == s[i + 1 + k];
        }
        assert t[|t| - 1] == s[|s| - 1];
      }
    }
  }

  lemma {:induction false} Utf16LengthAscii(s: string)
    requires forall i :: 0 <= i < |s| ==> s[i] as int < 0x80
    ensures Utf16Length(s) == |s|
    decreases |s|
  {
    if s != [] {
      assert forall i :: 0 <= i < |s| - 1 ==> s[1..][i] == s[i + 1];
      Utf16LengthAscii(s[1..]);
    }
  }

  /** RagSlug: `.min(1).max(80)` on the UTF-16 length, then the slug pattern. */
  predicate IsRagSlug(s: string) {
    1 <= Utf16Length(s) <= 80 && SlugPattern(s)
  }

  /** A RAG slug is 1 to 80 lower-case letters, digits and single inner hyphens. */
  lemma RagSlugCharacterization(s: string)
    ensures IsRagSlug(s) <==> 1 <= |s| <= 80 && HyphenatedWords(s)
  {
    SlugPatternIsHyphenatedWords(s);
    if HyphenatedWords(s) {
      Utf16LengthAscii(s);
    }
  }

  /** `n` digits start at index `i` of `s`. */
  predicate DigitsAt(s: string, i: nat, n: nat) {
    i + n <= |s| && forall k :: i <= k < i + n ==> IsDigit(s[k])
  }

  /** `\d{4}-\d{2}-\d{2}T\d{2}:\d{2}:\d{2}` at the start of `s`. */
  predicate DateTimeAt(s: string) {
    && DigitsAt(s, 0, 4) && |s| >= 19 && s[4] == '-'
    && DigitsAt(s, 5, 2) && s[7] == '-'
    && DigitsAt(s, 8, 2) && s[10] == 'T'
    && DigitsAt(s, 11, 2) && s[13] == ':'
    && DigitsAt(s, 14, 2) && s[16] == ':'
    && DigitsAt(s, 17, 2)
  }

  /** `(?:Z|[+-]\d{2}:?\d{2})?` as the whole of `z`. */
  predicate IsZone(z: string) {
    || z == ""
    || z == "Z"
    || (|z| == 5 && (z[0] == '+' || z[0] == '-') && DigitsAt(z, 1, 4))
    || (|z| == 6 && (z[0] == '+' || z[0] == '-') && DigitsAt(z, 1, 2) && z[3] == ':' && DigitsAt(z, 4, 2))
  }

  /** `(?:\.\d{1,6})?` as the whole of `f`. */
  predicate IsFraction(f: string) {
    f == "" || (2 <= |f| <= 7 && f[0] == '.' && DigitsAt(f, 1, |f| - 1))
  }

  /** The number of digits that start at index `i` of `s`. */
  function DigitRun(s: string, i: nat): (n: nat)
    requires i <= |s|
    ensures i + n <= |s| && DigitsAt(s, i, n)
    ensures i + n == |s| || !IsDigit(s[i + n])
    decreases |s| - i
  {
    if i < |s| && IsDigit(s[i]) then 1 + DigitRun(s, i + 1) else 0
  }

  /** The length of the optional fraction that follows the seconds. */
  function FractionLength(s: string): nat
    requires |s| >= 19
  {
    if |s| > 19 && s[19] == '.' then 1 + DigitRun(s, 20) else 0
  }

  /**
   * ISODate, `^\d{4}-\d{2}-\d{2}T\d{2}:\d{2}:\d{2}(?:\.\d{1,6})?(?:Z|[+-]\d{2}:?\d{2})?$`
   * as the regex engine settles it: the fraction's digits run as far as
   * they go (a zone never starts with a digit), then the rest is a zone.
   */
  predicate IsIsoDate(s: string) {
    && DateTimeAt(s)
    && var f := FractionLength(s);
       && (f == 0 || 2 <= f <= 7)
       && IsZone(s[19 + f..])
  }

  /** Every accepted timestamp is date-time, fraction and zone in that order. */
  lemma IsoDateSplits(s: string)
    requires IsIsoDate(s)
    ensures var f := FractionLength(s);
      && s == s[..19] + s[19..19 + f] + s[19 + f..]
      && DateTimeAt(s[..19]) && IsFraction(s[19..19 + f]) && IsZone(s[19 + f..])
  {
    var f := FractionLength(s);
    if f > 0 {
      var fr := s[19..19 + f];
      assert forall k :: 1 <= k < f ==> fr[k] == s[19 + k];
    }
  }

  /** Every date-time followed by a fraction and a zone is accepted. */
  lemma IsoDateComposes(d: string, f: string, z: string)
    requires |d| == 19 && DateTimeAt(d) && IsFraction(f) && IsZone(z)
    ensures IsIsoDate(d + f + z)
  {
    var s := d + f + z;
    assert s[..19] == d;
    if f == "" {
      assert FractionLength(s) == 0 by {
        if |s| > 19 { assert s[19] == z[0]; }
      }
      assert s[19..] == z;
    } else {
      assert s[19] == '.';
      forall k | 20 <= k < 19 + |f| ensures IsDigit(s[k]) {
        assert s[k] == f[k - 19];
      }
      assert DigitRun(s, 20) == |f| - 1 by {
        DigitRunExact(s, 20, |f| - 1);
      }
      assert s[19 + |f|..] == z;
    }
  }

  /** A run of `n` digits followed by a non-digit (or the end) is the whole run. */
  lemma {:induction false} DigitRunExact(s: string, i: nat, n: nat)
    requires DigitsAt(s, i, n)
    requires i + n == |s| || !IsDigit(s[i + n])
    ensures DigitRun(s, i) == n
    decreases n
  {
    if n > 0 {
      DigitRunExact(s, i + 1, n - 1);
    }
  }

  /* ------------------------------------------------------------------ */
  /* Field access helpers                                                */
  /* ------------------------------------------------------------------ */

  /**
   * Every key of the object `w` is in `v` with a value that `w`'s value
   * covers in turn; arrays cover element by element; anything else must be
   * equal. A decoded value's encoding covers its input: the input is that
   * encoding with extra keys, which the object schemas strip.
   */
  predicate Covers(v: Json, w: Json)
    decreases w
  {
    match w
    case JObject(wf) => v.JObject? && forall k :: k in wf ==> k in v.fields && Covers(v.fields[k], wf[k])
    case JArray(wi) => v.JArray? && |v.items| == |wi| && forall i :: 0 <= i < |wi| ==> Covers(v.items[i], wi[i])
    case _ => v == w
  }

  lemma {:induction false} CoversItself(w: Json)
    ensures Covers(w, w)
    decreases w
  {
    match w
    case JObject(wf) =>
      forall k | k in wf ensures Covers(wf[k], wf[k]) {
        CoversItself(wf[k]);
      }
    case JArray(wi) =>
      forall i | 0 <= i < |wi| ensures Covers(wi[i], wi[i]) {
        CoversItself(wi[i]);
      }
    case _ =>
  }

  function StringField(v: Json, key: string): (r: Option<string>)
    ensures r.Some? ==> Get(v, key) == Some(JString(r.value))
  {
    match Get(v, key)
    case Some(JString(s)) => Some(s)
    case _ => None
  }

  /** `z.number().int().min(lo)`. */
  function IntAtLeast(v: Json, lo: int): (r: Option<int>)
    ensures r.Some? ==> v == JNumber(r.value as real) && r.value >= lo
  {
    if v.JNumber? && IsInteger(v.n) && v.n >= lo as real then Some(v.n.Floor) else None
  }

  /* ------------------------------------------------------------------ */
  /* Citation and Usage                                                  */
  /* ------------------------------------------------------------------ */

  datatype Citation = Citation(docId: string, filename: string, pages: seq<int>, snippet: string)

  /** Citation: a UUID document id, at least one page, every page 1 or more, a snippet of at most 1000 UTF-16 units. */
  predicate ValidCitation(c: Citation, host: Host) {
    && host.isUuid(c.docId)
    && |c.pages| >= 1
    && (forall i :: 0 <= i < |c.pages| ==> c.pages[i] >= 1)
    && Utf16Length(c.snippet) <= 1000
  }

  function EncodePages(pages: seq<int>): Json {
    JArray(seq(|pages|, i requires 0 <= i < |pages| => JNumber(pages[i] as real)))
  }

  function EncodeCitation(c: Citation): Json {
    JObject(map[
      "doc_id" := JString(c.docId),
      "filename" := JString(c.filename),
      "pages" := EncodePages(c.pages),
      "snippet" := JString(c.snippet)])
  }

  /** `z.array(z.number().int().min(1)).min(1)`. */
  function DecodePages(v: Json): (r: Option<seq<int>>)
    ensures r.Some? ==> v == EncodePages(r.value) && |r.value| >= 1
    ensures r.Some? ==> forall i :: 0 <= i < |r.value| ==> r.value[i] >= 1
  {
    if v.JArray? && |v.items| >= 1 && forall i :: 0 <= i < |v.items| ==> IntAtLeast(v.items[i], 1).Some? then
      var pages := seq(|v.items|, i requires 0 <= i < |v.items| => IntAtLeast(v.items[i], 1).value);
      assert v.items == EncodePages(pages).items;
      Some(pages)
    else None
  }

  function DecodeCitation(v: Json, host: Host): (r: Option<Citation>)
    ensures r.Some? ==> ValidCitation(r.value, host) && Covers(v, EncodeCitation(r.value))
  {
    var docId := StringField(v, "doc_id");
    var filename := StringField(v, "filename");
    var pages := match Get(v, "pages") case Some(p) => DecodePages(p) case None => None;
    var snippet := StringField(v, "snippet");
    if && docId.Some? && host.isUuid(docId.value)
       && filename.Some? && pages.Some?
       && snippet.Some? && Utf16Length(snippet.value) <= 1000
    then
      CoversItself(EncodePages(pages.value));
      Some(Citation(docId.value, filename.value, pages.value, snippet.value))
    else None
  }

  /** Decoding an encoded valid citation gives it back. */
  lemma CitationRoundTrip(c: Citation, host: Host)
    requires ValidCitation(c, host)
    ensures DecodeCitation(EncodeCitation(c), host) == Some(c)
  {
    var e := EncodePages(c.pages);
    forall i | 0 <= i < |e.items| ensures IntAtLeast(e.items[i], 1) == Some(c.pages[i]) {
      assert e.items[i] == JNumber(c.pages[i] as real);
    }
    assert |e.items| >= 1 && forall i :: 0 <= i < |e.items| ==> IntAtLeast(e.items[i], 1).Some?;
    var pages := seq(|e.items|, i requires 0 <= i < |e.items| => IntAtLeast(e.items[i], 1).value);
    assert pages == c.pages;
  }

  /** CitationsEvent: `z.array(Citation)`, every element valid. */
  function DecodeCitations(v: Json, host: Host): (r: Option<seq<Citation>>)
    ensures r.Some? ==> v.JArray? && |r.value| == |v.items|
    ensures r.Some? ==> forall i :: 0 <= i < |r.value| ==>
      ValidCitation(r.value[i], host) && Covers(v.items[i], EncodeCitation(r.value[i]))
  {
    if v.JArray? && forall i :: 0 <= i < |v.items| ==> DecodeCitation(v.items[i], host).Some? then
      Some(seq(|v.items|, i requires 0 <= i < |v.items| => DecodeCitation(v.items[i], host).value))
    else None
  }

  datatype Usage = Usage(tokensIn: int, tokensOut: int)

  /** Usage: both token counts are integers of at least 0. */
  predicate ValidUsage(u: Usage) {
    u.tokensIn >= 0 && u.tokensOut >= 0
  }

  function EncodeUsage(u: Usage): Json {
    JObject(map["tokens_in" := JNumber(u.tokensIn as real), "tokens_out" := JNumber(u.tokensOut as real)])
  }

  function DecodeUsage(v: Json): (r: Option<Usage>)
    ensures r.Some? ==> ValidUsage(r.value) && Covers(v, EncodeUsage(r.value))
  {
    var tin := match Get(v, "tokens_in") case Some(n) => IntAtLeast(n, 0) case None => None;
    var tout := match Get(v, "tokens_out") case Some(n) => IntAtLeast(n, 0) case None => None;
    if tin.Some? && tout.Some? then Some(Usage(tin.value, tout.value)) else None
  }

  /** Decoding an encoded valid usage gives it back. */
  lemma UsageRoundTrip(u: Usage)
    requires ValidUsage(u)
    ensures DecodeUsage(EncodeUsage(u)) == Some(u)
  {
    assert IntAtLeast(JNumber(u.tokensIn as real), 0) == Some(u.tokensIn);
    assert IntAtLeast(JNumber(u.tokensOut as real), 0) == Some(u.tokensOut);
  }

  /* ------------------------------------------------------------------ */
  /* Requests                                                            */
  /* ------------------------------------------------------------------ */

  datatype ChatMessage = ChatMessage(role: string, content: string)

  /** ChatOptions after `.partial()`: every option may be left out. */
  datatype ChatOptions = ChatOptions(topK: Option<real>, temperature: Option<real>, maxTokens: Option<real>)

  datatype ChatRequest = ChatRequest(ragSlug: string, messages: seq<ChatMessage>, opts: Option<ChatOptions>)

  predicate ValidChatOptions(o: ChatOptions) {
    && (o.topK.Some? ==> IsInteger(o.topK.value) && o.topK.value >= 1.0)
    && (o.temperature.Some? ==> 0.0 <= o.temperature.value <= 1.0)
    && (o.maxTokens.Some? ==> IsInteger(o.maxTokens.value) && o.maxTokens.value >= 1.0)
  }

  predicate IsMessageRole(role: string) {
    role == "system" || role == "user" || role == "assistant"
  }

  /** ChatRequest: a RAG slug, at least one message with a known role, and valid options if any. */
  predicate ValidChatRequest(r: ChatRequest) {
    && IsRagSlug(r.ragSlug)
    && |r.messages| >= 1
    && (forall i :: 0 <= i < |r.messages| ==> IsMessageRole(r.messages[i].role))
    && (r.opts.Some? ==> ValidChatOptions(r.opts.value))
  }

  datatype RagCreateRequest = RagCreateRequest(slug: string, name: string, description: string)

  /** RagCreateRequest: a slug, a name of 1 to 120 and a description of 1 to 500 UTF-16 units. */
  predicate ValidRagCreateRequest(r: RagCreateRequest)
    ensures ValidRagCreateRequest(r) ==> 1 <= |r.name| <= 120 && 1 <= |r.description| <= 500
  {
    && IsRagSlug(r.slug)
    && 1 <= Utf16Length(r.name) <= 120
    && 1 <= Utf16Length(r.description) <= 500
  }

  datatype RagUserUpsertRequest = RagUserUpsertRequest(ragSlug: string, userId: Option<string>, email: Option<string>)

  /** `!!value` for an optional string. */
  predicate Provided(s: Option<string>) {
    s.Some? && s.value != ""
  }

  /** RagUserUpsertRequest: the object checks, then the refinement that exactly one of user_id and email is given. */
  predicate ValidUpsertRequest(r: RagUserUpsertRequest, host: Host) {
    && IsRagSlug(r.ragSlug)
    && (r.userId.Some? ==> IsObjectId(r.userId.value))
    && (r.email.Some? ==> host.isEmail(r.email.value))
    && Provided(r.userId) != Provided(r.email)
  }

  /** A valid upsert names exactly one user: by id, or by a non-empty e-mail and no id. */
  lemma UpsertNamesExactlyOne(r: RagUserUpsertRequest, host: Host)
    requires ValidUpsertRequest(r, host)
    ensures (r.userId.Some? && !Provided(r.email)) || (r.userId.None? && Provided(r.email))
  {
    if r.userId.Some? {
      assert |r.userId.value| == 24;
    }
  }

  /* ------------------------------------------------------------------ */
  /* Job status                                                          */
  /* ------------------------------------------------------------------ */

  datatype JobType = RagIndex | RagRebuild | RagReset | ChatCompletion
  datatype JobState = Queued | Running | Done | Failed
  datatype JobPhase = PhaseQueued | Chunking | Embedding | Indexing | Finalizing

  function JobTypeName(t: JobType): string {
    match t
    case RagIndex => "RAG_INDEX"
    case RagRebuild => "RAG_REBUILD"
    case RagReset => "RAG_RESET"
    case ChatCompletion => "CHAT_COMPLETION"
  }

  function JobTypeOf(s: string): (r: Option<JobType>)
    ensures r.Some? <==> s in {"RAG_INDEX", "RAG_REBUILD", "RAG_RESET", "CHAT_COMPLETION"}
    ensures r.Some? ==> JobTypeName(r.value) == s
  {
    if s == "RAG_INDEX" then Some(RagIndex)
    else if s == "RAG_REBUILD" then Some(RagRebuild)
    else if s == "RAG_RESET" then Some(RagReset)
    else if s == "CHAT_COMPLETION" then Some(ChatCompletion)
    else None
  }

  function JobStateName(s: JobState): string {
    match s
    case Queued => "queued"
    case Running => "running"
    case Done => "done"
    case Failed => "error"
  }

  /** JobState: exactly the four names queued, running, done and error. */
  function JobStateOf(s: string): (r: Option<JobState>)
    ensures r.Some? <==> s in {"queued", "running", "done", "error"}
    ensures r.Some? ==> JobStateName(r.value) == s
  {
    if s == "queued" then Some(Queued)
    else if s == "running" then Some(Running)
    else if s == "done" then Some(Done)
    else if s == "error" then Some(Failed)
    else None
  }

  function JobPhaseName(p: JobPhase): string {
    match p
    case PhaseQueued => "queued"
    case Chunking => "chunking"
    case Embedding => "embedding"
    case Indexing => "indexing"
    case Finalizing => "finalizing"
  }

  /** JobPhase: exactly the five names queued, chunking, embedding, indexing and finalizing. */
  function JobPhaseOf(s: string): (r: Option<JobPhase>)
    ensures r.Some? <==> s in {"queued", "chunking", "embedding", "indexing", "finalizing"}
    ensures r.Some? ==> JobPhaseName(r.value) == s
  {
    if s == "queued" then Some(PhaseQueued)
    else if s == "chunking" then Some(Chunking)
    else if s == "embedding" then Some(Embedding)
    else if s == "indexing" then Some(Indexing)
    else if s == "finalizing" then Some(Finalizing)
    else None
  }

  datatype JobTotals = JobTotals(docsTotal: int, docsDone: int, chunksTotal: int, chunksDone: int)

  /** JobTotals: four integer counts of at least 0. */
  predicate ValidTotals(t: JobTotals) {
    t.docsTotal >= 0 && t.docsDone >= 0 && t.chunksTotal >= 0 && t.chunksDone >= 0
  }

  function EncodeTotals(t: JobTotals): Json {
    JObject(map[
      "docs_total" := JNumber(t.docsTotal as real),
      "docs_done" := JNumber(t.docsDone as real),
      "chunks_total" := JNumber(t.chunksTotal as real),
      "chunks_done" := JNumber(t.chunksDone as real)])
  }

  function CountField(v: Json, key: string): (r: Option<int>)
    ensures r.Some? ==> Get(v, key) == Some(JNumber(r.value as real)) && r.value >= 0
  {
    match Get(v, key)
    case Some(n) => IntAtLeast(n, 0)
    case None => None
  }

  function DecodeTotals(v: Json): (r: Option<JobTotals>)
    ensures r.Some? ==> ValidTotals(r.value) && Covers(v, EncodeTotals(r.value))
  {
    var a := CountField(v, "docs_total");
    var b := CountField(v, "docs_done");
    var c := CountField(v, "chunks_total");
    var d := CountField(v, "chunks_done");
    if a.Some? && b.Some? && c.Some? && d.Some? then Some(JobTotals(a.value, b.value, c.value, d.value)) else None
  }

  /** A key of a `.nullable().optional()` field: left out, null, or a value. */
  datatype Nullable<T> = Absent | Null | Present(value: T)

  datatype JobStatus = JobStatus(
    jobId: string,
    jobType: JobType,
    status: JobState,
    progress: real,
    startedAt: Nullable<string>,
    finishedAt: Nullable<string>,
    result: Nullable<map<string, Json>>,
    phase: Nullable<JobPhase>,
    totals: Nullable<JobTotals>,
    error: Nullable<string>,
    corrId: string)

  predicate NullableIsoDate(d: Nullable<string>) {
    d.Present? ==> IsIsoDate(d.value)
  }

  /** JobStatusResponse: UUIDs, progress in [0, 1], ISO timestamps and non-negative totals when given. */
  predicate ValidJobStatus(s: JobStatus, host: Host) {
    && host.isUuid(s.jobId)
    && 0.0 <= s.progress <= 1.0
    && NullableIsoDate(s.startedAt)
    && NullableIsoDate(s.finishedAt)
    && (s.totals.Present? ==> ValidTotals(s.totals.value))
    && host.isUuid(s.corrId)
  }

  function PutNullable<T>(m: map<string, Json>, key: string, f: Nullable<T>, enc: T -> Json): map<string, Json> {
    match f
    case Absent => m
    case Null => m[key := JNull]
    case Present(x) => m[key := enc(x)]
  }

  function EncodeString(d: string): Json {
    JString(d)
  }

  function EncodeRecord(r: map<string, Json>): Json {
    JObject(r)
  }

  function EncodePhase(p: JobPhase): Json {
    JString(JobPhaseName(p))
  }

  /** The keys every job status carries. */
  function JobStatusHead(s: JobStatus): map<string, Json> {
    map[
      "job_id" := JString(s.jobId),
      "type" := JString(JobTypeName(s.jobType)),
      "status" := JString(JobStateName(s.status)),
      "progress" := JNumber(s.progress),
      "corr_id" := JString(s.corrId)]
  }

  function EncodeJobStatus(s: JobStatus): Json {
    var m := JobStatusHead(s);
    var m := PutNullable(m, "started_at", s.startedAt, EncodeString);
    var m := PutNullable(m, "finished_at", s.finishedAt, EncodeString);
    var m := PutNullable(m, "result", s.result, EncodeRecord);
    var m := PutNullable(m, "phase", s.phase, EncodePhase);
    var m := PutNullable(m, "totals", s.totals, EncodeTotals);
    var m := PutNullable(m, "error", s.error, EncodeString);
    JObject(m)
  }

  /** A `.nullable().optional()` key decoded with `dec`; None when a given value fails `dec`. */
  function GetNullable<T>(v: Json, key: string, dec: Json -> Option<T>): Option<Nullable<T>> {
    match Get(v, key)
    case None => Some(Absent)
    case Some(JNull) => Some(Null)
    case Some(x) => match dec(x) case Some(y) => Some(Present(y)) case None => None
  }

  function DecodeIsoDate(v: Json): Option<string> {
    if v.JString? && IsIsoDate(v.s) then Some(v.s) else None
  }

  function DecodeRecord(v: Json): Option<map<string, Json>> {
    if v.JObject? then Some(v.fields) else None
  }

  function DecodePhase(v: Json): Option<JobPhase> {
    if v.JString? then JobPhaseOf(v.s) else None
  }

  function DecodeString(v: Json): Option<string> {
    if v.JString? then Some(v.s) else None
  }

  /** A nullable timestamp key that decodes holds an ISO date when present. */
  lemma NullableIsoDateDecoded(v: Json, key: string)
    ensures GetNullable(v, key, DecodeIsoDate).Some? ==> NullableIsoDate(GetNullable(v, key, DecodeIsoDate).value)
  {
  }

  /** Nullable totals that decode are valid when present. */
  lemma NullableTotalsDecoded(v: Json)
    ensures var t := GetNullable(v, "totals", DecodeTotals);
      t.Some? && t.value.Present? ==> ValidTotals(t.value.value)
  {
  }

  /** JobStatus: every accepted status is valid. */
  function DecodeJobStatus(v: Json, host: Host): (r: Option<JobStatus>)
    ensures r.Some? ==> ValidJobStatus(r.value, host)
  {
    NullableIsoDateDecoded(v, "started_at");
    NullableIsoDateDecoded(v, "finished_at");
    NullableTotalsDecoded(v);
    var jobId := StringField(v, "job_id");
    var jobType := match StringField(v, "type") case Some(t) => JobTypeOf(t) case None => None;
    var status := match StringField(v, "status") case Some(t) => JobStateOf(t) case None => None;
    var progress := Get(v, "progress");
    var startedAt := GetNullable(v, "started_at", DecodeIsoDate);
    var finishedAt := GetNullable(v, "finished_at", DecodeIsoDate);
    var result := GetNullable(v, "result", DecodeRecord);
    var phase := GetNullable(v, "phase", DecodePhase);
    var totals := GetNullable(v, "totals", DecodeTotals);
    var error := GetNullable(v, "error", DecodeString);
    var corrId := StringField(v, "corr_id");
    if && jobId.Some? && host.isUuid(jobId.value)
       && jobType.Some? && status.Some?
       && progress.Some? && progress.value.JNumber? && 0.0 <= progress.value.n <= 1.0
       && startedAt.Some? && finishedAt.Some? && result.Some? && phase.Some?
       && totals.Some? && error.Some?
       && corrId.Some? && host.isUuid(corrId.value)
    then Some(JobStatus(jobId.value, jobType.value, status.value, progress.value.n,
                        startedAt.value, finishedAt.value, result.value, phase.value,
                        totals.value, error.value, corrId.value))
    else None
  }

  /** Putting a nullable key keeps an object covered when `v` holds that key as given. */
  lemma CoversPut<T>(v: Json, m: map<string, Json>, key: string, f: Nullable<T>, enc: T -> Json)
    requires Covers(v, JObject(m))
    requires f.Null? ==> Get(v, key) == Some(JNull)
    requires f.Present? ==> Get(v, key).Some? && Covers(Get(v, key).value, enc(f.value))
    ensures Covers(v, JObject(PutNullable(m, key, f, enc)))
  {
    if f.Null? {
      CoversItself(JNull);
    }
  }

  /** What a decoded nullable key says about the input it came from. */
  lemma GetNullableSound<T>(v: Json, key: string, dec: Json -> Option<T>, enc: T -> Json)
    requires GetNullable(v, key, dec).Some?
    requires forall x :: dec(x).Some? ==> Covers(x, enc(dec(x).value))
    ensures var f := GetNullable(v, key, dec).value;
      && (f.Null? ==> Get(v, key) == Some(JNull))
      && (f.Present? ==> Get(v, key).Some? && Covers(Get(v, key).value, enc(f.value)))
  {
  }

  /** The keys every decoded job status carries are covered by its head. */
  lemma JobStatusHeadCovered(v: Json, host: Host)
    requires DecodeJobStatus(v, host).Some?
    ensures Covers(v, JObject(JobStatusHead(DecodeJobStatus(v, host).value)))
  {
    var s := DecodeJobStatus(v, host).value;
    assert Get(v, "job_id") == Some(JString(s.jobId));
    assert Get(v, "type") == Some(JString(JobTypeName(s.jobType)));
    assert Get(v, "status") == Some(JString(JobStateName(s.status)));
    assert Get(v, "progress") == Some(JNumber(s.progress));
    assert Get(v, "corr_id") == Some(JString(s.corrId));
  }

  /** The nullable parts of a decoded job status, key by key. */
  lemma JobStatusParts(v: Json, host: Host)
    requires DecodeJobStatus(v, host).Some?
    ensures var s := DecodeJobStatus(v, host).value;
      && GetNullable(v, "started_at", DecodeIsoDate) == Some(s.startedAt)
      && GetNullable(v, "finished_at", DecodeIsoDate) == Some(s.finishedAt)
      && GetNullable(v, "result", DecodeRecord) == Some(s.result)
      && GetNullable(v, "phase", DecodePhase) == Some(s.phase)
      && GetNullable(v, "totals", DecodeTotals) == Some(s.totals)
      && GetNullable(v, "error", DecodeString) == Some(s.error)
  {
  }

  /** Putting a key decoded from `v` keeps an object covered by `v`. */
  lemma CoversPutDecoded<T>(v: Json, m: map<string, Json>, key: string, f: Nullable<T>,
                            dec: Json -> Option<T>, enc: T -> Json)
    requires Covers(v, JObject(m)) && GetNullable(v, key, dec) == Some(f)
    requires forall x :: dec(x).Some? ==> Covers(x, enc(dec(x).value))
    ensures Covers(v, JObject(PutNullable(m, key, f, enc)))
  {
    GetNullableSound(v, key, dec, enc);
    CoversPut(v, m, key, f, enc);
  }

  /** A record is decoded as it is. */
  lemma DecodeRecordCovers()
    ensures forall x :: DecodeRecord(x).Some? ==> Covers(x, EncodeRecord(DecodeRecord(x).value))
  {
    forall x | DecodeRecord(x).Some? ensures Covers(x, EncodeRecord(DecodeRecord(x).value)) {
      CoversItself(x);
    }
  }

  /** The first three nullable keys, when they come from `v`, keep the encoding covered by `v`. */
  lemma CoversEncodedEarly(v: Json, s: JobStatus)
    requires Covers(v, JObject(JobStatusHead(s)))
    requires GetNullable(v, "started_at", DecodeIsoDate) == Some(s.startedAt)
    requires GetNullable(v, "finished_at", DecodeIsoDate) == Some(s.finishedAt)
    requires GetNullable(v, "result", DecodeRecord) == Some(s.result)
    ensures Covers(v, JObject(EncodeSteps(s)[3]))
  {
    var ms := EncodeSteps(s);
    DecodeRecordCovers();
    CoversPutDecoded(v, ms[0], "started_at", s.startedAt, DecodeIsoDate, EncodeString);
    CoversPutDecoded(v, ms[1], "finished_at", s.finishedAt, DecodeIsoDate, EncodeString);
    CoversPutDecoded(v, ms[2], "result", s.result, DecodeRecord, EncodeRecord);
  }

  /** The encoding of a job status whose keys all come from `v` is covered by `v`. */
  lemma CoversEncoded(v: Json, s: JobStatus)
    requires Covers(v, JObject(JobStatusHead(s)))
    requires GetNullable(v, "started_at", DecodeIsoDate) == Some(s.startedAt)
    requires GetNullable(v, "finished_at", DecodeIsoDate) == Some(s.finishedAt)
    requires GetNullable(v, "result", DecodeRecord) == Some(s.result)
    requires GetNullable(v, "phase", DecodePhase) == Some(s.phase)
    requires GetNullable(v, "totals", DecodeTotals) == Some(s.totals)
    requires GetNullable(v, "error", DecodeString) == Some(s.error)
    ensures Covers(v, EncodeJobStatus(s))
  {
    var ms := EncodeSteps(s);
    CoversEncodedEarly(v, s);
    CoversPutDecoded(v, ms[3], "phase", s.phase, DecodePhase, EncodePhase);
    CoversPutDecoded(v, ms[4], "totals", s.totals, DecodeTotals, EncodeTotals);
    CoversPutDecoded(v, ms[5], "error", s.error, DecodeString, EncodeString);
  }

  /** A decoded job status is valid and its encoding covers the input. */
  lemma JobStatusDecodeSound(v: Json, host: Host)
    requires DecodeJobStatus(v, host).Some?
    ensures ValidJobStatus(DecodeJobStatus(v, host).value, host)
    ensures Covers(v, EncodeJobStatus(DecodeJobStatus(v, host).value))
  {
    JobStatusParts(v, host);
    JobStatusHeadCovered(v, host);
    CoversEncoded(v, DecodeJobStatus(v, host).value);
  }

  /** `key` of the object `t` holds an integer of at least 0. */
  predicate CountAt(t: Json, key: string) {
    Get(t, key).Some? && Get(t, key).value.JNumber? && IsInteger(Get(t, key).value.n) && Get(t, key).value.n >= 0.0
  }

  /**
   * What an accepted job-status payload guarantees of its JSON: one of the
   * four states, a progress in [0, 1], one of the five phases when a phase
   * is given, and four non-negative integer counts when totals are given.
   */
  lemma JobStatusShape(v: Json, host: Host)
    requires DecodeJobStatus(v, host).Some?
    ensures StringField(v, "status").Some?
    ensures StringField(v, "status").value in {"queued", "running", "done", "error"}
    ensures Get(v, "progress").Some? && Get(v, "progress").value.JNumber?
    ensures 0.0 <= Get(v, "progress").value.n <= 1.0
    ensures Get(v, "phase").Some? && Get(v, "phase").value != JNull ==>
      && StringField(v, "phase").Some?
      && StringField(v, "phase").value in {"queued", "chunking", "embedding", "indexing", "finalizing"}
    ensures Get(v, "totals").Some? && Get(v, "totals").value != JNull ==>
      var t := Get(v, "totals").value;
      CountAt(t, "docs_total") && CountAt(t, "docs_done") && CountAt(t, "chunks_total") && CountAt(t, "chunks_done")
  {
    JobStatusParts(v, host);
    var s := DecodeJobStatus(v, host).value;
    if Get(v, "phase").Some? && Get(v, "phase").value != JNull {
      assert s.phase.Present?;
      assert JobPhaseOf(StringField(v, "phase").value) == Some(s.phase.value);
    }
    if Get(v, "totals").Some? && Get(v, "totals").value != JNull {
      assert s.totals.Present?;
    }
  }

  /** How the encoding of a job status holds one nullable key. */
  predicate Slot<T>(v: Json, key: string, f: Nullable<T>, enc: T -> Json) {
    match f
    case Absent => Get(v, key).None?
    case Null => Get(v, key) == Some(JNull)
    case Present(x) => Get(v, key) == Some(enc(x))
  }

  /** Putting one key leaves the slot of any other key as it was. */
  lemma PutKeepsSlot<T, U>(m: map<string, Json>, key: string, f: Nullable<T>, enc: T -> Json,
                           other: string, g: Nullable<U>, enc': U -> Json)
    requires other != key && Slot(JObject(m), other, g, enc')
    ensures Slot(JObject(PutNullable(m, key, f, enc)), other, g, enc')
  {
  }

  /** Putting a key absent from the map gives it the slot put. */
  lemma PutSetsSlot<T>(m: map<string, Json>, key: string, f: Nullable<T>, enc: T -> Json)
    requires key !in m
    ensures Slot(JObject(PutNullable(m, key, f, enc)), key, f, enc)
  {
  }

  /** The maps the encoder builds, one nullable key at a time. */
  function EncodeSteps(s: JobStatus): (ms: seq<map<string, Json>>)
    ensures |ms| == 7 && ms[0] == JobStatusHead(s) && EncodeJobStatus(s) == JObject(ms[6])
  {
    var m0 := JobStatusHead(s);
    var m1 := PutNullable(m0, "started_at", s.startedAt, EncodeString);
    var m2 := PutNullable(m1, "finished_at", s.finishedAt, EncodeString);
    var m3 := PutNullable(m2, "result", s.result, EncodeRecord);
    var m4 := PutNullable(m3, "phase", s.phase, EncodePhase);
    var m5 := PutNullable(m4, "totals", s.totals, EncodeTotals);
    var m6 := PutNullable(m5, "error", s.error, EncodeString);
    [m0, m1, m2, m3, m4, m5, m6]
  }

  lemma EncodedSlotsEarly(s: JobStatus)
    ensures var ms := EncodeSteps(s);
      && Slot(JObject(ms[3]), "started_at", s.startedAt, EncodeString)
      && Slot(JObject(ms[3]), "finished_at", s.finishedAt, EncodeString)
      && Slot(JObject(ms[3]), "result", s.result, EncodeRecord)
      && ms[3].Keys <= {"job_id", "type", "status", "progress", "corr_id", "started_at", "finished_at", "result"}
  {
    var ms := EncodeSteps(s);
    PutSetsSlot(ms[0], "started_at", s.startedAt, EncodeString);
    PutSetsSlot(ms[1], "finished_at", s.finishedAt, EncodeString);
    PutSetsSlot(ms[2], "result", s.result, EncodeRecord);
    PutKeepsSlot(ms[1], "finished_at", s.finishedAt, EncodeString, "started_at", s.startedAt, EncodeString);
    PutKeepsSlot(ms[2], "result", s.result, EncodeRecord, "started_at", s.startedAt, EncodeString);
    PutKeepsSlot(ms[2], "result", s.result, EncodeRecord, "finished_at", s.finishedAt, EncodeString);
  }

  /** A slot of the first four maps survives the last three keys put. */
  lemma SlotSurvivesLate<U>(s: JobStatus, other: string, g: Nullable<U>, enc': U -> Json)
    requires other !in {"phase", "totals", "error"}
    requires Slot(JObject(EncodeSteps(s)[3]), other, g, enc')
    ensures Slot(EncodeJobStatus(s), other, g, enc')
  {
    var ms := EncodeSteps(s);
    PutKeepsSlot(ms[3], "phase", s.phase, EncodePhase, other, g, enc');
    PutKeepsSlot(ms[4], "totals", s.totals, EncodeTotals, other, g, enc');
    PutKeepsSlot(ms[5], "error", s.error, EncodeString, other, g, enc');
  }

  lemma EncodedPhaseSlot(s: JobStatus)
    ensures Slot(EncodeJobStatus(s), "phase", s.phase, EncodePhase)
  {
    var ms := EncodeSteps(s);
    EncodedSlotsEarly(s);
    PutSetsSlot(ms[3], "phase", s.phase, EncodePhase);
    PutKeepsSlot(ms[4], "totals", s.totals, EncodeTotals, "phase", s.phase, EncodePhase);
    PutKeepsSlot(ms[5], "error", s.error, EncodeString, "phase", s.phase, EncodePhase);
  }

  /** The last two keys are not yet in the maps they are put into. */
  lemma LateKeysFresh(s: JobStatus)
    ensures var ms := EncodeSteps(s);
      "totals" !in ms[4] && "error" !in ms[5]
  {
    EncodedSlotsEarly(s);
  }

  lemma EncodedSlotsLate(s: JobStatus)
    ensures var v := EncodeJobStatus(s);
      && Slot(v, "phase", s.phase, EncodePhase)
      && Slot(v, "totals", s.totals, EncodeTotals)
      && Slot(v, "error", s.error, EncodeString)
  {
    var ms := EncodeSteps(s);
    LateKeysFresh(s);
    EncodedPhaseSlot(s);
    PutSetsSlot(ms[4], "totals", s.totals, EncodeTotals);
    PutSetsSlot(ms[5], "error", s.error, EncodeString);
    PutKeepsSlot(ms[5], "error", s.error, EncodeString, "totals", s.totals, EncodeTotals);
  }

  lemma EncodedSlots(s: JobStatus)
    ensures var v := EncodeJobStatus(s);
      && Slot(v, "started_at", s.startedAt, EncodeString)
      && Slot(v, "finished_at", s.finishedAt, EncodeString)
      && Slot(v, "result", s.result, EncodeRecord)
      && Slot(v, "phase", s.phase, EncodePhase)
      && Slot(v, "totals", s.totals, EncodeTotals)
      && Slot(v, "error", s.error, EncodeString)
  {
    EncodedSlotsEarly(s);
    EncodedSlotsLate(s);
    SlotSurvivesLate(s, "started_at", s.startedAt, EncodeString);
    SlotSurvivesLate(s, "finished_at", s.finishedAt, EncodeString);
    SlotSurvivesLate(s, "result", s.result, EncodeRecord);
  }

  /** Putting one key leaves every other key as it was. */
  lemma PutKeepsOther<T>(m: map<string, Json>, key: string, f: Nullable<T>, enc: T -> Json, other: string)
    requires other != key && other in m
    ensures Get(JObject(PutNullable(m, key, f, enc)), other) == Some(m[other])
  {
  }

  /** The keys every job status carries come through the nullable keys untouched. */
  lemma EncodedHead(s: JobStatus, k: string)
    requires k in JobStatusHead(s)
    ensures Get(EncodeJobStatus(s), k) == Some(JobStatusHead(s)[k])
  {
    var ms := EncodeSteps(s);
    assert k !in {"started_at", "finished_at", "result", "phase", "totals", "error"};
    PutKeepsOther(ms[0], "started_at", s.startedAt, EncodeString, k);
    PutKeepsOther(ms[1], "finished_at", s.finishedAt, EncodeString, k);
    PutKeepsOther(ms[2], "result", s.result, EncodeRecord, k);
    PutKeepsOther(ms[3], "phase", s.phase, EncodePhase, k);
    PutKeepsOther(ms[4], "totals", s.totals, EncodeTotals, k);
    PutKeepsOther(ms[5], "error", s.error, EncodeString, k);
  }

  /** A nullable key decodes back to what was put there, when its decoder undoes its encoder. */
  lemma GetNullableRoundTrip<T>(v: Json, key: string, f: Nullable<T>, enc: T -> Json, dec: Json -> Option<T>)
    requires Slot(v, key, f, enc)
    requires f.Present? ==> enc(f.value) != JNull && dec(enc(f.value)) == Some(f.value)
    ensures GetNullable(v, key, dec) == Some(f)
  {
  }

  /** The decoder assembles a job status from its eleven keys. */
  lemma DecodeFromParts(v: Json, host: Host, s: JobStatus)
    requires ValidJobStatus(s, host)
    requires StringField(v, "job_id") == Some(s.jobId) && StringField(v, "corr_id") == Some(s.corrId)
    requires StringField(v, "type") == Some(JobTypeName(s.jobType))
    requires StringField(v, "status") == Some(JobStateName(s.status))
    requires Get(v, "progress") == Some(JNumber(s.progress))
    requires GetNullable(v, "started_at", DecodeIsoDate) == Some(s.startedAt)
    requires GetNullable(v, "finished_at", DecodeIsoDate) == Some(s.finishedAt)
    requires GetNullable(v, "result", DecodeRecord) == Some(s.result)
    requires GetNullable(v, "phase", DecodePhase) == Some(s.phase)
    requires GetNullable(v, "totals", DecodeTotals) == Some(s.totals)
    requires GetNullable(v, "error", DecodeString) == Some(s.error)
    ensures DecodeJobStatus(v, host) == Some(s)
  {
    assert JobTypeOf(JobTypeName(s.jobType)) == Some(s.jobType);
    assert JobStateOf(JobStateName(s.status)) == Some(s.status);
  }

  /** The three nullable keys holding text or a record decode back. */
  lemma NullablesRoundTripEarly(s: JobStatus, host: Host)
    requires ValidJobStatus(s, host)
    ensures var v := EncodeJobStatus(s);
      && GetNullable(v, "started_at", DecodeIsoDate) == Some(s.startedAt)
      && GetNullable(v, "finished_at", DecodeIsoDate) == Some(s.finishedAt)
      && GetNullable(v, "result", DecodeRecord) == Some(s.result)
  {
    var v := EncodeJobStatus(s);
    EncodedSlots(s);
    GetNullableRoundTrip(v, "started_at", s.startedAt, EncodeString, DecodeIsoDate);
    GetNullableRoundTrip(v, "finished_at", s.finishedAt, EncodeString, DecodeIsoDate);
    GetNullableRoundTrip(v, "result", s.result, EncodeRecord, DecodeRecord);
  }

  /** The phase, the totals and the error decode back. */
  lemma NullablesRoundTripLate(s: JobStatus, host: Host)
    requires ValidJobStatus(s, host)
    ensures var v := EncodeJobStatus(s);
      && GetNullable(v, "phase", DecodePhase) == Some(s.phase)
      && GetNullable(v, "totals", DecodeTotals) == Some(s.totals)
      && GetNullable(v, "error", DecodeString) == Some(s.error)
  {
    var v := EncodeJobStatus(s);
    EncodedSlotsLate(s);
    if s.phase.Present? {
      assert JobPhaseOf(JobPhaseName(s.phase.value)) == Some(s.phase.value);
    }
    GetNullableRoundTrip(v, "phase", s.phase, EncodePhase, DecodePhase);
    if s.totals.Present? {
      TotalsRoundTrip(s.totals.value);
    }
    GetNullableRoundTrip(v, "totals", s.totals, EncodeTotals, DecodeTotals);
    GetNullableRoundTrip(v, "error", s.error, EncodeString, DecodeString);
  }

  /** Decoding an encoded valid job status gives it back. */
  lemma JobStatusRoundTrip(s: JobStatus, host: Host)
    requires ValidJobStatus(s, host)
    ensures DecodeJobStatus(EncodeJobStatus(s), host) == Some(s)
  {
    var v := EncodeJobStatus(s);
    EncodedHead(s, "job_id");
    EncodedHead(s, "type");
    EncodedHead(s, "status");
    EncodedHead(s, "progress");
    EncodedHead(s, "corr_id");
    NullablesRoundTripEarly(s, host);
    NullablesRoundTripLate(s, host);
    DecodeFromParts(v, host, s);
  }

  /** Decoding encoded valid totals gives them back. */
  lemma TotalsRoundTrip(t: JobTotals)
    requires ValidTotals(t)
    ensures DecodeTotals(EncodeTotals(t)) == Some(t)
  {
    var v := EncodeTotals(t);
    assert CountField(v, "docs_total") == Some(t.docsTotal);
    assert CountField(v, "docs_done") == Some(t.docsDone);
    assert CountField(v, "chunks_total") == Some(t.chunksTotal);
    assert CountField(v, "chunks_done") == Some(t.chunksDone);
  }
}
