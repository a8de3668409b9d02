/**
 * transcript_buffer_chunker.py: the line buffer that, every ten seconds,
 * has the model clean its lines, group them into chunks, classify the chunks
 * against the topic registry, and then records the classification as a new
 * or updated topic before emptying itself.
 *
 * Each of the four model calls of one flush is an input reply (`None` when
 * the call, or the access to the reply's text, raised): the cleaning reply,
 * the chunking reply, the classification reply and, when a new topic is
 * created, the key-generation reply. The clock is read by the caller: `now`
 * when the line arrives, `after` when the flush is over.
 */
module Chunker {
  import opened Wrappers
  import opened Text
  import opened Json
  import opened Transcript
  import opened Topics

  /** `self.clean_interval`. */
  const CleanInterval := 10

  /**
   * Where `_clean_buffer` and `chunk_buffer` look for JSON in a stripped reply:
   * the whole reply when it is bracketed, else the text from its first '['
   * through its last ']', else nowhere. The candidate is bracketed, or empty
   * when the last ']' comes before the first '['.
   */
  function BracketCandidate(t: string): (r: Option<string>)
    ensures r.Some? ==> r.value == [] || (r.value[0] == '[' && r.value[|r.value| - 1] == ']')
  {
    if t != [] && t[0] == '[' && t[|t| - 1] == ']' then Some(t) else BracketSpan(t)
  }

  /** `t[t.find('['):t.rfind(']') + 1]` when both are found. */
  function BracketSpan(t: string): (r: Option<string>)
    ensures r.Some? ==> r.value == [] || (r.value[0] == '[' && r.value[|r.value| - 1] == ']')
  {
    SpanBetween(t, FindChar(t, '['), RFindChar(t, ']') + 1)
  }

  /** The slice from `start` to `end` unless either search came back empty-handed. */
  function SpanBetween(t: string, start: int, end: int): (r: Option<string>)
    requires start == -1 || (0 <= start < |t| && t[start] == '[')
    requires end == 0 || (0 < end <= |t| && t[end - 1] == ']')
    ensures r.Some? <==> start != -1 && end != 0
    ensures r.Some? ==> r.value == [] || (r.value[0] == '[' && r.value[|r.value| - 1] == ']')
  {
    if start != -1 && end != 0 then Some(Slice(t, start, end)) else None
  }

  /** JSON is looked for exactly when the reply holds both a '[' and a ']'. */
  lemma BracketCandidateFound(t: string)
    ensures BracketCandidate(t).Some? <==> '[' in t && ']' in t
  {
    if t != [] && t[0] == '[' && t[|t| - 1] == ']' {
      assert t[0] in t && t[|t| - 1] in t;
    }
  }

  /**
   * With its first '[' at `p` and its last ']' at `q`, the candidate is the
   * text from `p` through `q`, brackets included.
   */
  lemma BracketCandidateExtracts(t: string, p: nat, q: nat)
    requires p < q < |t| && t[p] == '[' && t[q] == ']'
    requires '[' !in t[..p] && ']' !in t[q + 1..]
    ensures BracketCandidate(t) == Some(t[p..q + 1])
  {
    if t[0] == '[' && t[|t| - 1] == ']' {
      assert t[0] in t[..p] || p == 0;
      assert t[|t| - 1] in t[q + 1..] || q == |t| - 1;
      assert t[0..|t|] == t;
    } else {
      FirstCharAt(t, '[', p);
      LastAt(t, ']', q);
      BracketSpanAt(t, p, q);
    }
  }

  /**
   * When the last ']' at `q` comes before the first '[' at `p`, the slice is
   * empty: the parser is handed "" (which fails to decode, so the fallback runs).
   */
  lemma BracketCandidateReversed(t: string, p: nat, q: nat)
    requires q < p < |t| && t[p] == '[' && t[q] == ']'
    requires '[' !in t[..p] && ']' !in t[q + 1..]
    ensures BracketCandidate(t) == Some("")
  {
    assert t[0] in t[..p];
    FirstCharAt(t, '[', p);
    LastAt(t, ']', q);
  }

  /** `find` stops at `p` when `c` is there and nowhere before. */
  lemma FirstCharAt(t: string, c: char, p: nat)
    requires p < |t| && t[p] == c && c !in t[..p]
    ensures FindChar(t, c) == p
  {
    Topics.CharAbsent(t, 0, p, c);
  }

  /** `rfind` stops at `q` when `c` is there and nowhere after. */
  lemma LastAt(t: string, c: char, q: nat)
    requires q < |t| && t[q] == c && c !in t[q + 1..]
    ensures RFindChar(t, c) == q
  {
    Topics.CharAbsent(t, q + 1, |t|, c);
  }

  lemma BracketSpanAt(t: string, p: nat, q: nat)
    requires p < q < |t| && t[p] == '[' && t[q] == ']'
    ensures SpanBetween(t, p, q + 1) == Some(t[p..q + 1])
  {
    assert Slice(t, p, q + 1) == t[p..q + 1];
  }

  /** `[x.strip() for x in xs if x.strip()]`. */
  function StrippedNonEmpty(xs: seq<string>): (r: seq<string>)
    ensures |r| <= |xs|
    ensures forall i :: 0 <= i < |r| ==> r[i] != "" && IsStripped(r[i])
  {
    if xs == [] then []
    else
      var init := StrippedNonEmpty(xs[..|xs| - 1]);
      var last := Strip(xs[|xs| - 1]);
      if last != "" then init + [last] else init
  }

  /** The comprehension distributes over concatenation: lines are kept in order. */
  lemma {:induction false} StrippedNonEmptyAppend(xs: seq<string>, ys: seq<string>)
    ensures StrippedNonEmpty(xs + ys) == StrippedNonEmpty(xs) + StrippedNonEmpty(ys)
    decreases |ys|
  {
    if ys == [] {
      assert xs + ys == xs;
    } else {
      var ys' := ys[..|ys| - 1];
      assert (xs + ys)[..|xs + ys| - 1] == xs + ys';
      assert (xs + ys)[|xs + ys| - 1] == ys[|ys| - 1];
      StrippedNonEmptyAppend(xs, ys');
    }
  }

  /** Only all-whitespace lines are dropped: the result is empty exactly when every line is blank. */
  lemma {:induction false} StrippedNonEmptyEmptyIff(xs: seq<string>)
    ensures StrippedNonEmpty(xs) == [] <==> forall i :: 0 <= i < |xs| ==> AllSpace(xs[i])
  {
    if xs != [] {
      var init := xs[..|xs| - 1];
      StrippedNonEmptyEmptyIff(init);
      StripEmptyIff(xs[|xs| - 1]);
      assert forall i :: 0 <= i < |init| ==> init[i] == xs[i];
    }
  }

  /** A single line is kept, stripped, unless it is blank: with StrippedNonEmptyAppend this fixes every result. */
  lemma StrippedNonEmptySingleton(x: string)
    ensures StrippedNonEmpty([x]) == if Strip(x) == "" then [] else [Strip(x)]
  {
    assert [x][..0] == [];
  }

  /** Cleaning already-cleaned lines changes nothing. */
  lemma {:induction false} StrippedNonEmptyIdempotent(xs: seq<string>)
    ensures StrippedNonEmpty(StrippedNonEmpty(xs)) == StrippedNonEmpty(xs)
  {
    if xs != [] {
      var init := xs[..|xs| - 1];
      var last := Strip(xs[|xs| - 1]);
      StrippedNonEmptyIdempotent(init);
      if last != "" {
        StrippedNonEmptyAppend(StrippedNonEmpty(init), [last]);
        StripIdempotent(xs[|xs| - 1]);
        assert [last][..0] == [];
        assert StrippedNonEmpty([last]) == [last];
      }
    }
  }

  /**
   * What `_clean_buffer` makes of the buffer. A reply without brackets is
   * split into its non-blank lines; bracketed text that does not decode
   * falls back to the buffer's own non-blank lines, stripped; bracketed text
   * that decodes to a list of strings replaces the buffer. Anything else
   * decoded cannot be joined into the next prompt: TypeError.
   */
  function CleanedBuffer(buffer: seq<string>, reply: Option<string>, parse: string -> Option<Value>): (r: Result<seq<string>, Exception>)
    ensures reply.None? ==> r == Failure(CollaboratorFailure)
  {
    match reply
    case None => Failure(CollaboratorFailure)
    case Some(text) =>
      var t := Strip(text);
      match BracketCandidate(t)
      case None => Success(StrippedNonEmpty(Split(t, '\n')))
      case Some(candidate) =>
        match parse(candidate)
        case None => Success(StrippedNonEmpty(buffer))
        case Some(v) =>
          match AsStrings(v)
          case Some(lines) => Success(lines)
          case None => Failure(TypeError)
  }

  /**
   * A reply whose bracketed candidate (the whole stripped reply, or its span
   * from the first '[' to the last ']') decodes to an array of strings
   * replaces the buffer with exactly those strings.
   */
  lemma CleanedBufferTakesArray(buffer: seq<string>, text: string, parse: string -> Option<Value>, lines: seq<string>)
    requires BracketCandidate(Strip(text)).Some?
    requires parse(BracketCandidate(Strip(text)).value) == Some(Arr(StrValues(lines)))
    ensures CleanedBuffer(buffer, Some(text), parse) == Success(lines)
  {
    AsStringsOfStrValues(lines);
  }

  /** An undecodable bracketed reply keeps the buffer's non-blank lines, stripped, in order. */
  lemma CleanedBufferFallback(buffer: seq<string>, text: string, parse: string -> Option<Value>)
    requires BracketCandidate(Strip(text)).Some? && parse(BracketCandidate(Strip(text)).value).None?
    ensures var r := CleanedBuffer(buffer, Some(text), parse);
      && r == Success(StrippedNonEmpty(buffer))
      && (forall i :: 0 <= i < |r.value| ==> r.value[i] != "" && IsStripped(r.value[i]))
      && (r.value == [] <==> forall i :: 0 <= i < |buffer| ==> AllSpace(buffer[i]))
  {
    StrippedNonEmptyEmptyIff(buffer);
  }

  /** A reply with no brackets becomes its own non-blank lines, stripped. */
  lemma CleanedBufferPlainText(buffer: seq<string>, text: string, parse: string -> Option<Value>)
    requires '[' !in Strip(text) || ']' !in Strip(text)
    ensures CleanedBuffer(buffer, Some(text), parse) == Success(StrippedNonEmpty(Split(Strip(text), '\n')))
  {
    BracketCandidateFound(Strip(text));
  }

  /** `[self.buffer]`: one chunk holding every line. */
  function SingleChunk(buffer: seq<string>): (r: Value)
    ensures r.Arr? && |r.items| == 1 && AsStrings(r.items[0]) == Some(buffer)
  {
    AsStringsOfStrValues(buffer);
    Arr([Arr(StrValues(buffer))])
  }

  /**
   * What `chunk_buffer` returns once the buffer has been cleaned: whatever the
   * bracketed text decodes to, or the single chunk of all lines when there is
   * no bracketed text or it does not decode.
   */
  function Chunks(buffer: seq<string>, reply: Option<string>, parse: string -> Option<Value>): (r: Result<Value, Exception>)
    ensures r.Failure? <==> reply.None?
    ensures reply.Some? && BracketCandidate(Strip(reply.value)).None? ==> r == Success(SingleChunk(buffer))
    ensures reply.Some? && BracketCandidate(Strip(reply.value)).Some? ==>
      r == Success(match parse(BracketCandidate(Strip(reply.value)).value)
                   case Some(v) => v
                   case None => SingleChunk(buffer))
  {
    match reply
    case None => Failure(CollaboratorFailure)
    case Some(text) =>
      match BracketCandidate(Strip(text))
      case None => Success(SingleChunk(buffer))
      case Some(candidate) =>
        match parse(candidate)
        case None => Success(SingleChunk(buffer))
        case Some(v) => Success(v)
  }

  /** `enumerate(chunks)` raises TypeError on a number, a boolean or None. */
  predicate Iterable(v: Value) {
    v.Str? || v.Arr? || v.Obj?
  }

  /**
   * The chunker's observable state. `registry` is its topic manager's store;
   * `classifierInputs` records, in order, the chunks handed to `classify_chunk`.
   */
  datatype ChunkerState = ChunkerState(
    buffer: seq<string>,
    lastCleanTime: int,
    registry: Registry,
    classifierInputs: seq<Value>)

  /** The model's replies during one flush, in call order. */
  datatype FlushReplies = FlushReplies(
    clean: Option<string>,
    chunk: Option<string>,
    classify: Option<string>,
    topicKey: Option<string>)

  /** The state after an operation, and whether it returned or raised. */
  datatype Step = Step(state: ChunkerState, outcome: Outcome<Exception>)

  /** A falsy topic key creates a topic described by the new description; any other key is updated. */
  function Record(reg: Registry, c: TopicClassification, keyReply: Option<string>, parse: string -> Option<Value>): Result<Registry, Exception> {
    if !Truthy(c.topicKey) then AfterAddNewTopic(reg, c.updatedDescription, keyReply, parse)
    else reg.Update(c.topicKey, c.updatedDescription)
  }

  /** The flush in `add_transcript_line`. */
  function Flush(s: ChunkerState, replies: FlushReplies, after: int, parse: string -> Option<Value>): Step {
    match CleanedBuffer(s.buffer, replies.clean, parse)
    case Failure(e) => Step(s, Fail(e))
    case Success(lines) =>
      var cleaned := s.(buffer := lines);
      match Chunks(lines, replies.chunk, parse)
      case Failure(e) => Step(cleaned, Fail(e))
      case Success(chunks) =>
        if !Iterable(chunks) then Step(cleaned, Fail(TypeError))
        else
          var classified := cleaned.(classifierInputs := cleaned.classifierInputs + [chunks]);
          match Record(s.registry, ClassifyChunk(replies.classify, parse), replies.topicKey, parse)
          case Failure(e) => Step(classified, Fail(e))
          case Success(reg) => Step(classified.(registry := reg, buffer := [], lastCleanTime := after), Pass)
  }

  /** `add_transcript_line`. */
  function AfterAddLine(s: ChunkerState, line: string, now: int, after: int, replies: FlushReplies, parse: string -> Option<Value>): Step {
    var appended := s.(buffer := s.buffer + [line]);
    if FlushDue(s.lastCleanTime, now, CleanInterval) then Flush(appended, replies, after, parse)
    else Step(appended, Pass)
  }

  /** Before the interval has elapsed a line is only appended. */
  lemma AddLineBeforeInterval(s: ChunkerState, line: string, now: int, after: int, replies: FlushReplies, parse: string -> Option<Value>)
    requires now - s.lastCleanTime < CleanInterval
    ensures AfterAddLine(s, line, now, after, replies, parse) == Step(s.(buffer := s.buffer + [line]), Pass)
  {
  }

  /**
   * The chunks a flush hands to `classify_chunk`, when it gets that far: the
   * result of `chunk_buffer` on the cleaned buffer, once it proved iterable.
   */
  function ClassifierInput(s: ChunkerState, replies: FlushReplies, parse: string -> Option<Value>): Option<Value> {
    match CleanedBuffer(s.buffer, replies.clean, parse)
    case Failure(_) => None
    case Success(lines) =>
      match Chunks(lines, replies.chunk, parse)
      case Failure(_) => None
      case Success(chunks) => if Iterable(chunks) then Some(chunks) else None
  }

  /**
   * A flush that returns empties the buffer, resets the clock and classifies
   * once, on the chunk list. One that raises keeps the clock and the registry
   * as they were, and keeps the buffer as cleaning left it; it classified
   * only if it got past chunking.
   */
  lemma FlushOutcome(s: ChunkerState, replies: FlushReplies, after: int, parse: string -> Option<Value>)
    ensures var r := Flush(s, replies, after, parse);
      var cleaned := CleanedBuffer(s.buffer, replies.clean, parse);
      var input := ClassifierInput(s, replies, parse);
      && r.state.classifierInputs == s.classifierInputs + (if input.Some? then [input.value] else [])
      && (r.outcome.Pass? ==>
            && input.Some?
            && input == Some(Chunks(cleaned.value, replies.chunk, parse).value)
            && r.state.buffer == []
            && r.state.lastCleanTime == after)
      && (r.outcome.Fail? ==>
            && r.state.lastCleanTime == s.lastCleanTime
            && r.state.registry == s.registry
            && r.state.buffer == (if cleaned.Success? then cleaned.value else s.buffer))
  {
  }

  /** A flush raises exactly when one of its steps does. */
  lemma FlushPassIff(s: ChunkerState, replies: FlushReplies, after: int, parse: string -> Option<Value>)
    ensures Flush(s, replies, after, parse).outcome.Pass? <==>
      var cleaned := CleanedBuffer(s.buffer, replies.clean, parse);
      && cleaned.Success?
      && replies.chunk.Some?
      && Iterable(Chunks(cleaned.value, replies.chunk, parse).value)
      && Record(s.registry, ClassifyChunk(replies.classify, parse), replies.topicKey, parse).Success?
  {
  }

  /**
   * Recording a classification writes the new description as the summary of
   * exactly one topic and leaves every other summary alone; the registry stays
   * well formed.
   */
  lemma RecordTouchesOneTopic(reg: Registry, c: TopicClassification, keyReply: Option<string>, parse: string -> Option<Value>)
    requires reg.Valid()
    requires Record(reg, c, keyReply, parse).Success?
    ensures var r := Record(reg, c, keyReply, parse).value;
      && r.Valid()
      && exists k :: r.Summary(k) == Success(c.updatedDescription)
                 && forall k' :: k' != k ==> r.Summary(k') == reg.Summary(k')
  {
    if !Truthy(c.topicKey) {
      var key := NewTopicKey(keyReply.value, parse).value;
      AddNewEffect(reg, key, c.updatedDescription);
      var r := Record(reg, c, keyReply, parse).value;
      assert r.Summary(key) == Success(c.updatedDescription);
    } else {
      UpdateEffect(reg, c.topicKey, c.updatedDescription);
      var r := Record(reg, c, keyReply, parse).value;
      assert r.Summary(c.topicKey) == Success(c.updatedDescription);
    }
  }

  /** Flushing keeps the registry well formed. */
  lemma FlushKeepsRegistryValid(s: ChunkerState, replies: FlushReplies, after: int, parse: string -> Option<Value>)
    requires s.registry.Valid()
    ensures Flush(s, replies, after, parse).state.registry.Valid()
  {
    var c := ClassifyChunk(replies.classify, parse);
    if Record(s.registry, c, replies.topicKey, parse).Success? {
      RecordTouchesOneTopic(s.registry, c, replies.topicKey, parse);
    }
  }

  /**
   * A classification reply that fails makes the flush create a topic whose
   * summary is None: the failure is recorded as a new topic, not skipped.
   */
  lemma FailedClassificationCreatesTopic(reg: Registry, keyReply: Option<string>, parse: string -> Option<Value>)
    requires reg.Valid()
    requires Record(reg, ClassifyChunk(None, parse), keyReply, parse).Success?
    ensures var r := Record(reg, ClassifyChunk(None, parse), keyReply, parse).value;
      var key := NewTopicKey(keyReply.value, parse).value;
      r.Summary(key) == Success(Null) && r.Content(key) == Success([])
  {
    AddNewEffect(reg, NewTopicKey(keyReply.value, parse).value, Null);
  }

  class TranscriptBufferChunker {
    var buffer: seq<string>
    var lastCleanTime: int
    const cleanInterval: int
    const topicsManager: TopicManager
    ghost var classifierInputs: seq<Value>

    ghost function State(): ChunkerState
      reads this, topicsManager
    {
      ChunkerState(buffer, lastCleanTime, topicsManager.Model(), classifierInputs)
    }

    ghost predicate Valid()
      reads this, topicsManager
    {
      cleanInterval == CleanInterval && topicsManager.Valid()
    }

    constructor(topicsManager: TopicManager, now: int)
      requires topicsManager.Valid()
      ensures Valid() && this.topicsManager == topicsManager
      ensures State() == ChunkerState([], now, topicsManager.Model(), [])
    {
      buffer := [];
      this.topicsManager := topicsManager;
      lastCleanTime := now;
      cleanInterval := CleanInterval;
      classifierInputs := [];
    }

    method AddTranscriptLine(line: string, now: int, after: int, replies: FlushReplies) returns (r: Outcome<Exception>)
      requires Valid()
      modifies this, topicsManager
      ensures Valid()
      ensures Step(State(), r) == AfterAddLine(old(State()), line, now, after, replies, topicsManager.parse)
    {
      buffer := buffer + [line];
      if now - lastCleanTime < cleanInterval {
        return Pass;
      }
      ghost var appended := State();
      var chunks := ChunkBuffer(replies.clean, replies.chunk);
      if chunks.Failure? {
        return Fail(chunks.error);
      }
      if !Iterable(chunks.value) {
        return Fail(TypeError);
      }
      classifierInputs := classifierInputs + [chunks.value];
      var res := ClassifyChunk(replies.classify, topicsManager.parse);
      var outcome: Outcome<Exception>;
      if !Truthy(res.topicKey) {
        outcome := topicsManager.AddNewTopic(res.updatedDescription, replies.topicKey);
      } else {
        outcome := topicsManager.UpdateTopic(res.topicKey, res.updatedDescription);
      }
      if outcome.Fail? {
        return outcome;
      }
      lastCleanTime := after;
      ClearBuffer();
      r := Pass;
    }

    method ClearBuffer()
      modifies this
      ensures buffer == []
      ensures lastCleanTime == old(lastCleanTime) && classifierInputs == old(classifierInputs)
    {
      buffer := [];
    }

    method CleanBuffer(reply: Option<string>) returns (r: Outcome<Exception>)
      modifies this
      ensures var res := CleanedBuffer(old(buffer), reply, topicsManager.parse);
        && buffer == (if res.Success? then res.value else old(buffer))
        && r == (if res.Success? then Pass else Fail(res.error))
      ensures lastCleanTime == old(lastCleanTime) && classifierInputs == old(classifierInputs)
    {
      var res := CleanedBuffer(buffer, reply, topicsManager.parse);
      if res.Failure? {
        return Fail(res.error);
      }
      buffer := res.value;
      r := Pass;
    }

    method ChunkBuffer(cleanReply: Option<string>, chunkReply: Option<string>) returns (r: Result<Value, Exception>)
      modifies this
      ensures var res := CleanedBuffer(old(buffer), cleanReply, topicsManager.parse);
        && buffer == (if res.Success? then res.value else old(buffer))
        && r == (if res.Success? then Chunks(buffer, chunkReply, topicsManager.parse) else Failure(res.error))
      ensures lastCleanTime == old(lastCleanTime) && classifierInputs == old(classifierInputs)
    {
      var cleaned := CleanBuffer(cleanReply);
      if cleaned.Fail? {
        return Failure(cleaned.error);
      }
      r := Chunks(buffer, chunkReply, topicsManager.parse);
    }
  }
}
