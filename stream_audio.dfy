/**
 * stream_audio.py: the simpler transcript buffer (its cleaner is the
 * identity and it keeps no hash) and the rule by which `listen_print_loop`
 * turns streaming-recognition responses into buffered lines.
 *
 * Responses are abstract records carrying only the fields the loop reads;
 * `hasattr` checks become `Option`s. The clock is read by the caller: one
 * pair of instants (arrival, end of any flush) per response.
 */
module StreamAudio {
  import opened Wrappers
  import opened Text
  import opened Transcript

  /** The state of the simple buffer; `cleaned` records what each flush printed. */
  datatype StreamState = StreamState(buffer: seq<Entry>, lastCleanTime: int, cleaned: seq<string>)

  /** `clean_transcript`: the identity. */
  function CleanTranscript(transcript: string): (r: string)
    ensures r == transcript
  {
    transcript
  }

  /** The state after `_run_clean`. */
  ghost function AfterRunClean(s: StreamState, after: int): StreamState {
    if s.buffer == [] then s
    else s.(cleaned := s.cleaned + [CleanTranscript(FullTranscript(s.buffer))], lastCleanTime := after)
  }

  /** The state after `add_transcript`. */
  ghost function AfterAddTranscript(s: StreamState, text: string, speakerTag: string, now: int, after: int, cleanInterval: int): StreamState {
    var appended := s.(buffer := s.buffer + [Entry(speakerTag, text, now)]);
    if FlushDue(s.lastCleanTime, now, cleanInterval) then AfterRunClean(appended, after) else appended
  }

  /** One entry is appended at the end; a flush runs exactly when the interval elapsed and only moves the clock. */
  lemma AddTranscriptEffect(s: StreamState, text: string, speakerTag: string, now: int, after: int, cleanInterval: int)
    ensures var t := AfterAddTranscript(s, text, speakerTag, now, after, cleanInterval);
      && t.buffer == s.buffer + [Entry(speakerTag, text, now)]
      && (FlushDue(s.lastCleanTime, now, cleanInterval) ==>
            t.lastCleanTime == after && t.cleaned == s.cleaned + [FullTranscript(t.buffer)])
      && (!FlushDue(s.lastCleanTime, now, cleanInterval) ==>
            t.lastCleanTime == s.lastCleanTime && t.cleaned == s.cleaned)
  {
  }

  /** `_run_clean` on an empty buffer is a no-op. */
  lemma RunCleanEmptyIsNoop(s: StreamState, after: int)
    requires s.buffer == []
    ensures AfterRunClean(s, after) == s
  {
  }

  class TranscriptBuffer {
    var buffer: seq<Entry>
    const cleanInterval: int
    var lastCleanTime: int
    ghost var cleaned: seq<string>

    ghost function State(): StreamState
      reads this
    {
      StreamState(buffer, lastCleanTime, cleaned)
    }

    constructor(cleanIntervalSeconds: int, now: int)
      ensures State() == StreamState([], now, []) && cleanInterval == cleanIntervalSeconds
    {
      buffer := [];
      cleanInterval := cleanIntervalSeconds;
      lastCleanTime := now;
      cleaned := [];
    }

    method AddTranscript(text: string, speakerTag: string, now: int, after: int)
      modifies this
      ensures State() == AfterAddTranscript(old(State()), text, speakerTag, now, after, cleanInterval)
    {
      buffer := buffer + [Entry(speakerTag, text, now)];
      if now - lastCleanTime >= cleanInterval {
        RunClean(after);
      }
    }

    method RunClean(after: int)
      modifies this
      ensures State() == AfterRunClean(old(State()), after)
    {
      if buffer == [] {
        return;
      }
      var rawTranscript := GetFullTranscript();
      var result := CleanTranscript(rawTranscript);
      cleaned := cleaned + [result];
      lastCleanTime := after;
    }

    method GetFullTranscript() returns (r: string)
      ensures r == FullTranscript(buffer)
    {
      r := Serialize(buffer);
    }
  }

  /** A recognised word; `speakerTag` is `None` when the word has no `speaker_tag` attribute. */
  datatype Word = Word(speakerTag: Option<int>)

  /** A recognition alternative; `words` is `None` when it has no `words` attribute. */
  datatype Alternative = Alternative(transcript: string, words: Option<seq<Word>>)

  datatype SpeechResult = SpeechResult(isFinal: bool, alternatives: seq<Alternative>)

  datatype SpeechResponse = SpeechResponse(results: seq<SpeechResult>)

  /**
   * The label put in front of a result: "[Speaker N] " when the result is
   * final and the first word of its first alternative carries a speaker tag N.
   */
  function SpeakerLabel(result: SpeechResult): (r: string)
    requires result.alternatives != []
  {
    var alternative := result.alternatives[0];
    if result.isFinal && alternative.words.Some? && alternative.words.value != []
       && alternative.words.value[0].speakerTag.Some?
    then "[Speaker " + IntToString(alternative.words.value[0].speakerTag.value) + "] "
    else ""
  }

  lemma SpeakerLabelCases(result: SpeechResult)
    requires result.alternatives != []
    ensures var alternative := result.alternatives[0];
      SpeakerLabel(result) != "" <==>
        result.isFinal && alternative.words.Some? && alternative.words.value != []
        && alternative.words.value[0].speakerTag.Some?
  {
  }

  /** The line `listen_print_loop` adds for one response, as (text, speaker label), if any. */
  function Heard(response: SpeechResponse): Option<(string, string)> {
    if response.results == [] then None
    else
      var result := response.results[0];
      if result.alternatives == [] || !result.isFinal then None
      else Some((result.alternatives[0].transcript, SpeakerLabel(result)))
  }

  /** The lines a stream of responses adds, in stream order. */
  function HeardLines(responses: seq<SpeechResponse>): seq<(string, string)> {
    if responses == [] then []
    else
      var init := HeardLines(responses[..|responses| - 1]);
      match Heard(responses[|responses| - 1])
      case Some(line) => init + [line]
      case None => init
  }

  /** The (text, speaker) pairs of a buffer, dropping timestamps. */
  function Lines(buffer: seq<Entry>): (r: seq<(string, string)>)
    ensures |r| == |buffer|
    ensures forall i :: 0 <= i < |buffer| ==> r[i] == (buffer[i].text, buffer[i].speaker)
  {
    seq(|buffer|, i requires 0 <= i < |buffer| => (buffer[i].text, buffer[i].speaker))
  }

  /** Each final result is added exactly once, in stream order: the added lines distribute over concatenation. */
  lemma {:induction false} HeardLinesAppend(a: seq<SpeechResponse>, b: seq<SpeechResponse>)
    ensures HeardLines(a + b) == HeardLines(a) + HeardLines(b)
    decreases |b|
  {
    if b == [] {
      assert a + b == a;
    } else {
      var b' := b[..|b| - 1];
      assert (a + b)[..|a + b| - 1] == a + b';
      assert (a + b)[|a + b| - 1] == b[|b| - 1];
      HeardLinesAppend(a, b');
    }
  }

  /** Interim results, and responses without results or alternatives, add nothing. */
  lemma {:induction false} OnlyFinalResultsAreHeard(responses: seq<SpeechResponse>)
    requires forall i :: 0 <= i < |responses| ==> Heard(responses[i]).None?
    ensures HeardLines(responses) == []
  {
    if responses != [] {
      var init := responses[..|responses| - 1];
      assert forall i :: 0 <= i < |init| ==> init[i] == responses[i];
      OnlyFinalResultsAreHeard(init);
    }
  }

  /** Every added line comes from a final result of some response, in stream order. */
  lemma {:induction false} HeardLinesCount(responses: seq<SpeechResponse>)
    ensures |HeardLines(responses)| <= |responses|
  {
    if responses != [] {
      HeardLinesCount(responses[..|responses| - 1]);
    }
  }

  /**
   * The buffer's state after `listen_print_loop` over `responses`: each line
   * heard is added with `add_transcript`, the arrival and post-flush instants
   * of its response taken from `clock`.
   */
  ghost function AfterResponses(s: StreamState, responses: seq<SpeechResponse>, clock: seq<(int, int)>, cleanInterval: int): StreamState
    requires |clock| == |responses|
  {
    if responses == [] then s
    else
      var n := |responses| - 1;
      var t := AfterResponses(s, responses[..n], clock[..n], cleanInterval);
      match Heard(responses[n])
      case Some(line) => AfterAddTranscript(t, line.0, line.1, clock[n].0, clock[n].1, cleanInterval)
      case None => t
  }

  /** Each line heard becomes one entry, in stream order, after the entries already buffered. */
  lemma {:induction false} AfterResponsesLines(s: StreamState, responses: seq<SpeechResponse>, clock: seq<(int, int)>, cleanInterval: int)
    requires |clock| == |responses|
    ensures Lines(AfterResponses(s, responses, clock, cleanInterval).buffer) == Lines(s.buffer) + HeardLines(responses)
  {
    if responses != [] {
      var n := |responses| - 1;
      var t := AfterResponses(s, responses[..n], clock[..n], cleanInterval);
      AfterResponsesLines(s, responses[..n], clock[..n], cleanInterval);
      match Heard(responses[n])
      case Some(line) =>
        var e := Entry(line.1, line.0, clock[n].0);
        AddTranscriptEffect(t, line.0, line.1, clock[n].0, clock[n].1, cleanInterval);
        assert Lines(t.buffer + [e]) == Lines(t.buffer) + [(e.text, e.speaker)];
      case None =>
    }
  }

  /**
   * `listen_print_loop`: the buffer ends in the state the final results'
   * `add_transcript` calls lead to, so every final result is added, once and
   * in order, with its speaker label, and nothing else is added.
   */
  method ListenPrintLoop(responses: seq<SpeechResponse>, transcriptBuffer: TranscriptBuffer, clock: seq<(int, int)>)
    requires |clock| == |responses|
    modifies transcriptBuffer
    ensures transcriptBuffer.State() == AfterResponses(old(transcriptBuffer.State()), responses, clock, transcriptBuffer.cleanInterval)
    ensures Lines(transcriptBuffer.buffer) == Lines(old(transcriptBuffer.buffer)) + HeardLines(responses)
  {
    ghost var start := transcriptBuffer.State();
    var i := 0;
    while i < |responses|
      invariant 0 <= i <= |responses|
      invariant transcriptBuffer.State() == AfterResponses(start, responses[..i], clock[..i], transcriptBuffer.cleanInterval)
    {
      assert responses[..i + 1][..i] == responses[..i];
      assert clock[..i + 1][..i] == clock[..i];
      var response := responses[i];
      if response.results == [] {
        i := i + 1;
        continue;
      }
      var result := response.results[0];
      if result.alternatives == [] {
        i := i + 1;
        continue;
      }
      var transcript := result.alternatives[0].transcript;
      var speakerTag := SpeakerLabel(result);
      if result.isFinal {
        transcriptBuffer.AddTranscript(transcript, speakerTag, clock[i].0, clock[i].1);
      }
      i := i + 1;
    }
    assert responses[..|responses|] == responses;
    assert clock[..|clock|] == clock;
    AfterResponsesLines(start, responses, clock, transcriptBuffer.cleanInterval);
  }
}
