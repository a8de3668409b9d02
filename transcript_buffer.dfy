/**
 * transcript_buffer.py: the time-triggered transcript buffer with change
 * detection. Lines are appended with a timestamp; a flush serialises the
 * buffer, hashes it, and hands it to the cleaning collaborator only when the
 * hash differs from the one recorded at the previous cleaning.
 *
 * The collaborator's reply is an input (`None` when the call raised), the
 * SHA-256 digest is an uninterpreted function `hash` fixed at construction,
 * and the clock is read by the caller: `now` is the instant the line arrives,
 * `after` the instant read once the flush is over.
 */
module CleaningBuffer {
  import opened Wrappers
  import opened Text
  import opened Transcript

  /** `TranscriptCleaningResponse`. */
  datatype CleaningResult = CleaningResult(cleanedTranscript: string, topicFinished: bool)

  /**
   * `clean_transcript`: the collaborator's structured reply, or, when the call
   * raised, the transcript itself with `topic_finished` false. It never fails.
   */
  function CleanTranscript(transcript: string, reply: Option<CleaningResult>): (r: CleaningResult)
    ensures reply.None? ==> r.cleanedTranscript == transcript && !r.topicFinished
    ensures reply.Some? ==> r == reply.value
  {
    match reply
    case Some(response) => response
    case None => CleaningResult(transcript, false)
  }

  /**
   * The buffer's observable state. `cleanerInputs` records, in order, every
   * transcript handed to `clean_transcript`: it is the model's record of the
   * collaborator calls made.
   */
  datatype CleanerState = CleanerState(
    buffer: seq<Entry>,
    lastCleanTime: int,
    lastHash: Option<string>,
    lastCleaningResult: Option<CleaningResult>,
    cleanerInputs: seq<string>)

  /** A flush from state `s` would call the cleaner. */
  ghost predicate CallsCleaner(s: CleanerState, hash: string -> string) {
    s.buffer != [] && Some(hash(FullTranscript(s.buffer))) != s.lastHash
  }

  /** The state after `_run_clean`. */
  ghost function AfterRunClean(s: CleanerState, hash: string -> string, reply: Option<CleaningResult>, after: int): CleanerState {
    if s.buffer == [] then s
    else
      var raw := FullTranscript(s.buffer);
      var currentHash := hash(raw);
      if Some(currentHash) != s.lastHash then
        s.(lastCleaningResult := Some(CleanTranscript(raw, reply)),
           lastHash := Some(currentHash),
           cleanerInputs := s.cleanerInputs + [raw],
           lastCleanTime := after)
      else
        s.(lastCleanTime := after)
  }

  /** The state after `add_transcript`. */
  ghost function AfterAddTranscript(
    s: CleanerState, text: string, speakerTag: string, now: int, after: int,
    cleanInterval: int, hash: string -> string, reply: Option<CleaningResult>): CleanerState
  {
    var appended := s.(buffer := s.buffer + [Entry(speakerTag, text, now)]);
    if FlushDue(s.lastCleanTime, now, cleanInterval) then AfterRunClean(appended, hash, reply, after)
    else appended
  }

  /** `add_transcript` appends exactly one entry and leaves the earlier ones alone; a flush never touches the buffer. */
  lemma AddAppendsOneEntry(
    s: CleanerState, text: string, speakerTag: string, now: int, after: int,
    cleanInterval: int, hash: string -> string, reply: Option<CleaningResult>)
    ensures var t := AfterAddTranscript(s, text, speakerTag, now, after, cleanInterval, hash, reply);
      t.buffer == s.buffer + [Entry(speakerTag, text, now)]
  {
  }

  /** A flush runs exactly when the interval has elapsed; otherwise only the buffer changes. */
  lemma AddFlushesIffDue(
    s: CleanerState, text: string, speakerTag: string, now: int, after: int,
    cleanInterval: int, hash: string -> string, reply: Option<CleaningResult>)
    ensures var t := AfterAddTranscript(s, text, speakerTag, now, after, cleanInterval, hash, reply);
      && (FlushDue(s.lastCleanTime, now, cleanInterval) ==> t.lastCleanTime == after)
      && (!FlushDue(s.lastCleanTime, now, cleanInterval) ==> t == s.(buffer := t.buffer))
  {
  }

  /** `_run_clean` on an empty buffer changes nothing, not even the clock. */
  lemma RunCleanEmptyIsNoop(s: CleanerState, hash: string -> string, reply: Option<CleaningResult>, after: int)
    requires s.buffer == []
    ensures AfterRunClean(s, hash, reply, after) == s
  {
  }

  /** An unchanged hash skips the cleaner and keeps the last result and hash; only the clock moves. */
  lemma UnchangedHashSkipsCleaner(s: CleanerState, hash: string -> string, reply: Option<CleaningResult>, after: int)
    requires s.buffer != [] && s.lastHash == Some(hash(FullTranscript(s.buffer)))
    ensures AfterRunClean(s, hash, reply, after) == s.(lastCleanTime := after)
  {
  }

  /** After a flush on changed content the hash and the cleaner's result are recorded. */
  lemma ChangedContentIsRecorded(s: CleanerState, hash: string -> string, reply: Option<CleaningResult>, after: int)
    requires CallsCleaner(s, hash)
    ensures var t := AfterRunClean(s, hash, reply, after);
      var raw := FullTranscript(s.buffer);
      && t.buffer == s.buffer
      && t.lastHash == Some(hash(raw))
      && t.lastCleaningResult == Some(CleanTranscript(raw, reply))
      && t.cleanerInputs == s.cleanerInputs + [raw]
      && t.lastCleanTime == after
  {
  }

  /** Two flushes with no line added in between call the cleaner at most once. */
  lemma RepeatedFlushCallsCleanerOnce(
    s: CleanerState, hash: string -> string, reply1: Option<CleaningResult>, after1: int,
    reply2: Option<CleaningResult>, after2: int)
    ensures var t := AfterRunClean(s, hash, reply1, after1);
      && !CallsCleaner(t, hash)
      && AfterRunClean(t, hash, reply2, after2).cleanerInputs == t.cleanerInputs
      && |t.cleanerInputs| <= |s.cleanerInputs| + 1
  {
  }

  class TranscriptBuffer {
    var buffer: seq<Entry>
    const cleanInterval: int
    var lastCleanTime: int
    var lastHash: Option<string>
    var lastCleaningResult: Option<CleaningResult>
    /** `hashlib.sha256(...).hexdigest()`, left uninterpreted. */
    const hash: string -> string
    ghost var cleanerInputs: seq<string>

    ghost function State(): CleanerState
      reads this
    {
      CleanerState(buffer, lastCleanTime, lastHash, lastCleaningResult, cleanerInputs)
    }

    constructor(cleanIntervalSeconds: int, now: int, hash: string -> string)
      ensures State() == CleanerState([], now, None, None, [])
      ensures cleanInterval == cleanIntervalSeconds && this.hash == hash
    {
      buffer := [];
      cleanInterval := cleanIntervalSeconds;
      lastCleanTime := now;
      lastHash := None;
      lastCleaningResult := None;
      this.hash := hash;
      cleanerInputs := [];
    }

    method AddTranscript(text: string, speakerTag: string, now: int, after: int, reply: Option<CleaningResult>)
      modifies this
      ensures State() == AfterAddTranscript(old(State()), text, speakerTag, now, after, cleanInterval, hash, reply)
    {
      buffer := buffer + [Entry(speakerTag, text, now)];
      if now - lastCleanTime >= cleanInterval {
        RunClean(reply, after);
      }
    }

    method RunClean(reply: Option<CleaningResult>, after: int)
      modifies this
      ensures State() == AfterRunClean(old(State()), hash, reply, after)
    {
      if buffer == [] {
        return;
      }
      var rawTranscript := GetFullTranscript();
      var currentHash := hash(rawTranscript);
      if Some(currentHash) != lastHash {
        var cleaningResult := CleanTranscript(rawTranscript, reply);
        cleanerInputs := cleanerInputs + [rawTranscript];
        lastCleaningResult := Some(cleaningResult);
        lastHash := Some(currentHash);
      }
      lastCleanTime := after;
    }

    method GetFullTranscript() returns (r: string)
      ensures r == FullTranscript(buffer)
    {
      r := Serialize(buffer);
    }

    /** True only when a cleaning result exists and it says the topic finished. */
    function IsTopicFinished(): (r: bool)
      reads this
      ensures r <==> lastCleaningResult.Some? && lastCleaningResult.value.topicFinished
      ensures lastCleaningResult.None? ==> !r
    {
      match lastCleaningResult
      case Some(result) => result.topicFinished
      case None => false
    }

    function GetLastCleaningResult(): (r: Option<CleaningResult>)
      reads this
      ensures r == lastCleaningResult
    {
      lastCleaningResult
    }
  }
}
