# Real-time recommendations: transcript buffers, chunking and topic registry

This project models the sequential core of a live-meeting assistant. Speech
recognition feeds transcript lines into a buffer. A timer-driven flush hands
the buffer to a generative model. The chunking pipeline then groups the
cleaned lines into chunks, classifies them and records the result in a topic
registry.

The model has four parts, one Dafny module each:

- `CleaningBuffer` (transcript_buffer.py) is the time-triggered buffer with
  change detection. A flush serialises the buffer and hashes it. It calls
  the cleaner only when the hash differs from the last recorded one, and it
  always resets the clock.
- `StreamAudio` (stream_audio.py) holds the simpler twin buffer, whose cleaner
  is the identity, and the rule by which `listen_print_loop` turns streaming
  responses into buffered lines.
- `Topics` (topic_manager.py) is the insertion-ordered registry from topic key
  to summary and content stack. It also covers the code-fence extraction
  used for new topic keys and for `classify_chunk`.
- `Chunker` (transcript_buffer_chunker.py) is the line buffer whose flush
  re-cleans, chunks, classifies and records, using the bracket-extraction
  rule and its fallbacks.

Shared modules:

- `Transcript` holds the buffered entry, the flush trigger and
  `get_full_transcript`.
- `Text` holds the Python `str` operations the core relies on: `strip`,
  `split`, `join`, `find`, `rfind`, slicing and `str(int)`.
- `Json` holds decoded JSON values with truthiness, `dict.get`, hashability
  and `str()`.
- `Wrappers` holds `Option`, `Result`, `Outcome` and the exception kinds.

Collaborators are abstracted as follows:

- The clock is supplied by the caller. `now` is the instant a line arrives.
  `after` is the instant read once a flush is over.
- Every generative-model reply is an input. An `Option<string>` stands for
  the reply text, and `None` means the call, or the access to its text,
  raised. For transcript_buffer.py the structured reply is an
  `Option<CleaningResult>`.
- `json.loads` is a parameter `parse: string -> Option<Value>`, where `None`
  is a decode error.
- SHA-256 is an uninterpreted `hash: string -> string`. No property relies on
  it being injective.
- Two classes record, in a ghost field, the inputs they handed to a
  collaborator: `cleanerInputs` (transcript_buffer.py) and
  `classifierInputs` (transcript_buffer_chunker.py). That is how the
  contracts count collaborator calls. The stream_audio.py buffer calls no
  collaborator; its ghost field `cleaned` records what each flush
  printed, the output of the identity cleaner.

Methods that change state are specified by a pure transition function such as
`AfterRunClean`, `AfterAddTranscript`, `AfterAddLine` or `Commit`. The
properties the source promises are proved as lemmas about those functions.

## Model

| member | source | states |
|---|---|---|
| Text.IsSpace | transcript_buffer.py:93-94 | the character set Python's `str.isspace()` accepts, which every `strip()` here removes from both ends |
| Text.Strip | transcript_buffer.py:93-94 | `strip()` yields an infix with no whitespace at either end, and only whitespace was removed around it |
| Text.StripEmptyIff | transcript_buffer_chunker.py:106 | a line strips to empty exactly when it is all whitespace, which is the filter the comprehensions apply |
| Text.StripIdempotent | topic_manager.py:56 | stripping an already stripped reply changes nothing |
| Text.FindFrom | topic_manager.py:39-40 | `find(sub, start)` is the first occurrence at or after `start`, or -1 when there is none |
| Text.FindCharIsFind | transcript_buffer_chunker.py:99 | the one-character search used for `find('[')` agrees with the general `find` from index 0 |
| Text.FindChar | transcript_buffer_chunker.py:99 | `find('[')` is the first index holding '[', or -1 exactly when '[' is absent |
| Text.RFindChar | transcript_buffer_chunker.py:100 | `rfind(']')` is the last index holding ']', or -1 exactly when ']' is absent |
| Text.ClampIndex | topic_manager.py:41 | a Python slice bound is normalised: in range it is kept, a negative bound counts from the end, a bound above the length becomes the length and one below minus the length becomes 0 |
| Text.Slice | topic_manager.py:41 | Python's `s[i:j]`: for in-range bounds it is the infix from i to j, and it is never longer than s |
| Text.Split | transcript_buffer_chunker.py:106 | `split('\n')` gives at least one piece and no piece holds the separator |
| Text.SplitJoin | transcript_buffer.py:99 | splitting a newline-join of newline-free lines on the newline gives the lines back |
| Text.Join | transcript_buffer.py:99 | defines `sep.join(xs)`; its properties used here are SplitJoin and FullTranscriptAppend |
| Text.Contains | topic_manager.py:38 | `sub in s` holds exactly when sub occurs at some position |
| Text.IntToString | stream_audio.py:127 | `str(n)` of a speaker tag is its decimal digits, after a minus sign when negative, so NatToStringRoundTrip and NatToStringNoLeadingZero apply to it |
| Text.NatToStringRoundTrip | stream_audio.py:127 | the decimal digits written for a speaker tag read back as that number |
| Text.NatToStringNoLeadingZero | stream_audio.py:127 | the digits of a positive number start with a non-zero digit, so together with NatToStringRoundTrip they are Python's `str(n)` |
| Json.Get | topic_manager.py:50 | `dict.get(key)` on the decoded dict gives None when no member is named `key`, and otherwise the value of the last member so named, as `json.loads` keeps the last of repeated names |
| Json.Truthy | transcript_buffer_chunker.py:50 | defines `not v` for decoded values: None, false, 0, the empty string, list and dict are falsy |
| Json.Hashable | topic_manager.py:60 | defines which decoded values can be dict keys: all but lists and dicts |
| Json.Repr | topic_manager.py:73 | defines Python's `repr` of a decoded value, used when `str()` displays a list or dict |
| Json.AsStrings | transcript_buffer_chunker.py:109 | a decoded value is taken as buffer lines exactly when it is an array of strings, and it is those strings |
| Json.Display | topic_manager.py:73 | `str()` of a string is the string itself, and of None is "None" |
| Transcript.FlushDue | transcript_buffer.py:41 | a flush is due once at least `clean_interval` has passed since the last one: `>=`, so a line arriving exactly at the interval triggers it (the same test is at stream_audio.py:24 and transcript_buffer_chunker.py:40) |
| Transcript.Render | transcript_buffer.py:93-96 | one entry's line is its stripped speaker immediately followed by its stripped text, with no separator (the same rendering is at stream_audio.py:48-51) |
| Transcript.RenderBranches | transcript_buffer.py:93-98 | both branches of the per-entry rendering equal the stripped speaker followed directly by the stripped text |
| Transcript.RenderAllAt | transcript_buffer.py:92-98 | line `i` of the rendering is entry `i` rendered, in buffer order |
| Transcript.Serialize | transcript_buffer.py:90-99 | the accumulating loop returns the newline-join of the rendered entries |
| Transcript.FullTranscriptLines | transcript_buffer.py:90-99 | when no rendered entry holds a newline, the transcript splits back into exactly one line per entry, in order |
| Transcript.FullTranscriptAppend | transcript_buffer.py:90-99 | appending an entry appends a newline and its rendered line, or gives just that line on an empty buffer |
| Transcript.RenderGluesSpeakerLabel | stream_audio.py:48-51 | "[Speaker 1] " and "hi" serialise as "[Speaker 1]hi", because the label's trailing space is stripped |
| CleaningBuffer.CleanTranscript | transcript_buffer.py:70-88 | a failed call gives the input transcript with `topic_finished` false, and otherwise the structured reply |
| CleaningBuffer.AfterRunClean | transcript_buffer.py:45-68 | defines the flush transition; its properties are RunCleanEmptyIsNoop, UnchangedHashSkipsCleaner, ChangedContentIsRecorded and RepeatedFlushCallsCleanerOnce |
| CleaningBuffer.AfterAddTranscript | transcript_buffer.py:36-42 | defines the add transition; its properties are AddAppendsOneEntry and AddFlushesIffDue |
| CleaningBuffer.AddAppendsOneEntry | transcript_buffer.py:36-39 | adding a line appends exactly one entry with that speaker, text and timestamp, and a flush never changes the buffer |
| CleaningBuffer.AddFlushesIffDue | transcript_buffer.py:41-42 | when the interval has elapsed the clock is reset; otherwise only the buffer changes |
| CleaningBuffer.RunCleanEmptyIsNoop | transcript_buffer.py:46-47 | a flush of an empty buffer changes nothing, not even the clock |
| CleaningBuffer.UnchangedHashSkipsCleaner | transcript_buffer.py:49-68 | an unchanged hash skips the cleaner and keeps the last hash and result; only the clock moves |
| CleaningBuffer.ChangedContentIsRecorded | transcript_buffer.py:49-68 | on changed content the cleaner is called once on the serialised buffer; its result and the hash are stored, the buffer is kept and the clock is reset |
| CleaningBuffer.RepeatedFlushCallsCleanerOnce | transcript_buffer.py:45-68 | after a flush, another flush with no line added does not call the cleaner; two flushes call it at most once |
| CleaningBuffer.TranscriptBuffer.constructor | transcript_buffer.py:23-28 | the buffer starts empty with no hash and no result, and the clock is set to the construction instant |
| CleaningBuffer.TranscriptBuffer.AddTranscript | transcript_buffer.py:36-42 | the new state is the append followed, when due, by the flush transition |
| CleaningBuffer.TranscriptBuffer.RunClean | transcript_buffer.py:45-68 | the new state is the flush transition of the old state |
| CleaningBuffer.TranscriptBuffer.GetFullTranscript | transcript_buffer.py:90-99 | returns the serialised buffer |
| CleaningBuffer.TranscriptBuffer.IsTopicFinished | transcript_buffer.py:101-103 | true exactly when a result exists and its `topic_finished` is set, so false when there is no result |
| CleaningBuffer.TranscriptBuffer.GetLastCleaningResult | transcript_buffer.py:105-107 | returns the stored result |
| StreamAudio.CleanTranscript | stream_audio.py:42-43 | the cleaner is the identity |
| StreamAudio.AfterRunClean | stream_audio.py:27-40 | defines the flush transition; its properties are RunCleanEmptyIsNoop and AddTranscriptEffect |
| StreamAudio.AfterAddTranscript | stream_audio.py:19-25 | defines the add transition; its property is AddTranscriptEffect |
| StreamAudio.AddTranscriptEffect | stream_audio.py:19-40 | one entry is appended at the end and a flush runs exactly when due; the flush resets only the clock and cleans the whole buffer |
| StreamAudio.RunCleanEmptyIsNoop | stream_audio.py:28-29 | a flush of an empty buffer changes nothing |
| StreamAudio.TranscriptBuffer.constructor | stream_audio.py:14-17 | the buffer starts empty and the clock is set to the construction instant |
| StreamAudio.TranscriptBuffer.AddTranscript | stream_audio.py:19-25 | the new state is the append followed, when due, by the flush transition |
| StreamAudio.TranscriptBuffer.RunClean | stream_audio.py:27-40 | the new state is the flush transition of the old state |
| StreamAudio.TranscriptBuffer.GetFullTranscript | stream_audio.py:45-54 | returns the serialised buffer |
| StreamAudio.SpeakerLabel | stream_audio.py:119-127 | defines the speaker label; SpeakerLabelCases states when it is non-empty |
| StreamAudio.Heard | stream_audio.py:109-137 | defines the line one response adds: none without results, without alternatives or for an interim result |
| StreamAudio.HeardLines | stream_audio.py:107-138 | defines the lines a stream adds; its properties are HeardLinesAppend, OnlyFinalResultsAreHeard and HeardLinesCount |
| StreamAudio.AfterResponses | stream_audio.py:107-138 | defines the buffer state after the loop, one `add_transcript` per final result |
| StreamAudio.AfterResponsesLines | stream_audio.py:107-138 | the loop's additions are exactly the heard lines, after the buffered ones, in stream order |
| StreamAudio.SpeakerLabelCases | stream_audio.py:119-127 | the label is non-empty exactly when the result is final and the first word of its first alternative carries a speaker tag |
| StreamAudio.OnlyFinalResultsAreHeard | stream_audio.py:109-135 | responses with no results, no alternatives or only interim results add nothing |
| StreamAudio.HeardLinesAppend | stream_audio.py:107-138 | the lines added for a stream are those for its prefix followed by those for the rest, so stream order is kept |
| StreamAudio.HeardLinesCount | stream_audio.py:107-138 | a stream adds at most one line per response |
| StreamAudio.ListenPrintLoop | stream_audio.py:107-138 | the new buffer state is that of one `add_transcript` per final result, in stream order, with that response's instants; hence the buffer gains exactly the final results' (text, label) lines after the lines it already held |
| Topics.Registry.AddNew | topic_manager.py:60 | storing under an unhashable key raises TypeError; otherwise the key maps to the summary with an empty content stack |
| Topics.Registry.Update | topic_manager.py:76-77 | raises KeyError on an absent key and TypeError on an unhashable one; otherwise the key set and order are unchanged |
| Topics.Registry.Extend | topic_manager.py:79-82 | raises ValueError on an absent key and TypeError on an unhashable one; otherwise the key set and order are unchanged |
| Topics.Registry.Content | topic_manager.py:84-87 | raises ValueError exactly when the key is absent, or TypeError when it is unhashable |
| Topics.Registry.Summary | topic_manager.py:89-92 | raises ValueError exactly when the key is absent, or TypeError when it is unhashable |
| Topics.Registry.Summaries | topic_manager.py:64-65 | has exactly the registry's keys and maps each to its current summary |
| Topics.Registry.TopicLines | topic_manager.py:71-73 | one "key: summary" line per topic, in insertion order |
| Topics.Registry.Insert | topic_manager.py:60 | defines `self.topics[key] = topic` on the insertion-ordered dict; InsertValid states its effect on the order |
| Topics.Registry.Listing | topic_manager.py:67-74 | defines the listing; ListingLines states its properties |
| Topics.InsertValid | topic_manager.py:60 | a store keeps every key listed once; a new key goes last and an existing key keeps its position |
| Topics.AddNewEffect | topic_manager.py:60 | the key reads back with the summary and an empty stack, every other key is untouched, and the registry grows by at most one |
| Topics.UpdateEffect | topic_manager.py:76-77 | only that topic's summary changes; every content stack and every other summary is untouched |
| Topics.ExtendEffect | topic_manager.py:79-82 | the content goes on top of that topic's stack; every summary and every other stack is untouched |
| Topics.ListingLines | topic_manager.py:67-74 | the listing is "No topics available" exactly when there are no topics; when no key or summary displays with a newline, it splits into one line per topic in insertion order |
| Topics.NewTopicKey | topic_manager.py:33-56 | an undecodable reply gives the stripped reply text as the key; a decoded object gives its "topic_key" member, or None; AttributeError happens exactly when the reply decodes to something other than an object |
| Topics.FenceCandidate | topic_manager.py:38-47 | defines the fence extraction; the Fence lemmas and NoFenceIsWholeReply state its three cases |
| Topics.AfterAddNewTopic | topic_manager.py:24-60 | defines the registry after `add_new_topic`; AddNewTopicFailures and UndecodableReplyIsKey state its properties |
| Topics.ClassifyChunk | topic_manager.py:94-146 | a decoded object gives its "topic_key" and "updated_description" members; a failed call, an undecodable reply or a decoded non-object gives (None, None) |
| Topics.FenceExtractsJsonBody | topic_manager.py:38-41 | with the first "```json" at a and the first "```" after it at q, the candidate is the text from a + 7 to q, stripped |
| Topics.FenceExtractsBareBody | topic_manager.py:42-45 | with no "```json", the first "```" at a and the next "```" after it at q, the candidate is the text from a + 3 to q, stripped |
| Topics.UnclosedFenceDropsLastChar | topic_manager.py:39-41 | when no "```" follows the first "```json", `find` gives -1, so the slice drops the reply's last character (and is empty when the fence ends the reply) |
| Topics.UnclosedBareFenceDropsLastChar | topic_manager.py:42-45 | the same for a bare "```" with no "```json" anywhere and no closing "```": the slice drops the reply's last character |
| Topics.NoFenceIsWholeReply | topic_manager.py:46-47 | a reply that contains no "```" is parsed whole |
| Topics.FencedReplyExample | topic_manager.py:38-49 | a reply with text around a "```json" fence holding "{}" yields "{}" |
| Topics.ClassifyFencedReply | topic_manager.py:117-137 | when the stripped reply's first "```json" fence holds text that decodes to an object, the result is that object's "topic_key" and "updated_description" members |
| Topics.UndecodableReplyIsKey | topic_manager.py:52-60 | an undecodable key reply stores the summary under the stripped reply text |
| Topics.AddNewTopicFailures | topic_manager.py:32-60 | adding raises exactly when the call fails, the decoded value has no `get`, or the key is unhashable |
| Topics.TopicManager.constructor | topic_manager.py:18-19 | the registry starts empty |
| Topics.TopicManager.AddNewTopic | topic_manager.py:24-60 | the new registry is the key-derived store, or the old one when it raised, and the registry stays well formed |
| Topics.TopicManager.ListTopics | topic_manager.py:64-65 | returns exactly the registry's keys, each with its current summary |
| Topics.TopicManager.ListTopicsString | topic_manager.py:67-74 | the loop returns the listing: the empty message, or the newline-join of the lines in insertion order |
| Topics.TopicManager.UpdateTopic | topic_manager.py:76-77 | commits the update, or leaves the registry unchanged and reports its exception |
| Topics.TopicManager.ExtendTopic | topic_manager.py:79-82 | commits the push, or leaves the registry unchanged and reports ValueError or TypeError |
| Topics.TopicManager.GetTopicContent | topic_manager.py:84-87 | raises ValueError exactly for an absent key (TypeError for an unhashable one), otherwise returns the key's content stack |
| Topics.TopicManager.GetTopicSummary | topic_manager.py:89-92 | raises ValueError exactly for an absent key (TypeError for an unhashable one), otherwise returns the key's summary |
| Chunker.BracketCandidateFound | transcript_buffer_chunker.py:95-104 | JSON is looked for exactly when the stripped reply holds both a '[' and a ']' |
| Chunker.BracketCandidate | transcript_buffer_chunker.py:95-103 | the candidate handed to the parser either is empty or starts with '[' and ends with ']' |
| Chunker.BracketSpan | transcript_buffer_chunker.py:99-103 | the slice from the first '[' to the last ']' either is empty or starts with '[' and ends with ']' |
| Chunker.SpanBetween | transcript_buffer_chunker.py:102-103 | with `start` a found '[' (or -1) and `end` just past a found ']' (or 0), a slice is taken exactly when both were found, and it is empty or bracketed |
| Chunker.BracketSpanAt | transcript_buffer_chunker.py:102-103 | with a '[' at `p` and a ']' at `q > p`, the span taken is exactly `t[p..q+1]` |
| Chunker.BracketCandidateExtracts | transcript_buffer_chunker.py:95-103 | with the first '[' at p and the last ']' at q, the parsed text is the slice from p through q inclusive, which is the whole reply when it is bracketed |
| Chunker.BracketCandidateReversed | transcript_buffer_chunker.py:99-103 | when the last ']' comes before the first '[', the parser is handed the empty slice |
| Chunker.Iterable | transcript_buffer_chunker.py:45 | `enumerate(chunks)` iterates a decoded string, list or object and raises TypeError on a number, a boolean or None |
| Chunker.StrippedNonEmpty | transcript_buffer_chunker.py:106 | the comprehension never lengthens the list, and every line it keeps is non-empty and stripped |
| Chunker.StrippedNonEmptySingleton | transcript_buffer_chunker.py:106 | one line is kept as that line stripped, or dropped when it is blank; with StrippedNonEmptyAppend this fixes the comprehension's whole result |
| Chunker.StrippedNonEmptyAppend | transcript_buffer_chunker.py:115 | the comprehension distributes over concatenation, so line order is preserved |
| Chunker.StrippedNonEmptyEmptyIff | transcript_buffer_chunker.py:115 | the result is empty exactly when every line is blank |
| Chunker.StrippedNonEmptyIdempotent | transcript_buffer_chunker.py:115 | cleaning already cleaned lines changes nothing |
| Chunker.CleanedBuffer | transcript_buffer_chunker.py:88-115 | a failed model call raises and leaves no new buffer |
| Chunker.CleanedBufferTakesArray | transcript_buffer_chunker.py:95-109 | when the bracketed candidate (the whole stripped reply, or the span from its first '[' to its last ']') decodes to an array of strings, those strings become the buffer |
| Chunker.CleanedBufferFallback | transcript_buffer_chunker.py:111-115 | an undecodable bracketed reply keeps the old lines stripped and non-blank, in order; the result is empty exactly when every line is blank |
| Chunker.CleanedBufferPlainText | transcript_buffer_chunker.py:104-106 | a reply without a bracket pair becomes its own stripped, non-blank lines |
| Chunker.SingleChunk | transcript_buffer_chunker.py:165 | the fallback is one chunk holding exactly the buffer's lines |
| Chunker.Chunks | transcript_buffer_chunker.py:147-174 | fails only when the call fails; with no bracket pair, or undecodable JSON, it is the single chunk of the buffer; otherwise it is the decoded value |
| Chunker.AddLineBeforeInterval | transcript_buffer_chunker.py:37-40 | before the interval elapses, a line is appended; the registry, the clock and the classifier are untouched |
| Chunker.Record | transcript_buffer_chunker.py:50-53 | defines the registry step: a falsy key adds a new topic, any other key is updated; RecordTouchesOneTopic states its effect |
| Chunker.Flush | transcript_buffer_chunker.py:40-58 | defines the flush transition; FlushOutcome and FlushPassIff state its properties |
| Chunker.AfterAddLine | transcript_buffer_chunker.py:37-58 | defines the add-line transition; AddLineBeforeInterval states the case before the interval |
| Chunker.ClassifierInput | transcript_buffer_chunker.py:42-48 | defines the chunk list handed to `classify_chunk`, if the flush gets that far |
| Chunker.FlushOutcome | transcript_buffer_chunker.py:40-58 | `classify_chunk` is called at most once, on the chunk list `chunk_buffer` returned; a completed flush made that call, emptied the buffer and reset the clock; a raising flush keeps the clock and the registry, and the buffer as cleaning left it |
| Chunker.FlushPassIff | transcript_buffer_chunker.py:40-58 | a flush completes exactly when cleaning, chunking, iterating the chunks and recording all succeed |
| Chunker.RecordTouchesOneTopic | transcript_buffer_chunker.py:50-53 | recording writes the new description as the summary of exactly one topic and keeps the registry well formed |
| Chunker.FlushKeepsRegistryValid | transcript_buffer_chunker.py:48-53 | a flush keeps the registry well formed |
| Chunker.FailedClassificationCreatesTopic | transcript_buffer_chunker.py:48-51 | a failed classification creates a new topic whose summary is None |
| Chunker.TranscriptBufferChunker.constructor | transcript_buffer_chunker.py:21-34 | the buffer starts empty, the clock is set and the interval is 10 seconds |
| Chunker.TranscriptBufferChunker.AddTranscriptLine | transcript_buffer_chunker.py:37-58 | the new state and outcome are the add-line transition of the old state |
| Chunker.TranscriptBufferChunker.ClearBuffer | transcript_buffer_chunker.py:62-63 | the buffer becomes empty and nothing else changes |
| Chunker.TranscriptBufferChunker.CleanBuffer | transcript_buffer_chunker.py:66-115 | the buffer becomes the cleaned lines, or is kept when cleaning raised |
| Chunker.TranscriptBufferChunker.ChunkBuffer | transcript_buffer_chunker.py:117-174 | cleans first, then returns the chunks of the cleaned buffer |

## Left out

- Prompts, console output (`print`, `sys.stdout`, the `num_chars_printed` padding) and the generative-model clients are not modelled. They are I/O or foreign network calls.
- `MicrophoneStream`, the speech client and `main` in stream_audio.py are not modelled. They are audio I/O, an audio thread and wiring.
- transcriber.py, fullflow.py, example_usage.py, test_instructor_integration.py and config.py are not part of this model. They are wiring, demo scripts or constants.
- Instants are integers, while `time()` returns a float number of seconds. The chunker's interval is fixed at 10 of the model's units.
- Json.Repr: an object with a repeated member name displays every member, where Python's dict keeps one.
- The clock: the source reads `time()` separately for the timestamp and for the due check. The model uses one `now` for both, plus `after` for the reset.
- Reply contents are not functions of the prompts. In particular, `chunk_buffer`'s `topics` argument and `classify_chunk`'s call to `list_topics_string` only feed prompts.
- `hasattr` checks on response records become `Option` fields, and a speaker tag is an integer.
- Python's `True == 1` dictionary-key equality, and floats in JSON, are not modelled.
- Python `repr` escapes are modelled only for backslash, newline, carriage return, tab and the quote character.
- Chunker.CleanedBuffer: decoded JSON that is not a list of strings is stored by the source as `self.buffer`. The flush then fails at the join that builds the chunking prompt (transcript_buffer_chunker.py:135), except for a string or an object of string keys, which that join accepts. The clock is not reset, and the stored value stays: later flushes fail the same way, before any model call, and a later `append` fails outright on a non-list. The model raises TypeError at once and keeps the previous buffer, so its later flushes can succeed.
- Topics.TopicManager.GetTopicContent: returns the content stack as a value. Aliasing of the returned list with the registry is not modelled.
- A model reply whose text access raises inside the `_clean_buffer` or `chunk_buffer` handler re-raises from that handler. The model reports this as a collaborator failure with the buffer unchanged.
- SHA-256 is not modelled. Its digest is an uninterpreted function and no property assumes injectivity.
