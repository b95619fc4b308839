# MOM meeting-minutes helper: a Dafny model of its core

The repository turns meeting audio into a speaker-labelled transcript and asks a
chat-completion service for "Minutes of Meeting". Speech recognition, the chat
service and the UI are external. The logic of its own is the subject of this model:

- the speaker-turn formatter `create_transcript`, in src/utils.py and again with an
  empty-response guard in src/app.py;
- the file-name filter `sanitize_filename`;
- the prompt templates of src/app.py and src/mom_generator.py;
- the two live `TranscriptCollector`s and their `on_message` handlers, in
  src/deepgram_live.py and live_speech.py;
- `MoMGenerator`, with its API-key check, its English shortcut, its fixed-count
  retry loop and its lazily created shared instance.

There is one Dafny module per source file: `Utils`, `App`, `DeepgramLive`,
`LiveSpeech` and `MomGenerator`. Five small modules support them:

- `Wrappers`: Option and Result.
- `Text`: the Python string operations the code uses, which are `strip()`
  truthiness, `sep.join`, `str(n)` and `lower()`. It also defines the model's own
  vocabulary for stating properties of strings: prefix, suffix and substring.
- `Service`: the outcome of one chat-completion request.
- `LiveEvents`: the fields of a live recognition event that the handlers read.
- `Environment`: the API-key check that both `__init__` methods make, and the
  error it raises.

Code that loops or changes objects is imperative Dafny. The two loops
(`create_transcript` and `generate_mom`) and the Deepgram handler are proved equal
to specification functions (`TranscriptOf`, `Outcome`, `OnMessageEffect`), and the
properties are lemmas about those functions. The collectors, the live_speech
handler and the shared-instance getter state their new state directly in their
`ensures`. The live_speech handler is also tied to the fold `Collected`.

An exception that the code raises to its caller is a `Result` error, or the
`Raised` outcome of `generate_mom`. The Deepgram handler swallows every
exception in its `try`; `callbackRaises` says whether the callback raises there.
The live_speech handler has no `try`: when reading the transcript fails, the
exception escapes to the SDK that called the handler, and the handler returns
`raised`. What the SDK does with it is not modelled. External
services are function parameters. A `Reply` is a completion or a failure. In
`generate_mom`, `replies(i)` is the reply to attempt `i`.

## Model

| member | source | states |
|---|---|---|
| Utils.Decode | src/utils.py:172-174 | the words decode exactly when every record has both keys. Decoded words match the records one for one. On failure, the error is that of the first bad record |
| Utils.DecodeErrPrefix | src/utils.py:172-174 | once a prefix of the records fails, the whole list fails with the same error |
| Utils.DecodeWord | src/utils.py:173-174 | a record decodes exactly when both keys are present. `speaker` is read first, so its absence is the error even when both keys are missing |
| Utils.Step | src/utils.py:176-183 | one iteration: the current speaker becomes the word's. A line is closed exactly when the speaker changes |
| Utils.Scan | src/utils.py:169-183 | the loop state after the words: it starts at speaker 0 with an empty line, and never closes more lines than there are words |
| Utils.Tag | src/utils.py:179-186 | a line's tag is "SPEAKER ", `str(speaker)`, ":" and the line's body, as both f-strings build it (a definition without a contract of its own; `TagShape` and `ExampleTags` state its shape) |
| Utils.TagShape | src/utils.py:179-186 | a tag starts with "SPEAKER " and ends with ":" followed by the line's body |
| Utils.Terminated | src/utils.py:180-182 | builds each closed line's tag followed by "\n"; its contract states one string per closed line |
| Utils.Render | src/utils.py:186-188 | each closed line's tag with its "\n", then the final line's tag without one, joined by "\n" (a definition; `RenderSeparators` and `RenderEndsWithFinal` state what it produces) |
| Utils.RenderEndsWithFinal | src/utils.py:186-188 | the output ends with the final line's tag, which has no "\n" of its own |
| Utils.TranscriptOf | src/utils.py:165-192 | a missing word-list path is `MalformedResponse`. Otherwise the result is an error exactly when some record fails to decode, and it is that record's error |
| Utils.Segment | src/utils.py:169-186 | the turn list always has at least one line (the final one) |
| Utils.CreateTranscript | src/utils.py:155-192 | the loop's result equals `TranscriptOf`: a missing word-list path or a missing record key is an error. The empty list gives exactly "SPEAKER 0:". Every result starts with "SPEAKER 0:" |
| Utils.ScanSpeaker | src/utils.py:169-183 | after the loop, `curr_speaker` is the last word's speaker, or 0 with no words |
| Utils.ScanFirstSpeaker | src/utils.py:169-182 | the first line emitted (closed or final) carries speaker 0 |
| Utils.SegmentFirstSpeaker | src/utils.py:169-186 | the first line is speaker 0's. It is the empty line "SPEAKER 0:" when there are no words or speaker 0 does not speak first |
| Utils.SegmentLeadIn | src/utils.py:169-182 | when the first word is not speaker 0's, an empty speaker-0 line is closed first |
| Utils.ScanKeepsWords | src/utils.py:172-183 | the closed bodies followed by `curr_line` are `" " + w` over all words, in order |
| Utils.SegmentKeepsWords | src/utils.py:172-186 | the concatenated line bodies are `" " + w` over all words, in order: no word is lost, duplicated or reordered |
| Utils.ScanCountsChanges | src/utils.py:176-182 | the number of closed lines is the number of speaker changes, counting from 0 |
| Utils.SegmentLineCount | src/utils.py:176-186 | the line count is 1 plus the number of speaker changes |
| Utils.ScanAlternates | src/utils.py:176-182 | no two consecutive lines of the loop state share a speaker |
| Utils.SegmentAlternates | src/utils.py:176-186 | adjacent lines never carry the same speaker tag |
| Utils.JoinTerminated | src/utils.py:180-188 | the lines joined with "\n", each keeping its own "\n", are the rendering plus a trailing "\n" |
| Utils.RenderSeparators | src/utils.py:180-188 | the output is the tags joined by exactly "\n\n", with no trailing newline |
| Utils.TagsFirst | src/utils.py:179-186 | there is one tag per line and the first tag is the first line's |
| Utils.TranscriptStartsWithSpeakerZero | src/utils.py:169-188 | every rendered transcript begins with "SPEAKER 0:" |
| Utils.EmptyTranscript | src/utils.py:169-188 | an empty word list renders as exactly "SPEAKER 0:" |
| Utils.WorkedExampleLines | src/utils.py:172-186 | the words (0,"Hi"),(0,"there"),(1,"Hello"),(0,"Bye") make three turns: " Hi there", " Hello", " Bye" |
| Utils.RenderThree | src/utils.py:186-188 | three lines render as tag, "\n\n", tag, "\n\n", tag |
| Utils.ExampleTags | src/utils.py:179-186 | the three tags of the worked example |
| Utils.WorkedExample | src/utils.py:155-192 | the worked example renders as "SPEAKER 0: Hi there\n\nSPEAKER 1: Hello\n\nSPEAKER 0: Bye" |
| Utils.Runs | src/utils.py:176-186 | an independent definition by maximal same-speaker runs: it is empty only for no words, and the last run belongs to the last word's speaker |
| Utils.SegmentIsRunsSingle | src/utils.py:176-186 | for one word, the loop equals the runs definition |
| Utils.SplitLast | src/utils.py:186 | when the closed lines plus the final line equal a lead-in plus runs, the final line is the last run |
| Utils.SegmentIsRunsStep | src/utils.py:176-186 | agreement with the runs definition extends by one word |
| Utils.SegmentIsRuns | src/utils.py:169-186 | the loop's turns are an optional empty speaker-0 line followed by the maximal same-speaker runs |
| Utils.Allowed | src/utils.py:249 | the filter test: `isalnum`, or one of the four characters "._- " |
| Utils.SanitizeFilename | src/utils.py:239-249 | every output character is alphanumeric or one of `._- `. Each allowed character keeps its count and each other character is dropped |
| Utils.SanitizeIsSubsequence | src/utils.py:249 | the output is an order-preserving subsequence of the input |
| Utils.SanitizeFixedPoints | src/utils.py:249 | the name comes back unchanged exactly when all its characters are allowed |
| Utils.SanitizeIdempotent | src/utils.py:249 | sanitising twice is the same as sanitising once |
| Text.IsBlank | src/deepgram_live.py:53 | `not s.strip()`: the empty string counts as blank |
| Text.Join | src/utils.py:188 | `sep.join(parts)`: one part is returned as it is. A join of two or more parts is at least as long as its first part, one separator and its last part |
| Text.JoinEndsWith | src/utils.py:188 | a join ends with its last part |
| Text.JoinAppend | src/utils.py:188 | joining one more part appends the separator and the part |
| Text.JoinStartsWith | src/utils.py:188 | a join begins with its first part |
| Text.JoinNotBlank | src/deepgram_live.py:60-62 | a non-blank part makes the join non-blank |
| Text.JoinEmptyIff | live_speech.py:26-27 | with non-empty parts, the join is empty exactly when there are no parts |
| Text.NatToString | src/utils.py:179-186 | `str(n)` is never empty |
| Text.Lower | src/app.py:85 | lower-casing keeps the length |
| Text.IsSpace | src/deepgram_live.py:53 | the characters `strip()` removes, i.e. Python's `str.isspace` set: space, tab, line feed and carriage return are in it, and no ASCII letter or digit is |
| Text.IsEnglish | src/mom_generator.py:30 | `target_language.lower() == 'english'` (also src/app.py:85): only a seven-character name can match |
| Text.EnglishAnyCase | src/mom_generator.py:30 | "english", "English" and "ENGLISH" match; " english" and "englisch" do not |
| App.CreateTranscript | src/app.py:58-81 | a falsy response gives "" without reading words. Any other response gives the same result as `Utils.TranscriptOf`, which starts with "SPEAKER 0:" |
| App.TranslateInstruction | src/app.py:85-88 | the leading instruction is empty exactly when the language lower-cases to "english". Otherwise it is the fixed sentence ending in the language |
| App.TranslationPrompt | src/app.py:90-94 | the prompt starts with instruction, "\n", the text and "\n\n". It contains the text verbatim and ends with "Generate complete words in <language>.". It starts with "\n" exactly for English |
| App.TranslateText | src/app.py:83-105 | a failed request returns the original text unchanged. A completion returns the completion's content |
| App.CreatePrompt | src/app.py:107-129 | the prompt contains "Today is <date>." and "Generate the Minutes of Meeting in <language> only.". It contains the transcript and ends with "Transcript:", the transcript and the closing indentation |
| DeepgramLive.TranscriptCollector.constructor | src/deepgram_live.py:18-19 | a new collector holds no fragments |
| DeepgramLive.TranscriptCollector.Reset | src/deepgram_live.py:21-22 | reset empties the fragment list |
| DeepgramLive.TranscriptCollector.AddPart | src/deepgram_live.py:24-25 | the part is appended at the end without filtering, and earlier fragments are unchanged |
| DeepgramLive.TranscriptCollector.GetFullTranscript | src/deepgram_live.py:27-28 | returns the fragments joined by single spaces and changes nothing |
| DeepgramLive.Transcriber.constructor | src/deepgram_live.py:33-40 | with a key: empty collector, no callback, no event, no calls |
| DeepgramLive.NewTranscriber | src/deepgram_live.py:33-40 | an unset or empty `DG_API_KEY` raises. Otherwise a fresh transcriber in its initial state |
| DeepgramLive.Transcriber.BeginProcessing | src/deepgram_live.py:111-112 | installs the callback and an unset completion event, and leaves the fragments alone |
| DeepgramLive.OnMessageEffect | src/deepgram_live.py:50-72 | one handler call adds at most one callback invocation and keeps the earlier ones. The fragments either stay a prefix-extension of the old ones or are emptied. A set completion flag stays set, and it can become set only when the event exists. Without a callback nothing is logged |
| DeepgramLive.Transcriber.OnMessage | src/deepgram_live.py:48-72 | the handler's new state (fragments, callback log, completion flag) is `OnMessageEffect` of the old one |
| DeepgramLive.BlankResultIgnored | src/deepgram_live.py:50-72 | a blank or unreadable transcript changes nothing: no append, no callback, no flag |
| DeepgramLive.IsFinalIgnored | src/deepgram_live.py:48-72 | `is_final` never affects the outcome |
| DeepgramLive.InterimAppended | src/deepgram_live.py:56-57 | a non-blank result without `speech_final` is appended, with no callback and no flag |
| DeepgramLive.SpeechFinalEmits | src/deepgram_live.py:58-69 | on `speech_final` the sentence is appended and the set callback is called exactly once with the join of all fragments. Then the list is emptied and the flag is set |
| DeepgramLive.CallbackFailureKeepsFragments | src/deepgram_live.py:63-72 | a raising callback has still been called once. The fragments, the new sentence included, are kept and the flag is not set |
| DeepgramLive.Run | src/deepgram_live.py:48-72 | the handler over a sequence of events. The callback log only grows, by at most one entry per event. The completion flag is never cleared |
| DeepgramLive.Interims | src/deepgram_live.py:56-57 | builds one event per fragment, with neither `is_final` nor `speech_final`; its contract states one event per fragment |
| DeepgramLive.RunInterims | src/deepgram_live.py:56-57 | a run of non-blank interim results appends exactly those fragments |
| DeepgramLive.NextEmissionIsFresh | src/deepgram_live.py:58-66 | after an emission, the next one carries only the fragments received since |
| DeepgramLive.RunSnoc | src/deepgram_live.py:48-72 | events are handled one after another, in order |
| DeepgramLive.ThreeEvents | src/deepgram_live.py:56-69 | two results without `speech_final` and then one with it emit "a b c" in one call and leave the list empty |
| DeepgramLive.InterimResultsAreKept | src/deepgram_live.py:56-69 | "Hel" (interim), "Hello" (final) and " world" (speech final) emit "Hel Hello  world" |
| LiveSpeech.TranscriptCollector.constructor | live_speech.py:16-17 | a new collector is empty and satisfies the invariant that every fragment is non-blank |
| LiveSpeech.TranscriptCollector.Reset | live_speech.py:19-20 | reset empties the list and keeps the invariant |
| LiveSpeech.TranscriptCollector.AddPart | live_speech.py:22-24 | a blank part is ignored and any other is appended at the end. Every stored fragment stays non-blank |
| LiveSpeech.TranscriptCollector.GetTranscript | live_speech.py:26-27 | the fragments joined by single spaces, without changing them. Empty exactly when no fragment is stored |
| LiveSpeech.NonBlankNonEmpty | live_speech.py:23-24 | a non-blank fragment is non-empty |
| LiveSpeech.OnMessage | live_speech.py:51-56 | only a final result with a non-blank transcript is added. Anything else leaves the list unchanged. Reading fails exactly for a final result without a transcript |
| LiveSpeech.Kept | live_speech.py:52-54 | the handler's gate: a kept result is final, has a transcript, and that transcript is not empty |
| LiveSpeech.FinalTranscript | live_speech.py:109-110 | the final transcript is shown exactly when some fragment was kept, and it is their join |
| LiveSpeech.Collected | live_speech.py:51-56 | the handler folded over a stream of results. It never drops what was there and adds at most one fragment per result |
| LiveSpeech.CollectedAppends | live_speech.py:51-56 | the stream's fragments are appended after the existing ones, independent of them |
| LiveSpeech.CollectedAreFinal | live_speech.py:52-56 | every collected transcript comes from a final result and is non-blank |
| LiveSpeech.FinalResultsCollected | live_speech.py:52-56 | every final result with a non-blank transcript contributes it |
| LiveSpeech.InterimResultsIgnored | live_speech.py:52 | non-final results leave the collector unchanged |
| MomGenerator.Attempts | src/mom_generator.py:105-122 | the attempts from number `k` on. None is returned exactly when no attempt remains. Minutes come from some attempt's completion within the limit. A raise carries the last attempt's failure |
| MomGenerator.Outcome | src/mom_generator.py:103-122 | a whole call: None exactly when `max_retries <= 0`. Minutes come from a completion within the first `max_retries` attempts |
| Environment.ApiKeyPresent | src/mom_generator.py:14 | `not api_key` is false exactly when the variable is set and is not "" (the same test as src/deepgram_live.py:35) |
| MomGenerator.Generator.constructor | src/mom_generator.py:12-17 | a generator holds its non-empty key |
| MomGenerator.TranslatePrompt | src/mom_generator.py:33-42 | the prompt opens with "Translate the following diarized output to <language>:". It contains the text verbatim and "Generate complete words in <language>.", and ends with the closing sentence |
| MomGenerator.TranslateText | src/mom_generator.py:19-54 | for English, in any letter case, the text comes back unchanged. Otherwise the completion's content, or the failure re-raised |
| MomGenerator.EnglishMakesNoRequest | src/mom_generator.py:30-31 | for English the answer does not depend on the service at all |
| MomGenerator.CreateMomPrompt | src/mom_generator.py:56-89 | the prompt starts with the fixed preamble and "Today's date is <date>.". It contains "Generate the Minutes of Meeting in <language> only." and the transcript verbatim, and ends with "Transcript:", the transcript and the closing indentation |
| MomGenerator.Generator.GenerateMom | src/mom_generator.py:91-122 | at most `max_retries` requests are made, all with the prompt built once. Every request before the last one failed. A success returns the first completion's content. A raise happens only after exactly `max_retries` failures and carries the last one. None is returned exactly when `max_retries <= 0`, and then no request is made. The outcome equals `Outcome` |
| MomGenerator.FirstSuccessReturned | src/mom_generator.py:105-115 | after failures, the first success within the limit is what is returned |
| MomGenerator.AllFailuresRaiseLast | src/mom_generator.py:117-122 | when every attempt fails, the last failure is raised and the earlier ones are absorbed |
| MomGenerator.LaterRepliesIrrelevant | src/mom_generator.py:105 | replies beyond the first `max_retries` never matter |
| MomGenerator.FailTwiceThenSucceed | src/mom_generator.py:91-122 | with three attempts, two failures and then a success give the success |
| MomGenerator.Registry.constructor | src/mom_generator.py:125 | no instance exists before first use |
| MomGenerator.Registry.GetMomGenerator | src/mom_generator.py:125-137 | an existing instance is returned as it is, whatever the key is by then. On first use a fresh one is built from the key. A missing key raises and nothing is stored |

## Left out

- Network calls to the Deepgram and OpenAI SDKs, connection setup and lifecycle, and
  asyncio waiting. Their results are parameters: `Reply`, `replies(i)`, `LiveResult`
  and `callbackRaises`. This covers `transcribe_audio`, `transcribe_uploaded_file`,
  `setup_connection`, `process_audio` beyond its first two statements, `stop` and
  `live_speech.main` beyond its handler and its final `if`.
- The request parameters (model name, `max_tokens`, temperature, penalties, live
  options) and `get_live_options`. They are constants passed to the SDKs and never
  inspected.
- `on_error`, `on_close` and `on_metadata`: they only print.
- `print`, `logger.error` and `st.error`. Logging is output only. Every exception
  that the code logs and re-raises is modelled as the error it raises.
- src/audio_recorder.py: background-thread capture, a thread-safe queue, float
  scaling and resampling. This is concurrency, floating point and foreign libraries.
- `convert_to_wav`, `cached_transcribe_file` and writing the transcript file: temp
  files, pydub and caching.
- `create_cache_key`: it uses Python's salted `hash`, so it is not deterministic.
- `format_time`: float rounding, and it refers to `datetime.timedelta` on the
  `datetime` class, an attribute that class does not have.
- The Streamlit UI, `authenticate_user` and app.py's `main`.
- app.py `generate_mom` (src/app.py:131-143) and the module-level `translate_text` and
  `generate_mom` of src/mom_generator.py (139-163). They are a single request, or they
  delegate to the shared instance.
- The clock: `datetime.now().strftime("%d-%m-%Y")` is the parameter `today`.
- The environment: `os.getenv` is the parameter `envKey`.
- `str.isalnum` is the parameter `isAlnum`, because Unicode character classes are not
  part of this model.
- `str.lower` is modelled for ASCII letters only. For the comparison with "english"
  it agrees with Python, because no non-ASCII character lower-cases to one of those
  letters.
- Speaker ids are `nat`, as the recogniser returns them.
- A response that is present but lacks part of the path `results.channels[0].alternatives[0].words`
  is one error, `MalformedResponse`. Which key or index was missing is not modelled.
- App.CreateTranscript: a falsy response is modelled as `None`. An empty dict is
  falsy too and is covered by that case.
- DeepgramLive.Transcriber.OnMessage: the callback is known only by whether it is set
  and whether it raises. What the callback does with the sentence is not modelled.
- Service.Reply: the content of a successful reply is a string. A `None`
  `message.content` from the SDK is not distinguished. This holds for all three
  readers of a reply: `MomGenerator.Generator.GenerateMom`, `MomGenerator.TranslateText`
  and `App.TranslateText`.
- Default arguments are not modelled: `maxRetries` (`max_retries=3`, src/mom_generator.py:91)
  and `language` (`language='english'`, src/mom_generator.py:56 and src/app.py:107) are
  passed explicitly by every caller of the model.
- Object identity is modelled only where the code relies on it, for the shared
  generator instance.

## Behaviour worth noting

- `on_message` in src/deepgram_live.py also appends results that are not
  `speech_final`, whatever their `is_final`. So the three events "Hel" (interim),
  "Hello" (final) and " world" (speech final) emit "Hel Hello  world" in one call.
- The callback runs before `reset`. A callback that raises skips the reset, so its
  fragments are sent again with the next `speech_final` result.
- A record without `speaker` or `punctuated_word` raises a `KeyError` that names the
  key, and the model records which key was missing.
- `create_transcript` starts at speaker 0 whoever speaks first. A transcript whose
  first word belongs to another speaker opens with an empty "SPEAKER 0:" line.
