/** src/deepgram_live.py: the fragment list `TranscriptCollector` and the
    accumulate-and-emit logic of `DeepgramLiveTranscriber.on_message`. */
module DeepgramLive {
  import opened Wrappers
  import Text
  import opened LiveEvents
  import opened Environment

  /** A list of transcript fragments; `add_part` does not filter. */
  class TranscriptCollector {
    var parts: seq<string>

    constructor()
      ensures parts == []
    {
      parts := [];
    }

    method Reset()
      modifies this
      ensures parts == []
    {
      parts := [];
    }

    method AddPart(part: string)
      modifies this
      ensures parts == old(parts) + [part]
    {
      parts := parts + [part];
    }

    /** The fragments joined by single spaces; the list is not changed. */
    method GetFullTranscript() returns (s: string)
      ensures s == Text.Join(" ", parts)
    {
      s := Text.Join(" ", parts);
    }
  }

  /** What a session has observably done: the collector's fragments, every
      callback invocation (with its argument) in order, and whether the
      completion event has been set. */
  datatype Session = Session(parts: seq<string>, calls: seq<string>, complete: bool)

  /** The effect of one `on_message` call. `hasCallback` and `hasEvent` say
      whether `callback` and `transcription_complete` are set; `callbackRaises`
      says whether the callback, if invoked, raises. */
  function OnMessageEffect(hasCallback: bool, hasEvent: bool, s: Session, r: LiveResult, callbackRaises: bool): (t: Session)
    ensures |s.calls| <= |t.calls| <= |s.calls| + 1 && t.calls[..|s.calls|] == s.calls
    ensures t.parts == [] || (|s.parts| <= |t.parts| && t.parts[..|s.parts|] == s.parts)
    ensures s.complete ==> t.complete
    ensures t.complete ==> s.complete || hasEvent
    ensures !hasCallback ==> t.calls == s.calls
  {
    match r.transcript
    case None => s                                  // reading the transcript raised
    case Some(sentence) =>
      if Text.IsBlank(sentence) then s
      else if !r.speechFinal then s.(parts := s.parts + [sentence])
      else
        var parts := s.parts + [sentence];
        var full := Text.Join(" ", parts);
        var invoked := !Text.IsBlank(full) && hasCallback;
        var calls := if invoked then s.calls + [full] else s.calls;
        if invoked && callbackRaises then Session(parts, calls, s.complete)
        else Session([], calls, s.complete || hasEvent)
  }

  /** `DeepgramLiveTranscriber`, reduced to the state `on_message` touches. */
  class Transcriber {
    const apiKey: string
    const collector: TranscriptCollector
    var hasCallback: bool
    var hasEvent: bool
    var complete: bool
    var calls: seq<string>

    function Snapshot(): Session
      reads this, collector
    {
      Session(collector.parts, calls, complete)
    }

    /** `__init__` once the key has been found: no callback, no event yet. */
    constructor(apiKey: string)
      requires apiKey != ""
      ensures this.apiKey == apiKey && fresh(collector)
      ensures !hasCallback && !hasEvent
      ensures Snapshot() == Session([], [], false)
    {
      this.apiKey := apiKey;
      collector := new TranscriptCollector();
      hasCallback, hasEvent, complete := false, false, false;
      calls := [];
    }

    /** The first two statements of `process_audio`: install the callback
        (or none) and a fresh, unset completion event. */
    method BeginProcessing(withCallback: bool)
      modifies this
      ensures hasCallback == withCallback && hasEvent && !complete
      ensures collector.parts == old(collector.parts) && calls == old(calls)
    {
      hasCallback := withCallback;
      hasEvent := true;
      complete := false;
    }

    /** `on_message`; every exception is caught at its end and only printed. */
    method OnMessage(result: LiveResult, callbackRaises: bool)
      modifies this, collector
      ensures hasCallback == old(hasCallback) && hasEvent == old(hasEvent)
      ensures Snapshot() == OnMessageEffect(old(hasCallback), old(hasEvent), old(Snapshot()), result, callbackRaises)
    {
      if result.transcript.None? {
        return;
      }
      var sentence := result.transcript.value;
      if Text.IsBlank(sentence) {
        return;
      }
      if !result.speechFinal {
        collector.AddPart(sentence);
      } else {
        collector.AddPart(sentence);
        var fullSentence := collector.GetFullTranscript();
        if !Text.IsBlank(fullSentence) {
          if hasCallback {
            calls := calls + [fullSentence];
            if callbackRaises {
              return;
            }
          }
        }
        collector.Reset();
        if hasEvent {
          complete := true;
        }
      }
    }
  }

  /** `__init__`: raises when `DG_API_KEY` is unset or empty. */
  method NewTranscriber(envKey: Option<string>) returns (r: Result<Transcriber, InitError>)
    ensures r.Err? <==> !ApiKeyPresent(envKey)
    ensures r.Ok? ==> fresh(r.value) && fresh(r.value.collector) && r.value.apiKey == envKey.value
    ensures r.Ok? ==> r.value.Snapshot() == Session([], [], false)
  {
    if !ApiKeyPresent(envKey) {
      return Err(MissingApiKey);
    }
    var t := new Transcriber(envKey.value);
    r := Ok(t);
  }

  // ---------------------------------------------------------------------------
  // Properties of the handler
  // ---------------------------------------------------------------------------

  /** A result whose transcript is blank, or cannot be read, changes nothing. */
  lemma {:induction false} BlankResultIgnored(hasCallback: bool, hasEvent: bool, s: Session, r: LiveResult, raises: bool)
    requires r.transcript.None? || Text.IsBlank(r.transcript.value)
    ensures OnMessageEffect(hasCallback, hasEvent, s, r, raises) == s
  {
  }

  /** `is_final` is never consulted. */
  lemma {:induction false} IsFinalIgnored(hasCallback: bool, hasEvent: bool, s: Session, r: LiveResult, raises: bool, isFinal: bool)
    ensures OnMessageEffect(hasCallback, hasEvent, s, r.(isFinal := isFinal), raises)
         == OnMessageEffect(hasCallback, hasEvent, s, r, raises)
  {
  }

  /** A non-blank result without `speech_final` is appended and nothing else happens. */
  lemma {:induction false} InterimAppended(hasCallback: bool, hasEvent: bool, s: Session, sentence: string, isFinal: bool, raises: bool)
    requires !Text.IsBlank(sentence)
    ensures OnMessageEffect(hasCallback, hasEvent, s, LiveResult(Some(sentence), isFinal, false), raises)
         == Session(s.parts + [sentence], s.calls, s.complete)
  {
  }

  /** On `speech_final` with a non-blank sentence (and a callback that returns
      normally): the callback, when set, is called exactly once with all
      fragments joined, the sentence last; then the list is emptied and the
      event set. */
  lemma {:induction false} SpeechFinalEmits(hasCallback: bool, hasEvent: bool, s: Session, sentence: string, isFinal: bool, raises: bool)
    requires !Text.IsBlank(sentence) && !(hasCallback && raises)
    ensures OnMessageEffect(hasCallback, hasEvent, s, LiveResult(Some(sentence), isFinal, true), raises)
         == Session([], s.calls + (if hasCallback then [Text.Join(" ", s.parts + [sentence])] else []),
                    s.complete || hasEvent)
  {
    Text.JoinNotBlank(" ", s.parts + [sentence], |s.parts|);
  }

  /** When the callback raises, it has still been called once, but the
      fragments stay (the sentence included) and the event is not set. */
  lemma {:induction false} CallbackFailureKeepsFragments(hasEvent: bool, s: Session, sentence: string, isFinal: bool)
    requires !Text.IsBlank(sentence)
    ensures OnMessageEffect(true, hasEvent, s, LiveResult(Some(sentence), isFinal, true), true)
         == Session(s.parts + [sentence], s.calls + [Text.Join(" ", s.parts + [sentence])], s.complete)
  {
    Text.JoinNotBlank(" ", s.parts + [sentence], |s.parts|);
  }

  /** One delivered event and whether the callback raises while handling it. */
  datatype Delivery = Delivery(result: LiveResult, callbackRaises: bool)

  /** The handler applied to events in order. */
  function Run(hasCallback: bool, hasEvent: bool, s: Session, events: seq<Delivery>): (t: Session)
    ensures |s.calls| <= |t.calls| <= |s.calls| + |events| && t.calls[..|s.calls|] == s.calls
    ensures s.complete ==> t.complete
    ensures t.complete ==> s.complete || hasEvent
  {
    if events == [] then s
    else
      var e := events[|events| - 1];
      OnMessageEffect(hasCallback, hasEvent, Run(hasCallback, hasEvent, s, events[..|events| - 1]), e.result, e.callbackRaises)
  }

  /** Interim deliveries, neither `is_final` nor `speech_final`, for the given fragments. */
  function Interims(texts: seq<string>): (es: seq<Delivery>)
    ensures |es| == |texts|
  {
    if texts == [] then []
    else Interims(texts[..|texts| - 1]) + [Delivery(LiveResult(Some(texts[|texts| - 1]), false, false), false)]
  }

  lemma {:induction false} RunInterims(hasCallback: bool, hasEvent: bool, s: Session, texts: seq<string>)
    requires forall i :: 0 <= i < |texts| ==> !Text.IsBlank(texts[i])
    ensures Run(hasCallback, hasEvent, s, Interims(texts)) == s.(parts := s.parts + texts)
  {
    if texts != [] {
      var init := texts[..|texts| - 1];
      var es := Interims(texts);
      assert es[..|es| - 1] == Interims(init);
      RunInterims(hasCallback, hasEvent, s, init);
      assert s.parts + init + [texts[|texts| - 1]] == s.parts + texts;
    }
  }

  /** After an emission the list is empty, so the next emission carries only
      the fragments received after it. */
  lemma {:induction false} NextEmissionIsFresh(hasCallback: bool, hasEvent: bool, s: Session, texts: seq<string>, last: string)
    requires s.parts == [] && !Text.IsBlank(last)
    requires forall i :: 0 <= i < |texts| ==> !Text.IsBlank(texts[i])
    ensures var events := Interims(texts) + [Delivery(LiveResult(Some(last), true, true), false)];
            Run(hasCallback, hasEvent, s, events)
            == Session([], s.calls + (if hasCallback then [Text.Join(" ", texts + [last])] else []), s.complete || hasEvent)
  {
    var events := Interims(texts) + [Delivery(LiveResult(Some(last), true, true), false)];
    assert events[..|events| - 1] == Interims(texts);
    RunInterims(hasCallback, hasEvent, s, texts);
    SpeechFinalEmits(hasCallback, hasEvent, s.(parts := texts), last, true, false);
    assert [] + texts == texts;
  }

  lemma {:induction false} RunSnoc(hasCallback: bool, hasEvent: bool, s: Session, events: seq<Delivery>, e: Delivery)
    ensures Run(hasCallback, hasEvent, s, events + [e])
         == OnMessageEffect(hasCallback, hasEvent, Run(hasCallback, hasEvent, s, events), e.result, e.callbackRaises)
  {
    assert (events + [e])[..|events|] == events;
  }

  lemma {:induction false} ThreeEvents(a: string, b: string, c: string)
    requires !Text.IsBlank(a) && !Text.IsBlank(b) && !Text.IsBlank(c)
    ensures Run(true, true, Session([], [], false),
                [Delivery(LiveResult(Some(a), false, false), false),
                 Delivery(LiveResult(Some(b), true, false), false),
                 Delivery(LiveResult(Some(c), true, true), false)])
         == Session([], [a + " " + b + " " + c], true)
  {
    var s := Session([], [], false);
    var e1 := Delivery(LiveResult(Some(a), false, false), false);
    var e2 := Delivery(LiveResult(Some(b), true, false), false);
    var e3 := Delivery(LiveResult(Some(c), true, true), false);
    assert [] + [e1] == [e1];
    assert [e1] + [e2] == [e1, e2];
    assert [e1, e2] + [e3] == [e1, e2, e3];
    RunSnoc(true, true, s, [], e1);
    InterimAppended(true, true, s, a, false, false);
    assert Run(true, true, s, [e1]) == Session([a], [], false);
    RunSnoc(true, true, s, [e1], e2);
    InterimAppended(true, true, Session([a], [], false), b, true, false);
    assert [a] + [b] == [a, b];
    assert Run(true, true, s, [e1, e2]) == Session([a, b], [], false);
    RunSnoc(true, true, s, [e1, e2], e3);
    SpeechFinalEmits(true, true, Session([a, b], [], false), c, true, false);
    assert [a, b] + [c] == [a, b, c];
    assert Run(true, true, s, [e1, e2, e3]) == Session([], [Text.Join(" ", [a, b, c])], true);
    Text.JoinAppend(" ", [a], b);
    Text.JoinAppend(" ", [a, b], c);
    assert Text.Join(" ", [a]) == a;
  }

  /** Results that are not `speech_final` are appended too, so the three
      events "Hel", "Hello" and " world" emit "Hel Hello  world" in one call. */
  lemma {:induction false} InterimResultsAreKept()
    ensures Run(true, true, Session([], [], false),
                [Delivery(LiveResult(Some("Hel"), false, false), false),
                 Delivery(LiveResult(Some("Hello"), true, false), false),
                 Delivery(LiveResult(Some(" world"), true, true), false)])
         == Session([], ["Hel Hello  world"], true)
  {
    ExampleFragments();
    ThreeEvents("Hel", "Hello", " world");
  }

  lemma {:induction false} ExampleFragments()
    ensures !Text.IsBlank("Hel") && !Text.IsBlank("Hello") && !Text.IsBlank(" world")
    ensures "Hel" + " " + "Hello" + " " + " world" == "Hel Hello  world"
  {
    assert !Text.IsSpace("Hel"[0]) && !Text.IsSpace("Hello"[0]) && !Text.IsSpace(" world"[1]);
  }
}
