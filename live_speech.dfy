/** live_speech.py: the filtering `TranscriptCollector` and the nested
    `on_message` handler of `main`, which keeps only final results. */
module LiveSpeech {
  import opened Wrappers
  import Text
  import opened LiveEvents

  /** A list of transcript fragments that refuses blank strings. */
  class TranscriptCollector {
    var parts: seq<string>

    /** Every stored fragment has a non-whitespace character. */
    ghost predicate Valid()
      reads this
    {
      forall i :: 0 <= i < |parts| ==> !Text.IsBlank(parts[i])
    }

    constructor()
      ensures Valid() && parts == []
    {
      parts := [];
    }

    method Reset()
      modifies this
      ensures Valid() && parts == []
    {
      parts := [];
    }

    /** Appends `part` at the end unless it is blank after stripping. */
    method AddPart(part: string)
      requires Valid()
      modifies this
      ensures Valid()
      ensures parts == if Text.IsBlank(part) then old(parts) else old(parts) + [part]
    {
      if !Text.IsBlank(part) {
        parts := parts + [part];
      }
    }

    /** The fragments joined by single spaces; empty exactly when no fragment
        has been kept. */
    method GetTranscript() returns (s: string)
      requires Valid()
      ensures s == Text.Join(" ", parts)
      ensures s == "" <==> parts == []
    {
      s := Text.Join(" ", parts);
      NonBlankNonEmpty(parts);
      Text.JoinEmptyIff(" ", parts);
    }
  }

  lemma {:induction false} NonBlankNonEmpty(parts: seq<string>)
    requires forall i :: 0 <= i < |parts| ==> !Text.IsBlank(parts[i])
    ensures forall i :: 0 <= i < |parts| ==> parts[i] != ""
  {
  }

  /** The handler registered in `main`: a final result's transcript is read
      and, when not blank, added. `raised` tells whether reading the
      transcript failed, so that the exception leaves the handler; the
      collector is then untouched. */
  method OnMessage(collector: TranscriptCollector, result: LiveResult) returns (raised: bool)
    requires collector.Valid()
    modifies collector
    ensures collector.Valid()
    ensures raised <==> result.isFinal && result.transcript.None?
    ensures collector.parts ==
              if result.isFinal && result.transcript.Some? && !Text.IsBlank(result.transcript.value)
              then old(collector.parts) + [result.transcript.value]
              else old(collector.parts)
    ensures collector.parts == Collected(old(collector.parts), [result])
  {
    assert [result][..0] == [];
    raised := false;
    if result.isFinal {
      if result.transcript.None? {
        return true;
      }
      var sentence := result.transcript.value;
      if !Text.IsBlank(sentence) {
        collector.AddPart(sentence);
      }
    }
  }

  /** The `finally` block of `main`: the joined transcript, or None when it
      is empty and nothing is shown or saved. */
  method FinalTranscript(collector: TranscriptCollector) returns (r: Option<string>)
    requires collector.Valid()
    ensures r.None? <==> collector.parts == []
    ensures r.Some? ==> r.value == Text.Join(" ", collector.parts)
  {
    var s := collector.GetTranscript();
    if s == "" {
      return None;
    }
    return Some(s);
  }

  // ---------------------------------------------------------------------------
  // The handler on a stream of results
  // ---------------------------------------------------------------------------

  /** A result that passes the gate of the handler: final, readable and not
      blank after stripping. */
  predicate Kept(r: LiveResult)
    ensures Kept(r) ==> r.isFinal && r.transcript.Some? && r.transcript.value != ""
  {
    r.isFinal && r.transcript.Some? && !Text.IsBlank(r.transcript.value)
  }

  /** What the collector holds after the handler has seen `results` in order,
      starting from `parts`. */
  function Collected(parts: seq<string>, results: seq<LiveResult>): (c: seq<string>)
    ensures |parts| <= |c| <= |parts| + |results|
  {
    if results == [] then parts
    else
      var r := results[|results| - 1];
      var before := Collected(parts, results[..|results| - 1]);
      if Kept(r) then before + [r.transcript.value] else before
  }

  /** The handler only ever appends: what it collects does not depend on what
      was there before. */
  lemma {:induction false} CollectedAppends(parts: seq<string>, results: seq<LiveResult>)
    ensures Collected(parts, results) == parts + Collected([], results)
  {
    if results != [] {
      var init := results[..|results| - 1];
      CollectedAppends(parts, init);
      var r := results[|results| - 1];
      if Kept(r) {
        assert parts + Collected([], init) + [r.transcript.value] == parts + (Collected([], init) + [r.transcript.value]);
      }
    }
  }

  /** Every collected transcript comes from a final result and is not blank. */
  lemma {:induction false} CollectedAreFinal(results: seq<LiveResult>)
    ensures forall t :: t in Collected([], results) ==>
              exists i :: 0 <= i < |results| && results[i].isFinal && results[i].transcript == Some(t) && !Text.IsBlank(t)
  {
    if results != [] {
      var init := results[..|results| - 1];
      CollectedAreFinal(init);
      forall t | t in Collected([], results)
        ensures exists i :: 0 <= i < |results| && results[i].isFinal && results[i].transcript == Some(t) && !Text.IsBlank(t)
      {
        if t in Collected([], init) {
          var i :| 0 <= i < |init| && init[i].isFinal && init[i].transcript == Some(t) && !Text.IsBlank(t);
          assert results[i] == init[i];
        } else {
          assert results[|results| - 1].transcript == Some(t);
        }
      }
    }
  }

  /** Every final result with a non-blank transcript contributes it. */
  lemma {:induction false} FinalResultsCollected(results: seq<LiveResult>)
    ensures forall i :: 0 <= i < |results| && Kept(results[i]) ==>
              results[i].transcript.value in Collected([], results)
  {
    if results != [] {
      var init := results[..|results| - 1];
      FinalResultsCollected(init);
      forall i | 0 <= i < |results| && Kept(results[i])
        ensures results[i].transcript.value in Collected([], results)
      {
        if i < |init| {
          assert init[i] == results[i];
        }
      }
    }
  }

  /** Results that are not final leave the collector as it was. */
  lemma {:induction false} InterimResultsIgnored(parts: seq<string>, results: seq<LiveResult>)
    requires forall i :: 0 <= i < |results| ==> !results[i].isFinal
    ensures Collected(parts, results) == parts
  {
    if results != [] {
      InterimResultsIgnored(parts, results[..|results| - 1]);
    }
  }
}
