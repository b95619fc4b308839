/** src/utils.py: the speaker-turn transcript formatter `create_transcript`
    and the file-name filter `sanitize_filename`. */
module Utils {
  import opened Wrappers
  import Text

  // ---------------------------------------------------------------------------
  // Transcription response
  // ---------------------------------------------------------------------------

  /** One entry of the response's word list; a field is None when its key
      (`speaker`, `punctuated_word`) is absent from the record. */
  datatype WordRecord = WordRecord(speaker: Option<nat>, punctuatedWord: Option<string>)

  /** A transcription response, reduced to
      `results.channels[0].alternatives[0].words` (None when that path is absent). */
  datatype Response = Response(words: Option<seq<WordRecord>>)

  /** A word record with both fields present. */
  datatype Word = Word(speaker: nat, text: string)

  /** One speaker turn: the speaker id and the accumulated `curr_line`,
      which is `" " + word` for each of the turn's words. */
  datatype Line = Line(speaker: nat, body: string)

  /** What `create_transcript` raises. */
  datatype TranscriptError =
    | MalformedResponse          // the path to the word list is absent
    | MissingKey(key: string)    // KeyError on a word record

  /** Reading one record: `speaker` is read before `punctuated_word`. */
  function DecodeWord(rec: WordRecord): (r: Result<Word, TranscriptError>)
    ensures r.Ok? <==> rec.speaker.Some? && rec.punctuatedWord.Some?
    ensures r.Ok? ==> r.value.speaker == rec.speaker.value && r.value.text == rec.punctuatedWord.value
    ensures rec.speaker.None? ==> r == Err(MissingKey("speaker"))
    ensures rec.speaker.Some? && rec.punctuatedWord.None? ==> r == Err(MissingKey("punctuated_word"))
  {
    if rec.speaker.None? then Err(MissingKey("speaker"))
    else if rec.punctuatedWord.None? then Err(MissingKey("punctuated_word"))
    else Ok(Word(rec.speaker.value, rec.punctuatedWord.value))
  }

  /** Reading all records in order; the first bad record decides the error. */
  function Decode(recs: seq<WordRecord>): (r: Result<seq<Word>, TranscriptError>)
    ensures r.Ok? <==> forall i :: 0 <= i < |recs| ==> DecodeWord(recs[i]).Ok?
    ensures r.Ok? ==> |r.value| == |recs| && forall i :: 0 <= i < |recs| ==> DecodeWord(recs[i]) == Ok(r.value[i])
    ensures r.Err? ==> exists k :: 0 <= k < |recs| && DecodeWord(recs[k]) == Err(r.error)
                              && forall j :: 0 <= j < k ==> DecodeWord(recs[j]).Ok?
  {
    if recs == [] then Ok([])
    else
      var init := recs[..|recs| - 1];
      assert forall i :: 0 <= i < |init| ==> init[i] == recs[i];
      match Decode(init)
      case Err(e) => Err(e)
      case Ok(ws) =>
        match DecodeWord(recs[|recs| - 1])
        case Err(e) => Err(e)
        case Ok(w) => Ok(ws + [w])
  }

  /** Once a prefix of the records fails to decode, the whole list fails the same way. */
  lemma {:induction false} DecodeErrPrefix(recs: seq<WordRecord>, k: nat)
    requires k <= |recs| && Decode(recs[..k]).Err?
    ensures Decode(recs) == Decode(recs[..k])
  {
    if k < |recs| {
      var init := recs[..|recs| - 1];
      assert init[..k] == recs[..k];
      DecodeErrPrefix(init, k);
    } else {
      assert recs[..k] == recs;
    }
  }

  // ---------------------------------------------------------------------------
  // Turn segmentation: the loop of create_transcript as a fold
  // ---------------------------------------------------------------------------

  /** The loop state: lines already closed, `curr_speaker`, `curr_line`. */
  datatype Progress = Progress(done: seq<Line>, speaker: nat, body: string)

  /** `curr_speaker = 0`, `curr_line = ''`: the first speaker is not looked at. */
  const Start: Progress := Progress([], 0, "")

  /** One loop iteration. */
  function Step(p: Progress, w: Word): (q: Progress)
    ensures q.speaker == w.speaker
    ensures |q.done| == |p.done| + (if w.speaker == p.speaker then 0 else 1)
  {
    if w.speaker == p.speaker then p.(body := p.body + " " + w.text)
    else Progress(p.done + [Line(p.speaker, p.body)], w.speaker, " " + w.text)
  }

  /** The state after the loop has consumed `ws`. */
  function Scan(ws: seq<Word>): (p: Progress)
    ensures |p.done| <= |ws|
    ensures ws == [] ==> p == Start
  {
    if ws == [] then Start else Step(Scan(ws[..|ws| - 1]), ws[|ws| - 1])
  }

  /** All lines, the final in-progress one included. */
  function Segment(ws: seq<Word>): (lines: seq<Line>)
    ensures |lines| >= 1
  {
    var p := Scan(ws);
    p.done + [Line(p.speaker, p.body)]
  }

  /** `f"SPEAKER {curr_speaker}:" + curr_line` */
  function Tag(l: Line): string {
    "SPEAKER " + Text.NatToString(l.speaker) + ":" + l.body
  }

  /** A tag is "SPEAKER ", the id, ":" and the body. */
  lemma {:induction false} TagShape(l: Line)
    ensures Text.StartsWith(Tag(l), "SPEAKER ")
    ensures Text.EndsWith(Tag(l), ":" + l.body)
  {
    var id := Text.NatToString(l.speaker);
    assert Tag(l) == "SPEAKER " + (id + ":" + l.body);
    Text.ConcatEnds("SPEAKER ", id + ":" + l.body);
    assert Tag(l) == ("SPEAKER " + id) + (":" + l.body);
    Text.ConcatEnds("SPEAKER " + id, ":" + l.body);
  }

  /** The closed lines as appended to `lines`, each with its trailing "\n". */
  function Terminated(ls: seq<Line>): (ts: seq<string>)
    ensures |ts| == |ls|
  {
    if ls == [] then [] else Terminated(ls[..|ls| - 1]) + [Tag(ls[|ls| - 1]) + "\n"]
  }

  /** `'\n'.join(lines)` after the final line (no "\n" of its own) is appended. */
  function Render(ls: seq<Line>): string
    requires |ls| >= 1
  {
    Text.Join("\n", Terminated(ls[..|ls| - 1]) + [Tag(ls[|ls| - 1])])
  }

  /** The output ends with the final line, which has no "\n" of its own. */
  lemma {:induction false} RenderEndsWithFinal(ls: seq<Line>)
    requires |ls| >= 1
    ensures Text.EndsWith(Render(ls), Tag(ls[|ls| - 1]))
  {
    Text.JoinEndsWith("\n", Terminated(ls[..|ls| - 1]) + [Tag(ls[|ls| - 1])]);
  }

  /** What `create_transcript` returns or raises for a response. */
  function TranscriptOf(response: Response): (r: Result<string, TranscriptError>)
    ensures response.words.None? ==> r == Err(MalformedResponse)
    ensures response.words.Some? ==> (r.Ok? <==> Decode(response.words.value).Ok?)
    ensures response.words.Some? && r.Err? ==> Decode(response.words.value) == Err(r.error)
  {
    match response.words
    case None => Err(MalformedResponse)
    case Some(recs) =>
      match Decode(recs)
      case Err(e) => Err(e)
      case Ok(ws) => Ok(Render(Segment(ws)))
  }

  /** src/utils.py `create_transcript`. */
  method CreateTranscript(response: Response) returns (r: Result<string, TranscriptError>)
    ensures r == TranscriptOf(response)
    ensures response.words == Some([]) ==> r == Ok("SPEAKER 0:")
    ensures r.Ok? ==> Text.StartsWith(r.value, "SPEAKER 0:")
  {
    EmptyTranscript();
    if response.words.None? {
      return Err(MalformedResponse);
    }
    var words := response.words.value;
    var lines: seq<string> := [];
    var currSpeaker: nat := 0;
    var currLine := "";
    ghost var ws: seq<Word> := [];
    ghost var done: seq<Line> := [];
    for i := 0 to |words|
      invariant Decode(words[..i]) == Ok(ws)
      invariant Scan(ws) == Progress(done, currSpeaker, currLine)
      invariant lines == Terminated(done)
    {
      var wordStruct := words[i];
      if wordStruct.speaker.None? || wordStruct.punctuatedWord.None? {
        assert words[..i + 1][..i] == words[..i];
        DecodeErrPrefix(words, i + 1);
        return Err(DecodeWord(wordStruct).error);
      }
      var wordSpeaker := wordStruct.speaker.value;
      var word := wordStruct.punctuatedWord.value;
      LoopStep(words, i, ws, done, currSpeaker, currLine);
      if wordSpeaker == currSpeaker {
        currLine := currLine + " " + word;
      } else {
        var tag := "SPEAKER " + Text.NatToString(currSpeaker) + ":";
        var fullLine := tag + currLine + "\n";
        done := done + [Line(currSpeaker, currLine)];
        currSpeaker := wordSpeaker;
        lines := lines + [fullLine];
        currLine := " " + word;
      }
      ws := ws + [Word(wordSpeaker, word)];
    }
    assert words[..|words|] == words;
    var finalLine := "SPEAKER " + Text.NatToString(currSpeaker) + ":" + currLine;
    lines := lines + [finalLine];
    LoopExit(ws, done, currSpeaker, currLine);
    r := Ok(Text.Join("\n", lines));
    TranscriptStartsWithSpeakerZero(ws);
  }

  /** One pass of the loop of `CreateTranscript` keeps its invariant. */
  lemma {:induction false} LoopStep(words: seq<WordRecord>, i: nat, ws: seq<Word>, done: seq<Line>, sp: nat, body: string)
    requires i < |words| && words[i].speaker.Some? && words[i].punctuatedWord.Some?
    requires Decode(words[..i]) == Ok(ws) && Scan(ws) == Progress(done, sp, body)
    ensures var w := Word(words[i].speaker.value, words[i].punctuatedWord.value);
            Decode(words[..i + 1]) == Ok(ws + [w])
            && Scan(ws + [w]) == Step(Progress(done, sp, body), w)
            && Terminated(done + [Line(sp, body)]) == Terminated(done) + ["SPEAKER " + Text.NatToString(sp) + ":" + body + "\n"]
  {
    var w := Word(words[i].speaker.value, words[i].punctuatedWord.value);
    assert words[..i + 1][..i] == words[..i];
    assert (ws + [w])[..|ws|] == ws;
    assert (done + [Line(sp, body)])[..|done|] == done;
  }

  /** After the loop, the joined lines are the rendering of the segmentation. */
  lemma {:induction false} LoopExit(ws: seq<Word>, done: seq<Line>, sp: nat, body: string)
    requires Scan(ws) == Progress(done, sp, body)
    ensures Text.Join("\n", Terminated(done) + ["SPEAKER " + Text.NatToString(sp) + ":" + body]) == Render(Segment(ws))
  {
    var ls := done + [Line(sp, body)];
    assert Segment(ws) == ls;
    assert ls[..|ls| - 1] == done;
  }

  // ---------------------------------------------------------------------------
  // Properties of the segmentation
  // ---------------------------------------------------------------------------

  /** The speaker the next word is compared with: the last word's, or 0. */
  function PrevSpeaker(ws: seq<Word>): nat {
    if ws == [] then 0 else ws[|ws| - 1].speaker
  }

  /** Positions where a word's speaker differs from the one before it
      (the one before the first word being speaker 0). */
  function Changes(ws: seq<Word>): nat {
    if ws == [] then 0
    else
      var init := ws[..|ws| - 1];
      Changes(init) + if ws[|ws| - 1].speaker != PrevSpeaker(init) then 1 else 0
  }

  /** `" " + w` for every word, in order. */
  function Spaced(ws: seq<Word>): string {
    if ws == [] then "" else Spaced(ws[..|ws| - 1]) + " " + ws[|ws| - 1].text
  }

  /** The line bodies (the text after each tag), concatenated. */
  function Bodies(ls: seq<Line>): string {
    if ls == [] then "" else Bodies(ls[..|ls| - 1]) + ls[|ls| - 1].body
  }

  function Tags(ls: seq<Line>): seq<string> {
    if ls == [] then [] else Tags(ls[..|ls| - 1]) + [Tag(ls[|ls| - 1])]
  }

  /** No two consecutive lines carry the same speaker. */
  predicate Alternating(ls: seq<Line>) {
    forall i :: 0 <= i < |ls| - 1 ==> ls[i].speaker != ls[i + 1].speaker
  }

  lemma {:induction false} ScanSpeaker(ws: seq<Word>)
    ensures Scan(ws).speaker == PrevSpeaker(ws)
  {
    if ws != [] {
      ScanSpeaker(ws[..|ws| - 1]);
    }
  }

  lemma {:induction false} ScanFirstSpeaker(ws: seq<Word>)
    ensures var p := Scan(ws); (if p.done == [] then p.speaker else p.done[0].speaker) == 0
  {
    if ws != [] {
      ScanFirstSpeaker(ws[..|ws| - 1]);
    }
  }

  /** The first line is always speaker 0's, whoever speaks first. */
  lemma {:induction false} SegmentFirstSpeaker(ws: seq<Word>)
    ensures Segment(ws)[0].speaker == 0
    ensures ws == [] || ws[0].speaker != 0 ==> Segment(ws)[0] == Line(0, "")
  {
    ScanFirstSpeaker(ws);
    if ws != [] && ws[0].speaker != 0 {
      SegmentLeadIn(ws);
    }
  }

  lemma {:induction false} SegmentLeadIn(ws: seq<Word>)
    requires ws != [] && ws[0].speaker != 0
    ensures Scan(ws).done != [] && Scan(ws).done[0] == Line(0, "")
  {
    if |ws| == 1 {
      assert ws[..0] == [];
    } else {
      var init := ws[..|ws| - 1];
      assert init[0] == ws[0];
      SegmentLeadIn(init);
    }
  }

  lemma {:induction false} ScanKeepsWords(ws: seq<Word>)
    ensures Bodies(Scan(ws).done) + Scan(ws).body == Spaced(ws)
  {
    if ws != [] {
      var init := ws[..|ws| - 1];
      ScanKeepsWords(init);
      var p := Scan(init);
      if ws[|ws| - 1].speaker != p.speaker {
        var d := p.done + [Line(p.speaker, p.body)];
        assert d[..|d| - 1] == p.done;
      }
    }
  }

  /** No word is lost, duplicated or reordered: the line bodies together are
      exactly `" " + w` over all words in order. */
  lemma {:induction false} SegmentKeepsWords(ws: seq<Word>)
    ensures Bodies(Segment(ws)) == Spaced(ws)
  {
    ScanKeepsWords(ws);
    var s := Segment(ws);
    assert s[..|s| - 1] == Scan(ws).done;
  }

  lemma {:induction false} ScanCountsChanges(ws: seq<Word>)
    ensures |Scan(ws).done| == Changes(ws)
  {
    if ws != [] {
      var init := ws[..|ws| - 1];
      ScanCountsChanges(init);
      ScanSpeaker(init);
    }
  }

  /** One line, plus one more for every change of speaker. */
  lemma {:induction false} SegmentLineCount(ws: seq<Word>)
    ensures |Segment(ws)| == 1 + Changes(ws)
  {
    ScanCountsChanges(ws);
  }

  lemma {:induction false} ScanAlternates(ws: seq<Word>)
    ensures Alternating(Scan(ws).done + [Line(Scan(ws).speaker, Scan(ws).body)])
  {
    if ws != [] {
      var init := ws[..|ws| - 1];
      var w := ws[|ws| - 1];
      ScanAlternates(init);
      var p := Scan(init);
      var before := p.done + [Line(p.speaker, p.body)];
      if w.speaker == p.speaker {
        var after := p.done + [Line(p.speaker, p.body + " " + w.text)];
        assert forall i :: 0 <= i < |after| ==> after[i].speaker == before[i].speaker;
      } else {
        var after := before + [Line(w.speaker, " " + w.text)];
        assert forall i :: 0 <= i < |before| ==> after[i] == before[i];
      }
    }
  }

  /** Adjacent lines never carry the same speaker tag. */
  lemma {:induction false} SegmentAlternates(ws: seq<Word>)
    ensures Alternating(Segment(ws))
  {
    ScanAlternates(ws);
  }

  lemma {:induction false} JoinTerminated(ls: seq<Line>)
    requires |ls| >= 1
    ensures Text.Join("\n", Terminated(ls)) == Render(ls) + "\n"
  {
    var init := ls[..|ls| - 1];
    Text.JoinAppend("\n", Terminated(init), Tag(ls[|ls| - 1]) + "\n");
    Text.JoinAppend("\n", Terminated(init), Tag(ls[|ls| - 1]));
  }

  /** Lines are separated by exactly one blank line and the text ends with the
      last line's tag and body: `"\n\n".join(tags)`. */
  lemma {:induction false} RenderSeparators(ls: seq<Line>)
    requires |ls| >= 1
    ensures Render(ls) == Text.Join("\n\n", Tags(ls))
  {
    var init := ls[..|ls| - 1];
    var last := Tag(ls[|ls| - 1]);
    assert Tags(ls) == Tags(init) + [last];
    if init == [] {
      assert Tags(ls) == [last];
    } else {
      RenderSeparators(init);
      JoinTerminated(init);
      Text.JoinAppend("\n", Terminated(init), last);
      Text.JoinAppend("\n\n", Tags(init), last);
      TagsFirst(init);
      var x := Text.Join("\n\n", Tags(init));
      assert Render(ls) == (x + "\n") + "\n" + last;
      DoubleNewline(x, last);
    }
  }

  lemma {:induction false} DoubleNewline(x: string, y: string)
    ensures (x + "\n") + "\n" + y == x + "\n\n" + y
  {
    assert "\n" + "\n" == "\n\n";
  }

  lemma {:induction false} TagsFirst(ls: seq<Line>)
    requires |ls| >= 1
    ensures |Tags(ls)| == |ls| && Tags(ls)[0] == Tag(ls[0])
  {
    if |ls| > 1 {
      TagsFirst(ls[..|ls| - 1]);
    }
  }

  /** The transcript always begins with "SPEAKER 0:". */
  lemma {:induction false} TranscriptStartsWithSpeakerZero(ws: seq<Word>)
    ensures Text.StartsWith(Render(Segment(ws)), "SPEAKER 0:")
  {
    var ls := Segment(ws);
    SegmentFirstSpeaker(ws);
    RenderSeparators(ls);
    TagsFirst(ls);
    Text.JoinStartsWith("\n\n", Tags(ls));
    assert Text.NatToString(0) == "0";
    assert Tag(ls[0])[..10] == "SPEAKER 0:";
  }

  /** An empty word list gives exactly one empty speaker-0 line. */
  lemma {:induction false} EmptyTranscript()
    ensures Render(Segment([])) == "SPEAKER 0:"
  {
    assert Segment([]) == [Line(0, "")];
    assert Text.NatToString(0) == "0";
  }

  lemma {:induction false} WorkedExampleLines(ws: seq<Word>)
    requires ws == [Word(0, "Hi"), Word(0, "there"), Word(1, "Hello"), Word(0, "Bye")]
    ensures Segment(ws) == [Line(0, " Hi there"), Line(1, " Hello"), Line(0, " Bye")]
  {
    assert ws[..3][..2][..1][..0] == [];
    assert Scan(ws[..1]) == Progress([], 0, " Hi");
    assert Scan(ws[..2]) == Progress([], 0, " Hi there") by { assert ws[..2][..1] == ws[..1]; }
    assert Scan(ws[..3]) == Progress([Line(0, " Hi there")], 1, " Hello") by { assert ws[..3][..2] == ws[..2]; }
    assert Scan(ws) == Step(Scan(ws[..3]), ws[3]);
    assert Scan(ws) == Progress([Line(0, " Hi there"), Line(1, " Hello")], 0, " Bye");
  }

  lemma {:induction false} RenderThree(ls: seq<Line>)
    requires |ls| == 3
    ensures Render(ls) == Tag(ls[0]) + "\n\n" + Tag(ls[1]) + "\n\n" + Tag(ls[2])
  {
    var t0, t1, t2 := Tag(ls[0]), Tag(ls[1]), Tag(ls[2]);
    var a, b := t0 + "\n", t1 + "\n";
    var one := ls[..1];
    var two := ls[..2];
    assert one[..0] == [] && two[..1] == one && ls[..|ls| - 1] == two;
    assert Terminated(one) == [a];
    assert Terminated(two) == [a] + [b];
    Text.JoinAppend("\n", [a], b);
    Text.JoinAppend("\n", [a] + [b], t2);
    assert Render(ls) == a + "\n" + b + "\n" + t2;
    DoubleNewlines(t0, t1, t2);
  }

  lemma {:induction false} DoubleNewlines(t0: string, t1: string, t2: string)
    ensures (t0 + "\n") + "\n" + (t1 + "\n") + "\n" + t2 == t0 + "\n\n" + t1 + "\n\n" + t2
  {
    assert "\n" + "\n" == "\n\n";
  }

  lemma {:induction false} ExampleTags()
    ensures Tag(Line(0, " Hi there")) == "SPEAKER 0: Hi there"
    ensures Tag(Line(1, " Hello")) == "SPEAKER 1: Hello"
    ensures Tag(Line(0, " Bye")) == "SPEAKER 0: Bye"
  {
    assert Text.NatToString(0) == "0" && Text.NatToString(1) == "1";
  }

  /** A worked example: two turns of speaker 0 around one of speaker 1. */
  lemma {:induction false} WorkedExample(ws: seq<Word>)
    requires ws == [Word(0, "Hi"), Word(0, "there"), Word(1, "Hello"), Word(0, "Bye")]
    ensures Render(Segment(ws)) == "SPEAKER 0: Hi there\n\nSPEAKER 1: Hello\n\nSPEAKER 0: Bye"
  {
    WorkedExampleLines(ws);
    var ls := Segment(ws);
    RenderThree(ls);
    ExampleTags();
    ExampleJoin(Tag(ls[0]), Tag(ls[1]), Tag(ls[2]));
  }

  lemma {:induction false} ExampleJoin(t0: string, t1: string, t2: string)
    requires t0 == "SPEAKER 0: Hi there" && t1 == "SPEAKER 1: Hello" && t2 == "SPEAKER 0: Bye"
    ensures t0 + "\n\n" + t1 + "\n\n" + t2 == "SPEAKER 0: Hi there\n\nSPEAKER 1: Hello\n\nSPEAKER 0: Bye"
  {
  }

  // ---------------------------------------------------------------------------
  // Independent reference: maximal runs of one speaker
  // ---------------------------------------------------------------------------

  /** The words grouped into maximal runs of one speaker, each run's body
      being `" " + w` over its words. */
  function Runs(ws: seq<Word>): (rs: seq<Line>)
    ensures ws == [] <==> rs == []
    ensures ws != [] ==> rs[|rs| - 1].speaker == ws[|ws| - 1].speaker
  {
    if ws == [] then []
    else
      var init := ws[..|ws| - 1];
      var w := ws[|ws| - 1];
      var rs := Runs(init);
      if rs != [] && rs[|rs| - 1].speaker == w.speaker
      then rs[..|rs| - 1] + [Line(w.speaker, rs[|rs| - 1].body + " " + w.text)]
      else rs + [Line(w.speaker, " " + w.text)]
  }

  lemma {:induction false} SegmentIsRunsSingle(w: Word)
    ensures Segment([w]) == (if w.speaker == 0 then [] else [Line(0, "")]) + Runs([w])
  {
    assert [w][..0] == [];
    assert Scan([w]) == Step(Start, w);
    assert Runs([w]) == [Line(w.speaker, " " + w.text)];
    assert "" + " " + w.text == " " + w.text;
  }

  /** The empty speaker-0 line that precedes the runs unless speaker 0 talks first. */
  function LeadIn(ws: seq<Word>): seq<Line> {
    if ws != [] && ws[0].speaker == 0 then [] else [Line(0, "")]
  }

  lemma {:induction false} SplitLast(lead: seq<Line>, rs: seq<Line>, done: seq<Line>, last: Line)
    requires rs != [] && done + [last] == lead + rs
    ensures rs[|rs| - 1] == last && lead + rs[..|rs| - 1] == done
  {
    var both := lead + rs;
    assert both[|both| - 1] == rs[|rs| - 1];
    assert both[..|both| - 1] == lead + rs[..|rs| - 1];
    assert (done + [last])[..|done|] == done;
  }

  lemma {:induction false} ScanSnoc(init: seq<Word>, w: Word)
    ensures Scan(init + [w]) == Step(Scan(init), w)
  {
    assert (init + [w])[..|init|] == init;
  }

  lemma {:induction false} RunsSnoc(init: seq<Word>, w: Word)
    ensures var rs := Runs(init);
            Runs(init + [w])
            == if rs != [] && rs[|rs| - 1].speaker == w.speaker
               then rs[..|rs| - 1] + [Line(w.speaker, rs[|rs| - 1].body + " " + w.text)]
               else rs + [Line(w.speaker, " " + w.text)]
  {
    assert (init + [w])[..|init|] == init;
  }

  /** The same speaker again: both sides extend their last line's body. */
  lemma {:induction false} SameSpeakerAgrees(lead: seq<Line>, rs: seq<Line>, done: seq<Line>, last: Line, text: string)
    requires rs != [] && done + [last] == lead + rs
    ensures rs[|rs| - 1] == last
    ensures done + [last.(body := last.body + " " + text)]
         == lead + (rs[..|rs| - 1] + [last.(body := rs[|rs| - 1].body + " " + text)])
  {
    SplitLast(lead, rs, done, last);
    assert lead + (rs[..|rs| - 1] + [last.(body := last.body + " " + text)])
        == (lead + rs[..|rs| - 1]) + [last.(body := last.body + " " + text)];
  }

  /** A new speaker: both sides gain one line. */
  lemma {:induction false} NewSpeakerAgrees(lead: seq<Line>, rs: seq<Line>, done: seq<Line>, last: Line, line: Line)
    requires done + [last] == lead + rs
    ensures (done + [last]) + [line] == lead + (rs + [line])
  {
    assert lead + (rs + [line]) == (lead + rs) + [line];
  }

  lemma {:induction false} SegmentIsRunsStep(init: seq<Word>, w: Word)
    requires init != [] && Segment(init) == LeadIn(init) + Runs(init)
    ensures Segment(init + [w]) == LeadIn(init) + Runs(init + [w])
  {
    var p := Scan(init);
    var rs := Runs(init);
    var lead := LeadIn(init);
    var last := Line(p.speaker, p.body);
    ScanSnoc(init, w);
    RunsSnoc(init, w);
    SplitLast(lead, rs, p.done, last);
    if w.speaker == p.speaker {
      SameSpeakerAgrees(lead, rs, p.done, last, w.text);
    } else {
      NewSpeakerAgrees(lead, rs, p.done, last, Line(w.speaker, " " + w.text));
    }
  }

  /** The formatter's lines are the maximal runs, preceded by an empty
      speaker-0 line unless the first word is speaker 0's. */
  lemma {:induction false} SegmentIsRuns(ws: seq<Word>)
    ensures Segment(ws) == LeadIn(ws) + Runs(ws)
  {
    if ws == [] {
    } else if |ws| == 1 {
      SegmentIsRunsSingle(ws[0]);
      assert [ws[0]] == ws;
    } else {
      var init := ws[..|ws| - 1];
      assert init[0] == ws[0];
      assert init + [ws[|ws| - 1]] == ws;
      SegmentIsRuns(init);
      SegmentIsRunsStep(init, ws[|ws| - 1]);
    }
  }

  // ---------------------------------------------------------------------------
  // sanitize_filename
  // ---------------------------------------------------------------------------

  /** `c.isalnum() or c in "._- "`, with `str.isalnum` given as `isAlnum`. */
  predicate Allowed(isAlnum: char -> bool, c: char) {
    isAlnum(c) || c in "._- "
  }

  /** src/utils.py `sanitize_filename`. */
  function SanitizeFilename(isAlnum: char -> bool, name: string): (r: string)
    ensures forall i :: 0 <= i < |r| ==> Allowed(isAlnum, r[i])
    ensures forall c :: multiset(r)[c] == if Allowed(isAlnum, c) then multiset(name)[c] else 0
  {
    if name == [] then []
    else
      assert name == [name[0]] + name[1..];
      (if Allowed(isAlnum, name[0]) then [name[0]] else []) + SanitizeFilename(isAlnum, name[1..])
  }

  /** `a` is `b` with some characters removed (order kept). */
  predicate IsSubsequence(a: string, b: string)
    decreases |b|
  {
    if a == [] then true
    else if b == [] then false
    else if a[0] == b[0] then IsSubsequence(a[1..], b[1..])
    else IsSubsequence(a, b[1..])
  }

  /** The output is an order-preserving subsequence of the input. */
  lemma {:induction false} SanitizeIsSubsequence(isAlnum: char -> bool, name: string)
    ensures IsSubsequence(SanitizeFilename(isAlnum, name), name)
  {
    if name != [] {
      var rest := SanitizeFilename(isAlnum, name[1..]);
      SanitizeIsSubsequence(isAlnum, name[1..]);
      if Allowed(isAlnum, name[0]) {
        var r := [name[0]] + rest;
        assert SanitizeFilename(isAlnum, name) == r;
        assert r[0] == name[0] && r[1..] == rest;
      } else {
        assert SanitizeFilename(isAlnum, name) == rest;
        assert rest != [] ==> rest[0] != name[0] by {
          if rest != [] { assert Allowed(isAlnum, rest[0]); }
        }
      }
    }
  }

  /** A name is left unchanged exactly when it is made only of allowed characters. */
  lemma {:induction false} SanitizeFixedPoints(isAlnum: char -> bool, name: string)
    ensures SanitizeFilename(isAlnum, name) == name <==> forall i :: 0 <= i < |name| ==> Allowed(isAlnum, name[i])
  {
    if name != [] && forall i :: 0 <= i < |name| ==> Allowed(isAlnum, name[i]) {
      var rest := name[1..];
      assert forall i :: 0 <= i < |rest| ==> rest[i] == name[i + 1];
      SanitizeFixedPoints(isAlnum, rest);
      assert Allowed(isAlnum, name[0]);
      assert SanitizeFilename(isAlnum, name) == [name[0]] + rest;
      assert [name[0]] + rest == name;
    }
  }

  /** Sanitizing twice gives the same name as sanitizing once. */
  lemma {:induction false} SanitizeIdempotent(isAlnum: char -> bool, name: string)
    ensures SanitizeFilename(isAlnum, SanitizeFilename(isAlnum, name)) == SanitizeFilename(isAlnum, name)
  {
    SanitizeFixedPoints(isAlnum, SanitizeFilename(isAlnum, name));
  }
}
