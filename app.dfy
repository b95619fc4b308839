/** src/app.py: `create_transcript` with its empty-response guard, and the
    prompt templates of `translate_text` and `create_prompt`. */
module App {
  import opened Wrappers
  import Text
  import Service
  import Utils

  /** src/app.py `create_transcript`: a falsy response (None, or an empty
      dict) gives "" without looking at any word; any other response goes
      through the same loop as src/utils.py's. */
  method CreateTranscript(response: Option<Utils.Response>) returns (r: Result<string, Utils.TranscriptError>)
    ensures response.None? ==> r == Ok("")
    ensures response.Some? ==> r == Utils.TranscriptOf(response.value)
    ensures response.Some? && r.Ok? ==> Text.StartsWith(r.value, "SPEAKER 0:")
  {
    if response.None? {
      return Ok("");
    }
    r := Utils.CreateTranscript(response.value);
  }

  /** `sub_prompt`: empty for English, otherwise an instruction naming the language. */
  function TranslateInstruction(targetLanguage: string): (r: string)
    ensures r == "" <==> Text.IsEnglish(targetLanguage)
    ensures !Text.IsEnglish(targetLanguage) ==>
              Text.StartsWith(r, " Translate the following diarized output to ")
              && Text.EndsWith(r, targetLanguage)
  {
    if !Text.IsEnglish(targetLanguage) then
      Text.ConcatEnds(" Translate the following diarized output to ", targetLanguage);
      " Translate the following diarized output to " + targetLanguage
    else ""
  }

  const TranslateClosing: string :=
    "This is the output text having multiple speakers from a diarization model. Find the person names from the output text given here and replace the speaker ids like SPEAKER 0, SPEAKER 1 etc with corresponding person names. "

  /** The prompt sent by src/app.py `translate_text`. */
  function TranslationPrompt(text: string, targetLanguage: string): (r: string)
    ensures Text.StartsWith(r, TranslateInstruction(targetLanguage) + "\n" + text + "\n\n")
    ensures Text.EndsWith(r, "Generate complete words in " + targetLanguage + ".")
    ensures Text.Contains(r, text)
    ensures r[0] == '\n' <==> Text.IsEnglish(targetLanguage)
  {
    var instruction := TranslateInstruction(targetLanguage);
    var head := instruction + "\n" + text + "\n\n";
    var tail := "Generate complete words in " + targetLanguage + ".";
    Text.ConcatEnds(head, TranslateClosing + tail);
    Text.ConcatEnds(TranslateClosing, tail);
    Text.EndsWithExtendLeft(head, TranslateClosing + tail, tail);
    Text.ContainsMiddle(instruction + "\n", text, "\n\n");
    Text.ContainsExtendRight(head, TranslateClosing + tail, text);
    assert head[0] == (if instruction == "" then '\n' else instruction[0]);
    var opening := " Translate the following diarized output to ";
    assert instruction != "" ==> instruction[0] == instruction[..|opening|][0] == opening[0] == ' ';
    head + (TranslateClosing + tail)
  }

  /** src/app.py `translate_text`: one request with the prompt above; when
      it raises, the original text comes back unchanged. */
  function TranslateText(text: string, targetLanguage: string, complete: string -> Service.Reply): (r: string)
    ensures complete(TranslationPrompt(text, targetLanguage)).Failure? ==> r == text
    ensures complete(TranslationPrompt(text, targetLanguage)).Completion? ==>
              r == complete(TranslationPrompt(text, targetLanguage)).content
  {
    match complete(TranslationPrompt(text, targetLanguage))
    case Completion(content) => content
    case Failure(_) => text
  }

  const MomPromptIntro: string :=
    "\n    You are a MoM generator from the following transcript. Take the below conversation \n    from a meeting and generate the minutes of the meeting and create a detailed table \n    containing the list of tasks assigned to each person, the status of each task, \n    and the deadlines. Write dates as well in the output table. \n    "

  const MomPromptSections: string :=
    "\n    Format the output with clear sections:\n    - Meeting Date\n    - Attendees\n    - Meeting Agenda\n    - Discussion Points\n    - Task Assignments (in table format)\n    - Next Steps\n    - Meeting Conclusion\n"

  /** src/app.py `create_prompt`, with `today` standing for
      `datetime.now().strftime("%d-%m-%Y")`. */
  function CreatePrompt(transcript: string, language: string, today: string): (r: string)
    ensures Text.Contains(r, "Today is " + today + ".")
    ensures Text.Contains(r, "Generate the Minutes of Meeting in " + language + " only.")
    ensures Text.EndsWith(r, "\n    Transcript:\n    " + (transcript + "\n    "))
    ensures Text.Contains(r, transcript)
  {
    var date := "Today is " + today + ".";
    var mid := " Identify the speaker names from the meeting transcript.\n    \n    ";
    var lang := "Generate the Minutes of Meeting in " + language + " only.";
    var tail := "\n    Transcript:\n    " + (transcript + "\n    ");
    var afterLang := MomPromptSections + tail;
    var afterDate := mid + (lang + afterLang);
    Text.ContainsPrefix(date, afterDate);
    Text.ContainsExtendLeft(MomPromptIntro, date + afterDate, date);
    Text.ContainsPrefix(lang, afterLang);
    Text.ContainsExtendLeft(mid, lang + afterLang, lang);
    Text.ContainsExtendLeft(date, afterDate, lang);
    Text.ContainsExtendLeft(MomPromptIntro, date + afterDate, lang);
    Text.ConcatEnds(MomPromptSections, tail);
    Text.EndsWithExtendLeft(lang, afterLang, tail);
    Text.EndsWithExtendLeft(mid, lang + afterLang, tail);
    Text.EndsWithExtendLeft(date, afterDate, tail);
    Text.EndsWithExtendLeft(MomPromptIntro, date + afterDate, tail);
    Text.ContainsPrefix(transcript, "\n    ");
    Text.ContainsExtendLeft("\n    Transcript:\n    ", transcript + "\n    ", transcript);
    Text.ContainsExtendLeft(MomPromptSections, tail, transcript);
    Text.ContainsExtendLeft(lang, afterLang, transcript);
    Text.ContainsExtendLeft(mid, lang + afterLang, transcript);
    Text.ContainsExtendLeft(date, afterDate, transcript);
    Text.ContainsExtendLeft(MomPromptIntro, date + afterDate, transcript);
    MomPromptIntro + (date + afterDate)
  }
}
