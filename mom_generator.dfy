/** src/mom_generator.py: the `MoMGenerator` class (API-key check, prompt
    templates, the English shortcut of `translate_text`, the retry loop of
    `generate_mom`) and the lazily created shared instance. */
module MomGenerator {
  import opened Wrappers
  import Text
  import Service
  import opened Environment

  // ---------------------------------------------------------------------------
  // Prompt templates
  // ---------------------------------------------------------------------------

  const TranslateOpening: string := "\n        Translate the following diarized output to "

  const TranslateLead: string :=
    "\n        \n        This is output text from a diarization model having multiple speakers. \n        Find the person names from the output text given here and replace the speaker ids \n        with corresponding person names. "

  const TranslateEnd: string := "\n        Give the output in conversational manner.\n        "

  /** The prompt `translate_text` sends for a language other than English. */
  function TranslatePrompt(text: string, targetLanguage: string): (r: string)
    ensures Text.StartsWith(r, TranslateOpening + targetLanguage + ":")
    ensures Text.Contains(r, text)
    ensures Text.Contains(r, "Generate complete words in " + targetLanguage + ".")
    ensures Text.EndsWith(r, TranslateEnd)
  {
    var head := TranslateOpening + targetLanguage + ":";
    var generate := "Generate complete words in " + targetLanguage + ".";
    var afterText := TranslateLead + (generate + TranslateEnd);
    var afterHead := "\n        \n        " + (text + afterText);
    Text.ConcatEnds(head, afterHead);
    Text.ContainsPrefix(text, afterText);
    Text.ContainsExtendLeft("\n        \n        ", text + afterText, text);
    Text.ContainsExtendLeft(head, afterHead, text);
    Text.ContainsPrefix(generate, TranslateEnd);
    Text.ContainsExtendLeft(TranslateLead, generate + TranslateEnd, generate);
    Text.ContainsExtendLeft(text, afterText, generate);
    Text.ContainsExtendLeft("\n        \n        ", text + afterText, generate);
    Text.ContainsExtendLeft(head, afterHead, generate);
    Text.ConcatEnds(generate, TranslateEnd);
    Text.EndsWithExtendLeft(TranslateLead, generate + TranslateEnd, TranslateEnd);
    Text.EndsWithExtendLeft(text, afterText, TranslateEnd);
    Text.EndsWithExtendLeft("\n        \n        ", text + afterText, TranslateEnd);
    Text.EndsWithExtendLeft(head, afterHead, TranslateEnd);
    head + afterHead
  }

  /** `translate_text`: English (in any letter case) comes back as it is and
      no request is made; otherwise the completion's content, or the request's
      exception, which is re-raised. */
  function TranslateText(text: string, targetLanguage: string, complete: string -> Service.Reply): (r: Result<string, string>)
    ensures Text.IsEnglish(targetLanguage) ==> r == Ok(text)
    ensures !Text.IsEnglish(targetLanguage) ==>
              match complete(TranslatePrompt(text, targetLanguage))
              case Completion(content) => r == Ok(content)
              case Failure(message) => r == Err(message)
  {
    if Text.IsEnglish(targetLanguage) then Ok(text)
    else
      match complete(TranslatePrompt(text, targetLanguage))
      case Completion(content) => Ok(content)
      case Failure(message) => Err(message)
  }

  /** For English the service is never consulted: any two services give the
      same answer. */
  lemma {:induction false} EnglishMakesNoRequest(text: string, targetLanguage: string,
                                                 complete: string -> Service.Reply, other: string -> Service.Reply)
    requires Text.IsEnglish(targetLanguage)
    ensures TranslateText(text, targetLanguage, complete) == TranslateText(text, targetLanguage, other) == Ok(text)
  {
  }

  const MomIntro: string :=
    "\n        You are a professional Minutes of Meeting generator. Using the conversation transcript below:\n        \n        1. Identify all participants and their roles\n        2. Create a concise summary of the main discussion points\n        3. List all decisions made during the meeting\n        4. Create a detailed table containing:\n           - Tasks assigned\n           - Person responsible\n           - Current status\n           - Deadlines\n        5. Note any follow-up actions required\n        6. Include any important dates mentioned\n        \n        Today's date is "

  const MomFormat: string :=
    "\n        Format the output in a professional manner with clear sections and bullet points.\n\n        "

  /** `create_mom_prompt`, with `today` standing for
      `datetime.now().strftime("%d-%m-%Y")`. */
  function CreateMomPrompt(transcript: string, language: string, today: string): (r: string)
    ensures Text.StartsWith(r, MomIntro + today + ".")
    ensures Text.Contains(r, "Generate the Minutes of Meeting in " + language + " only.")
    ensures Text.EndsWith(r, "Transcript:\n        " + transcript + "\n        ")
    ensures Text.Contains(r, transcript)
  {
    var head := MomIntro + today + ".";
    var instruction := "Generate the Minutes of Meeting in " + language + " only.";
    var ending := "Transcript:\n        " + transcript + "\n        ";
    var afterInstruction := MomFormat + ending;
    var afterHead := "\n        " + (instruction + afterInstruction);
    Text.ConcatEnds(head, afterHead);
    Text.ContainsPrefix(instruction, afterInstruction);
    Text.ContainsExtendLeft("\n        ", instruction + afterInstruction, instruction);
    Text.ContainsExtendLeft(head, afterHead, instruction);
    Text.ConcatEnds(MomFormat, ending);
    Text.EndsWithExtendLeft(instruction, afterInstruction, ending);
    Text.EndsWithExtendLeft("\n        ", instruction + afterInstruction, ending);
    Text.EndsWithExtendLeft(head, afterHead, ending);
    Text.ContainsMiddle("Transcript:\n        ", transcript, "\n        ");
    Text.ContainsExtendLeft(MomFormat, ending, transcript);
    Text.ContainsExtendLeft(instruction, afterInstruction, transcript);
    Text.ContainsExtendLeft("\n        ", instruction + afterInstruction, transcript);
    Text.ContainsExtendLeft(head, afterHead, transcript);
    head + afterHead
  }

  // ---------------------------------------------------------------------------
  // The retry loop
  // ---------------------------------------------------------------------------

  /** How `generate_mom` ends: with the first completion's content, by
      re-raising the last attempt's exception, or, when no attempt is made,
      by falling off the end of the loop and returning None. */
  datatype MomOutcome = Minutes(text: string) | Raised(message: string) | NoneReturned

  /** The attempts from number `k` on, when attempt `i` gets `replies(i)`. */
  function Attempts(replies: nat -> Service.Reply, maxRetries: int, k: nat): (r: MomOutcome)
    ensures r.NoneReturned? <==> maxRetries <= k
    ensures r.Minutes? ==> exists j :: k <= j < maxRetries && replies(j) == Service.Completion(r.text)
    ensures r.Raised? ==> replies(maxRetries - 1) == Service.Failure(r.message)
    decreases maxRetries - k
  {
    if maxRetries <= k then NoneReturned
    else
      match replies(k)
      case Completion(content) => Minutes(content)
      case Failure(message) =>
        if k == maxRetries - 1 then Raised(message) else Attempts(replies, maxRetries, k + 1)
  }

  /** The outcome of a whole `generate_mom` call. */
  function Outcome(replies: nat -> Service.Reply, maxRetries: int): (r: MomOutcome)
    ensures r.NoneReturned? <==> maxRetries <= 0
    ensures r.Minutes? ==> exists j :: 0 <= j < maxRetries && replies(j) == Service.Completion(r.text)
  {
    Attempts(replies, maxRetries, 0)
  }

  /** `MoMGenerator` once its key has been found. */
  class Generator {
    const apiKey: string

    constructor(apiKey: string)
      requires apiKey != ""
      ensures this.apiKey == apiKey
    {
      this.apiKey := apiKey;
    }

    /** `generate_mom`. Attempt `i` of the request gets `replies(i)`; `sent`
        lists the prompt of every request made, in order. */
    method GenerateMom(transcript: string, language: string, today: string, maxRetries: int,
                       replies: nat -> Service.Reply)
      returns (r: MomOutcome, sent: seq<string>)
      ensures r == Outcome(replies, maxRetries)
      ensures forall i :: 0 <= i < |sent| ==> sent[i] == CreateMomPrompt(transcript, language, today)
      ensures |sent| <= if maxRetries < 0 then 0 else maxRetries
      ensures forall i :: 0 <= i < |sent| - 1 ==> replies(i).Failure?
      ensures r.Minutes? ==> |sent| >= 1 && replies(|sent| - 1) == Service.Completion(r.text)
      ensures r.Raised? ==> |sent| == maxRetries && replies(maxRetries - 1) == Service.Failure(r.message)
      ensures r.NoneReturned? <==> maxRetries <= 0
      ensures r.NoneReturned? ==> sent == []
    {
      var prompt := CreateMomPrompt(transcript, language, today);
      var count := if maxRetries < 0 then 0 else maxRetries;
      sent := [];
      for attempt := 0 to count
        invariant |sent| == attempt
        invariant forall i :: 0 <= i < attempt ==> sent[i] == prompt && replies(i).Failure?
        invariant 0 < attempt ==> attempt < maxRetries
        invariant Outcome(replies, maxRetries) == Attempts(replies, maxRetries, attempt)
      {
        sent := sent + [prompt];
        match replies(attempt)
        case Completion(content) =>
          return Minutes(content), sent;
        case Failure(message) =>
          if attempt == maxRetries - 1 {
            return Raised(message), sent;
          }
      }
      r := NoneReturned;
    }
  }

  /** Attempts before the first success are retried; the first success is
      returned and no later reply is looked at. */
  lemma {:induction false} FirstSuccessReturned(replies: nat -> Service.Reply, maxRetries: int, k: nat, j: nat)
    requires k <= j < maxRetries
    requires forall i :: k <= i < j ==> replies(i).Failure?
    requires replies(j).Completion?
    ensures Attempts(replies, maxRetries, k) == Minutes(replies(j).content)
    decreases j - k
  {
    if k < j {
      FirstSuccessReturned(replies, maxRetries, k + 1, j);
    }
  }

  /** When every attempt fails, the last failure is raised. */
  lemma {:induction false} AllFailuresRaiseLast(replies: nat -> Service.Reply, maxRetries: int, k: nat)
    requires k < maxRetries
    requires forall i :: k <= i < maxRetries ==> replies(i).Failure?
    ensures Attempts(replies, maxRetries, k) == Raised(replies(maxRetries - 1).message)
    decreases maxRetries - k
  {
    if k < maxRetries - 1 {
      AllFailuresRaiseLast(replies, maxRetries, k + 1);
    }
  }

  /** Only the first `maxRetries` replies matter. */
  lemma {:induction false} LaterRepliesIrrelevant(replies: nat -> Service.Reply, other: nat -> Service.Reply, maxRetries: int, k: nat)
    requires forall i :: k <= i < maxRetries ==> replies(i) == other(i)
    ensures Attempts(replies, maxRetries, k) == Attempts(other, maxRetries, k)
    decreases maxRetries - k
  {
    if k < maxRetries - 1 {
      LaterRepliesIrrelevant(replies, other, maxRetries, k + 1);
    }
  }

  /** With the default of three attempts, two failures and then a success
      give the success. */
  lemma {:induction false} FailTwiceThenSucceed(replies: nat -> Service.Reply, minutes: string)
    requires replies(0).Failure? && replies(1).Failure? && replies(2) == Service.Completion(minutes)
    ensures Outcome(replies, 3) == Minutes(minutes)
  {
    FirstSuccessReturned(replies, 3, 0, 2);
  }

  // ---------------------------------------------------------------------------
  // The shared instance
  // ---------------------------------------------------------------------------

  /** The module-level `_mom_generator`, None until first use. */
  class Registry {
    var instance: Generator?

    constructor()
      ensures instance == null
    {
      instance := null;
    }

    /** `get_mom_generator`: builds the instance on first use, from the key
        `envKey` read from the environment, and hands back the same one ever
        after, whatever the environment says by then. When the key is missing
        the constructor raises and nothing is stored, so a later call tries
        again. */
    method GetMomGenerator(envKey: Option<string>) returns (r: Result<Generator, InitError>)
      modifies this
      ensures old(instance) != null ==> r == Ok(old(instance)) && instance == old(instance)
      ensures old(instance) == null && ApiKeyPresent(envKey) ==>
                r.Ok? && fresh(r.value) && r.value.apiKey == envKey.value && instance == r.value
      ensures old(instance) == null && !ApiKeyPresent(envKey) ==> r == Err(MissingApiKey) && instance == null
    {
      if instance == null {
        if !ApiKeyPresent(envKey) {
          return Err(MissingApiKey);
        }
        instance := new Generator(envKey.value);
      }
      r := Ok(instance);
    }
  }
}
