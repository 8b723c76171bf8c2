/** The job-description analysis: the two checks made before the model is
    asked, the check on its reply, and the rewrite of every error message
    into the one the caller sees. */
module AiService {
  import opened Wrappers
  import opened Strings

  const ApiKey := "API key"
  const LongerDescription := "longer job description"

  const ConfigMessage := "OpenAI " + ApiKey + " is not properly configured. Please configure OPENAI_API_KEY in your environment."
  const ShortMessage := "Please provide a " + LongerDescription + " for analysis"
  // Written as a concatenation so that the verifier does not unfold `includes`
  // over the whole literal.
  const EmptyReplyMessage := "No response content " + "received from OpenAI"

  const ConfigRewrite := "OpenAI " + ApiKey + " is not properly configured. Please check your environment settings."
  const ShortRewrite := ShortMessage + "."
  const FailurePrefix := "Failed to analyze job description: "

  /** The fewest UTF-16 code units a description must keep once trimmed. */
  const MinLength := 50

  /** The checks before the request: a client must exist (the API key was
      set when the module loaded), and the description must be present with
      a `length` of at least MinLength once surrounding whitespace is trimmed.
      The answer is the message thrown, if any. */
  function Guard(configured: bool, description: Option<string>): (r: Option<string>)
    ensures !configured ==> r == Some(ConfigMessage)
    ensures configured ==> (r.None? <==> description.Some? && Utf16Length(Trim(description.value)) >= MinLength)
    ensures configured && r.Some? ==> r == Some(ShortMessage)
  {
    if !configured then Some(ConfigMessage)
    else if description.None? || description.value == "" || Utf16Length(Trim(description.value)) < MinLength then
      Some(ShortMessage)
    else None
  }

  /** The `catch`: a message naming the API key, then one asking for a longer
      description, are replaced by fixed texts; any other is prefixed. */
  function RewriteError(m: string): (r: string)
    ensures Contains(m, ApiKey) ==> r == ConfigRewrite
    ensures !Contains(m, ApiKey) && Contains(m, LongerDescription) ==> r == ShortRewrite
    ensures !Contains(m, ApiKey) && !Contains(m, LongerDescription) ==> r == FailurePrefix + m
  {
    if Contains(m, ApiKey) then ConfigRewrite
    else if Contains(m, LongerDescription) then ShortRewrite
    else FailurePrefix + m
  }

  /** `analyzeJobDescription`. The chat completion is its outcome, given as a
      parameter: the reply's content (absent when the model sent none) or the
      message it threw. `parseJson` is `JSON.parse`, with its own failure
      message. */
  function Analyze<A>(configured: bool, description: Option<string>,
                      completion: Result<Option<string>, string>,
                      parseJson: string -> Result<A, string>): (r: Result<A, string>)
    ensures Guard(configured, description).Some? ==>
              r == Failure(RewriteError(Guard(configured, description).value))
    ensures Guard(configured, description).None? && completion.Failure? ==>
              r == Failure(RewriteError(completion.error))
    ensures Guard(configured, description).None? && completion.Success?
            && (completion.value.None? || completion.value.value == "") ==>
              r == Failure(RewriteError(EmptyReplyMessage))
    ensures Guard(configured, description).None? && completion.Success?
            && completion.value.Some? && completion.value.value != "" ==>
              r == match parseJson(completion.value.value)
                   case Success(a) => Success(a)
                   case Failure(m) => Failure(RewriteError(m))
    ensures r.Success? ==>
              && Guard(configured, description).None?
              && completion.Success? && completion.value.Some? && completion.value.value != ""
              && parseJson(completion.value.value) == Success(r.value)
  {
    var raw :=
      if Guard(configured, description).Some? then Failure(Guard(configured, description).value)
      else if completion.Failure? then Failure(completion.error)
      else if completion.value.None? || completion.value.value == "" then Failure(EmptyReplyMessage)
      else parseJson(completion.value.value);
    match raw
    case Success(a) => Success(a)
    case Failure(m) => Failure(RewriteError(m))
  }

  /** The configuration messages name the API key ... */
  lemma ConfigMessageNamesKey()
    ensures Contains(ConfigMessage, ApiKey)
    ensures Contains(ConfigRewrite, ApiKey)
  {
    ContainsInfix("OpenAI ", ApiKey, " is not properly configured. Please configure OPENAI_API_KEY in your environment.");
    ContainsInfix("OpenAI ", ApiKey, " is not properly configured. Please check your environment settings.");
  }

  /** ... the length messages ask for a longer description and do not. */
  lemma ShortMessageAsksForMore()
    ensures !Contains(ShortMessage, ApiKey) && Contains(ShortMessage, LongerDescription)
    ensures !Contains(ShortRewrite, ApiKey) && Contains(ShortRewrite, LongerDescription)
  {
    MissingChar(ShortMessage, ApiKey, 'A');
    MissingChar(ShortRewrite, ApiKey, 'A');
    ContainsInfix("Please provide a ", LongerDescription, " for analysis");
    ContainsInfix("Please provide a ", LongerDescription, " for analysis.");
    assert ShortRewrite == "Please provide a " + LongerDescription + " for analysis.";
  }

  /** Without a client, analysis fails with the configuration text whatever
      the description, the reply or the parser. */
  lemma UnconfiguredFails<A>(description: Option<string>, completion: Result<Option<string>, string>,
                             parseJson: string -> Result<A, string>)
    ensures Analyze(false, description, completion, parseJson) == Failure(ConfigRewrite)
  {
    ConfigMessageNamesKey();
  }

  /** With a client, a missing description or one shorter than MinLength
      once trimmed fails with the length text before any request. */
  lemma ShortDescriptionFails<A>(description: Option<string>, completion: Result<Option<string>, string>,
                                 parseJson: string -> Result<A, string>)
    requires description.None? || Utf16Length(Trim(description.value)) < MinLength
    ensures Analyze(true, description, completion, parseJson) == Failure(ShortRewrite)
  {
    ShortMessageAsksForMore();
  }

  /** A failed check decides the outcome: neither the reply nor the parser
      matters. */
  lemma GuardDecides<A>(configured: bool, description: Option<string>,
                        c1: Result<Option<string>, string>, c2: Result<Option<string>, string>,
                        p1: string -> Result<A, string>, p2: string -> Result<A, string>)
    requires Guard(configured, description).Some?
    ensures Analyze(configured, description, c1, p1) == Analyze(configured, description, c2, p2)
    ensures Analyze(configured, description, c1, p1).Failure?
  {
  }

  /** A trimmed `length` of exactly MinLength passes the length check, and
      one less does not. */
  lemma MinimumLengthPasses(description: string)
    ensures Utf16Length(Trim(description)) == MinLength ==> Guard(true, Some(description)).None?
    ensures Utf16Length(Trim(description)) == MinLength - 1 ==> Guard(true, Some(description)) == Some(ShortMessage)
  {
  }

  /** For a description without characters above U+FFFF, the length check
      compares the number of characters once trimmed. */
  lemma BasicDescriptionLength(d: string)
    requires forall i :: 0 <= i < |Trim(d)| ==> Trim(d)[i] as int <= 0xFFFF
    ensures Guard(true, Some(d)).None? <==> |Trim(d)| >= MinLength
  {
    Utf16LengthBasic(Trim(d));
  }

  /** Characters above U+FFFF count twice: twenty-five emoji pass. */
  lemma AstralDescriptionPasses()
    ensures Guard(true, Some(seq(25, _ => '\U{1F600}'))).None?
  {
    var d := seq(25, _ => '\U{1F600}');
    assert !IsSpace(d[0]) && !IsSpace(d[|d| - 1]);
    assert TrimStart(d) == d;
    assert TrimEnd(d) == d;
    Utf16LengthAstral(d);
  }

  /** Whitespace around a description does not count toward its length. */
  lemma PaddingDoesNotCount(configured: bool, w1: string, s: string, w2: string)
    requires AllSpace(w1) && AllSpace(w2)
    ensures Guard(configured, Some(w1 + s + w2)) == Guard(configured, Some(s))
  {
    TrimPadding(w1, s, w2);
  }

  /** The empty-reply message fails the first rewrite test ... */
  lemma EmptyReplyOmitsKey()
    ensures !Contains(EmptyReplyMessage, ApiKey)
  {
    MissingChar(EmptyReplyMessage, ApiKey, 'k');
  }

  /** ... and the second. */
  lemma EmptyReplyOmitsDescription()
    ensures !Contains(EmptyReplyMessage, LongerDescription)
  {
    MissingChar(EmptyReplyMessage, LongerDescription, 'l');
  }

  /** An empty reply is an error, reported with the prefix. */
  lemma EmptyReplyFails<A>(description: string, content: Option<string>,
                           parseJson: string -> Result<A, string>)
    requires content.None? || content == Some("")
    ensures Guard(true, Some(description)).None? ==>
              Analyze(true, Some(description), Success(content), parseJson)
              == Failure(FailurePrefix + EmptyReplyMessage)
  {
    EmptyReplyOmitsKey();
    EmptyReplyOmitsDescription();
    assert RewriteError(EmptyReplyMessage) == FailurePrefix + EmptyReplyMessage;
  }

  /** The API-key test wins over the length test: a message with both
      phrases is reported as a configuration problem. */
  lemma ApiKeyTestFirst(m: string)
    requires Contains(m, ApiKey) && Contains(m, LongerDescription)
    ensures RewriteError(m) == ConfigRewrite
  {
  }
}
