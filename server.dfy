/** The `/api/get-data` request handler of the Code Analyzer relay server:
    validation of the JSON body, selection of one of three prompt templates,
    extraction of the completion text from the language-model reply, and the
    HTTP response that results. */
module Server {
  import opened Wrappers
  import opened Strings

  // ---------------------------------------------------------------------------
  // Fixed messages
  // ---------------------------------------------------------------------------

  const RequiredMessage := "Code and type are required."
  const InvalidTypeMessage := "Invalid analysis type."
  /** The reply returned in place of any failed or malformed completion. */
  const FailureMessage := "\U{274C} Failed to process the request."

  // ---------------------------------------------------------------------------
  // Request validation
  // ---------------------------------------------------------------------------

  /** JavaScript falsiness of a string-valued body field: absent (undefined or
      null) or the empty string. */
  predicate Falsy(field: Option<string>) {
    field == None || field == Some("")
  }

  /** The three analysis types the handler recognises (the body's `type`). */
  datatype Action = Analyze | Optimize | Explain

  function ActionName(a: Action): string {
    match a
    case Analyze => "analyze"
    case Optimize => "optimize"
    case Explain => "explain"
  }

  /** The strict-equality tests of the if/else chain: a `type` names an action
      exactly when it is one of the three lower-case names. */
  function ParseAction(s: string): (r: Option<Action>)
    ensures r.Some? <==> s == "analyze" || s == "optimize" || s == "explain"
    ensures r.Some? ==> ActionName(r.value) == s
  {
    if s == "analyze" then Some(Analyze)
    else if s == "optimize" then Some(Optimize)
    else if s == "explain" then Some(Explain)
    else None
  }

  /** Every action's name is parsed back to that action. */
  lemma ActionNameParses(a: Action)
    ensures ParseAction(ActionName(a)) == Some(a)
  {
  }

  // ---------------------------------------------------------------------------
  // Template text
  //
  // The fixed text of the three templates, sentence by sentence, each literal
  // wrapped at about forty characters. None of these pieces holds a backtick:
  // the only Markdown fence any template writes is the optimize prompt's
  // `FenceOpen` ... `FenceClose`. That fact is stated piece by piece, in one
  // small lemma per constant, and only the lemmas a proof needs are called:
  // as an `ensures` on every constant it would weigh on every proof that
  // mentions the text.
  // ---------------------------------------------------------------------------

  /** Lead of the analyze and optimize prompts; the language follows. */
  const OpeningLead :=
    "I have the following "

  /** Lead of the explain prompt; the language follows. */
  const ExplainLead :=
    "Please provide a clear and detailed"
    + " explanation of the following "

  /** Closes the opening sentence after the language. */
  const CodeWord :=
    " code."

  const AnalyzeAsk :=
    " Please analyze its time and space"
    + " complexities with detailed reasoning"
    + " suitable for "

  const AnalyzeScope :=
    ". Only provide the complexity analysis,"
    + " no explanation of the code itself."

  const AnalyzeFormat :=
    " Format your response in Markdown with"
    + " appropriate headings, bullet points,"
    + " and bold where necessary."

  /** The optimize prompt's request for a verdict on optimality. */
  const OptimizeCheck :=
    " Please check if it is already"
    + " optimized."

  const OptimizeConfirm :=
    " If it is, simply confirm that no"
    + " further optimizations are necessary."

  const OptimizeSuggest :=
    " If not, suggest specific optimization"
    + " techniques with detailed reasoning."

  /** The optimize prompt's request for a rewritten version; the fence follows. */
  const OptimizeRewrite :=
    " Then, provide an optimized version of"
    + " the code inside a proper Markdown code"
    + " block ("

  const OptimizeExplain :=
    "). Also, explain the optimizations made"
    + " and why they improve the code, suitable"
    + " for "

  const OptimizeFormat :=
    ". Format the entire response using"
    + " Markdown including headings, bullet"
    + " points, and code blocks."

  const ExplainPurpose :=
    " Explain the purpose of the code, how it"
    + " works step by step,"

  const ExplainParts :=
    " and describe the function of each"
    + " important part or line in simple terms"
    + " suitable for "

  const ExplainFormat :=
    ". Format the explanation in Markdown"
    + " with appropriate headings, bullet"
    + " points, and bold for key terms."

  const LevelLead :=
    "a "

  const LevelTail :=
    " level developer"

  /** Separates the instructions from the submitted code. */
  const CodeHeader :=
    "\n\nCode:\n\n"

  lemma OpeningLeadHasNoBacktick()
    ensures '`' !in OpeningLead
  {
  }

  lemma ExplainLeadHasNoBacktick()
    ensures '`' !in ExplainLead
  {
  }

  lemma CodeWordHasNoBacktick()
    ensures '`' !in CodeWord
  {
  }

  lemma AnalyzeAskHasNoBacktick()
    ensures '`' !in AnalyzeAsk
  {
  }

  lemma AnalyzeScopeHasNoBacktick()
    ensures '`' !in AnalyzeScope
  {
  }

  lemma AnalyzeFormatHasNoBacktick()
    ensures '`' !in AnalyzeFormat
  {
  }

  lemma OptimizeCheckHasNoBacktick()
    ensures '`' !in OptimizeCheck
  {
  }

  lemma OptimizeConfirmHasNoBacktick()
    ensures '`' !in OptimizeConfirm
  {
  }

  lemma OptimizeSuggestHasNoBacktick()
    ensures '`' !in OptimizeSuggest
  {
  }

  lemma OptimizeRewriteHasNoBacktick()
    ensures '`' !in OptimizeRewrite
  {
  }

  lemma OptimizeExplainHasNoBacktick()
    ensures '`' !in OptimizeExplain
  {
  }

  lemma OptimizeFormatHasNoBacktick()
    ensures '`' !in OptimizeFormat
  {
  }

  lemma ExplainPurposeHasNoBacktick()
    ensures '`' !in ExplainPurpose
  {
  }

  lemma ExplainPartsHasNoBacktick()
    ensures '`' !in ExplainParts
  {
  }

  lemma ExplainFormatHasNoBacktick()
    ensures '`' !in ExplainFormat
  {
  }

  lemma LevelLeadHasNoBacktick()
    ensures '`' !in LevelLead
  {
  }

  lemma LevelTailHasNoBacktick()
    ensures '`' !in LevelTail
  {
  }

  lemma CodeHeaderHasNoBacktick()
    ensures '`' !in CodeHeader
  {
  }

  // ---------------------------------------------------------------------------
  // Prompt templates
  // ---------------------------------------------------------------------------

  /** The opening sentence, naming the language exactly as given. */
  function Opening(a: Action, language: string): string {
    (if a == Explain then ExplainLead else OpeningLead) + language + CodeWord
  }

  /** The audience the answer is calibrated to, with the level lower-cased. */
  function LevelPhrase(level: string): string {
    LevelLead + Lower(level) + LevelTail
  }

  /** The opening of the Markdown code block the optimize prompt asks the
      answer to use: three backticks, the lower-cased language, a line break. */
  function FenceOpen(language: string): string {
    "```" + Lower(language) + "\n"
  }

  /** The placeholder body and the closing backticks of that code block. */
  const FenceClose := "code\n```"

  /** The trailer every prompt ends with: a header, then the submitted code
      verbatim. */
  function CodeSection(code: string): string {
    CodeHeader + code
  }

  /** The optimize prompt's requests after the verdict, up to the code block:
      techniques if the code is not optimal, and a rewritten version. */
  const OptimizeAsk := OptimizeConfirm + OptimizeSuggest + OptimizeRewrite

  /** What each prompt asks for, between the opening sentence and the audience. */
  function Before(a: Action, language: string): string {
    match a
    case Analyze => AnalyzeAsk
    case Optimize => OptimizeCheck + OptimizeAsk + FenceOpen(language) + FenceClose + OptimizeExplain
    case Explain => ExplainPurpose + ExplainParts
  }

  /** What each prompt asks for after the audience: scope and formatting. */
  function After(a: Action): string {
    match a
    case Analyze => AnalyzeScope + AnalyzeFormat
    case Optimize => OptimizeFormat
    case Explain => ExplainFormat
  }

  /** The prompt sent to the language model for a validated request. */
  function BuildPrompt(a: Action, code: string, level: string, language: string): string {
    Opening(a, language) + Before(a, language) + LevelPhrase(level) + After(a) + CodeSection(code)
  }

  // ---------------------------------------------------------------------------
  // Regrouping the prompt
  //
  // `BuildPrompt` is a left-nested chain of concatenations. Each lemma below
  // locates one piece of a chain of exactly that shape, so that the facts about
  // prompts follow without the verifier re-associating concatenations of the
  // long template literals, which it does only at great cost.
  // ---------------------------------------------------------------------------

  lemma PrefixOfAppend(a: string, b: string, c: string, d: string, e: string)
    ensures a <= a + b + c + d + e
  {
    assert (a + b + c + d + e)[..|a|] == a;
  }

  /** Regrouping a concatenation of eight pieces around its third and fourth. */
  lemma AppendRegroup(o: string, b: string, f: string, g: string, e: string, l: string, a: string, c: string)
    ensures o + (b + f + g + e) + l + a + c == o + b + f + g + (e + l + a + c)
  {
  }

  lemma ContainsMiddle(a: string, t: string, b: string, c: string)
    ensures Contains(a + t + b + c, t)
  {
    assert OccursAt(t, a + t + b + c, |a|) by {
      assert (a + t + b + c)[|a|..|a| + |t|] == t;
    }
  }

  /** An occurrence inside `s` is one inside `a + s + b + c + d`. */
  lemma ContainsWithin(s: string, t: string, a: string, b: string, c: string, d: string)
    requires Contains(s, t)
    ensures Contains(a + s + b + c + d, t)
  {
    var i :| 0 <= i <= |s| && OccursAt(t, s, i);
    var w := a + s + b + c + d;
    assert OccursAt(t, w, |a| + i) by {
      assert w[|a| + i..|a| + i + |t|] == s[i..i + |t|];
    }
  }

  /** An occurrence inside `s` is one inside `s + b + c + d`. */
  lemma ContainsExtended(s: string, t: string, b: string, c: string, d: string)
    requires Contains(s, t)
    ensures Contains(s + b + c + d, t)
  {
    var i :| 0 <= i <= |s| && OccursAt(t, s, i);
    var w := s + b + c + d;
    assert OccursAt(t, w, i) by {
      assert w[i..i + |t|] == s[i..i + |t|];
    }
  }

  // ---------------------------------------------------------------------------
  // Validation and prompt selection
  // ---------------------------------------------------------------------------

  /** What the handler decides before any outbound call: a 400 with an error
      message, or the prompt to send. */
  datatype Outcome = BadRequest(error: string) | Prompt(text: string)

  /** The handler up to the outbound call: the missing-field guard first, then
      the choice of template by `type`. */
  function Handle(code: Option<string>, action: Option<string>, level: string, language: string): (r: Outcome)
    ensures r == BadRequest(RequiredMessage) <==> Falsy(code) || Falsy(action)
    ensures r == BadRequest(InvalidTypeMessage) <==>
      !Falsy(code) && !Falsy(action) && ParseAction(action.value).None?
    ensures r.Prompt? <==> !Falsy(code) && !Falsy(action) && ParseAction(action.value).Some?
    ensures r.Prompt? ==> r.text == BuildPrompt(ParseAction(action.value).value, code.value, level, language)
  {
    if Falsy(code) || Falsy(action) then BadRequest(RequiredMessage)
    else match ParseAction(action.value)
      case None => BadRequest(InvalidTypeMessage)
      case Some(a) => Prompt(BuildPrompt(a, code.value, level, language))
  }

  // ---------------------------------------------------------------------------
  // Facts about the prompts
  // ---------------------------------------------------------------------------

  /** Every prompt ends with the code header followed by the code unchanged. */
  lemma PromptEndsWithCode(a: Action, code: string, level: string, language: string)
    ensures EndsWith(BuildPrompt(a, code, level, language), "\n\nCode:\n\n" + code)
  {
    EndsWithAppend(Opening(a, language) + Before(a, language) + LevelPhrase(level) + After(a), CodeSection(code));
  }

  /** Every prompt opens with a sentence naming the language exactly as given. */
  lemma PromptOpensWithLanguage(a: Action, code: string, level: string, language: string)
    ensures a != Explain ==> OpeningLead + language + CodeWord <= BuildPrompt(a, code, level, language)
    ensures a == Explain ==> ExplainLead + language + CodeWord <= BuildPrompt(a, code, level, language)
  {
    PrefixOfAppend(Opening(a, language), Before(a, language), LevelPhrase(level), After(a), CodeSection(code));
  }

  /** Every prompt names the audience "a <level lower-cased> level developer". */
  lemma PromptNamesLevel(a: Action, code: string, level: string, language: string)
    ensures Contains(BuildPrompt(a, code, level, language), "a " + Lower(level) + " level developer")
  {
    ContainsMiddle(Opening(a, language) + Before(a, language), LevelPhrase(level), After(a), CodeSection(code));
  }

  /** Whatever the part before the audience phrase holds, the prompt holds. */
  lemma BeforeInPrompt(a: Action, code: string, level: string, language: string, t: string)
    requires Contains(Before(a, language), t)
    ensures Contains(BuildPrompt(a, code, level, language), t)
  {
    ContainsWithin(Before(a, language), t, Opening(a, language), LevelPhrase(level), After(a), CodeSection(code));
  }

  /** The optimize prompt asks for a verdict on whether the code is already
      optimal, and for a rewritten version ("provide an optimized version of
      the code") inside a Markdown fence opened by three backticks, the
      lower-cased language and a line break. */
  lemma OptimizePromptAsksForRewrite(code: string, level: string, language: string)
    ensures var p := BuildPrompt(Optimize, code, level, language);
      && Contains(p, OptimizeCheck)
      && Contains(p, OptimizeRewrite)
      && Contains(p, "```" + Lower(language) + "\n")
  {
    ContainsAppended(OptimizeConfirm + OptimizeSuggest, OptimizeRewrite);
    ContainsWithin(OptimizeAsk, OptimizeRewrite, OptimizeCheck, FenceOpen(language), FenceClose, OptimizeExplain);
    BeforeInPrompt(Optimize, code, level, language, OptimizeRewrite);
    ContainsAppended(OptimizeAsk, OptimizeCheck);
    ContainsExtended(OptimizeCheck + OptimizeAsk, OptimizeCheck, FenceOpen(language), FenceClose, OptimizeExplain);
    ContainsMiddle(OptimizeCheck + OptimizeAsk, FenceOpen(language), FenceClose, OptimizeExplain);
    BeforeInPrompt(Optimize, code, level, language, OptimizeCheck);
    BeforeInPrompt(Optimize, code, level, language, FenceOpen(language));
  }

  /** The analyze and explain templates hold no backtick of their own: their
      prompts contain one only if the code, the level or the language does. */
  lemma OnlyOptimizeHasFence(a: Action, code: string, level: string, language: string)
    requires a != Optimize
    requires '`' !in code && '`' !in level && '`' !in language
    ensures '`' !in BuildPrompt(a, code, level, language)
  {
    LowerKeepsAbsent(level, '`');
    CodeWordHasNoBacktick();
    LevelLeadHasNoBacktick();
    LevelTailHasNoBacktick();
    CodeHeaderHasNoBacktick();
    if a == Analyze {
      OpeningLeadHasNoBacktick();
      AnalyzeAskHasNoBacktick();
      AnalyzeScopeHasNoBacktick();
      AnalyzeFormatHasNoBacktick();
    } else {
      ExplainLeadHasNoBacktick();
      ExplainPurposeHasNoBacktick();
      ExplainPartsHasNoBacktick();
      ExplainFormatHasNoBacktick();
    }
  }

  /** The text of the optimize prompt before its fence. */
  function OptimizePreamble(language: string): string {
    Opening(Optimize, language) + (OptimizeCheck + OptimizeAsk)
  }

  /** The text of the optimize prompt after its fence. */
  function OptimizeTail(code: string, level: string): string {
    OptimizeExplain + LevelPhrase(level) + OptimizeFormat + CodeSection(code)
  }

  lemma OptimizePromptSplits(code: string, level: string, language: string)
    ensures BuildPrompt(Optimize, code, level, language)
            == OptimizePreamble(language) + FenceOpen(language) + FenceClose + OptimizeTail(code, level)
  {
    AppendRegroup(Opening(Optimize, language), OptimizeCheck + OptimizeAsk, FenceOpen(language), FenceClose,
                  OptimizeExplain, LevelPhrase(level), OptimizeFormat, CodeSection(code));
  }

  lemma OptimizePreambleHasNoBacktick(language: string)
    requires '`' !in language
    ensures '`' !in OptimizePreamble(language)
  {
    OpeningLeadHasNoBacktick();
    CodeWordHasNoBacktick();
    OptimizeCheckHasNoBacktick();
    OptimizeConfirmHasNoBacktick();
    OptimizeSuggestHasNoBacktick();
    OptimizeRewriteHasNoBacktick();
  }

  lemma OptimizeTailHasNoBacktick(code: string, level: string)
    requires '`' !in code && '`' !in level
    ensures '`' !in OptimizeTail(code, level)
  {
    LowerKeepsAbsent(level, '`');
    OptimizeExplainHasNoBacktick();
    LevelLeadHasNoBacktick();
    LevelTailHasNoBacktick();
    OptimizeFormatHasNoBacktick();
    CodeHeaderHasNoBacktick();
  }

  /** The optimize prompt holds exactly one fence: apart from the code block
      it asks for, its text holds a backtick only if the code, the level or the
      language does. */
  lemma OptimizeFenceIsTheOnlyOne(code: string, level: string, language: string)
    requires '`' !in code && '`' !in level && '`' !in language
    ensures exists pre, post :: BuildPrompt(Optimize, code, level, language) == pre + FenceOpen(language) + FenceClose + post
                                && '`' !in pre && '`' !in post
  {
    OptimizePromptSplits(code, level, language);
    OptimizePreambleHasNoBacktick(language);
    OptimizeTailHasNoBacktick(code, level);
    var pre, post := OptimizePreamble(language), OptimizeTail(code, level);
    assert BuildPrompt(Optimize, code, level, language) == pre + FenceOpen(language) + FenceClose + post;
  }

  // ---------------------------------------------------------------------------
  // The completion reply
  // ---------------------------------------------------------------------------

  /** One entry of the reply's `choices`: its `message.content` when that is a
      string, `None` when `message` or `content` is missing or not a string. */
  datatype Choice = Choice(content: Option<string>)

  /** The outcome of the outbound call: it failed (network error, non-2xx
      status), or it delivered a body whose `choices` is an array (`Some`) or is
      missing (`None`). */
  datatype Reply = CallFailed | Received(choices: Option<seq<Choice>>)

  /** The reply carries a first choice whose content is a string. */
  predicate HasFirstContent(reply: Reply) {
    reply.Received? && reply.choices.Some? && |reply.choices.value| > 0
    && reply.choices.value[0].content.Some?
  }

  /** `response.data.choices[0].message.content.trim()`, with every exception on
      the way caught and turned into the fixed apology. */
  function Extract(reply: Reply): (r: string)
    ensures HasFirstContent(reply) ==> r == Trim(reply.choices.value[0].content.value)
    ensures !HasFirstContent(reply) ==> r == FailureMessage
    ensures NoEdgeSpace(r)
  {
    match reply
    case CallFailed => FailureMessage
    case Received(None) => FailureMessage
    case Received(Some(choices)) =>
      if |choices| == 0 then FailureMessage
      else match choices[0].content
        case None => FailureMessage
        case Some(text) => Trim(text)
  }

  /** A reply cannot tell a failure from a model answer that is the apology
      padded with whitespace: the two are the same string. */
  lemma ExtractConflatesFailure(a: string, b: string)
    requires AllSpace(a) && AllSpace(b)
    ensures Extract(Received(Some([Choice(Some(a + FailureMessage + b))]))) == Extract(CallFailed)
  {
    FailureMessageHasNoEdgeSpace();
    TrimUnique(a, FailureMessage, b);
  }

  lemma FailureMessageHasNoEdgeSpace()
    ensures NoEdgeSpace(FailureMessage)
  {
    assert FailureMessage[0] == '\U{274C}';
    assert FailureMessage[|FailureMessage| - 1] == '.';
  }

  // ---------------------------------------------------------------------------
  // The whole request
  // ---------------------------------------------------------------------------

  datatype Response = Status400(error: string) | Status200(data: string)

  /** What one request does: the prompt sent upstream, if any, and the HTTP
      response. */
  datatype Exchange = Exchange(sent: Option<string>, response: Response)

  /** The `/api/get-data` handler. `upstream` stands for the outbound call to
      the completion endpoint. */
  function Serve(code: Option<string>, action: Option<string>, level: string, language: string,
                 upstream: string -> Reply): (e: Exchange)
    ensures e.response.Status400? <==> Handle(code, action, level, language).BadRequest?
    ensures e.response.Status400? ==>
      e.sent == None && e.response.error == Handle(code, action, level, language).error
    ensures e.response.Status200? ==>
      var p := Handle(code, action, level, language).text;
      e.sent == Some(p) && e.response.data == Extract(upstream(p))
  {
    match Handle(code, action, level, language)
    case BadRequest(msg) => Exchange(None, Status400(msg))
    case Prompt(p) => Exchange(Some(p), Status200(Extract(upstream(p))))
  }

  /** A rejected request makes no outbound call, and the error it reports is
      the first failing check: the missing-field check wins over the type check. */
  lemma RejectionOrder(code: Option<string>, action: Option<string>, level: string, language: string,
                       upstream: string -> Reply)
    ensures Falsy(code) || Falsy(action) ==>
      Serve(code, action, level, language, upstream) == Exchange(None, Status400(RequiredMessage))
    ensures !Falsy(code) && !Falsy(action) && ParseAction(action.value).None? ==>
      Serve(code, action, level, language, upstream) == Exchange(None, Status400(InvalidTypeMessage))
  {
  }

  /** An accepted request always answers 200: with the trimmed first completion
      when there is one, and with the apology otherwise. Any non-empty code is
      accepted, whitespace-only code included. */
  lemma AcceptedRequest(code: string, a: Action, level: string, language: string,
                        upstream: string -> Reply)
    requires code != ""
    ensures var e := Serve(Some(code), Some(ActionName(a)), level, language, upstream);
      && e.sent == Some(BuildPrompt(a, code, level, language))
      && e.response.Status200?
      && Trim(e.response.data) == e.response.data
  {
    var e := Serve(Some(code), Some(ActionName(a)), level, language, upstream);
    ActionNameParses(a);
    TrimIdempotent(e.response.data);
  }

  /** A failed outbound call, or a reply without a usable first choice, still
      answers 200, with the apology. */
  lemma UpstreamFailureIsSwallowed(code: string, a: Action, level: string, language: string, reply: Reply)
    requires code != ""
    requires !HasFirstContent(reply)
    ensures Serve(Some(code), Some(ActionName(a)), level, language, _ => reply).response
            == Status200(FailureMessage)
  {
    ActionNameParses(a);
    var p := BuildPrompt(a, code, level, language);
    assert Handle(Some(code), Some(ActionName(a)), level, language) == Prompt(p);
  }

  /** A reply whose first choice has string content answers 200 with that
      content trimmed, whatever the other choices hold. */
  lemma FirstChoiceIsTrimmed(code: string, a: Action, level: string, language: string, reply: Reply)
    requires code != ""
    requires HasFirstContent(reply)
    ensures Serve(Some(code), Some(ActionName(a)), level, language, _ => reply).response
            == Status200(Trim(reply.choices.value[0].content.value))
  {
    ActionNameParses(a);
    var p := BuildPrompt(a, code, level, language);
    assert Handle(Some(code), Some(ActionName(a)), level, language) == Prompt(p);
    assert Extract(reply) == Trim(reply.choices.value[0].content.value);
  }

  // ---------------------------------------------------------------------------
  // Worked examples
  // ---------------------------------------------------------------------------

  lemma ExampleOptimizePython()
    ensures FenceOpen("Python") == "```python\n"
  {
    assert Lower("Python") == "python";
  }

  lemma ExampleRejections(upstream: string -> Reply)
    ensures Serve(Some(""), Some("analyze"), "Beginner", "Java", upstream).response == Status400(RequiredMessage)
    ensures Serve(Some("x"), Some("bogus"), "Beginner", "Java", upstream).response == Status400(InvalidTypeMessage)
  {
  }

  lemma ExampleTrim()
    ensures Trim(" O(n)\n") == "O(n)"
  {
    var t := "O(n)";
    assert NoEdgeSpace(t) by { assert t[0] == 'O' && t[|t| - 1] == ')'; }
    TrimUnique(" ", t, "\n");
    assert " " + t + "\n" == " O(n)\n";
  }

  lemma ExampleTrimmedReply()
    ensures Extract(Received(Some([Choice(Some(" O(n)\n"))]))) == "O(n)"
  {
    ExampleTrim();
  }
}
