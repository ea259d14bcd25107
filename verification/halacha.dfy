/**
 The question-answering server action `getHalachicAnswer`: validate the question and the
 two provider credentials, search a fixed allowlist of Halachic sites, label and map the
 search results, assemble the grounding context, ask the chat model, and map its reply
 (or any thrown error) into exactly one of `Answered` / `Failed`.

 The search and completion providers are not called here: their replies are inputs
 (`SearchOutcome`, `CompletionOutcome`), and the returned `Run` records, in order, which
 provider calls the action made and with which arguments.
 */
module Halacha {
  import opened Wrappers
  import opened Text

  /* ------------------------------------------------------------ constants */

  /** The user-facing short-question message (Hebrew: "The question is too short. Please
      enter at least 2 characters."). */
  const ShortQuestionMessage: string := "השאלה קצרה מדי. נא להזין לפחות 2 תווים."
  const MissingKeysMessage: string := "Missing TAVILY_API_KEY or OPENAI_API_KEY in environment."
  const NoResponseMessage: string := "No response from the model."
  /** What the caller sees when the thrown value is not an `Error` object. */
  const UnknownFailureMessage: string := "Search or API failed."

  const MinQuestionLength: nat := 2

  /** Provider wordings that mean the provider itself rejected the query as too short. */
  const QueryTooShortMarker: string := "Query is too short"
  const MinQueryLengthMarker: string := "Min query length"

  /** The search request options. */
  const MaxResults: nat := 12
  const SearchDepth: string := "advanced"
  const CompletionModel: string := "gpt-4o-mini"

  /** The bare host names of the trusted sites, Sefaria under two country codes. */
  const BareDomains: seq<string> := [
    "sefaria.org",
    "sefaria.org.il",
    "hebrewbooks.org",
    "toratemetfreeware.com",
    "yeshiva.org.il",
    "din.org.il",
    "moreshet-maran.com"
  ]

  /** The sites the search is restricted to: the seven bare host names, then the same
      seven with a `www.` prefix, in the same order. */
  const HalachicDomains: seq<string> := BareDomains + WwwForms(BareDomains)

  /** Each host name with a `www.` prefix, in order. */
  function WwwForms(hosts: seq<string>): (forms: seq<string>)
    ensures |forms| == |hosts|
    ensures forall i :: 0 <= i < |hosts| ==> forms[i] == "www." + hosts[i]
  {
    if |hosts| == 0 then [] else ["www." + hosts[0]] + WwwForms(hosts[1..])
  }

  /** A url containing `fragment` is labelled `siteName`. */
  datatype LabelRule = LabelRule(fragment: string, siteName: string)

  /** The six publisher rules, in the priority order in which they are tried. */
  const LabelRules: seq<LabelRule> := [
    LabelRule("sefaria.org", "Sefaria"),
    LabelRule("hebrewbooks.org", "HebrewBooks"),
    LabelRule("toratemetfreeware.com", "Torat Emet"),
    LabelRule("yeshiva.org.il", "אתר ישיבה"),
    LabelRule("din.org.il", "אתר דין"),
    LabelRule("moreshet-maran.com", "Moreshet Maran")
  ]

  /** The label of a url that matches no rule. */
  const FallbackLabel: string := "Source"

  const BlockSeparator: string := "\n\n---\n\n"
  const NoSourcesPlaceholder: string := "(No sources found)"

  /* -------------------------------------------------------------- entities */

  /** One hit returned by the search provider. */
  datatype SearchResult = SearchResult(title: string, url: string, content: string)

  /** One citation shown with an answer. */
  datatype HalachaSource = HalachaSource(title: string, url: string, siteName: string)

  /** What the action returns: exactly one of the two variants. */
  datatype HalachaResult =
    | Answered(answer: string, sources: seq<HalachaSource>)
    | Failed(error: string)

  /** A value thrown by a provider: an `Error` object carrying a message, or anything else. */
  datatype Thrown = ErrorThrown(message: string) | OtherThrown

  /** The search provider's reply; `results` is `None` when the response has no result list. */
  datatype SearchOutcome =
    | SearchReturned(results: Option<seq<SearchResult>>)
    | SearchThrew(thrown: Thrown)

  /** The completion provider's reply; `content` is `None` when the first choice carries no text. */
  datatype CompletionOutcome =
    | CompletionReturned(content: Option<string>)
    | CompletionThrew(thrown: Thrown)

  /** A provider call the action made, with the arguments that determine its reply. */
  datatype Call =
    | Search(query: string, includeDomains: seq<string>, maxResults: nat, searchDepth: string)
    | Complete(model: string, userMessage: string)

  /** The action's result together with the provider calls it made, in order. */
  datatype Run = Run(result: HalachaResult, calls: seq<Call>)

  /* ------------------------------------------------------------ validation */

  /** An environment variable counts as set when it is defined and not empty. */
  predicate IsSet(key: Option<string>) {
    key.Some? && key.value != ""
  }

  /* -------------------------------------------------------------- labelling */

  /** Index of the first rule whose fragment occurs in `url`; `|rules|` when none does. */
  function FirstMatchingRule(url: string, rules: seq<LabelRule>): (k: nat)
    ensures k <= |rules|
    ensures k < |rules| ==> IsInfix(rules[k].fragment, url)
    ensures forall j :: 0 <= j < k ==> !IsInfix(rules[j].fragment, url)
  {
    if |rules| == 0 then 0
    else if Includes(url, rules[0].fragment) then 0
    else
      var k := FirstMatchingRule(url, rules[1..]);
      assert forall j :: 1 <= j < k + 1 ==> rules[j] == rules[1..][j - 1];
      1 + k
  }

  /** `getSourceLabel`, first match wins: a url gets the fallback label exactly when it
      contains none of the six fragments, and otherwise the label of the earliest fragment it
      contains. */
  function GetSourceLabel(url: string): (name: string)
    ensures name == FallbackLabel <==>
      forall k :: 0 <= k < |LabelRules| ==> !IsInfix(LabelRules[k].fragment, url)
    ensures forall k :: 0 <= k < |LabelRules| ==>
              IsInfix(LabelRules[k].fragment, url) &&
              (forall j :: 0 <= j < k ==> !IsInfix(LabelRules[j].fragment, url)) ==>
              name == LabelRules[k].siteName
  {
    var k := FirstMatchingRule(url, LabelRules);
    if k < |LabelRules| then LabelRules[k].siteName else FallbackLabel
  }

  /* ---------------------------------------------------------------- sources */

  /** The citations, one per search result, in the search provider's order. */
  function Sources(results: seq<SearchResult>): (sources: seq<HalachaSource>)
    ensures |sources| == |results|
    ensures forall i :: 0 <= i < |results| ==>
      && sources[i].url == results[i].url
      && sources[i].title == (if results[i].title == "" then results[i].url else results[i].title)
      && sources[i].siteName == GetSourceLabel(results[i].url)
  {
    if |results| == 0 then []
    else
      var r := results[0];
      // `r.title || r.url`: an empty title falls back to the url
      [HalachaSource(if r.title != "" then r.title else r.url, r.url, GetSourceLabel(r.url))]
      + Sources(results[1..])
  }

  /* ---------------------------------------------------------------- context */

  /** One search result as the model sees it: `[label] title`, the url, the content. */
  function Block(r: SearchResult): (block: string)
    ensures
      var opening := "[" + GetSourceLabel(r.url) + "] ";
      |opening| <= |block| && block[..|opening|] == opening
    ensures |r.content| <= |block| && block[|block| - |r.content|..] == r.content
  {
    FivePieces("[" + GetSourceLabel(r.url) + "] ", r.title, "\n", r.url, "\n" + r.content);
    "[" + GetSourceLabel(r.url) + "] " + r.title + "\n" + r.url + "\n" + r.content
  }

  function Blocks(results: seq<SearchResult>): (blocks: seq<string>)
    ensures |blocks| == |results|
    ensures forall i :: 0 <= i < |results| ==> blocks[i] == Block(results[i])
  {
    if |results| == 0 then []
    else [Block(results[0])] + Blocks(results[1..])
  }

  /** The grounding context: the blocks in search order, separated by `BlockSeparator`. */
  function Context(results: seq<SearchResult>): (context: string)
    ensures context == [] <==> |results| == 0
    ensures |results| == 1 ==> context == Block(results[0])
    ensures |results| > 0 ==> context[0] == '['
  {
    Join(Blocks(results), BlockSeparator)
  }

  /** The `Sources:` part of the user message: the context, or the placeholder when it is empty. */
  function SourcesSection(results: seq<SearchResult>): (section: string)
    ensures section != []
    ensures section == NoSourcesPlaceholder <==> |results| == 0
    ensures |results| > 0 ==> section == Context(results)
  {
    var context := Context(results);
    if context == [] then NoSourcesPlaceholder else context
  }

  /** The user message: the question after `Question: `, then the `Sources:` section, which is
      the placeholder exactly when the search found nothing and the context otherwise. */
  function UserMessage(question: string, results: seq<SearchResult>): (message: string)
    ensures OccursAt(question, message, |"Question: "|)
    ensures message == "Question: " + question + "\n\nSources:\n" + NoSourcesPlaceholder
      <==> |results| == 0
    ensures |results| > 0 ==>
      OccursAt(Context(results), message, |"Question: " + question + "\n\nSources:\n"|)
    ensures |results| > 0 ==> message == "Question: " + question + "\n\nSources:\n" + Context(results)
  {
    var head := "Question: " + question + "\n\nSources:\n";
    var section := SourcesSection(results);
    OccursSecondOfFour("Question: ", question, "\n\nSources:\n", section);
    OccursBetween(head, section, "");
    assert head + section + "" == head + section;
    PrefixCancel(head, section, NoSourcesPlaceholder);
    head + section
  }

  /* ---------------------------------------------------------- result mapping */

  /** Maps the completion text: trimmed, and a missing or blank answer is an error. */
  function ResultFromCompletion(content: Option<string>, sources: seq<HalachaSource>): (result: HalachaResult)
    ensures result.Answered? <==> content.Some? && !AllWhitespace(content.value)
    ensures result.Answered? ==>
      && result.answer != [] && result.answer == Trim(content.value)
      && IsTrimOf(content.value, result.answer) && result.sources == sources
    ensures result.Failed? ==> result.error == NoResponseMessage
  {
    match content
    case None => Failed(NoResponseMessage)
    case Some(text) =>
      var answer := Trim(text);
      TrimEmptyIff(text);
      if answer == [] then Failed(NoResponseMessage) else Answered(answer, sources)
  }

  /** Whether a provider message reports that the query was too short. */
  ghost predicate ReportsShortQuery(message: string) {
    IsInfix(QueryTooShortMarker, message) || IsInfix(MinQueryLengthMarker, message)
  }

  /** The generic failure message holds neither provider wording. */
  lemma UnknownFailureIsNotShortQuery()
    ensures !ReportsShortQuery(UnknownFailureMessage)
  {
    MissingCharNotInfix(QueryTooShortMarker, UnknownFailureMessage, 'Q');
    MissingCharNotInfix(MinQueryLengthMarker, UnknownFailureMessage, 'M');
  }

  /** The message shown for a thrown value: provider "too short" wordings become the local
      short-question message, other `Error` messages pass through, anything else is generic. */
  function ErrorMessage(thrown: Thrown): (message: string)
    ensures thrown.OtherThrown? ==> message == UnknownFailureMessage
    ensures thrown.ErrorThrown? && ReportsShortQuery(thrown.message) ==> message == ShortQuestionMessage
    ensures thrown.ErrorThrown? && !ReportsShortQuery(thrown.message) ==> message == thrown.message
  {
    var message := if thrown.ErrorThrown? then thrown.message else UnknownFailureMessage;
    UnknownFailureIsNotShortQuery();
    if Includes(message, QueryTooShortMarker) || Includes(message, MinQueryLengthMarker) then
      ShortQuestionMessage
    else
      message
  }

  /* ----------------------------------------------------------------- action */

  /** `getHalachicAnswer(question)` with the environment keys and the providers' replies
      passed in. */
  function GetHalachicAnswer(
    question: string,
    tavilyKey: Option<string>,
    openaiKey: Option<string>,
    search: SearchOutcome,
    completion: CompletionOutcome
  ): (run: Run)
    ensures |Trim(question)| < MinQuestionLength ==> run == Run(Failed(ShortQuestionMessage), [])
    ensures |Trim(question)| >= MinQuestionLength && !(IsSet(tavilyKey) && IsSet(openaiKey)) ==>
      run == Run(Failed(MissingKeysMessage), [])
    ensures run.calls != [] ==>
      run.calls[0] == Search(Trim(question), HalachicDomains, MaxResults, SearchDepth)
    ensures |run.calls| <= 2
    ensures |run.calls| == 2 <==> run.calls != [] && search.SearchReturned?
    ensures |run.calls| == 2 ==>
      run.calls[1] == Complete(CompletionModel,
        UserMessage(Trim(question), search.results.GetOr([])))
    ensures |Trim(question)| >= MinQuestionLength && IsSet(tavilyKey) && IsSet(openaiKey) ==>
      && run.calls != []
      && (search.SearchThrew? ==> run.result == Failed(ErrorMessage(search.thrown)))
      && (search.SearchReturned? && completion.CompletionThrew? ==>
            run.result == Failed(ErrorMessage(completion.thrown)))
      && (search.SearchReturned? && completion.CompletionReturned? ==>
            run.result == ResultFromCompletion(completion.content, Sources(search.results.GetOr([]))))
  {
    var trimmed := Trim(question);
    if |trimmed| < MinQuestionLength then
      Run(Failed(ShortQuestionMessage), [])
    else if !IsSet(tavilyKey) || !IsSet(openaiKey) then
      Run(Failed(MissingKeysMessage), [])
    else
      var searchCall := Search(trimmed, HalachicDomains, MaxResults, SearchDepth);
      match search
      case SearchThrew(thrown) =>
        Run(Failed(ErrorMessage(thrown)), [searchCall])
      case SearchReturned(response) =>
        var results := response.GetOr([]);
        var sources := Sources(results);
        var completeCall := Complete(CompletionModel, UserMessage(trimmed, results));
        match completion
        case CompletionThrew(thrown) =>
          Run(Failed(ErrorMessage(thrown)), [searchCall, completeCall])
        case CompletionReturned(content) =>
          Run(ResultFromCompletion(content, sources), [searchCall, completeCall])
  }
}
