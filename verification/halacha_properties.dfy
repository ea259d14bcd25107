/**
 Properties of the question-answering action that relate several calls or several
 operations: when an answer is produced at all, what every failure message can be,
 the order of the grounding context, the labels of the allowlisted domains, and two
 worked scenarios.
 */
module HalachaProperties {
  import opened Wrappers
  import opened Text
  import opened Halacha

  /* ---------------------------------------------------------- success / failure */

  /** An answer is produced exactly when the question is long enough, both keys are set,
      both providers reply, and the completion holds non-blank text; the answer is that
      text trimmed, and the citations follow the search results one for one, in order. */
  lemma AnsweredExactly(
    question: string, tavilyKey: Option<string>, openaiKey: Option<string>,
    search: SearchOutcome, completion: CompletionOutcome)
    ensures GetHalachicAnswer(question, tavilyKey, openaiKey, search, completion).result.Answered?
      <==>
      && |Trim(question)| >= MinQuestionLength
      && IsSet(tavilyKey) && IsSet(openaiKey)
      && search.SearchReturned?
      && completion.CompletionReturned? && completion.content.Some?
      && !AllWhitespace(completion.content.value)
    ensures
      var r := GetHalachicAnswer(question, tavilyKey, openaiKey, search, completion).result;
      var results := if search.SearchReturned? then search.results.GetOr([]) else [];
      r.Answered? ==>
        && r.answer != [] && r.answer == Trim(completion.content.value)
        && |r.sources| == |results|
        && forall i :: 0 <= i < |r.sources| ==>
             && r.sources[i].url == results[i].url
             && r.sources[i].title == (if results[i].title == "" then results[i].url else results[i].title)
             && r.sources[i].siteName == GetSourceLabel(results[i].url)
  {
  }

  /** Every failure message is one of the fixed messages, or a provider's `Error` message
      passed through verbatim, which then does not report a short query. */
  lemma FailureMessages(
    question: string, tavilyKey: Option<string>, openaiKey: Option<string>,
    search: SearchOutcome, completion: CompletionOutcome)
    ensures
      var r := GetHalachicAnswer(question, tavilyKey, openaiKey, search, completion).result;
      r.Failed? ==>
        || r.error == ShortQuestionMessage
        || r.error == MissingKeysMessage
        || r.error == NoResponseMessage
        || r.error == UnknownFailureMessage
        || (search.SearchThrew? && search.thrown == ErrorThrown(r.error) && !ReportsShortQuery(r.error))
        || (completion.CompletionThrew? && completion.thrown == ErrorThrown(r.error)
            && !ReportsShortQuery(r.error))
  {
  }

  /** With a long enough question, the action stops before any call with the configuration
      message exactly when a key is missing or empty (both are falsy in JavaScript). */
  lemma MissingOrEmptyKeyFailsEarly(
    question: string, tavilyKey: Option<string>, openaiKey: Option<string>,
    search: SearchOutcome, completion: CompletionOutcome)
    requires |Trim(question)| >= MinQuestionLength
    ensures
      GetHalachicAnswer(question, tavilyKey, openaiKey, search, completion) == Run(Failed(MissingKeysMessage), [])
      <==>
      tavilyKey == None || tavilyKey == Some("") || openaiKey == None || openaiKey == Some("")
  {
  }

  /** A provider that rejects the query as too short yields the very failure the local
      length check gives. */
  lemma ProviderShortQueryMatchesLocalCheck(
    question: string, shortQuestion: string, tavilyKey: Option<string>, openaiKey: Option<string>,
    message: string, completion: CompletionOutcome,
    anySearch: SearchOutcome, anyCompletion: CompletionOutcome)
    requires |Trim(question)| >= MinQuestionLength && IsSet(tavilyKey) && IsSet(openaiKey)
    requires |Trim(shortQuestion)| < MinQuestionLength
    requires IsInfix(QueryTooShortMarker, message) || IsInfix(MinQueryLengthMarker, message)
    ensures
      GetHalachicAnswer(question, tavilyKey, openaiKey, SearchThrew(ErrorThrown(message)), completion).result
      == GetHalachicAnswer(shortQuestion, tavilyKey, openaiKey, anySearch, anyCompletion).result
  {
  }

  /** One catch block serves both providers: the same thrown value fails the action with the
      same message whether the search or the completion threw it. */
  lemma ThrownAlikeFromEitherProvider(
    question: string, tavilyKey: Option<string>, openaiKey: Option<string>,
    results: Option<seq<SearchResult>>, thrown: Thrown)
    requires |Trim(question)| >= MinQuestionLength && IsSet(tavilyKey) && IsSet(openaiKey)
    ensures
      var bySearch := GetHalachicAnswer(question, tavilyKey, openaiKey, SearchThrew(thrown),
        CompletionReturned(None));
      var byCompletion := GetHalachicAnswer(question, tavilyKey, openaiKey, SearchReturned(results),
        CompletionThrew(thrown));
      && bySearch.result == byCompletion.result
      && bySearch.result.Failed?
      && |bySearch.calls| == 1 && |byCompletion.calls| == 2
  {
  }

  /* ---------------------------------------------------------------- context */

  /** Splitting the results splits the context around one separator: blocks keep the
      search order and are never re-sorted. */
  lemma {:induction false} ContextSplits(results: seq<SearchResult>, k: nat)
    requires 0 < k < |results|
    ensures Context(results) == Context(results[..k]) + BlockSeparator + Context(results[k..])
  {
    assert results == results[..k] + results[k..];
    BlocksAppend(results[..k], results[k..]);
    JoinAppend(Blocks(results[..k]), Blocks(results[k..]), BlockSeparator);
  }

  lemma {:induction false} BlocksAppend(xs: seq<SearchResult>, ys: seq<SearchResult>)
    ensures Blocks(xs + ys) == Blocks(xs) + Blocks(ys)
  {
    if xs == [] {
      assert xs + ys == ys;
    } else {
      assert (xs + ys)[1..] == xs[1..] + ys;
      BlocksAppend(xs[1..], ys);
    }
  }

  /** Every search result reaches the model: its block is a substring of the context. */
  lemma ContextHoldsEveryResult(results: seq<SearchResult>, i: nat)
    requires i < |results|
    ensures IsInfix(Block(results[i]), Context(results))
  {
    JoinContainsParts(Blocks(results), BlockSeparator, i);
  }

  /** Every search result reaches the model: its block is a substring of the user message
      the completion is asked with. */
  lemma BlockReachesModel(question: string, results: seq<SearchResult>, k: nat)
    requires k < |results|
    ensures IsInfix(Block(results[k]), UserMessage(question, results))
  {
    ContextHoldsEveryResult(results, k);
    var i :| OccursAt(Block(results[k]), Context(results), i);
    var j := |"Question: " + question + "\n\nSources:\n"|;
    OccursWithin(Block(results[k]), Context(results), i, UserMessage(question, results), j);
  }

  /** The block the model sees for a result opens with the same site name its citation carries. */
  lemma BlockOpensWithSiteName(results: seq<SearchResult>, i: nat)
    requires i < |results|
    ensures
      var opening := "[" + Sources(results)[i].siteName + "] ";
      |opening| <= |Block(results[i])| && Block(results[i])[..|opening|] == opening
  {
    assert Sources(results)[i].siteName == GetSourceLabel(results[i].url);
  }

  /* ------------------------------------------------------------ domain labels */

  /** The allowlist is seven bare host names followed by their `www.` forms. */
  lemma DomainsAreBareAndWww()
    ensures |HalachicDomains| == 14
    ensures forall i :: 0 <= i < 7 ==> HalachicDomains[i] == BareDomains[i]
    ensures forall i :: 0 <= i < 7 ==> HalachicDomains[i + 7] == "www." + HalachicDomains[i]
  {
  }

  /** Which label rule each allowlisted domain belongs to, and where its fragment starts. */
  const DomainPublisher: seq<nat> := [0, 0, 1, 2, 3, 4, 5, 0, 0, 1, 2, 3, 4, 5]

  function FragmentStart(i: nat): nat {
    if i < 7 then 0 else 4
  }

  /** A bare allowlisted host starts with its publisher's fragment. */
  lemma BareDomainHoldsFragment(i: nat)
    requires i < 7
    ensures OccursAt(LabelRules[DomainPublisher[i]].fragment, BareDomains[i], 0)
  {
    var d, f := BareDomains[i], LabelRules[DomainPublisher[i]].fragment;
    if i == 0 {
      assert f == "sefaria.org" && d == f + "";
      OccursBetween("", f, "");
    } else if i == 1 {
      assert f == "sefaria.org" && d == f + ".il";
      OccursBetween("", f, ".il");
    } else if i == 2 {
      assert f == "hebrewbooks.org" && d == f + "";
      OccursBetween("", f, "");
    } else if i == 3 {
      assert f == "toratemetfreeware.com" && d == f + "";
      OccursBetween("", f, "");
    } else if i == 4 {
      assert f == "yeshiva.org.il" && d == f + "";
      OccursBetween("", f, "");
    } else if i == 5 {
      assert f == "din.org.il" && d == f + "";
      OccursBetween("", f, "");
    } else {
      assert f == "moreshet-maran.com" && d == f + "";
      OccursBetween("", f, "");
    }
  }

  /** Prefixing the text shifts an occurrence by the prefix's length. */
  lemma OccursAfterPrefix(prefix: string, p: string, s: string, i: int)
    requires OccursAt(p, s, i)
    ensures OccursAt(p, prefix + s, |prefix| + i)
  {
    assert (prefix + s)[|prefix| + i..|prefix| + i + |p|] == s[i..i + |p|];
  }

  /** The allowlisted domain at index `i` contains its publisher's fragment. */
  lemma DomainHoldsFragment(i: nat)
    requires i < |HalachicDomains|
    ensures OccursAt(LabelRules[DomainPublisher[i]].fragment, HalachicDomains[i], FragmentStart(i))
  {
    if i < 7 {
      BareDomainHoldsFragment(i);
    } else {
      BareDomainHoldsFragment(i - 7);
      assert DomainPublisher[i] == DomainPublisher[i - 7];
      OccursAfterPrefix("www.", LabelRules[DomainPublisher[i]].fragment, BareDomains[i - 7], 0);
    }
  }

  /** Every allowlisted domain matches one of the six rules, so none gets the fallback label. */
  lemma DomainsNeverFallBack()
    ensures forall i :: 0 <= i < |HalachicDomains| ==> GetSourceLabel(HalachicDomains[i]) != FallbackLabel
  {
    forall i | 0 <= i < |HalachicDomains| ensures GetSourceLabel(HalachicDomains[i]) != FallbackLabel {
      DomainHoldsFragment(i);
      assert IsInfix(LabelRules[DomainPublisher[i]].fragment, HalachicDomains[i]);
    }
  }

  /** A url holding rule `k`'s fragment, and none of the earlier ones, gets rule `k`'s label. */
  lemma LabelledBy(url: string, k: nat, at: nat)
    requires k < |LabelRules| && OccursAt(LabelRules[k].fragment, url, at)
    requires forall j :: 0 <= j < k ==> !IsInfix(LabelRules[j].fragment, url)
    ensures GetSourceLabel(url) == LabelRules[k].siteName
  {
  }

  /** A url lacking 'f' and 'b' matches none of the first three rules. */
  lemma MissesFirstThreeRules(url: string)
    requires 'f' !in url && 'b' !in url
    ensures forall j :: 0 <= j < 3 ==> !IsInfix(LabelRules[j].fragment, url)
  {
    forall j | 0 <= j < 3 ensures !IsInfix(LabelRules[j].fragment, url) {
      if j == 0 {
        MissingCharNotInfix(LabelRules[0].fragment, url, 'f');
      } else if j == 1 {
        MissingCharNotInfix(LabelRules[1].fragment, url, 'b');
      } else {
        MissingCharNotInfix(LabelRules[2].fragment, url, 'f');
      }
    }
  }

  /* --------------------------------------------------------------- scenarios */

  lemma TrimOneLetter()
    ensures Trim(" a ") == "a"
  {
    assert " a "[1..] == "a ";
    assert TrimStart(" a ") == TrimStart("a ") == "a ";
    assert "a "[..1] == "a";
    assert TrimEnd("a ") == TrimEnd("a") == "a";
  }

  /** A one-letter question fails with the short-question message and calls no provider,
      whatever the keys and whatever the providers would have replied. */
  lemma OneLetterQuestionRejected(
    question: string, tavilyKey: Option<string>, openaiKey: Option<string>,
    search: SearchOutcome, completion: CompletionOutcome)
    requires question == " a "
    ensures GetHalachicAnswer(question, tavilyKey, openaiKey, search, completion)
      == Run(Failed(ShortQuestionMessage), [])
  {
    TrimOneLetter();
  }

  /** A url holding "yeshiva.org.il" but none of the three earlier fragments is labelled
      "אתר ישיבה". */
  lemma YeshivaLabel(url: string)
    requires forall j :: 0 <= j < 3 ==> !IsInfix(LabelRules[j].fragment, url)
    requires IsInfix(LabelRules[3].fragment, url)
    ensures GetSourceLabel(url) == "אתר ישיבה"
  {
    var at :| OccursAt(LabelRules[3].fragment, url, at);
    LabelledBy(url, 3, at);
  }

  /* The example lemmas below take their literal as a parameter fixed by `requires`: stated
     about the literal directly, every use would make the solver unfold the whole string. */

  /** The example url contains none of the first three fragments: it has no 'f' and no 'b'. */
  lemma ExampleUrlAvoidsFirstThreeFragments(url: string)
    requires url == "https://www.yeshiva.org.il/ask/123"
    ensures forall j :: 0 <= j < 3 ==> !IsInfix(LabelRules[j].fragment, url)
  {
    assert 'f' !in url && 'b' !in url;
    MissesFirstThreeRules(url);
  }

  /** The example url holds the yeshiva fragment right after `https://www.`. */
  lemma ExampleUrlHoldsYeshiva(url: string)
    requires url == "https://www.yeshiva.org.il/ask/123"
    ensures OccursAt(LabelRules[3].fragment, url, 12)
  {
    assert url == "https://www." + LabelRules[3].fragment + "/ask/123";
    OccursBetween("https://www.", LabelRules[3].fragment, "/ask/123");
  }

  /** The example question has no surrounding whitespace. */
  lemma ShabbatQuestionTrimmed(question: string)
    requires question == "מה הדין בהדלקת נרות שבת?"
    ensures Trim(question) == question
  {
    assert !IsWhitespace(question[0]) && !IsWhitespace(question[|question| - 1]);
    assert TrimStart(question) == question;
    assert TrimEnd(question) == question;
  }

  /** With a valid question and keys, a successful search and non-blank completion text,
      the answer is the trimmed text and the citations are those of all search results. */
  lemma AnsweredWithAllSources(
    question: string, results: seq<SearchResult>, tavilyKey: string, openaiKey: string, text: string)
    requires |Trim(question)| >= MinQuestionLength
    requires tavilyKey != "" && openaiKey != "" && !AllWhitespace(text)
    ensures
      GetHalachicAnswer(question, Some(tavilyKey), Some(openaiKey),
        SearchReturned(Some(results)), CompletionReturned(Some(text))).result
      == Answered(Trim(text), Sources(results))
  {
    BlankFreeCompletionAnswers(text, Sources(results));
  }

  lemma BlankFreeCompletionAnswers(text: string, sources: seq<HalachaSource>)
    requires !AllWhitespace(text)
    ensures ResultFromCompletion(Some(text), sources) == Answered(Trim(text), sources)
  {
  }

  lemma OneHitSources(hit: SearchResult)
    ensures Sources([hit]) ==
      [HalachaSource(if hit.title == "" then hit.url else hit.title, hit.url, GetSourceLabel(hit.url))]
  {
  }

  /** A long enough question with both keys set, one search hit and a non-blank completion
      is answered with the trimmed completion and that hit's citation. */
  lemma SingleHitResult(
    question: string, hit: SearchResult, tavilyKey: string, openaiKey: string, text: string)
    requires |Trim(question)| >= MinQuestionLength
    requires tavilyKey != "" && openaiKey != "" && !AllWhitespace(text)
    ensures
      GetHalachicAnswer(question, Some(tavilyKey), Some(openaiKey),
        SearchReturned(Some([hit])), CompletionReturned(Some(text))).result
      == Answered(Trim(text), [HalachaSource(
           if hit.title == "" then hit.url else hit.title, hit.url, GetSourceLabel(hit.url))])
  {
    AnsweredWithAllSources(question, [hit], tavilyKey, openaiKey, text);
    OneHitSources(hit);
  }

  lemma OneHitCallsShape(
    question: string, hit: SearchResult, tavilyKey: string, openaiKey: string, completion: CompletionOutcome)
    requires |Trim(question)| >= MinQuestionLength
    requires tavilyKey != "" && openaiKey != ""
    ensures
      GetHalachicAnswer(question, Some(tavilyKey), Some(openaiKey),
        SearchReturned(Some([hit])), completion).calls
      == [Search(Trim(question), HalachicDomains, MaxResults, SearchDepth),
          Complete(CompletionModel, UserMessage(Trim(question), [hit]))]
  {
    var search := SearchReturned(Some([hit]));
    assert IsSet(Some(tavilyKey)) && IsSet(Some(openaiKey)) && search.SearchReturned?;
    assert search.results.GetOr([]) == [hit];
    var calls := GetHalachicAnswer(question, Some(tavilyKey), Some(openaiKey), search, completion).calls;
    assert calls != [] && |calls| == 2;
  }

  lemma OneHitUserMessage(question: string, hit: SearchResult)
    ensures UserMessage(question, [hit]) == "Question: " + question + "\n\nSources:\n" + Block(hit)
  {
    assert SourcesSection([hit]) == Block(hit);
  }

  /** ... and the model is shown the question and that hit's block, after the search. */
  lemma SingleHitCalls(
    question: string, hit: SearchResult, tavilyKey: string, openaiKey: string, completion: CompletionOutcome)
    requires |Trim(question)| >= MinQuestionLength
    requires tavilyKey != "" && openaiKey != ""
    ensures
      GetHalachicAnswer(question, Some(tavilyKey), Some(openaiKey),
        SearchReturned(Some([hit])), completion).calls
      == [Search(Trim(question), HalachicDomains, MaxResults, SearchDepth),
          Complete(CompletionModel, "Question: " + Trim(question) + "\n\nSources:\n" + Block(hit))]
  {
    OneHitCallsShape(question, hit, tavilyKey, openaiKey, completion);
    OneHitUserMessage(Trim(question), hit);
  }

  /** A question about lighting Shabbat candles, one hit on yeshiva.org.il, and any
      non-blank completion: the answer is the trimmed completion, the one citation is
      labelled "אתר ישיבה", and the model is shown that hit as a single block. */
  lemma CandleLightingScenario(
    question: string, hit: SearchResult, tavilyKey: string, openaiKey: string, text: string)
    requires question == "מה הדין בהדלקת נרות שבת?"
    requires hit == SearchResult("הלכות הדלקת נרות", "https://www.yeshiva.org.il/ask/123", "...")
    requires tavilyKey != "" && openaiKey != "" && !AllWhitespace(text)
    ensures
      var run := GetHalachicAnswer(question, Some(tavilyKey), Some(openaiKey),
        SearchReturned(Some([hit])), CompletionReturned(Some(text)));
      && run.result == Answered(Trim(text), [HalachaSource(hit.title, hit.url, "אתר ישיבה")])
      && run.calls == [
           Search(question, HalachicDomains, MaxResults, SearchDepth),
           Complete(CompletionModel, "Question: " + question + "\n\nSources:\n"
             + ("[" + "אתר ישיבה" + "] " + hit.title + "\n" + hit.url + "\n" + hit.content))]
  {
    assert hit.title != "";
    ExampleUrlAvoidsFirstThreeFragments(hit.url);
    ExampleUrlHoldsYeshiva(hit.url);
    YeshivaLabel(hit.url);
    ShabbatQuestionTrimmed(question);
    SingleHitResult(question, hit, tavilyKey, openaiKey, text);
    SingleHitCalls(question, hit, tavilyKey, openaiKey, CompletionReturned(Some(text)));
  }
}
