# Halachic question answering — a Dafny model of `getHalachicAnswer`

This project models the server action `getHalachicAnswer` of a small web app that answers
questions on Jewish law (Halacha) from a fixed set of trusted Halachic sites. The action:

1. trims the question and rejects it with a fixed Hebrew message when fewer than two
   characters remain;
2. fails with a configuration message when either provider key (search or chat
   completion) is unset or empty;
3. searches the web for the trimmed question, restricted to fourteen allow-listed host
   names (seven bare hosts and their `www.` forms), with at most 12 results in
   `"advanced"` depth;
4. turns every search result into a citation (`title` or else `url`, `url`, a site name
   chosen by the first matching url fragment, else `"Source"`);
5. joins one block per result (`[site] title`, url, content) with `\n\n---\n\n` into the
   grounding context, or writes `(No sources found)` when there are no results;
6. asks the chat model (`gpt-4o-mini`) with `Question: …\n\nSources:\n…` as the user message;
7. answers with the trimmed reply and all the citations, or fails with "No response from
   the model." when the reply is missing or blank;
8. maps anything thrown in steps 3–7 to a failure message. A provider message saying the
   query is too short becomes the short-question message. Any other `Error` message is
   passed through unchanged. A thrown value that is not an `Error` gets "Search or API
   failed.".

The model is pure. The two providers are not called. Their replies are parameters:
`SearchOutcome` is either the result list, which may be missing, or a thrown value.
`CompletionOutcome` is either the reply text, which may be missing, or a thrown value.
The two environment keys are `Option<string>` parameters. `GetHalachicAnswer` returns a
`Run`, which holds the `HalachaResult` (`Answered(answer, sources)` or `Failed(error)`) and
the ordered list of provider `Call`s the action made, with their arguments. This lets the
contracts say which provider was called with what, and that nothing is called on the early
failure paths.

Files:

- `wrappers.dfy` — `Option`.
- `text.dfy` — the JavaScript string operations the action relies on:
  - `trim`, stated against a declarative `IsTrimOf`;
  - `includes`, stated against a declarative `IsInfix`;
  - `Array.prototype.join` on strings.
- `halacha.dfy` — constants, data types, labelling, citations, context and the action itself.
- `halacha_properties.dfy` — lemmas that relate several calls or several operations, and the
  two worked scenarios (a one-letter question; a candle-lighting question with a single
  hit on yeshiva.org.il).

## Model

| member | source | states |
|---|---|---|
| Text.TrimStart | app/actions/halacha.ts:31 | the result is a suffix of the input; everything dropped is whitespace; the result does not start with whitespace |
| Text.TrimEnd | app/actions/halacha.ts:31 | the result is a prefix of the input; everything dropped is whitespace; the result does not end with whitespace |
| Text.Trim | app/actions/halacha.ts:31 | the result satisfies the declarative trim relation: it is the input with whitespace-only margins removed, and it neither starts nor ends with whitespace |
| Text.TrimUnique | app/actions/halacha.ts:31 | any string in the trim relation with the input is exactly `Trim` of it, so the relation determines trimming |
| Text.TrimIdempotent | app/actions/halacha.ts:31 | trimming an already trimmed string changes nothing |
| Text.TrimEmptyIff | app/actions/halacha.ts:100-101 | the trimmed text is empty exactly when the input is all whitespace, which is when `!answer` rejects the reply |
| Text.Includes | app/actions/halacha.ts:52-57 | `includes` is true exactly when the fragment occurs at some index of the text (both directions) |
| Text.Join | app/actions/halacha.ts:66-68 | joining no parts gives the empty string; otherwise the result starts with the first part and ends with the last |
| Text.JoinLength | app/actions/halacha.ts:66-68 | the joined length is the sum of the part lengths plus one separator between each pair of neighbours |
| Text.JoinAppend | app/actions/halacha.ts:66-68 | joining two non-empty lists one after the other is joining each and putting one separator between them |
| Text.JoinContainsParts | app/actions/halacha.ts:66-68 | every part occurs in the joined string |
| Halacha.WwwForms | app/actions/halacha.ts:15-21 | each host in the second half of the allowlist is the host at the same position in the first half, prefixed with `www.` |
| Halacha.FirstMatchingRule | app/actions/halacha.ts:51-59 | the chosen rule's fragment occurs in the url and no earlier rule's does; the result is past the end only when no fragment occurs |
| Halacha.GetSourceLabel | app/actions/halacha.ts:51-59 | first match wins: a url gets `"Source"` exactly when it contains none of the six fragments; otherwise it gets the label of the earliest fragment it contains |
| Halacha.Sources | app/actions/halacha.ts:60-65 | one citation per search result, in order: same url, the title or else the url, the url's site label |
| Halacha.Block | app/actions/halacha.ts:67 | a block opens with `[`, the url's site label and `] `, and ends with the result's content |
| Halacha.Blocks | app/actions/halacha.ts:66-67 | one block per result, in order, each `[label] title\nurl\ncontent` |
| Halacha.Context | app/actions/halacha.ts:66-68 | the context is empty exactly when there are no results; a single result gives exactly its block; a non-empty context opens with `[` |
| Halacha.SourcesSection | app/actions/halacha.ts:94 | the `Sources:` section is never empty; it is the placeholder exactly when there are no results, and otherwise the context |
| Halacha.UserMessage | app/actions/halacha.ts:94 | the question stands right after `Question: `; the message is `Question: ` + question + `\n\nSources:\n` + `(No sources found)` exactly when there are no results, and otherwise `Question: ` + question + `\n\nSources:\n` followed by the whole context and nothing after it |
| Halacha.ResultFromCompletion | app/actions/halacha.ts:100-105 | an answer exactly when the reply is present and not blank; the answer is the trimmed reply and carries the given citations unchanged; every other case is "No response from the model." |
| Halacha.UnknownFailureIsNotShortQuery | app/actions/halacha.ts:107-109 | the generic failure message does not contain either provider wording for a too-short query |
| Halacha.ErrorMessage | app/actions/halacha.ts:106-112 | a non-`Error` throw gives the generic message; an `Error` whose message contains either too-short wording gives the short-question message; any other `Error` message passes through verbatim |
| Halacha.GetHalachicAnswer | app/actions/halacha.ts:30-114 | a short question and missing keys each fail with their fixed message and make no call; otherwise the first call is the search with the trimmed question, the 14 domains, 12 results and `advanced` depth; the completion call happens exactly when the search returned, including with zero results, and it carries the question and the sources section; once validation passes at least one call is made, a search throw fails with that throw's message, a completion throw fails with its message, and a completion reply is mapped with the citations of all results |
| HalachaProperties.AnsweredExactly | app/actions/halacha.ts:30-105 | the action answers if and only if the question is long enough, both keys are set, both providers reply and the reply is not blank; the answer is then the trimmed reply and the citations follow the results one for one |
| HalachaProperties.FailureMessages | app/actions/halacha.ts:30-113 | every failure message is one of the four fixed messages, or a provider `Error` message passed through unchanged that does not report a too-short query |
| HalachaProperties.MissingOrEmptyKeyFailsEarly | app/actions/halacha.ts:36-41 | with a long enough question, the action fails with the configuration message and makes no call exactly when a key is undefined or empty |
| HalachaProperties.ProviderShortQueryMatchesLocalCheck | app/actions/halacha.ts:106-112 | a search provider rejecting the query as too short gives exactly the failure the local length check gives |
| HalachaProperties.ThrownAlikeFromEitherProvider | app/actions/halacha.ts:43-113 | the same thrown value fails the action with the same message whether the search or the completion threw it; the search throw stops after one call, the completion throw after two |
| HalachaProperties.BlocksAppend | app/actions/halacha.ts:66-67 | mapping results to blocks commutes with concatenating result lists |
| HalachaProperties.ContextSplits | app/actions/halacha.ts:66-68 | cutting the results in two cuts the context at exactly one separator, so blocks keep the search order |
| HalachaProperties.ContextHoldsEveryResult | app/actions/halacha.ts:66-68 | every result's block occurs in the context |
| HalachaProperties.BlockReachesModel | app/actions/halacha.ts:66-94 | every search result's block occurs in the user message the completion is asked with |
| HalachaProperties.BlockOpensWithSiteName | app/actions/halacha.ts:61-67 | the block the model sees for a result opens with `[` plus the site name of that result's citation plus `] ` |
| HalachaProperties.DomainsAreBareAndWww | app/actions/halacha.ts:7-22 | the allowlist has 14 entries: seven bare hosts followed by the same seven with `www.` |
| HalachaProperties.DomainHoldsFragment | app/actions/halacha.ts:7-22 | each allow-listed host contains the fragment of its publisher's label rule |
| HalachaProperties.DomainsNeverFallBack | app/actions/halacha.ts:51-59 | no allow-listed host gets the fallback label `"Source"` |
| HalachaProperties.LabelledBy | app/actions/halacha.ts:51-59 | a url that contains rule k's fragment and none of the earlier fragments is labelled with rule k's site name |
| HalachaProperties.OneLetterQuestionRejected | app/actions/halacha.ts:31-34 | the question `" a "` fails with the short-question message and makes no provider call, whatever the keys and replies |
| HalachaProperties.YeshivaLabel | app/actions/halacha.ts:52-55 | a url containing `yeshiva.org.il` and none of the three earlier fragments is labelled `אתר ישיבה` |
| HalachaProperties.AnsweredWithAllSources | app/actions/halacha.ts:60-105 | with valid input, a returned search and non-blank reply, the result is the trimmed reply with the citations of all results |
| HalachaProperties.SingleHitResult | app/actions/halacha.ts:60-105 | with a single search hit, the answer carries exactly that hit's citation |
| HalachaProperties.SingleHitCalls | app/actions/halacha.ts:43-95 | with a single search hit, the action makes the search and then the completion, and the completion's user message is the question followed by that hit's block |
| HalachaProperties.CandleLightingScenario | app/actions/halacha.ts:30-105 | for the candle-lighting question and one hit on `https://www.yeshiva.org.il/ask/123`, the answer is the trimmed reply; the one citation keeps the hit's title and url and is labelled `אתר ישיבה`; the question is already trimmed, and the model sees it with that hit as a single block |

## Left out

- The network clients, the environment reading and `"use server"` are not modelled. The
  providers' replies and the two keys are parameters. A `Call` in the returned trace stands
  for each request made.
- The system prompt text (lines 76-90) is left out. It is a fixed policy text that no
  branch depends on. The completion call records only the model and the user message.
- `temperature: 0.3` is left out. It is a floating-point decoding setting with no effect on
  the action's control flow.
- Only `choices[0]?.message?.content` of the completion reply is modelled: present text or
  missing.
- Search results always carry string `title`, `url` and `content` here. The source's
  `r.title || r.url` fallback is modelled for an empty title only. A provider that omits
  the fields altogether is not modelled.
- Text.Trim: the whitespace set is the ECMAScript WhiteSpace and LineTerminator code
  points, listed one by one.
- Text.Trim: lengths are counted in Dafny characters (code points), not UTF-16 code units.
  The only length test is `trimmed.length < 2`. It differs only for a single astral-plane
  character, which JavaScript counts as length 2.
- The allowlist has fourteen host strings, because `sefaria.org` and `sefaria.org.il` both
  appear in bare and `www.` form. The model keeps all fourteen in the code's order.
- The presentational components (chat area, sidebar, hero, navigation, backgrounds, page
  layout) are not modelled. They only call the action and render its result.
- Determinism of the action needs no lemma. It is a pure function of its inputs here.
