# StreamKar support bot: query resolution, modelled in Dafny

The bot answers free-text questions about StreamKar through two views in
`bot/views.py`:

- the JSON endpoint `ChatAPIView.post`;
- the HTML form view `index`.

Both views resolve a question the same way:

1. Out-of-domain questions get a fixed fallback message. A question is
   out of domain when no FAQ keyword is a substring of the lower-cased
   question.
2. In-domain questions get the answers of every matching FAQ entry,
   joined by a blank line.
3. When that joined answer is falsy, the question goes to a generative
   model.
4. When a language other than `"en"` is requested, the answer goes to a
   translator.

The endpoint also strips the query and rejects an empty one with a 400. It
lower-cases the language, and it memoises answers in a cache under
`"chat_response:" + normalize_query(query)`.

The model has four modules:

- `Options`: the `Option` type.
- `PyStr`: ASCII models of the Python string operations the views use.
  These are `lower`, `strip`, deletion of `string.punctuation`, the
  substring test `in` and `join`.
- `Faq`: `normalize_query`, `collect_faq_answers` and the keyword gate.
- `Chat`: the two views as pure step functions. The endpoint is
  `(table, request, cache, oracles) -> (response, cache')`. The form view is
  `(table, request, oracles) -> page`.

The generative model and the translator are oracles in the `Oracles`
record. The translator returns `None` where the library would raise. The
cache is a `map` from key to the answer and the time-to-live it was written
with.

A consequence the proofs bring out: the gate and `collect_faq_answers` use
the same keyword test, so every query that passes the gate has a FAQ answer.
That answer is falsy only when exactly one entry matches and its answer is
the empty string. So both views call the model only in that case
(`Chat.ReachesTimedLlmIff`, `Chat.FaqOrLlmUsesModelOnlyForEmptyAnswer`).

Points of the code's behaviour worth knowing:

- The endpoint caches every answer computed on a miss, FAQ answers
  included, not only model answers.
- Translation is skipped when the language equals the literal `"en"`.
  The form view does not lower-case the language, so `"EN"` is sent to the
  translator there.
- Keywords are not lower-cased, so a keyword with an upper-case letter
  never matches.
- The form view calls the untimed `fetch_llm_answer`.

## Model

| member | source | states |
|---|---|---|
| PyStr.LowerChar | bot/views.py:21 | the lowered character is never upper-case; 'A'..'Z' move up by 32, everything else is kept |
| PyStr.Lower | bot/views.py:21 | `lower()` keeps the length and lowers each character in place |
| PyStr.LowerIdempotent | bot/views.py:21 | lowered text has no upper-case letter, and lowering it again changes nothing |
| PyStr.LowerClean | bot/views.py:21 | text without upper-case letters is its own lower-case form |
| PyStr.SkipSpaces | bot/views.py:21 | the scan stops at the first non-whitespace character, and everything it skipped is whitespace |
| PyStr.TrimEnd | bot/views.py:21 | the backward scan stops after the last non-whitespace character, and everything it dropped is whitespace |
| PyStr.Strip | bot/views.py:79 | `strip()` is a slice of its input with only whitespace outside it; it neither starts nor ends with whitespace; it is empty iff the input is all whitespace |
| PyStr.StripClean | bot/views.py:21 | text with no whitespace at either end is unchanged by `strip()` |
| PyStr.DeletePunctuation | bot/views.py:21 | the result holds no `string.punctuation` character, and a character occurs in it iff it occurs in the input and is not punctuation |
| PyStr.DeletePunctuationAppend | bot/views.py:21 | deleting punctuation distributes over concatenation, so the kept characters stay in order |
| PyStr.DeletePunctuationClean | bot/views.py:21 | text without punctuation is unchanged by the deletion |
| PyStr.LowerDeletePunctuationCommute | bot/views.py:21 | lower-casing and deleting punctuation commute |
| PyStr.Contains | bot/views.py:31 | `k in s` holds for the empty pattern, never for a pattern longer than the text, and for a pattern as long as the text exactly when the two are equal |
| PyStr.ContainsIffOccurs | bot/views.py:31 | the recursive `k in s` holds iff `k` occurs at some position of `s` |
| PyStr.UpperNeverInLowered | bot/views.py:28-31 | a pattern with an upper-case letter never occurs in lower-cased text |
| PyStr.Join | bot/views.py:34 | the join of no parts is empty and the join of one part is that part; otherwise its length is the parts' total plus one separator per gap |
| PyStr.JoinAppend | bot/views.py:34 | joining two non-empty lists of parts is joining each with one separator between, so the part order is kept |
| PyStr.JoinEmptyIff | bot/views.py:34 | with a non-empty separator, the join is empty iff there are no parts or the only part is empty |
| Faq.NormalizeQuery | bot/views.py:19-21 | the normalised query is the lowered, punctuation-free query with whitespace cut off at both ends only; so it has no punctuation, no upper-case letter, no surrounding whitespace, and is no longer than the query |
| Faq.NormalizeIdempotent | bot/views.py:19-21 | normalising twice is normalising once |
| Faq.NormalizeIgnoresCase | bot/views.py:19-21 | queries that differ only in letter case normalise alike |
| Faq.NormalizeIgnoresPunctuation | bot/views.py:19-21 | queries that differ only in punctuation normalise alike |
| Faq.UppercaseKeywordNeverMatches | bot/views.py:28-31 | an entry all of whose keywords contain an upper-case letter never matches any query |
| Faq.MatchedAnswers | bot/views.py:28-32 | every collected answer is that of a matching entry, and every matching entry's answer is collected; there are at most as many answers as entries |
| Faq.MatchedAnswersAppend | bot/views.py:30-32 | the answers of a table split in two are those of the first part followed by those of the second, so table order is kept |
| Faq.MatchedAnswersSingle | bot/views.py:31-32 | one entry contributes its answer exactly once when any of its keywords hits, and nothing otherwise |
| Faq.CollectFaqAnswers | bot/views.py:23-36 | the result is `None` iff no entry matches; otherwise it is the matching answers joined by a blank line |
| Faq.CollectFaqAnswersEmpty | bot/views.py:33-34 | the combined answer is the empty string iff the matching answers are exactly one empty answer |
| Faq.Corpus | bot/views.py:86 | the gate scans exactly the keywords of the table's entries |
| Faq.InDomain | bot/views.py:47 | the gate passes a query exactly when some entry of the table has a keyword in the lower-cased query (the endpoint repeats the test at bot/views.py:86) |
| Faq.InDomainIffFaqAnswer | bot/views.py:86 | the out-of-domain gate passes a query iff `collect_faq_answers` returns a string for it |
| Chat.TranslateAnswer | bot/views.py:111-117 | for "en" the answer is unchanged; on success it is the translator's text; on failure it is the original answer followed by the unavailability marker once |
| Chat.ApiQuery | bot/views.py:79 | the endpoint's query is the submitted one (empty when missing) with only whitespace cut off at both ends; it is empty exactly when the submitted one is missing, empty or all whitespace, and otherwise neither starts nor ends with whitespace |
| Chat.ApiLanguage | bot/views.py:80 | the endpoint's language is "en" when none is given, otherwise the given language with each character lowered in place, so it has no upper-case letter |
| Chat.CacheKey | bot/views.py:98-99 | the key starts with "chat_response:", and what follows has no upper-case letter, no punctuation and no trailing whitespace |
| Chat.CacheKeyShared | bot/views.py:98-99 | two queries share a cache key iff they normalise alike |
| Chat.CacheHit | bot/views.py:100-101 | a lookup hits iff the key is present with a non-empty answer; an absent key and a stored empty answer are both misses |
| Chat.FaqOrLlm | bot/views.py:60-62 | the answer is the model's or the FAQ's; past the gate it is the model's iff the single matching answer is empty, and the FAQ's otherwise; outside the gate it is always the model's (the endpoint repeats the step at bot/views.py:105-108) |
| Chat.FaqOrLlmUsesModelOnlyForEmptyAnswer | bot/views.py:105-108 | for an in-domain query the FAQ answer is falsy iff the matching answers are exactly one empty answer; otherwise the model's answer is never used |
| Chat.AnswerInDomain | bot/views.py:98-109 | past the gate the response is a 200 answer; the cache gains the query's key and keeps every other entry; the entry at the key is a truthy hit or was written with the 3600-second time-to-live |
| Chat.ChatRespond | bot/views.py:82-120 | an empty stripped query gives the 400 with "Query is required."; everything else gives a 200 answer; out-of-domain and empty queries leave the cache as it was; only the query's own key can change |
| Chat.ChatPost | bot/views.py:77-120 | the response is the 400 iff the submitted query is all whitespace; only the stripped query's cache key can change |
| Chat.ChatPostBlankQuery | bot/views.py:79-83 | an empty or all-whitespace query gives the 400 with the fixed error and the cache unchanged |
| Chat.ChatPostOutOfDomain | bot/views.py:86-96 | an out-of-domain query gets the translated fallback with the cache unchanged, whatever the cache holds and whatever the model would answer |
| Chat.ChatPostCacheHit | bot/views.py:100-102 | a truthy cached answer is served translated, the cache is unchanged and the model is not consulted |
| Chat.ChatPostCacheMiss | bot/views.py:103-109 | on a miss the untranslated FAQ-or-model answer is stored under the query's key with the 3600-second time-to-live, and the response is its translation |
| Chat.ChatPostRepeatServedFromCache | bot/views.py:98-117 | a second in-domain request whose query normalises alike gets the answer the first one stored, translated into its own language, with any model and the cache unchanged, unless the stored answer is empty; in the same language with the same translator the step repeats the first |
| Chat.ChatPostLanguageIgnoresCase | bot/views.py:80 | the endpoint behaves the same for any casing of the requested language |
| Chat.ReachesTimedLlmIff | bot/views.py:105-108 | the endpoint calls the model iff the query is non-blank, the cache misses and the matching answers are exactly one empty answer |
| Chat.ChatPostAsWritten | bot/views.py:108 | as written, the endpoint raises exactly on the requests that reach the model call and agrees with the corrected endpoint on all others |
| Chat.UnboundTimedLlmRaises | bot/views.py:108 | on a one-entry table with an empty answer the code as written raises a NameError, while the corrected endpoint answers with the model's text and caches it |
| Chat.FormAnswer | bot/views.py:46-62 | before translation, the form view answers an out-of-domain question with the fallback, an in-domain one with the FAQ answer, and with the untimed model's answer exactly when the single matching answer is empty |
| Chat.Index | bot/views.py:39-71 | a GET renders an empty form with no answer; a POST always renders an answer and echoes the question; an out-of-domain question gets the translated fallback; an in-domain one gets the FAQ answer, or the untimed model's when that is falsy, translated with the language as given |
| Chat.IndexAgreesWithChatPost | bot/views.py:39-71 | on a stripped non-empty question, a lower-case language and a cache miss, the form view and the endpoint give the same answer when the two model helpers agree |
| Chat.LanguageCaseDiffersBetweenViews | bot/views.py:64 | the endpoint treats "EN" as "en", while the form view sends "EN" to the translator and, when translation fails, appends the marker |

## Findings

| source | as written | input that shows it | evidently intended | confidence | as-written member | corrected member |
|---|---|---|---|---|---|---|
| bot/views.py:108 | the endpoint calls `fetch_llm_answer_with_timeout`, but line 12 imports only `fetch_llm_answer`, so the call raises NameError | FAQ table with the single entry ("vip", ["vip"], ""), request `{"query": "vip"}`, empty cache | call the timed helper defined in bot/llm_integration.py:21-33 and answer with its text | high; not executed | Chat.ChatPostAsWritten (exhibited by Chat.UnboundTimedLlmRaises) | Chat.ChatPost |

## Left out

- Django and DRF plumbing is not modelled: `render`, `Response`, `APIView`, and the routing in bot/urls.py and manage.py. A response is a status code plus an answer or an error. The form view's result is the rendered context (question and answer).
- The endpoint's `print` log line (bot/views.py:119) is console output and is not modelled.
- Loading `faq_data.json` at import time (bot/views.py:15-17) is file I/O. The FAQ table is a parameter: a sequence of (id, keywords, answer) in dictionary order. JSON values that are not strings or lists of strings are not modelled.
- The code of bot/llm_integration.py is not part of this model. It does sampled generation through a library pipeline and races a worker thread against a timeout. Both model helpers are oracles. Their outputs may be the fixed "taking too long" message or the "Error retrieving LLM response" text.
- The googletrans `Translator` is a network call. It is an oracle that returns the translated text or `None` when it raises.
- Cache expiry and concurrent access belong to Django's cache backend. The cache is the map of live entries at request time, and each written entry records the 3600-second time-to-live.
- Request fields are strings or missing. Non-string JSON values are not modelled.
- bot/fine_tune_dialoGPT.py is an offline training script with no runtime behaviour.
- PyStr.Lower: maps only 'A'..'Z'. Python's `str.lower` also lowers non-ASCII letters, so the model covers ASCII text only.
- PyStr.Strip: strips only ASCII whitespace. Python's `str.strip` also strips Unicode spaces such as U+0085 and U+00A0.
