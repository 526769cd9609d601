/** The two request flows of bot/views.py as pure step functions: the JSON
    endpoint `ChatAPIView.post`, which reads and writes the response cache,
    and the form view `index`, which does not. The generative model and the
    translator are oracles supplied by the caller. */
module Chat {
  import opened Options
  import opened PyStr
  import opened Faq

  const HttpOk: nat := 200
  const HttpBadRequest: nat := 400

  /** The error text of the 400 response. */
  const QueryRequired: string := "Query is required."

  /** The fixed answer to an out-of-domain query. */
  const OutOfDomainFallback: string :=
    "I'm sorry, I only answer questions related to StreamKar. "
    + "Please ask something relevant or contact human support for further assistance at support@streamkar.com."

  /** Appended to the untranslated answer when translation fails. */
  const TranslationUnavailable: string := " (Translation unavailable)"

  /** The language both views assume when none is given; answers in it are
      not translated. */
  const DefaultLanguage: string := "en"

  const CacheKeyPrefix: string := "chat_response:"

  /** The time-to-live passed to `cache.set`, in seconds. */
  const CacheTimeout: nat := 3600

  /** The time budget, in seconds, the endpoint gives the generative model. */
  const LlmTimeout: real := 0.5

  datatype Body = AnswerBody(answer: string) | ErrorBody(error: string)

  datatype Response = Response(status: nat, body: Body)

  /** A cache value with the time-to-live it was written with. */
  datatype CachedAnswer = CachedAnswer(answer: string, timeout: nat)

  /** The response cache as seen at the time of the request: an expired
      entry is simply absent. */
  type Cache = map<string, CachedAnswer>

  /** The endpoint's response and the cache after the request. */
  datatype Step = Step(response: Response, cache: Cache)

  /** The collaborators the views call but whose code is not modelled:
      `llm` is `fetch_llm_answer`, `timedLlm` is
      `fetch_llm_answer_with_timeout` (query and timeout), and `translate`
      is `Translator().translate(text, dest=language).text`, `None` when it
      raises. */
  datatype Oracles = Oracles(
    llm: string -> string,
    timedLlm: (string, real) -> string,
    translate: (string, string) -> Option<string>)

  /** The JSON body of a request to the endpoint; a missing field is `None`. */
  datatype ApiRequest = ApiRequest(query: Option<string>, language: Option<string>)

  /** A request to the form view: `FormGet` stands for every method other
      than POST; a missing form field is `None`. */
  datatype IndexRequest = FormGet | FormPost(question: Option<string>, language: Option<string>)

  /** The context the form view renders. */
  datatype IndexPage = IndexPage(question: string, answer: Option<string>)

  // ---------------------------------------------------------------------
  // Translation

  /** The translation step of both views: the text itself for the default
      language, the translator's text when it succeeds, and otherwise the
      original text with the unavailability marker appended once. */
  function TranslateAnswer(text: string, language: string,
                           translate: (string, string) -> Option<string>): (r: string)
    ensures language == DefaultLanguage ==> r == text
    ensures language != DefaultLanguage && translate(text, language).Some? ==>
      r == translate(text, language).value
    ensures language != DefaultLanguage && translate(text, language).None? ==>
      |r| == |text| + |TranslationUnavailable|
      && r[..|text|] == text && r[|text|..] == TranslationUnavailable
  {
    if language == DefaultLanguage then text
    else
      match translate(text, language)
      case Some(t) => t
      case None => text + TranslationUnavailable
  }

  // ---------------------------------------------------------------------
  // Pieces of the endpoint

  /** `data.get("query", "").strip()`: the submitted query (empty when
      missing) with the whitespace at both ends cut off; empty exactly when
      the query is missing, empty or all whitespace. */
  function ApiQuery(req: ApiRequest): (q: string)
    ensures exists i :: StripsTo(req.query.GetOr(""), i, q)
    ensures q == "" <==> forall k :: 0 <= k < |req.query.GetOr("")| ==> IsSpace(req.query.GetOr("")[k])
    ensures req.query.None? ==> q == ""
    ensures |q| > 0 ==> !IsSpace(q[0]) && !IsSpace(q[|q| - 1])
  {
    Strip(req.query.GetOr(""))
  }

  /** `data.get("language", "en").lower()`: "en" when the field is missing,
      otherwise the given language lowered character by character. */
  function ApiLanguage(req: ApiRequest): (l: string)
    ensures req.language.None? ==> l == DefaultLanguage
    ensures req.language.Some? ==> |l| == |req.language.value|
    ensures req.language.Some? ==> forall i :: 0 <= i < |l| ==> l[i] == LowerChar(req.language.value[i])
    ensures forall i :: 0 <= i < |l| ==> !IsUpper(l[i])
  {
    LowerClean(DefaultLanguage);
    Lower(req.language.GetOr(DefaultLanguage))
  }

  /** The cache key of a query: the prefix followed by its normalisation,
      so the part after the prefix has no upper-case letter, no punctuation
      and no trailing whitespace. */
  function CacheKey(query: string): (key: string)
    ensures |CacheKeyPrefix| <= |key| && key[..|CacheKeyPrefix|] == CacheKeyPrefix
    ensures forall i :: |CacheKeyPrefix| <= i < |key| ==> !IsUpper(key[i]) && !IsPunctuation(key[i])
    ensures |key| > |CacheKeyPrefix| ==> !IsSpace(key[|key| - 1])
  {
    var n := NormalizeQuery(query);
    PrefixedClean(CacheKeyPrefix, n);
    CacheKeyPrefix + n
  }

  /** Putting a prefix in front of clean text keeps the text's cleanliness
      after the prefix. */
  lemma PrefixedClean(p: string, n: string)
    requires forall i :: 0 <= i < |n| ==> !IsUpper(n[i]) && !IsPunctuation(n[i])
    requires |n| > 0 ==> !IsSpace(n[|n| - 1])
    ensures (p + n)[..|p|] == p
    ensures forall i :: |p| <= i < |p + n| ==> !IsUpper((p + n)[i]) && !IsPunctuation((p + n)[i])
    ensures |p + n| > |p| ==> !IsSpace((p + n)[|p + n| - 1])
  {
    forall i | |p| <= i < |p + n|
      ensures !IsUpper((p + n)[i]) && !IsPunctuation((p + n)[i])
    {
      assert (p + n)[i] == n[i - |p|];
    }
  }

  /** Two queries share a cache entry exactly when they normalise alike. */
  lemma CacheKeyShared(q1: string, q2: string)
    ensures CacheKey(q1) == CacheKey(q2) <==> NormalizeQuery(q1) == NormalizeQuery(q2)
  {
    if CacheKey(q1) == CacheKey(q2) {
      assert CacheKey(q1)[|CacheKeyPrefix|..] == NormalizeQuery(q1);
      assert CacheKey(q2)[|CacheKeyPrefix|..] == NormalizeQuery(q2);
    }
  }

  /** `if cached_answer:`: a present non-empty answer is a hit; an absent
      key or a stored empty answer, which is falsy, is a miss. */
  function CacheHit(cache: Cache, key: string): (hit: bool)
    ensures hit ==> key in cache
    ensures key in cache && cache[key].answer == "" ==> !hit
    ensures key in cache && cache[key].answer != "" ==> hit
  {
    key in cache && cache[key].answer != ""
  }

  /** `collect_faq_answers` returned a non-empty string. */
  predicate FaqAnswerTruthy(faq: Table, query: string) {
    var a := CollectFaqAnswers(faq, query);
    a.Some? && a.value != ""
  }

  /** `answer = collect_faq_answers(q); if not answer: answer = <llm>`:
      the FAQ answer when it is truthy, otherwise the model's answer. For a
      query past the gate the model's answer is used exactly when the single
      matching entry has an empty answer; out of the gate it is always used. */
  function FaqOrLlm(faq: Table, query: string, llmAnswer: string): (answer: string)
    ensures answer == llmAnswer || Some(answer) == CollectFaqAnswers(faq, query)
    ensures InDomain(faq, query) && MatchedAnswers(faq, Lower(query)) != [""] ==>
      Some(answer) == CollectFaqAnswers(faq, query)
    ensures InDomain(faq, query) && MatchedAnswers(faq, Lower(query)) == [""] ==> answer == llmAnswer
    ensures !InDomain(faq, query) ==> answer == llmAnswer
  {
    InDomainIffFaqAnswer(faq, query);
    CollectFaqAnswersEmpty(faq, query);
    if FaqAnswerTruthy(faq, query) then CollectFaqAnswers(faq, query).value else llmAnswer
  }

  /** The in-domain queries that reach the generative model are exactly
      those whose only matching FAQ entry has an empty answer. */
  lemma FaqOrLlmUsesModelOnlyForEmptyAnswer(faq: Table, query: string)
    requires InDomain(faq, query)
    ensures !FaqAnswerTruthy(faq, query) <==> MatchedAnswers(faq, Lower(query)) == [""]
    ensures MatchedAnswers(faq, Lower(query)) != [""] ==>
      forall x :: FaqOrLlm(faq, query, x) == CollectFaqAnswers(faq, query).value
  {
    InDomainIffFaqAnswer(faq, query);
    CollectFaqAnswersEmpty(faq, query);
  }

  // ---------------------------------------------------------------------
  // ChatAPIView.post

  /** The part of `ChatAPIView.post` after the gate: a truthy cached answer
      is served as it is; otherwise the FAQ-or-model answer is computed and
      stored, untranslated, under the query's key with the one-hour
      time-to-live. No other key changes. */
  function AnswerInDomain(faq: Table, query: string, language: string, cache: Cache, o: Oracles): (r: Step)
    ensures r.response.status == HttpOk && r.response.body.AnswerBody?
    ensures r.cache.Keys == cache.Keys + {CacheKey(query)}
    ensures forall k :: k in cache && k != CacheKey(query) ==> r.cache[k] == cache[k]
    ensures CacheHit(r.cache, CacheKey(query)) || r.cache[CacheKey(query)].timeout == CacheTimeout
  {
    var key := CacheKey(query);
    if CacheHit(cache, key) then
      Step(Response(HttpOk, AnswerBody(TranslateAnswer(cache[key].answer, language, o.translate))), cache)
    else
      var answer := FaqOrLlm(faq, query, o.timedLlm(query, LlmTimeout));
      Step(Response(HttpOk, AnswerBody(TranslateAnswer(answer, language, o.translate))),
           cache[key := CachedAnswer(answer, CacheTimeout)])
  }

  /** `ChatAPIView.post` on a request whose query has already been
      stripped and whose language has already been lower-cased. An empty
      query is a 400 with the fixed error; everything else is a 200 with an
      answer. The cache is touched only for in-domain queries, and then only
      at the query's own key. */
  function ChatRespond(faq: Table, query: string, language: string, cache: Cache, o: Oracles): (r: Step)
    ensures r.response.status == HttpBadRequest <==> query == ""
    ensures r.response.status == HttpBadRequest ==> r.response.body == ErrorBody(QueryRequired)
    ensures r.response.status != HttpBadRequest ==>
      r.response.status == HttpOk && r.response.body.AnswerBody?
    ensures query == "" || !InDomain(faq, query) ==> r.cache == cache
    ensures r.cache.Keys <= cache.Keys + {CacheKey(query)}
    ensures forall k :: k in cache && k != CacheKey(query) ==> k in r.cache && r.cache[k] == cache[k]
  {
    if query == "" then
      Step(Response(HttpBadRequest, ErrorBody(QueryRequired)), cache)
    else if !InDomain(faq, query) then
      Step(Response(HttpOk, AnswerBody(TranslateAnswer(OutOfDomainFallback, language, o.translate))), cache)
    else
      AnswerInDomain(faq, query, language, cache, o)
  }

  /** `ChatAPIView.post`: the query is stripped and the language
      lower-cased before anything else, so a request whose query is empty
      or all whitespace is the 400, and the cache key is that of the
      stripped query. */
  function ChatPost(faq: Table, req: ApiRequest, cache: Cache, o: Oracles): (r: Step)
    ensures r.response.status == HttpBadRequest <==>
      forall k :: 0 <= k < |req.query.GetOr("")| ==> IsSpace(req.query.GetOr("")[k])
    ensures r.cache.Keys <= cache.Keys + {CacheKey(ApiQuery(req))}
    ensures forall k :: k in cache && k != CacheKey(ApiQuery(req)) ==> k in r.cache && r.cache[k] == cache[k]
  {
    ChatRespond(faq, ApiQuery(req), ApiLanguage(req), cache, o)
  }

  /** A query that is empty or all whitespace is rejected with a 400, and
      the cache is neither consulted nor changed. */
  lemma ChatPostBlankQuery(faq: Table, req: ApiRequest, cache: Cache, o: Oracles)
    requires forall k :: 0 <= k < |req.query.GetOr("")| ==> IsSpace(req.query.GetOr("")[k])
    ensures ChatPost(faq, req, cache, o) == Step(Response(HttpBadRequest, ErrorBody(QueryRequired)), cache)
  {
  }

  /** An out-of-domain query gets the fixed fallback, translated as
      requested, whatever the cache holds and whatever the model would say;
      the cache is unchanged. */
  lemma ChatPostOutOfDomain(faq: Table, req: ApiRequest, cache: Cache, other: Cache,
                            o: Oracles, timedLlm: (string, real) -> string)
    requires ApiQuery(req) != "" && !InDomain(faq, ApiQuery(req))
    ensures ChatPost(faq, req, cache, o)
         == Step(Response(HttpOk, AnswerBody(TranslateAnswer(OutOfDomainFallback, ApiLanguage(req), o.translate))), cache)
    ensures ChatPost(faq, req, other, o.(timedLlm := timedLlm)).response == ChatPost(faq, req, cache, o).response
  {
  }

  /** A truthy cached answer is served, translated as requested, without
      consulting the model; the cache is unchanged. */
  lemma ChatPostCacheHit(faq: Table, req: ApiRequest, cache: Cache, o: Oracles,
                         timedLlm: (string, real) -> string)
    requires ApiQuery(req) != "" && InDomain(faq, ApiQuery(req))
    requires CacheHit(cache, CacheKey(ApiQuery(req)))
    ensures ChatPost(faq, req, cache, o)
         == Step(Response(HttpOk, AnswerBody(TranslateAnswer(cache[CacheKey(ApiQuery(req))].answer,
                                                             ApiLanguage(req), o.translate))), cache)
    ensures ChatPost(faq, req, cache, o.(timedLlm := timedLlm)) == ChatPost(faq, req, cache, o)
  {
  }

  /** On a miss the untranslated answer, from the FAQ when it is truthy and
      from the model otherwise, is stored under the query's key with the
      one-hour time-to-live; the response is its translation. FAQ answers
      are cached like model answers. */
  lemma ChatPostCacheMiss(faq: Table, req: ApiRequest, cache: Cache, o: Oracles)
    requires ApiQuery(req) != "" && InDomain(faq, ApiQuery(req))
    requires !CacheHit(cache, CacheKey(ApiQuery(req)))
    ensures var q := ApiQuery(req);
            var stored := if FaqAnswerTruthy(faq, q) then CollectFaqAnswers(faq, q).value
                          else o.timedLlm(q, LlmTimeout);
            var r := ChatPost(faq, req, cache, o);
            && r.cache == cache[CacheKey(q) := CachedAnswer(stored, CacheTimeout)]
            && r.response == Response(HttpOk, AnswerBody(TranslateAnswer(stored, ApiLanguage(req), o.translate)))
  {
  }

  /** Asking again, with any in-domain query that normalises alike, is
      answered from the cache the first request left behind: the stored
      answer is served translated into the second request's language, the
      cache is left as it is, and whatever the second request's model would
      say is not used — unless the stored answer is empty, which the
      endpoint treats as a miss. In the same language with the same
      translator the second step repeats the first. */
  lemma ChatPostRepeatServedFromCache(faq: Table, req1: ApiRequest, req2: ApiRequest, cache: Cache,
                                      o: Oracles, o2: Oracles)
    requires ApiQuery(req1) != "" && InDomain(faq, ApiQuery(req1))
    requires ApiQuery(req2) != "" && InDomain(faq, ApiQuery(req2))
    requires NormalizeQuery(ApiQuery(req2)) == NormalizeQuery(ApiQuery(req1))
    ensures var first := ChatPost(faq, req1, cache, o);
            var key := CacheKey(ApiQuery(req1));
            && key in first.cache
            && (first.cache[key].answer != "" ==>
                  var second := ChatPost(faq, req2, first.cache, o2);
                  && second.cache == first.cache
                  && second.response == Response(HttpOk, AnswerBody(TranslateAnswer(first.cache[key].answer,
                                                                                    ApiLanguage(req2), o2.translate)))
                  && (ApiLanguage(req2) == ApiLanguage(req1) && o2.translate == o.translate ==> second == first))
  {
    CacheKeyShared(ApiQuery(req1), ApiQuery(req2));
  }

  /** The endpoint lower-cases the requested language, so "EN" and "en"
      (and any other casing) behave alike. */
  lemma ChatPostLanguageIgnoresCase(faq: Table, q: Option<string>, language: string, cache: Cache, o: Oracles)
    ensures ChatPost(faq, ApiRequest(q, Some(language)), cache, o)
         == ChatPost(faq, ApiRequest(q, Some(Lower(language))), cache, o)
  {
    LowerIdempotent(language);
  }

  /** The requests on which the endpoint calls the generative model. */
  predicate ReachesTimedLlm(faq: Table, req: ApiRequest, cache: Cache) {
    var q := ApiQuery(req);
    && q != ""
    && InDomain(faq, q)
    && !CacheHit(cache, CacheKey(q))
    && !FaqAnswerTruthy(faq, q)
  }

  /** Because the gate and the FAQ scan use the same keyword test, the
      endpoint calls the model only when the single matching FAQ entry has
      an empty answer. */
  lemma ReachesTimedLlmIff(faq: Table, req: ApiRequest, cache: Cache)
    ensures ReachesTimedLlm(faq, req, cache) <==>
      && ApiQuery(req) != ""
      && !CacheHit(cache, CacheKey(ApiQuery(req)))
      && MatchedAnswers(faq, Lower(ApiQuery(req))) == [""]
  {
    var q := ApiQuery(req);
    InDomainIffFaqAnswer(faq, q);
    CollectFaqAnswersEmpty(faq, q);
  }

  // ---------------------------------------------------------------------
  // ChatAPIView.post as written

  /** What the endpoint does with an exception it does not catch. */
  datatype ApiOutcome = Handled(step: Step) | Raised(exception: string)

  /** The exception raised where the endpoint calls the timed model helper,
      which bot/views.py never imports. */
  const UnboundTimedLlm: string := "NameError: name 'fetch_llm_answer_with_timeout' is not defined"

  /** `ChatAPIView.post` as written: the branch that calls the timed model
      helper raises instead. It raises exactly on the requests that reach
      the model and agrees with `ChatPost` on every other request. */
  function ChatPostAsWritten(faq: Table, req: ApiRequest, cache: Cache, o: Oracles): (r: ApiOutcome)
    ensures r.Raised? <==> ReachesTimedLlm(faq, req, cache)
    ensures r.Handled? ==> r.step == ChatPost(faq, req, cache, o)
  {
    var query := ApiQuery(req);
    var language := ApiLanguage(req);
    if query == "" then
      Handled(Step(Response(HttpBadRequest, ErrorBody(QueryRequired)), cache))
    else if !InDomain(faq, query) then
      Handled(Step(Response(HttpOk, AnswerBody(TranslateAnswer(OutOfDomainFallback, language, o.translate))), cache))
    else
      var key := CacheKey(query);
      if CacheHit(cache, key) then
        Handled(Step(Response(HttpOk, AnswerBody(TranslateAnswer(cache[key].answer, language, o.translate))), cache))
      else
        var faqAnswer := CollectFaqAnswers(faq, query);
        if faqAnswer.Some? && faqAnswer.value != "" then
          Handled(Step(Response(HttpOk, AnswerBody(TranslateAnswer(faqAnswer.value, language, o.translate))),
                       cache[key := CachedAnswer(faqAnswer.value, CacheTimeout)]))
        else
          Raised(UnboundTimedLlm)
  }

  /** A table with one entry whose answer is empty: the query "vip" passes
      the gate, misses the empty cache, gets a falsy FAQ answer and so
      reaches the model call, which raises as written; the corrected
      endpoint answers with the model's text and caches it. */
  lemma UnboundTimedLlmRaises(o: Oracles)
    ensures var faq := [Entry("vip", ["vip"], "")];
            var req := ApiRequest(Some("vip"), None);
            && ChatPostAsWritten(faq, req, map[], o) == Raised(UnboundTimedLlm)
            && ChatPost(faq, req, map[], o)
               == Step(Response(HttpOk, AnswerBody(o.timedLlm("vip", LlmTimeout))),
                       map[CacheKey("vip") := CachedAnswer(o.timedLlm("vip", LlmTimeout), CacheTimeout)])
  {
    var faq := [Entry("vip", ["vip"], "")];
    var req := ApiRequest(Some("vip"), None);
    VipRequest();
    VipTable();
    assert ReachesTimedLlm(faq, req, map[]);
    assert ChatPost(faq, req, map[], o) == AnswerInDomain(faq, "vip", DefaultLanguage, map[], o);
  }

  /** The request of the example: its query strips to "vip" and its
      language defaults to "en". */
  lemma VipRequest()
    ensures ApiQuery(ApiRequest(Some("vip"), None)) == "vip"
    ensures ApiLanguage(ApiRequest(Some("vip"), None)) == DefaultLanguage
  {
    StripClean("vip");
    LowerClean("en");
  }

  /** The table of the example lets "vip" through the gate with the empty
      combined answer. */
  lemma VipTable()
    ensures InDomain([Entry("vip", ["vip"], "")], "vip")
    ensures CollectFaqAnswers([Entry("vip", ["vip"], "")], "vip") == Some("")
  {
    var faq := [Entry("vip", ["vip"], "")];
    LowerClean("vip");
    assert Contains("vip", "vip");
    assert "vip" in Corpus(faq);
    assert MatchedAnswers(faq, "vip") == [""] by {
      assert faq[1..] == [];
      assert AnyKeywordIn(faq[0].keywords, "vip");
    }
  }

  // ---------------------------------------------------------------------
  // index

  /** The form view's answer before translation: the fallback for an
      out-of-domain question, otherwise the FAQ answer or, when that is
      falsy, the untimed model's. */
  function FormAnswer(faq: Table, question: string, o: Oracles): (a: string)
    ensures !InDomain(faq, question) ==> a == OutOfDomainFallback
    ensures InDomain(faq, question) && MatchedAnswers(faq, Lower(question)) != [""] ==>
      Some(a) == CollectFaqAnswers(faq, question)
    ensures InDomain(faq, question) && MatchedAnswers(faq, Lower(question)) == [""] ==>
      a == o.llm(question)
  {
    InDomainIffFaqAnswer(faq, question);
    CollectFaqAnswersEmpty(faq, question);
    if !InDomain(faq, question) then OutOfDomainFallback
    else FaqOrLlm(faq, question, o.llm(question))
  }

  /** The form view. A GET renders an empty form. A POST always renders an
      answer, translated with the language as given (not lower-cased). No
      cache is involved and no question is rejected. */
  function Index(faq: Table, req: IndexRequest, o: Oracles): (page: IndexPage)
    ensures req.FormGet? ==> page == IndexPage("", None)
    ensures req.FormPost? ==> page.question == req.question.GetOr("") && page.answer.Some?
    ensures req.FormPost? && !InDomain(faq, req.question.GetOr("")) ==>
      page.answer == Some(TranslateAnswer(OutOfDomainFallback, req.language.GetOr(DefaultLanguage), o.translate))
    ensures req.FormPost? && InDomain(faq, req.question.GetOr("")) ==>
      var q := req.question.GetOr("");
      var answer := if FaqAnswerTruthy(faq, q) then CollectFaqAnswers(faq, q).value else o.llm(q);
      page.answer == Some(TranslateAnswer(answer, req.language.GetOr(DefaultLanguage), o.translate))
  {
    match req
    case FormGet => IndexPage("", None)
    case FormPost(q, l) =>
      var question := q.GetOr("");
      IndexPage(question, Some(TranslateAnswer(FormAnswer(faq, question, o), l.GetOr(DefaultLanguage), o.translate)))
  }

  /** On a question that is already stripped and non-empty, a lower-case
      language and a cache miss, the form view and the endpoint give the same
      answer whenever the two model helpers agree on the question. */
  lemma IndexAgreesWithChatPost(faq: Table, q: string, language: string, cache: Cache, o: Oracles)
    requires q != "" && Strip(q) == q
    requires Lower(language) == language
    requires !CacheHit(cache, CacheKey(q))
    requires o.timedLlm(q, LlmTimeout) == o.llm(q)
    ensures Index(faq, FormPost(Some(q), Some(language)), o).answer
         == Some(ChatPost(faq, ApiRequest(Some(q), Some(language)), cache, o).response.body.answer)
  {
  }

  /** The two views differ on the language "EN": the endpoint lower-cases
      it and does not translate, the form view passes it to the translator,
      and with a translator that fails the marker is appended. */
  lemma LanguageCaseDiffersBetweenViews(faq: Table, q: string, cache: Cache, o: Oracles)
    requires forall t :: o.translate(t, "EN") == None
    ensures ChatPost(faq, ApiRequest(Some(q), Some("EN")), cache, o)
         == ChatPost(faq, ApiRequest(Some(q), Some("en")), cache, o)
    ensures Index(faq, FormPost(Some(q), Some("EN")), o).answer.value
         == Index(faq, FormPost(Some(q), Some("en")), o).answer.value + TranslationUnavailable
  {
    assert ChatPost(faq, ApiRequest(Some(q), Some("EN")), cache, o)
        == ChatPost(faq, ApiRequest(Some(q), Some("en")), cache, o) by {
      assert Lower("EN") == "en" by {
        assert Lower("EN")[0] == 'e' && Lower("EN")[1] == 'n';
      }
      ChatPostLanguageIgnoresCase(faq, Some(q), "EN", cache, o);
    }
    var a := FormAnswer(faq, q, o);
    assert "EN" != DefaultLanguage;
    assert Index(faq, FormPost(Some(q), Some("EN")), o).answer == Some(TranslateAnswer(a, "EN", o.translate));
    assert Index(faq, FormPost(Some(q), Some("en")), o).answer == Some(TranslateAnswer(a, "en", o.translate));
  }
}
