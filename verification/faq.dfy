/** Query normalisation, keyword matching against the FAQ table and the
    out-of-domain gate of the chat views (bot/views.py). */
module Faq {
  import opened Options
  import opened PyStr

  /** One FAQ entry: its key in the table, its trigger keywords (in file
      order) and its answer text. */
  datatype Entry = Entry(id: string, keywords: seq<string>, answer: string)

  /** The FAQ table in dictionary iteration order. */
  type Table = seq<Entry>

  /** The separator `collect_faq_answers` puts between answers. */
  const AnswerSeparator: string := "\n\n"

  // ---------------------------------------------------------------------
  // normalize_query

  /** `normalize_query`: lower-case, delete punctuation, strip. The result
      is what is left of the lowered, punctuation-free query once its
      surrounding whitespace is cut off, so it has no punctuation, no
      upper-case letter and no surrounding whitespace. */
  function NormalizeQuery(q: string): (r: string)
    ensures exists i :: StripsTo(DeletePunctuation(Lower(q)), i, r)
    ensures |r| <= |q|
    ensures forall i :: 0 <= i < |r| ==> !IsPunctuation(r[i]) && !IsUpper(r[i])
    ensures |r| > 0 ==> !IsSpace(r[0]) && !IsSpace(r[|r| - 1])
  {
    var lowered := Lower(q);
    var kept := DeletePunctuation(lowered);
    var r := Strip(kept);
    forall i | 0 <= i < |r|
      ensures !IsPunctuation(r[i]) && !IsUpper(r[i])
    {
      assert r[i] in kept;
      var j :| 0 <= j < |lowered| && lowered[j] == r[i];
    }
    r
  }

  /** Normalising twice is normalising once. */
  lemma NormalizeIdempotent(q: string)
    ensures NormalizeQuery(NormalizeQuery(q)) == NormalizeQuery(q)
  {
    var n := NormalizeQuery(q);
    LowerIdempotent(n);
    assert Lower(n) == n;
    DeletePunctuationClean(n);
    StripClean(n);
  }

  /** Queries that differ only in letter case normalise alike. */
  lemma NormalizeIgnoresCase(q: string)
    ensures NormalizeQuery(Lower(q)) == NormalizeQuery(q)
  {
    LowerIdempotent(q);
  }

  /** Queries that differ only in punctuation normalise alike. */
  lemma NormalizeIgnoresPunctuation(q: string)
    ensures NormalizeQuery(DeletePunctuation(q)) == NormalizeQuery(q)
  {
    LowerDeletePunctuationCommute(q);
    LowerDeletePunctuationCommute(DeletePunctuation(q));
    DeletePunctuationClean(DeletePunctuation(q));
  }

  // ---------------------------------------------------------------------
  // Keyword matching

  /** `any(keyword in text for keyword in keywords)`. Keywords are used as
      written: they are not lower-cased. */
  predicate AnyKeywordIn(keywords: seq<string>, text: string) {
    exists k :: k in keywords && Contains(text, k)
  }

  /** An entry matches a query when one of its keywords is a substring of
      the lower-cased query. */
  predicate EntryMatches(e: Entry, query: string) {
    AnyKeywordIn(e.keywords, Lower(query))
  }

  /** Keywords are compared as written with the lower-cased query, so an
      entry all of whose keywords hold an upper-case letter never matches,
      whatever the query. */
  lemma UppercaseKeywordNeverMatches(e: Entry, query: string)
    requires forall k :: k in e.keywords ==> exists j :: 0 <= j < |k| && IsUpper(k[j])
    ensures !EntryMatches(e, query)
  {
    forall k | k in e.keywords
      ensures !Contains(Lower(query), k)
    {
      var j :| 0 <= j < |k| && IsUpper(k[j]);
      UpperNeverInLowered(query, k, j);
    }
  }

  /** The answers of the matching entries, in table order, each entry at
      most once however many of its keywords hit. */
  function MatchedAnswers(faq: Table, lowered: string): (r: seq<string>)
    ensures |r| <= |faq|
    ensures forall a :: a in r ==>
      exists e :: e in faq && AnyKeywordIn(e.keywords, lowered) && e.answer == a
    ensures forall e :: e in faq && AnyKeywordIn(e.keywords, lowered) ==> e.answer in r
  {
    if faq == [] then []
    else
      var rest := MatchedAnswers(faq[1..], lowered);
      assert forall e :: e in faq ==> e == faq[0] || e in faq[1..];
      if AnyKeywordIn(faq[0].keywords, lowered) then [faq[0].answer] + rest else rest
  }

  /** Matching distributes over the table: the answers of a table split in
      two are those of the first part followed by those of the second. */
  lemma {:induction false} MatchedAnswersAppend(a: Table, b: Table, lowered: string)
    ensures MatchedAnswers(a + b, lowered) == MatchedAnswers(a, lowered) + MatchedAnswers(b, lowered)
  {
    if a == [] {
      assert a + b == b;
    } else {
      assert (a + b)[1..] == a[1..] + b;
      MatchedAnswersAppend(a[1..], b, lowered);
    }
  }

  /** A single entry contributes its answer once when it matches, however
      many of its keywords hit, and nothing otherwise. */
  lemma MatchedAnswersSingle(e: Entry, lowered: string)
    ensures MatchedAnswers([e], lowered) == (if AnyKeywordIn(e.keywords, lowered) then [e.answer] else [])
  {
    assert [e][1..] == [];
  }

  // ---------------------------------------------------------------------
  // collect_faq_answers

  /** `collect_faq_answers`: `None` exactly when no entry matches;
      otherwise the matching answers joined by a blank line. */
  function CollectFaqAnswers(faq: Table, query: string): (r: Option<string>)
    ensures r.None? <==> forall e :: e in faq ==> !EntryMatches(e, query)
    ensures r.Some? ==> r.value == Join(AnswerSeparator, MatchedAnswers(faq, Lower(query)))
  {
    var matched := MatchedAnswers(faq, Lower(query));
    if |matched| > 0 then
      assert matched[0] in matched;
      Some(Join(AnswerSeparator, matched))
    else None
  }

  /** The combined answer is falsy (the empty string) exactly when a
      single entry matches and its answer is empty: with the blank-line
      separator, two or more matches never join to the empty string. */
  lemma CollectFaqAnswersEmpty(faq: Table, query: string)
    ensures CollectFaqAnswers(faq, query) == Some("") <==> MatchedAnswers(faq, Lower(query)) == [""]
  {
    JoinEmptyIff(AnswerSeparator, MatchedAnswers(faq, Lower(query)));
  }

  // ---------------------------------------------------------------------
  // The out-of-domain gate

  /** Every keyword of the table, entry after entry. */
  function Corpus(faq: Table): (ks: seq<string>)
    ensures forall e, k :: e in faq && k in e.keywords ==> k in ks
    ensures forall k :: k in ks ==> exists e :: e in faq && k in e.keywords
  {
    if faq == [] then []
    else
      assert forall e :: e in faq ==> e == faq[0] || e in faq[1..];
      faq[0].keywords + Corpus(faq[1..])
  }

  /** The inline gate of both views: some keyword of the whole table is a
      substring of the lower-cased query. It passes a query exactly when
      some entry of the table matches it. */
  function InDomain(faq: Table, query: string): (b: bool)
    ensures b <==> exists e :: e in faq && EntryMatches(e, query)
  {
    var inCorpus := AnyKeywordIn(Corpus(faq), Lower(query));
    assert inCorpus ==> exists e :: e in faq && EntryMatches(e, query) by {
      if inCorpus {
        var k :| k in Corpus(faq) && Contains(Lower(query), k);
        var e :| e in faq && k in e.keywords;
        assert EntryMatches(e, query);
      }
    }
    inCorpus
  }

  /** The gate and the FAQ scan agree: a query passes the gate exactly when
      `collect_faq_answers` returns a string. */
  lemma InDomainIffFaqAnswer(faq: Table, query: string)
    ensures InDomain(faq, query) <==> CollectFaqAnswers(faq, query).Some?
  {
    if InDomain(faq, query) {
      var k :| k in Corpus(faq) && Contains(Lower(query), k);
      var e :| e in faq && k in e.keywords;
      assert EntryMatches(e, query);
    }
  }
}
