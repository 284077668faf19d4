/** The NLP chain the page runs on an article body (app.py, app2.py):
    `clean_text`, `cnt_in_sent`, `freq_dict`, `calc_TF`, `calc_IDF`,
    `calc_TFIDF`, `sent_scores`, `summary`. */
module Pipeline {
  import opened Wrappers
  import opened Strings
  import opened Segmenter
  import opened Counting
  import opened TermStats
  import opened Scoring
  import opened StableSort
  import opened Summarizer

  /** The records `sent_scores` builds from the sentence list: record `k`
      has id `k + 1` and holds sentence `k`. */
  predicate Numbered(data: seq<SentScore>, sentences: seq<string>) {
    |data| == |sentences| &&
    forall k :: 0 <= k < |data| ==> data[k].id == k + 1 && data[k].sentence == sentences[k]
  }

  lemma NumberedIsStrict(data: seq<SentScore>, sentences: seq<string>)
    requires Numbered(data, sentences)
    ensures StrictlyAscending(data, IdKey)
  {
  }

  /** A record kept by the summary is one of the input records. */
  lemma OrderedFromInput(data: seq<SentScore>, k: nat, x: SentScore)
    requires x in Ordered(data, k)
    ensures x in data
  {
    OrderedIsSelectionById(data, k);
    SelectionIsTopK(data, k);
    assert x in multiset(Ordered(data, k));
    assert x in multiset(Selected(data, k));
    assert x in multiset(data);
  }

  /** The records the summary keeps, in order: each is the input sentence
      its id names, and the ids strictly increase. */
  lemma OrderedNumbered(data: seq<SentScore>, sentences: seq<string>, k: nat)
    requires Numbered(data, sentences)
    ensures forall i :: 0 <= i < |Ordered(data, k)| ==>
              1 <= Ordered(data, k)[i].id <= |sentences| &&
              Ordered(data, k)[i].sentence == sentences[Ordered(data, k)[i].id - 1]
    ensures StrictlyAscending(Ordered(data, k), IdKey)
  {
    var o := Ordered(data, k);
    NumberedIsStrict(data, sentences);
    OrderedStrictlyById(data, k);
    forall i | 0 <= i < |o|
      ensures 1 <= o[i].id <= |sentences| && o[i].sentence == sentences[o[i].id - 1]
    {
      OrderedFromInput(data, k, o[i]);
    }
  }

  /** The ids of the records. */
  function IdsOf(s: seq<SentScore>): (r: seq<nat>)
    ensures |r| == |s| && forall i :: 0 <= i < |s| ==> r[i] == s[i].id
  {
    seq(|s|, i requires 0 <= i < |s| => s[i].id)
  }

  /** The sentences the ids name, in the order of the ids. */
  function Pick(sentences: seq<string>, ids: seq<nat>): (r: seq<string>)
    requires forall i :: 0 <= i < |ids| ==> 1 <= ids[i] <= |sentences|
    ensures |r| == |ids| && forall i :: 0 <= i < |ids| ==> r[i] == sentences[ids[i] - 1]
  {
    seq(|ids|, i requires 0 <= i < |ids| => sentences[ids[i] - 1])
  }

  /** The ids the summary keeps, in the order it lists them. */
  function ChosenIds(data: seq<SentScore>, k: nat): seq<nat> {
    IdsOf(Ordered(data, k))
  }

  /** `min(k, n)` sentences are chosen, each named by a valid id, with
      strictly increasing ids: the summary follows source order. */
  lemma ChosenIdsInOrder(data: seq<SentScore>, sentences: seq<string>, k: nat)
    requires Numbered(data, sentences)
    ensures |ChosenIds(data, k)| == TopCount(k, |sentences|)
    ensures forall i :: 0 <= i < |ChosenIds(data, k)| ==> 1 <= ChosenIds(data, k)[i] <= |sentences|
    ensures forall i, j :: 0 <= i < j < |ChosenIds(data, k)| ==> ChosenIds(data, k)[i] < ChosenIds(data, k)[j]
  {
    var o := Ordered(data, k);
    var ids := ChosenIds(data, k);
    OrderedIsSelectionById(data, k);
    OrderedNumbered(data, sentences, k);
    forall i, j | 0 <= i < j < |ids|
      ensures ids[i] < ids[j]
    {
      assert IdKey(o[i]) < IdKey(o[j]);
    }
  }

  /** Each record names, by its id, the input sentence it holds. */
  predicate NamesSentences(o: seq<SentScore>, sentences: seq<string>) {
    forall i :: 0 <= i < |o| ==> 1 <= o[i].id <= |sentences| && o[i].sentence == sentences[o[i].id - 1]
  }

  lemma PickNamed(o: seq<SentScore>, sentences: seq<string>)
    requires NamesSentences(o, sentences)
    ensures forall i :: 0 <= i < |IdsOf(o)| ==> 1 <= IdsOf(o)[i] <= |sentences|
    ensures Pick(sentences, IdsOf(o)) == Sentences(o)
  {
  }

  lemma NamedHaveNoDot(o: seq<SentScore>, sentences: seq<string>)
    requires NamesSentences(o, sentences)
    requires forall i :: 0 <= i < |sentences| ==> IsSentence(sentences[i])
    ensures forall i :: 0 <= i < |o| ==> '.' !in o[i].sentence
  {
    forall i | 0 <= i < |o|
      ensures '.' !in o[i].sentence
    {
      SentenceHasNoDot(sentences[o[i].id - 1]);
    }
  }

  /** The summary of numbered sentences, read back: splitting the text
      before its final "." at ". " gives the chosen sentences. */
  lemma SummaryReadBack(data: seq<SentScore>, sentences: seq<string>, k: nat)
    requires Numbered(data, sentences)
    requires forall i :: 0 <= i < |sentences| ==> IsSentence(sentences[i])
    requires sentences != [] && k >= 1
    ensures forall i :: 0 <= i < |ChosenIds(data, k)| ==> 1 <= ChosenIds(data, k)[i] <= |sentences|
    ensures |SummaryOf(data, k)| >= 1
    ensures Split(SummaryOf(data, k)[..|SummaryOf(data, k)| - 1], ". ") == Pick(sentences, ChosenIds(data, k))
  {
    var o := Ordered(data, k);
    OrderedNumbered(data, sentences, k);
    assert NamesSentences(o, sentences);
    NamedHaveNoDot(o, sentences);
    PickNamed(o, sentences);
    OrderedIsSelectionById(data, k);
    RenderSplits(o);
  }

  /** Every chosen id names a sentence scoring at least as high as every
      sentence whose id is not chosen. */
  predicate TopScored(data: seq<SentScore>, picked: seq<nat>) {
    forall a, b :: 1 <= a <= |data| && 1 <= b <= |data| && a in picked && b !in picked ==>
      data[a - 1].score >= data[b - 1].score
  }

  /** In numbered records, the record with id `a` is `data[a - 1]`. */
  lemma NumberedById(data: seq<SentScore>, sentences: seq<string>, x: SentScore)
    requires Numbered(data, sentences) && x in data
    ensures 1 <= x.id <= |data| && data[x.id - 1] == x
  {
  }

  /** Two arrangements of the same records hold the same records. */
  lemma SameMembers(o: seq<SentScore>, sel: seq<SentScore>)
    requires multiset(o) == multiset(sel)
    ensures forall x :: x in o <==> x in sel
  {
    forall x ensures x in o <==> x in sel {
      assert x in o <==> x in multiset(o);
      assert x in sel <==> x in multiset(sel);
    }
  }

  /** The record a chosen id names was selected; the record an unchosen
      id names was not. */
  lemma ChosenSelected(data: seq<SentScore>, sentences: seq<string>, k: nat, a: nat)
    requires Numbered(data, sentences) && 1 <= a <= |data|
    ensures a in ChosenIds(data, k) <==> data[a - 1] in Selected(data, k)
  {
    var o := Ordered(data, k);
    OrderedIsSelectionById(data, k);
    SameMembers(o, Selected(data, k));
    if a in ChosenIds(data, k) {
      var i :| 0 <= i < |o| && IdsOf(o)[i] == a;
      OrderedFromInput(data, k, o[i]);
      NumberedById(data, sentences, o[i]);
    }
    if data[a - 1] in o {
      var i :| 0 <= i < |o| && o[i] == data[a - 1];
      assert IdsOf(o)[i] == a;
    }
  }

  /** A selected record scores at least as high as one left out. */
  lemma SelectedBeatsUnselected(data: seq<SentScore>, k: nat, x: SentScore, y: SentScore)
    requires x in Selected(data, k) && y in Unselected(data, k)
    ensures x.score >= y.score
  {
    var p :| 0 <= p < |Selected(data, k)| && Selected(data, k)[p] == x;
    var q :| 0 <= q < |Unselected(data, k)| && Unselected(data, k)[q] == y;
    SelectionOutranks(data, k);
  }

  /** A record of the input that was not selected was left out. */
  lemma NotSelectedIsUnselected(data: seq<SentScore>, k: nat, y: SentScore)
    requires y in data && y !in Selected(data, k)
    ensures y in Unselected(data, k)
  {
    SelectionPartitions(data, k);
    assert y in multiset(data);
  }

  /** The summary keeps the best-scored sentences: no sentence left out
      scores higher than one kept. */
  lemma ChosenOutscoreOthers(data: seq<SentScore>, sentences: seq<string>, k: nat)
    requires Numbered(data, sentences)
    ensures TopScored(data, ChosenIds(data, k))
  {
    var ids := ChosenIds(data, k);
    forall a, b | 1 <= a <= |data| && 1 <= b <= |data| && a in ids && b !in ids
      ensures data[a - 1].score >= data[b - 1].score
    {
      ChosenSelected(data, sentences, k, a);
      ChosenSelected(data, sentences, k, b);
      NotSelectedIsUnselected(data, k, data[b - 1]);
      SelectedBeatsUnselected(data, k, data[a - 1], data[b - 1]);
    }
  }

  /** What `summary` promises about numbered, cleaned sentences. */
  lemma SummaryOfSentences(data: seq<SentScore>, sentences: seq<string>, length: string)
      returns (picked: seq<nat>)
    requires Numbered(data, sentences)
    requires forall i :: 0 <= i < |sentences| ==> IsSentence(sentences[i])
    ensures sentences == [] && Summary(data, length).Some? ==> Summary(data, length).value == "."
    ensures sentences != [] && Summary(data, length).Some? ==>
              var text := Summary(data, length).value;
              |picked| == TopCount(PresetSize(length).value, |sentences|) &&
              (forall i :: 0 <= i < |picked| ==> 1 <= picked[i] <= |sentences|) &&
              (forall i, j :: 0 <= i < j < |picked| ==> picked[i] < picked[j]) &&
              |text| >= 1 &&
              Split(text[..|text| - 1], ". ") == Pick(sentences, picked)
    ensures sentences != [] && Summary(data, length).Some? ==>
              picked == ChosenIds(data, PresetSize(length).value) && TopScored(data, picked)
  {
    picked := [];
    if sentences == [] {
      if Summary(data, length).Some? {
        assert data == [];
        EmptySummary(length);
      }
    } else if Summary(data, length).Some? {
      var k := PresetSize(length).value;
      picked := ChosenIds(data, k);
      ChosenIdsInOrder(data, sentences, k);
      SummaryReadBack(data, sentences, k);
      ChosenOutscoreOthers(data, sentences, k);
    }
  }

  /** Two score lists over the (id, word) pairs of numbered tables without
      repeated words visit the same distinct pairs. */
  lemma SameDistinctKeys(tf: seq<TermScore>, idf: seq<TermScore>, freqList: seq<SentFreq>)
    requires NumberedFrom1(freqList)
    requires forall k :: 0 <= k < |freqList| ==> DistinctWords(freqList[k].freq)
    requires Keys(tf) == Pairs(freqList) && Keys(idf) == Pairs(freqList)
    ensures Keys(tf) == Keys(idf) && Distinct(Keys(idf))
  {
    PairsDistinct(freqList);
  }

  /** `calc_TF`, `calc_IDF` and `calc_TFIDF` in sequence (app.py lines
      346-348). With tables numbered 1..n and no word twice in a table, the
      keyed join finds every record's partner: the result has one record
      per (id, word), in visiting order, scored TF times IDF of that same
      (id, word). */
  method TermScores(textData: seq<WordCount>, freqList: seq<SentFreq>, ln: real -> real)
      returns (tfidf: seq<TermScore>)
    requires IdsWithin(freqList, |textData|) && NumberedFrom1(freqList)
    requires forall k :: 0 <= k < |freqList| ==> DistinctWords(freqList[k].freq)
    ensures Keys(tfidf) == Pairs(freqList)
    ensures Product(tfidf, TfSpec(textData, freqList), IdfSpec(SentenceTotal(textData), freqList, freqList, ln))
  {
    var tfScores := CalcTF(textData, freqList);
    var idfScores := CalcIDF(textData, freqList, ln);
    SameDistinctKeys(tfScores, idfScores, freqList);
    tfidf := CalcTFIDF(tfScores, idfScores);
    TfIdfIsProduct(tfScores, idfScores);
  }

  /** The TF-IDF records the chain computes for `sentences`: one per
      (id, word) of the `freq_dict` tables, in visiting order, each scored
      TF times IDF of that (id, word). */
  ghost predicate TfIdfOf(tfidf: seq<TermScore>, sentences: seq<string>,
                          tokenize: string -> seq<string>, ln: real -> real)
  {
    var textData := CntInSent(sentences, tokenize);
    var freqList := FreqList(sentences, tokenize);
    Keys(tfidf) == Pairs(freqList) &&
    Product(tfidf, TfSpec(textData, freqList), IdfSpec(SentenceTotal(textData), freqList, freqList, ln))
  }

  /** Record `k` scores the sum of the TF-IDF records of sentence `k + 1`. */
  predicate ScoredBy(data: seq<SentScore>, tfidf: seq<TermScore>) {
    forall k :: 0 <= k < |data| ==> data[k].score == ScoreOf(tfidf, k + 1)
  }

  /** `cnt_in_sent`, `freq_dict` and the term statistics (app.py lines
      344-348): the token counts, numbered 1..n, and the TF-IDF records of
      the sentences. */
  method SentenceTerms(sentences: seq<string>, tokenize: string -> seq<string>, ln: real -> real)
      returns (textData: seq<WordCount>, tfidf: seq<TermScore>)
    ensures textData == CntInSent(sentences, tokenize)
    ensures |textData| == |sentences| && forall k :: 0 <= k < |textData| ==> textData[k].id == k + 1
    ensures TfIdfOf(tfidf, sentences, tokenize, ln)
  {
    textData := CntInSent(sentences, tokenize);
    var freqList := FreqDict(sentences, tokenize);
    tfidf := TermScores(textData, freqList, ln);
  }

  /** `sent_scores` on the records `cnt_in_sent` numbers 1..n: record `k`
      holds sentence `k` and scores the TF-IDF records of id `k + 1`. */
  method NumberedScores(tfidf: seq<TermScore>, sentences: seq<string>, textData: seq<WordCount>)
      returns (sentData: seq<SentScore>)
    requires |textData| == |sentences| && forall k :: 0 <= k < |textData| ==> textData[k].id == k + 1
    ensures Numbered(sentData, sentences)
    ensures ScoredBy(sentData, tfidf)
  {
    sentData := SentScores(tfidf, sentences, textData);
    forall k | 0 <= k < |sentData|
      ensures sentData[k] == SentScore(k + 1, ScoreOf(tfidf, k + 1), sentences[k])
    {
      assert textData[k].id == k + 1;
    }
  }

  /** The scoring chain of app.py lines 344-349: `cnt_in_sent`,
      `freq_dict`, the term statistics and `sent_scores`. The result numbers
      the sentences 1..n in order, and each scores the sum of its TF-IDF
      records, the TF-IDF records being `tfidf`. */
  method ScoreSentences(sentences: seq<string>, tokenize: string -> seq<string>, ln: real -> real)
      returns (sentData: seq<SentScore>, ghost tfidf: seq<TermScore>)
    ensures Numbered(sentData, sentences)
    ensures ScoredBy(sentData, tfidf)
    ensures TfIdfOf(tfidf, sentences, tokenize, ln)
  {
    var textData, tfidfScores := SentenceTerms(sentences, tokenize, ln);
    sentData := NumberedScores(tfidfScores, sentences, textData);
    tfidf := tfidfScores;
  }

  /** The chain of app.py lines 343-351, from the article body to the
      summary text (`None` for the `KeyError` of an unknown length). The
      tokenizer and the logarithm are parameters. `sentData` and `tfidf`
      are the scored sentences and the TF-IDF records the chain computes,
      and the result is `summary` applied to `sentData`, ending in '.';
      `picked` names the sentences of `clean_text(body)` that the summary
      keeps: the chosen ids of the ranking, none outscored by a sentence
      left out. */
  method Summarize(body: string, length: string, tokenize: string -> seq<string>, ln: real -> real)
      returns (result: Option<string>, ghost picked: seq<nat>,
               sentData: seq<SentScore>, ghost tfidf: seq<TermScore>)
    ensures Numbered(sentData, Segment(body)) && ScoredBy(sentData, tfidf)
    ensures TfIdfOf(tfidf, Segment(body), tokenize, ln)
    ensures result == Summary(sentData, length)
    ensures result.None? <==> PresetSize(length).None?
    ensures result.Some? ==> result.value != [] && result.value[|result.value| - 1] == '.'
    ensures Segment(body) == [] && result.Some? ==> result.value == "."
    ensures Segment(body) != [] && result.Some? ==>
              picked == ChosenIds(sentData, PresetSize(length).value) &&
              TopScored(sentData, picked) &&
              |picked| == TopCount(PresetSize(length).value, |Segment(body)|) &&
              (forall i :: 0 <= i < |picked| ==> 1 <= picked[i] <= |Segment(body)|) &&
              (forall i, j :: 0 <= i < j < |picked| ==> picked[i] < picked[j]) &&
              |result.value| >= 1 &&
              Split(result.value[..|result.value| - 1], ". ") == Pick(Segment(body), picked)
  {
    var sentences := CleanText(body);
    sentData, tfidf := ScoreSentences(sentences, tokenize, ln);
    result := Summary(sentData, length);
    picked := SummaryOfSentences(sentData, sentences, length);
  }
}
