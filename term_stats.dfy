/** `calc_TF`, `calc_IDF` and `calc_TFIDF` (app.py, app2.py). Each emits
    one record per (sentence id, distinct word) of the frequency tables, in
    table order. Scores are reals; the natural logarithm, `math.log`, is a
    parameter. */
module TermStats {
  import opened Counting

  /** A record of `calc_TF`, `calc_IDF` or `calc_TFIDF`:
      `{"id": id, "key": key, "<kind>_score": score}`. */
  datatype TermScore = TermScore(id: nat, key: string, score: real)

  /** The composite join key `(id, key)`. */
  function KeyOf(t: TermScore): (nat, string) {
    (t.id, t.key)
  }

  function Keys(ts: seq<TermScore>): (r: seq<(nat, string)>)
    ensures |r| == |ts| && forall k :: 0 <= k < |ts| ==> r[k] == KeyOf(ts[k])
  {
    seq(|ts|, k requires 0 <= k < |ts| => KeyOf(ts[k]))
  }

  lemma KeysAppend(a: seq<TermScore>, b: seq<TermScore>)
    ensures Keys(a + b) == Keys(a) + Keys(b)
  {
  }

  /** The (id, word) pairs of one table, in dict order. */
  function ItemPairs(item: SentFreq): (r: seq<(nat, string)>)
    ensures |r| == |item.freq|
    ensures forall m :: 0 <= m < |r| ==> r[m] == (item.id, item.freq[m].word)
  {
    seq(|item.freq|, m requires 0 <= m < |item.freq| => (item.id, item.freq[m].word))
  }

  /** The (id, word) pairs the loops `for item in freq_list: for word in
      item["freq_dict"]` visit, in visiting order. */
  function Pairs(items: seq<SentFreq>): seq<(nat, string)> {
    if items == [] then [] else Pairs(items[..|items| - 1]) + ItemPairs(items[|items| - 1])
  }

  predicate Distinct<T(==)>(s: seq<T>) {
    forall i, j :: 0 <= i < j < |s| ==> s[i] != s[j]
  }

  /** Tables numbered 1..n in order, as `freq_dict` numbers them. */
  predicate NumberedFrom1(items: seq<SentFreq>) {
    forall k :: 0 <= k < |items| ==> items[k].id == k + 1
  }

  lemma {:induction false} PairIdsInRange(items: seq<SentFreq>)
    requires NumberedFrom1(items)
    ensures forall i :: 0 <= i < |Pairs(items)| ==> 1 <= Pairs(items)[i].0 <= |items|
  {
    if items != [] {
      var n := |items| - 1;
      PairIdsInRange(items[..n]);
    }
  }

  /** With tables numbered 1..n and no repeated word within a table, no
      (id, word) pair is visited twice. */
  lemma {:induction false} PairsDistinct(items: seq<SentFreq>)
    requires NumberedFrom1(items)
    requires forall k :: 0 <= k < |items| ==> DistinctWords(items[k].freq)
    ensures Distinct(Pairs(items))
  {
    if items != [] {
      var n := |items| - 1;
      var pre := items[..n];
      PairsDistinct(pre);
      PairIdsInRange(pre);
      var p: seq<(nat, string)> := Pairs(pre);
      var q: seq<(nat, string)> := ItemPairs(items[n]);
      var pq: seq<(nat, string)> := p + q;
      assert Pairs(items) == pq;
      forall i, j | 0 <= i < j < |pq| ensures pq[i] != pq[j] {
        if i < |p| && j >= |p| {
          assert pq[i].0 <= n;
          assert pq[j].0 == n + 1;
        } else if i >= |p| {
          assert pq[i].1 == items[n].freq[i - |p|].word;
          assert pq[j].1 == items[n].freq[j - |p|].word;
        }
      }
    }
  }

  // ------------------------------------------------------------------ TF

  predicate IdsWithin(items: seq<SentFreq>, n: nat) {
    forall k :: 0 <= k < |items| ==> 1 <= items[k].id <= n
  }

  /** `text_data[id - 1]["word_cnt"] or 1`: the token count of the
      sentence, or 1 when it is 0. */
  function Denom(textData: seq<WordCount>, id: nat): (d: nat)
    requires 1 <= id <= |textData|
    ensures d >= 1
    ensures textData[id - 1].wordCnt > 0 ==> d == textData[id - 1].wordCnt
    ensures textData[id - 1].wordCnt == 0 ==> d == 1
  {
    if textData[id - 1].wordCnt == 0 then 1 else textData[id - 1].wordCnt
  }

  /** The TF records of one table: count / denominator, in dict order. */
  function TfOfItem(textData: seq<WordCount>, item: SentFreq): (r: seq<TermScore>)
    requires 1 <= item.id <= |textData|
    ensures Keys(r) == ItemPairs(item)
  {
    seq(|item.freq|, m requires 0 <= m < |item.freq| =>
      TermScore(item.id, item.freq[m].word, item.freq[m].count as real / Denom(textData, item.id) as real))
  }

  /** The list `calc_TF` returns: the tables' TF records, one after the other. */
  function TfSpec(textData: seq<WordCount>, items: seq<SentFreq>): (r: seq<TermScore>)
    requires IdsWithin(items, |textData|)
    ensures Keys(r) == Pairs(items)
  {
    if items == [] then []
    else
      var n := |items| - 1;
      KeysAppend(TfSpec(textData, items[..n]), TfOfItem(textData, items[n]));
      TfSpec(textData, items[..n]) + TfOfItem(textData, items[n])
  }

  /** `calc_TF`: one record per (id, distinct word), visiting tables and
      their words in order. Ids index `text_data`: in the source an id
      above n is an IndexError and id 0 reads the last record, through
      Python's negative indexing. `freq_dict` produces neither. */
  method CalcTF(textData: seq<WordCount>, freqList: seq<SentFreq>) returns (tf: seq<TermScore>)
    requires IdsWithin(freqList, |textData|)
    ensures tf == TfSpec(textData, freqList)
    ensures Keys(tf) == Pairs(freqList)
  {
    tf := [];
    for i := 0 to |freqList|
      invariant tf == TfSpec(textData, freqList[..i])
    {
      assert freqList[..i + 1][..i] == freqList[..i];
      var item := freqList[i];
      var block := TfOfItem(textData, item);
      for m := 0 to |item.freq|
        invariant tf == TfSpec(textData, freqList[..i]) + block[..m]
      {
        var word := item.freq[m].word;
        var denom := if textData[item.id - 1].wordCnt == 0 then 1 else textData[item.id - 1].wordCnt;
        tf := tf + [TermScore(item.id, word, item.freq[m].count as real / denom as real)];
        assert block[..m + 1] == block[..m] + [block[m]];
      }
      assert block[..|item.freq|] == block;
    }
    assert freqList[..|freqList|] == freqList;
  }

  // ----------------------------------------------------------------- IDF

  /** `df`: the number of tables that have `w` as a key. */
  function DocFreq(items: seq<SentFreq>, w: string): (df: nat)
    ensures df <= |items|
    ensures (exists k :: 0 <= k < |items| && HasWord(items[k].freq, w)) ==> df >= 1
  {
    if items == [] then 0
    else
      var n := |items| - 1;
      var d := DocFreq(items[..n], w) + (if HasWord(items[n].freq, w) then 1 else 0);
      assert (exists k :: 0 <= k < n && HasWord(items[..n][k].freq, w)) || HasWord(items[n].freq, w) ||
             !(exists k :: 0 <= k < |items| && HasWord(items[k].freq, w));
      d
  }

  /** `N = len(text_data) or 1`. */
  function SentenceTotal(textData: seq<WordCount>): (n: nat)
    ensures n >= 1
    ensures |textData| > 0 ==> n == |textData|
    ensures |textData| == 0 ==> n == 1
  {
    if |textData| == 0 then 1 else |textData|
  }

  /** The IDF records of one table: ln(N / (df + 1)), df taken over all tables. */
  function IdfOfItem(n: nat, all: seq<SentFreq>, item: SentFreq, ln: real -> real): (r: seq<TermScore>)
    ensures Keys(r) == ItemPairs(item)
  {
    seq(|item.freq|, m requires 0 <= m < |item.freq| =>
      TermScore(item.id, item.freq[m].word, ln(n as real / (DocFreq(all, item.freq[m].word) + 1) as real)))
  }

  /** The list `calc_IDF` returns once its loop has visited `items`. */
  function IdfSpec(n: nat, all: seq<SentFreq>, items: seq<SentFreq>, ln: real -> real): (r: seq<TermScore>)
    ensures Keys(r) == Pairs(items)
  {
    if items == [] then []
    else
      var k := |items| - 1;
      KeysAppend(IdfSpec(n, all, items[..k], ln), IdfOfItem(n, all, items[k], ln));
      IdfSpec(n, all, items[..k], ln) + IdfOfItem(n, all, items[k], ln)
  }

  /** For every word a table holds, its document frequency is between 1
      and the number of tables, so `df + 1 >= 2` and the argument of the
      logarithm is positive. */
  lemma DocFreqBounds(items: seq<SentFreq>, k: nat, m: nat, n: nat)
    requires k < |items| && m < |items[k].freq| && n >= 1
    ensures 1 <= DocFreq(items, items[k].freq[m].word) <= |items|
    ensures DocFreq(items, items[k].freq[m].word) + 1 >= 2
    ensures n as real / (DocFreq(items, items[k].freq[m].word) + 1) as real > 0.0
  {
    IndexOfFound(items[k].freq, m);
    assert HasWord(items[k].freq, items[k].freq[m].word);
  }

  /** `calc_IDF`: one record per (id, distinct word), visiting tables and
      their words in order; `df` counts the tables holding the word. */
  method CalcIDF(textData: seq<WordCount>, freqList: seq<SentFreq>, ln: real -> real) returns (idf: seq<TermScore>)
    ensures idf == IdfSpec(SentenceTotal(textData), freqList, freqList, ln)
    ensures Keys(idf) == Pairs(freqList)
  {
    idf := [];
    var n := if |textData| == 0 then 1 else |textData|;
    for i := 0 to |freqList|
      invariant idf == IdfSpec(n, freqList, freqList[..i], ln)
    {
      assert freqList[..i + 1][..i] == freqList[..i];
      var item := freqList[i];
      var block := IdfOfItem(n, freqList, item, ln);
      for m := 0 to |item.freq|
        invariant idf == IdfSpec(n, freqList, freqList[..i], ln) + block[..m]
      {
        var word := item.freq[m].word;
        var df := DocFreq(freqList, word);
        idf := idf + [TermScore(item.id, word, ln(n as real / (df + 1) as real))];
        assert block[..m + 1] == block[..m] + [block[m]];
      }
      assert block[..|item.freq|] == block;
    }
    assert freqList[..|freqList|] == freqList;
  }

  // -------------------------------------------------------------- TF-IDF

  /** `idf_lookup = {(i["id"], i["key"]): i["idf_score"] for i in idf}`:
      a later record overwrites an earlier one with the same key. */
  function IdfLookup(idf: seq<TermScore>): (l: map<(nat, string), real>)
    ensures forall key :: key in l <==> key in Keys(idf)
  {
    if idf == [] then map[]
    else
      var n := |idf| - 1;
      assert Keys(idf) == Keys(idf[..n]) + [KeyOf(idf[n])];
      IdfLookup(idf[..n])[KeyOf(idf[n]) := idf[n].score]
  }

  /** With distinct keys, the lookup returns each record's own score. */
  lemma {:induction false} IdfLookupDistinct(idf: seq<TermScore>)
    requires Distinct(Keys(idf))
    ensures forall k :: 0 <= k < |idf| ==> IdfLookup(idf)[KeyOf(idf[k])] == idf[k].score
  {
    if idf != [] {
      var n := |idf| - 1;
      assert Distinct(Keys(idf[..n])) by {
        assert forall k :: 0 <= k < n ==> Keys(idf[..n])[k] == Keys(idf)[k];
      }
      IdfLookupDistinct(idf[..n]);
      forall k | 0 <= k < n ensures KeyOf(idf[k]) != KeyOf(idf[n]) {
        assert Keys(idf)[k] == KeyOf(idf[k]);
        assert Keys(idf)[n] == KeyOf(idf[n]);
      }
    }
  }

  /** `idf_lookup.get(key, 0)`. */
  function IdfOrZero(l: map<(nat, string), real>, key: (nat, string)): real {
    if key in l then l[key] else 0.0
  }

  /** The records `calc_TFIDF` builds: one per TF record, with the same
      (id, key), scored the TF score times the looked-up IDF, 0 when the key
      is absent. */
  function TfIdfSpec(tf: seq<TermScore>, lookup: map<(nat, string), real>): (r: seq<TermScore>)
    ensures |r| == |tf| && Keys(r) == Keys(tf)
    ensures forall k :: 0 <= k < |tf| && KeyOf(tf[k]) !in lookup ==> r[k].score == 0.0
  {
    seq(|tf|, k requires 0 <= k < |tf| =>
      TermScore(tf[k].id, tf[k].key, tf[k].score * IdfOrZero(lookup, KeyOf(tf[k]))))
  }

  /** `calc_TFIDF`. */
  method CalcTFIDF(tf: seq<TermScore>, idf: seq<TermScore>) returns (result: seq<TermScore>)
    ensures result == TfIdfSpec(tf, IdfLookup(idf))
  {
    var lookup := IdfLookup(idf);
    result := [];
    for i := 0 to |tf|
      invariant result == TfIdfSpec(tf, lookup)[..i]
    {
      assert TfIdfSpec(tf, lookup)[..i + 1] == TfIdfSpec(tf, lookup)[..i] + [TfIdfSpec(tf, lookup)[i]];
      var key := (tf[i].id, tf[i].key);
      var idfVal := if key in lookup then lookup[key] else 0.0;
      assert idfVal == IdfOrZero(lookup, KeyOf(tf[i]));
      assert TfIdfSpec(tf, lookup)[i] == TermScore(tf[i].id, tf[i].key, tf[i].score * idfVal);
      result := result + [TermScore(tf[i].id, tf[i].key, tf[i].score * idfVal)];
    }
    assert TfIdfSpec(tf, lookup)[..|tf|] == TfIdfSpec(tf, lookup);
  }

  /** When TF and IDF were computed over the same tables with distinct
      (id, word) pairs, every TF record finds its IDF partner, at the same
      position: the product is TF times IDF of the same (id, word). */
  lemma JoinIsPositional(tf: seq<TermScore>, idf: seq<TermScore>)
    requires Keys(tf) == Keys(idf) && Distinct(Keys(idf))
    ensures forall k :: 0 <= k < |tf| ==>
              KeyOf(tf[k]) in IdfLookup(idf) && IdfOrZero(IdfLookup(idf), KeyOf(tf[k])) == idf[k].score
  {
    IdfLookupDistinct(idf);
    forall k | 0 <= k < |tf| ensures KeyOf(tf[k]) == KeyOf(idf[k]) {
      assert Keys(tf)[k] == Keys(idf)[k];
    }
  }

  /** Position by position, each score of `result` is the score of `tf`
      times the score of `idf`. */
  predicate Product(result: seq<TermScore>, tf: seq<TermScore>, idf: seq<TermScore>) {
    |result| == |tf| == |idf| &&
    forall k :: 0 <= k < |result| ==> result[k].score == tf[k].score * idf[k].score
  }

  /** Over the same distinct (id, word) sequence, `calc_TFIDF` multiplies
      each TF score by the IDF score at the same position. */
  lemma TfIdfIsProduct(tf: seq<TermScore>, idf: seq<TermScore>)
    requires Keys(tf) == Keys(idf) && Distinct(Keys(idf))
    ensures Product(TfIdfSpec(tf, IdfLookup(idf)), tf, idf)
  {
    var lookup := IdfLookup(idf);
    assert forall k :: 0 <= k < |tf| ==> IdfOrZero(lookup, KeyOf(tf[k])) == idf[k].score by {
      JoinIsPositional(tf, idf);
    }
    assert |idf| == |tf| by {
      assert |Keys(tf)| == |Keys(idf)|;
    }
    ScaleByFactors(tf, idf, lookup);
  }

  /** Multiplying by equal factors gives equal products. */
  lemma ScaleByFactors(tf: seq<TermScore>, idf: seq<TermScore>, lookup: map<(nat, string), real>)
    requires |tf| == |idf|
    requires forall k :: 0 <= k < |tf| ==> IdfOrZero(lookup, KeyOf(tf[k])) == idf[k].score
    ensures Product(TfIdfSpec(tf, lookup), tf, idf)
  {
  }
}
