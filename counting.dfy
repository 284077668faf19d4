/** `cnt_words`/`cnt_in_sent` and `freq_dict` (app.py, app2.py): the
    per-sentence token counts and the per-sentence word-frequency tables,
    both keyed by sentence id (position from 1). The tokenizer, NLTK's
    `word_tokenize`, is a parameter: nothing is assumed about how it
    splits. */
module Counting {
  import opened Strings

  /** One record of `cnt_in_sent`: `{"id": id, "word_cnt": wordCnt}`. */
  datatype WordCount = WordCount(id: nat, wordCnt: nat)

  /** `cnt_in_sent`: one record per sentence, ids 1..n in order, each
      holding the number of tokens of its sentence. */
  function CntInSent(sentences: seq<string>, tokenize: string -> seq<string>): (r: seq<WordCount>)
    ensures |r| == |sentences|
    ensures forall i :: 0 <= i < |r| ==> r[i].id == i + 1 && r[i].wordCnt == |tokenize(sentences[i])|
  {
    if sentences == [] then []
    else
      var n := |sentences| - 1;
      CntInSent(sentences[..n], tokenize) + [WordCount(n + 1, |tokenize(sentences[n])|)]
  }

  /** One key of a frequency dict and its count. */
  datatype Entry = Entry(word: string, count: nat)

  /** A Python dict from word to count; its order is insertion order. */
  type Counts = seq<Entry>

  /** One record of `freq_dict`: `{"id": id, "freq_dict": freq}`. */
  datatype SentFreq = SentFreq(id: nat, freq: Counts)

  predicate DistinctWords(f: Counts) {
    forall i, j :: 0 <= i < j < |f| ==> f[i].word != f[j].word
  }

  /** Position of key `w` in `f`, or |f| when `w` is not a key. */
  function IndexOf(f: Counts, w: string): (i: nat)
    ensures i <= |f|
    ensures i < |f| ==> f[i].word == w
    ensures forall j :: 0 <= j < i ==> f[j].word != w
  {
    if f == [] then 0
    else if f[0].word == w then 0
    else 1 + IndexOf(f[1..], w)
  }

  /** `w in freq`. */
  predicate HasWord(f: Counts, w: string) {
    IndexOf(f, w) < |f|
  }

  /** `freq[w] = freq.get(w, 0) + 1`: an existing key keeps its place and
      gains one; a new key is appended with count 1. */
  function Bump(f: Counts, w: string): Counts {
    var i := IndexOf(f, w);
    if i < |f| then f[i := Entry(w, f[i].count + 1)] else f + [Entry(w, 1)]
  }

  /** The dict the inner loop of `freq_dict` builds from a token list. */
  function Tally(ts: seq<string>): Counts {
    if ts == [] then [] else Bump(Tally(ts[..|ts| - 1]), ts[|ts| - 1])
  }

  /** Number of occurrences of `w` in `ts`. */
  function Occ(ts: seq<string>, w: string): nat {
    if ts == [] then 0 else Occ(ts[..|ts| - 1], w) + (if ts[|ts| - 1] == w then 1 else 0)
  }

  /** Position of the first occurrence of `w` in `ts` (|ts| if none). */
  function FirstPos(ts: seq<string>, w: string): (p: nat)
    ensures p <= |ts|
    ensures p < |ts| <==> w in ts
    ensures p < |ts| ==> ts[p] == w
  {
    if ts == [] then 0 else if ts[0] == w then 0 else 1 + FirstPos(ts[1..], w)
  }

  lemma {:induction false} FirstPosExtend(ts: seq<string>, x: string, w: string)
    requires w in ts
    ensures FirstPos(ts + [x], w) == FirstPos(ts, w)
  {
    if ts[0] != w {
      assert (ts + [x])[1..] == ts[1..] + [x];
      FirstPosExtend(ts[1..], x, w);
    }
  }

  lemma FirstPosNew(ts: seq<string>, x: string)
    requires x !in ts
    ensures FirstPos(ts + [x], x) == |ts|
  {
    assert (ts + [x])[|ts|] == x;
  }

  /** Sum of the counts: `sum(freq.values())`. */
  function Total(f: Counts): nat {
    if f == [] then 0 else Total(f[..|f| - 1]) + f[|f| - 1].count
  }

  lemma {:induction false} TotalBump(f: Counts, i: nat, e: Entry)
    requires i < |f| && e.count == f[i].count + 1
    ensures Total(f[i := e]) == Total(f) + 1
  {
    var n := |f| - 1;
    if i < n {
      assert f[i := e][..n] == f[..n][i := e];
      TotalBump(f[..n], i, e);
    } else {
      assert f[i := e][..n] == f[..n];
    }
  }

  /** What `freq_dict` promises of each table: one key per distinct token,
      in order of first occurrence; each count is the number of
      occurrences of its key, hence at least 1; the counts add up to the
      number of tokens. */
  lemma TallySpec(ts: seq<string>)
    ensures DistinctWords(Tally(ts))
    ensures forall w :: HasWord(Tally(ts), w) <==> w in ts
    ensures forall i :: 0 <= i < |Tally(ts)| ==>
              Tally(ts)[i].count == Occ(ts, Tally(ts)[i].word) && Tally(ts)[i].count >= 1
    ensures forall i, j :: 0 <= i < j < |Tally(ts)| ==>
              FirstPos(ts, Tally(ts)[i].word) < FirstPos(ts, Tally(ts)[j].word)
    ensures Total(Tally(ts)) == |ts|
  {
    TallyKeys(ts);
    TallyCounts(ts);
    TallyOrder(ts);
    TallyTotal(ts);
  }

  lemma {:induction false} TallyKeys(ts: seq<string>)
    ensures DistinctWords(Tally(ts))
    ensures forall w :: HasWord(Tally(ts), w) <==> w in ts
  {
    if ts != [] {
      var n := |ts| - 1;
      var pre, x := ts[..n], ts[n];
      assert ts == pre + [x];
      TallyKeys(pre);
      var f := Tally(pre);
      var g := Tally(ts);
      var at := IndexOf(f, x);
      forall w ensures HasWord(g, w) <==> w in ts {
        if at < |f| {
          IndexOfUpdate(f, at, Entry(x, f[at].count + 1), w);
        } else {
          IndexOfAppend(f, Entry(x, 1), w);
        }
      }
      if at == |f| {
        forall i, j | 0 <= i < j < |g| ensures g[i].word != g[j].word {
          if j == |f| {
            assert g[i] == f[i];
            IndexOfFound(f, i);
          }
        }
      }
    }
  }

  lemma {:induction false} TallyCounts(ts: seq<string>)
    ensures forall i :: 0 <= i < |Tally(ts)| ==>
              Tally(ts)[i].count == Occ(ts, Tally(ts)[i].word) && Tally(ts)[i].count >= 1
  {
    if ts != [] {
      var n := |ts| - 1;
      var pre, x := ts[..n], ts[n];
      TallyCounts(pre);
      TallyKeys(pre);
      var f := Tally(pre);
      var g := Tally(ts);
      var at := IndexOf(f, x);
      forall i | 0 <= i < |g|
        ensures g[i].count == Occ(ts, g[i].word) && g[i].count >= 1
      {
        assert Occ(ts, g[i].word) == Occ(pre, g[i].word) + (if x == g[i].word then 1 else 0);
        if at == |f| && i == |f| {
          OccAbsent(pre, x);
        }
      }
    }
  }

  lemma {:induction false} TallyOrder(ts: seq<string>)
    ensures forall i, j :: 0 <= i < j < |Tally(ts)| ==>
              FirstPos(ts, Tally(ts)[i].word) < FirstPos(ts, Tally(ts)[j].word)
  {
    if ts != [] {
      var n := |ts| - 1;
      var pre, x := ts[..n], ts[n];
      assert ts == pre + [x];
      TallyOrder(pre);
      TallyKeys(pre);
      var f := Tally(pre);
      var g := Tally(ts);
      var at := IndexOf(f, x);
      forall i | 0 <= i < |f| ensures f[i].word in pre && FirstPos(ts, f[i].word) == FirstPos(pre, f[i].word) {
        IndexOfFound(f, i);
        FirstPosExtend(pre, x, f[i].word);
      }
      if at == |f| {
        FirstPosNew(pre, x);
        assert x !in pre;
        forall i, j | 0 <= i < j < |g| ensures FirstPos(ts, g[i].word) < FirstPos(ts, g[j].word) {
          assert g[i] == f[i];
          if j < |f| {
            assert g[j] == f[j];
          }
        }
      } else {
        forall i | 0 <= i < |g| ensures g[i].word == f[i].word {
        }
      }
    }
  }

  lemma {:induction false} TallyTotal(ts: seq<string>)
    ensures Total(Tally(ts)) == |ts|
  {
    if ts != [] {
      var n := |ts| - 1;
      TallyTotal(ts[..n]);
      BumpTotal(Tally(ts[..n]), ts[n]);
    }
  }

  /** Counting one more token adds one to the total. */
  lemma BumpTotal(f: Counts, w: string)
    ensures Total(Bump(f, w)) == Total(f) + 1
  {
    var at := IndexOf(f, w);
    if at < |f| {
      TotalBump(f, at, Entry(w, f[at].count + 1));
    } else {
      assert (f + [Entry(w, 1)])[..|f|] == f;
    }
  }

  lemma IndexOfFound(f: Counts, i: nat)
    requires i < |f|
    ensures IndexOf(f, f[i].word) <= i
  {
  }

  lemma {:induction false} IndexOfUpdate(f: Counts, at: nat, e: Entry, w: string)
    requires at < |f| && e.word == f[at].word
    ensures IndexOf(f[at := e], w) == IndexOf(f, w)
  {
    if f[0].word != w && at > 0 {
      assert f[at := e][1..] == f[1..][at - 1 := e];
      IndexOfUpdate(f[1..], at - 1, e, w);
    }
  }

  lemma {:induction false} IndexOfAppend(f: Counts, e: Entry, w: string)
    ensures IndexOf(f + [e], w) == if IndexOf(f, w) < |f| then IndexOf(f, w) else if e.word == w then |f| else |f| + 1
  {
    if f != [] && f[0].word != w {
      assert (f + [e])[1..] == f[1..] + [e];
      IndexOfAppend(f[1..], e, w);
    }
  }

  lemma {:induction false} OccAbsent(ts: seq<string>, w: string)
    requires w !in ts
    ensures Occ(ts, w) == 0
  {
    if ts != [] {
      OccAbsent(ts[..|ts| - 1], w);
    }
  }

  /** The table `freq_dict` builds for one sentence: the tally of the
      tokens of its lower-cased text. */
  function FreqOf(sentence: string, tokenize: string -> seq<string>): Counts {
    Tally(tokenize(Lower(sentence)))
  }

  /** The list `freq_dict` returns: sentence `i`'s table under id `i + 1`. */
  function FreqList(sentences: seq<string>, tokenize: string -> seq<string>): (r: seq<SentFreq>)
    ensures |r| == |sentences|
    ensures forall i :: 0 <= i < |r| ==> r[i].id == i + 1 && r[i].freq == FreqOf(sentences[i], tokenize)
  {
    seq(|sentences|, i requires 0 <= i < |sentences| => SentFreq(i + 1, FreqOf(sentences[i], tokenize)))
  }

  /** The inner loop of `freq_dict`: `freq[word] = freq.get(word, 0) + 1`
      for each token in turn. The table has distinct keys and its counts
      add up to the number of tokens. */
  method CountTokens(tokens: seq<string>) returns (freq: Counts)
    ensures freq == Tally(tokens)
    ensures DistinctWords(freq) && Total(freq) == |tokens|
  {
    freq := [];
    for t := 0 to |tokens|
      invariant freq == Tally(tokens[..t])
    {
      assert tokens[..t + 1][..t] == tokens[..t];
      var word := tokens[t];
      var at := IndexOf(freq, word);
      if at < |freq| {
        freq := freq[at := Entry(word, freq[at].count + 1)];
      } else {
        freq := freq + [Entry(word, 1)];
      }
    }
    assert tokens[..|tokens|] == tokens;
    TallyKeys(tokens);
    TallyTotal(tokens);
  }

  /** `freq_dict`: for each sentence, in order, the frequency table of the
      tokens of its lower-cased text, under id = position + 1. Each table
      has distinct keys and its counts add up to the number of tokens. */
  method FreqDict(sentences: seq<string>, tokenize: string -> seq<string>) returns (data: seq<SentFreq>)
    ensures data == FreqList(sentences, tokenize)
    ensures |data| == |sentences|
    ensures forall i :: 0 <= i < |data| ==> data[i].id == i + 1 && data[i].freq == FreqOf(sentences[i], tokenize)
    ensures forall i :: 0 <= i < |data| ==> DistinctWords(data[i].freq)
    ensures forall i :: 0 <= i < |data| ==> Total(data[i].freq) == |tokenize(Lower(sentences[i]))|
  {
    data := [];
    for i := 0 to |sentences|
      invariant |data| == i
      invariant forall k :: 0 <= k < i ==> data[k] == SentFreq(k + 1, FreqOf(sentences[k], tokenize))
      invariant forall k :: 0 <= k < i ==> DistinctWords(data[k].freq)
      invariant forall k :: 0 <= k < i ==> Total(data[k].freq) == |tokenize(Lower(sentences[k]))|
    {
      var freq := CountTokens(tokenize(Lower(sentences[i])));
      data := data + [SentFreq(i + 1, freq)];
    }
  }
}
