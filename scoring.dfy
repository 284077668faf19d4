/** `sent_scores` (app.py, app2.py): one record per sentence holding the
    sum of that sentence's TF-IDF scores and the sentence text. */
module Scoring {
  import opened Counting
  import opened TermStats
  import StableSort

  /** A record of `sent_scores`: `{"id", "score", "sentence"}`. */
  datatype SentScore = SentScore(id: nat, score: real, sentence: string)

  /** `sum(x["tfidf_score"] for x in tfidf if x["id"] == id)`. */
  function ScoreOf(tfidf: seq<TermScore>, id: nat): (s: real)
    ensures (forall i :: 0 <= i < |tfidf| ==> tfidf[i].id != id) ==> s == 0.0
    ensures (forall i :: 0 <= i < |tfidf| ==> tfidf[i].score >= 0.0) ==> s >= 0.0
  {
    if tfidf == [] then 0.0
    else
      var n := |tfidf| - 1;
      ScoreOf(tfidf[..n], id) + (if tfidf[n].id == id then tfidf[n].score else 0.0)
  }

  /** The sum splits over concatenation. */
  lemma {:induction false} ScoreOfAppend(a: seq<TermScore>, b: seq<TermScore>, id: nat)
    ensures ScoreOf(a + b, id) == ScoreOf(a, id) + ScoreOf(b, id)
    decreases |b|
  {
    if b == [] {
      assert a + b == a;
    } else {
      var n := |b| - 1;
      assert (a + b)[..|a + b| - 1] == a + b[..n];
      ScoreOfAppend(a, b[..n], id);
    }
  }

  function Contribution(t: TermScore, id: nat): real {
    if t.id == id then t.score else 0.0
  }

  /** Removing the record at position `j` removes its contribution. */
  lemma ScoreOfRemove(b: seq<TermScore>, j: nat, id: nat)
    requires j < |b|
    ensures ScoreOf(b, id) == ScoreOf(b[..j] + b[j + 1..], id) + Contribution(b[j], id)
    ensures multiset(b) == multiset(b[..j] + b[j + 1..]) + multiset{b[j]}
  {
    assert b == b[..j] + ([b[j]] + b[j + 1..]);
    ScoreOfAppend(b[..j], [b[j]] + b[j + 1..], id);
    ScoreOfAppend([b[j]], b[j + 1..], id);
    ScoreOfAppend(b[..j], b[j + 1..], id);
    assert [b[j]][..0] == [];
  }

  /** A sentence's score does not depend on the order of the TF-IDF records. */
  lemma {:induction false} ScoreOfPermutation(a: seq<TermScore>, b: seq<TermScore>, id: nat)
    requires multiset(a) == multiset(b)
    ensures ScoreOf(a, id) == ScoreOf(b, id)
    decreases |a|
  {
    if a == [] {
      assert |b| == |multiset(b)| == 0;
    } else {
      var n := |a| - 1;
      var x := a[n];
      assert x in multiset(b) by {
        assert a == a[..n] + [x];
        assert x in multiset(a);
      }
      var j :| 0 <= j < |b| && b[j] == x;
      var rest := b[..j] + b[j + 1..];
      ScoreOfRemove(b, j, id);
      ScoreOfRemove(a, n, id);
      assert a[..n] + a[n + 1..] == a[..n];
      StableSort.MultisetCancel(multiset(a[..n]), multiset(rest), x);
      ScoreOfPermutation(a[..n], rest, id);
    }
  }

  /** Records of other sentences do not contribute. */
  lemma {:induction false} ScoreOfOthers(tfidf: seq<TermScore>, id: nat)
    requires forall k :: 0 <= k < |tfidf| ==> tfidf[k].id != id
    ensures ScoreOf(tfidf, id) == 0.0
  {
    if tfidf != [] {
      ScoreOfOthers(tfidf[..|tfidf| - 1], id);
    }
  }

  predicate IdsIndexSentences(textData: seq<WordCount>, sentences: seq<string>) {
    forall k :: 0 <= k < |textData| ==> 1 <= textData[k].id <= |sentences|
  }

  /** `sent_scores`: for each record of `text_data`, in order, its id, the
      sum of the TF-IDF scores with that id and `sentences[id - 1]`. */
  method SentScores(tfidf: seq<TermScore>, sentences: seq<string>, textData: seq<WordCount>)
    returns (data: seq<SentScore>)
    requires IdsIndexSentences(textData, sentences)
    ensures |data| == |textData|
    ensures forall k :: 0 <= k < |data| ==>
              data[k] == SentScore(textData[k].id, ScoreOf(tfidf, textData[k].id), sentences[textData[k].id - 1])
  {
    data := [];
    for i := 0 to |textData|
      invariant |data| == i
      invariant forall k :: 0 <= k < i ==>
                  data[k] == SentScore(textData[k].id, ScoreOf(tfidf, textData[k].id), sentences[textData[k].id - 1])
    {
      var id := textData[i].id;
      var score := ScoreOf(tfidf, id);
      data := data + [SentScore(id, score, sentences[id - 1])];
    }
  }
}
