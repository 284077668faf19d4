/** `summary` (app.py, app2.py): rank the scored sentences by score,
    highest first, keep the top K, put them back in source order and join
    them into the summary text. The two versions differ only in how the
    requested length becomes K. */
module Summarizer {
  import opened Wrappers
  import opened Strings
  import opened StableSort
  import opened Scoring

  /** Sort key of `sorted(..., key=score, reverse=True)`. A reversed stable
      sort is the ascending stable sort on the negated key. */
  function NegScore(s: SentScore): real { -s.score }

  /** Sort key of `sorted(selected, key=id)`. */
  function IdKey(s: SentScore): real { s.id as real }

  /** app.py: the `sizes` table. Any other length is a missing key
      (`KeyError`), modelled as `None`. */
  function PresetSize(length: string): (r: Option<nat>)
    ensures r.Some? <==> length == "Low" || length == "Medium" || length == "High"
    ensures length == "Low" ==> r == Some(3)
    ensures length == "Medium" ==> r == Some(5)
    ensures length == "High" ==> r == Some(7)
  {
    var sizes := map["Low" := 3, "Medium" := 5, "High" := 7];
    if length in sizes then Some(sizes[length]) else None
  }

  /** app2.py: the `if`/`elif` chain. Every length not named there takes
      the last branch. */
  function BranchSize(length: string): (k: nat)
    ensures k == 3 || k == 5 || k == 7
    ensures k == 3 <==> length == "Low"
    ensures k == 5 <==> length == "Medium"
  {
    if length == "Low" then 3
    else if length == "Medium" then 5
    else 7
  }

  /** The two size rules agree where app.py has an answer, and app2.py
      treats every other length as "High". */
  lemma BranchSizeAgrees(length: string)
    ensures PresetSize(length).Some? ==> BranchSize(length) == PresetSize(length).value
    ensures PresetSize(length).None? ==> BranchSize(length) == PresetSize("High").value
  {
  }

  /** Python's `xs[:k]` keeps `min(k, len(xs))` items. */
  function TopCount(k: nat, n: nat): nat {
    if k <= n then k else n
  }

  /** `sorted(sent_data, key=score, reverse=True)`. */
  function Ranked(data: seq<SentScore>): (r: seq<SentScore>)
    ensures |r| == |data| && multiset(r) == multiset(data)
    ensures forall i, j :: 0 <= i < j < |r| ==> r[i].score >= r[j].score
  {
    SortBy(data, NegScore)
  }

  /** `sent_data[:k]` after ranking. */
  function Selected(data: seq<SentScore>, k: nat): seq<SentScore> {
    Ranked(data)[..TopCount(k, |data|)]
  }

  /** What the slice leaves out. */
  function Unselected(data: seq<SentScore>, k: nat): seq<SentScore> {
    Ranked(data)[TopCount(k, |data|)..]
  }

  /** `sorted(selected, key=id)`. */
  function Ordered(data: seq<SentScore>, k: nat): seq<SentScore> {
    SortBy(Selected(data, k), IdKey)
  }

  function Sentences(s: seq<SentScore>): (r: seq<string>)
    ensures |r| == |s|
    ensures forall i :: 0 <= i < |s| ==> r[i] == s[i].sentence
  {
    seq(|s|, i requires 0 <= i < |s| => s[i].sentence)
  }

  /** `". ".join(sentences) + "."`. */
  function Render(s: seq<SentScore>): (r: string)
    ensures r != [] && r[|r| - 1] == '.'
  {
    Join(". ", Sentences(s)) + "."
  }

  /** The summary text for `k` sentences. */
  function SummaryOf(data: seq<SentScore>, k: nat): string {
    Render(Ordered(data, k))
  }

  /** app.py `summary`: `None` stands for the `KeyError` raised for a
      length outside the table. */
  function Summary(data: seq<SentScore>, length: string): (r: Option<string>)
    ensures r.None? <==> PresetSize(length).None?
    ensures r.Some? ==> r.value != [] && r.value[|r.value| - 1] == '.'
  {
    match PresetSize(length)
    case None => None
    case Some(k) => Some(SummaryOf(data, k))
  }

  /** app2.py `summary`: never fails. */
  function Summary2(data: seq<SentScore>, length: string): (r: string)
    ensures r != [] && r[|r| - 1] == '.'
  {
    SummaryOf(data, BranchSize(length))
  }

  /** The two versions give the same text wherever app.py does not raise,
      and app2.py answers every other length as for "High". */
  lemma Summary2Agrees(data: seq<SentScore>, length: string)
    ensures Summary(data, length).Some? ==> Summary2(data, length) == Summary(data, length).value
    ensures Summary(data, length).None? ==> Summary2(data, length) == Summary2(data, "High")
  {
  }

  /** The top-k cut keeps `min(k, n)` records. */
  lemma SelectedCount(data: seq<SentScore>, k: nat)
    ensures |Selected(data, k)| == TopCount(k, |data|)
  {
  }

  /** The kept and the dropped records together are the input. */
  lemma SelectionPartitions(data: seq<SentScore>, k: nat)
    ensures multiset(Selected(data, k)) + multiset(Unselected(data, k)) == multiset(data)
  {
    var r := Ranked(data);
    var m := TopCount(k, |data|);
    assert r == r[..m] + r[m..];
  }

  /** No dropped record outscores a kept one. */
  lemma SelectionOutranks(data: seq<SentScore>, k: nat)
    ensures forall i, j :: 0 <= i < |Selected(data, k)| && 0 <= j < |Unselected(data, k)| ==>
              Selected(data, k)[i].score >= Unselected(data, k)[j].score
  {
    var r := Ranked(data);
    var m := TopCount(k, |data|);
    forall i, j | 0 <= i < m && 0 <= j < |r| - m
      ensures r[..m][i].score >= r[m..][j].score
    {
      assert NegScore(r[i]) <= NegScore(r[m + j]);
    }
  }

  /** The top-k cut: `min(k, n)` records are kept, the kept and the dropped
      records together are the input, and no dropped record outscores a
      kept one. */
  lemma SelectionIsTopK(data: seq<SentScore>, k: nat)
    ensures |Selected(data, k)| == TopCount(k, |data|)
    ensures multiset(Selected(data, k)) + multiset(Unselected(data, k)) == multiset(data)
    ensures forall i, j :: 0 <= i < |Selected(data, k)| && 0 <= j < |Unselected(data, k)| ==>
              Selected(data, k)[i].score >= Unselected(data, k)[j].score
  {
    SelectedCount(data, k);
    SelectionPartitions(data, k);
    SelectionOutranks(data, k);
  }

  /** Ties go to the earlier record: when the input lists ids in increasing
      order, as `sent_scores` does, a kept record has a lower id than any
      dropped record with the same score. */
  lemma TiesGoToLowerIds(data: seq<SentScore>, k: nat, x: SentScore, y: SentScore)
    requires StrictlyAscending(data, IdKey)
    requires x in Selected(data, k) && y in Unselected(data, k)
    requires x.score == y.score
    ensures x.id < y.id
  {
    StableCutKeepsEarlier(data, NegScore, TopCount(k, |data|), IdKey, x, y);
  }

  /** The summary keeps exactly the selected records, in ascending id
      order, `min(k, n)` of them. */
  lemma OrderedIsSelectionById(data: seq<SentScore>, k: nat)
    ensures |Ordered(data, k)| == TopCount(k, |data|)
    ensures multiset(Ordered(data, k)) == multiset(Selected(data, k))
    ensures Ascending(Ordered(data, k), IdKey)
  {
    SelectionIsTopK(data, k);
  }

  /** With distinct increasing input ids, the summary's ids strictly
      increase. */
  lemma OrderedStrictlyById(data: seq<SentScore>, k: nat)
    requires StrictlyAscending(data, IdKey)
    ensures StrictlyAscending(Ordered(data, k), IdKey)
  {
    var r := Ranked(data);
    var m := TopCount(k, |data|);
    var o := Ordered(data, k);
    forall id: real
      ensures |WithKey(o, IdKey, id)| <= 1
    {
      SortByStable(Selected(data, k), IdKey, id);
      WithKeyPrefix(r, m, IdKey, id);
      WithKeyCountPermutation(r, data, IdKey, id);
      StrictClassesSmall(data, IdKey, id);
    }
    StrictWhenClassesSmall(o, IdKey);
  }

  /** With no sentences the summary is just ".". */
  lemma EmptySummary(length: string)
    ensures Summary2([], length) == "."
    ensures PresetSize(length).Some? ==> Summary([], length) == Some(".")
  {
    var k := BranchSize(length);
    assert Selected([], k) == [];
    if PresetSize(length).Some? {
      assert Selected([], PresetSize(length).value) == [];
    }
  }

  /** The rendered text is the sentences joined by ". " plus a final ".":
      when no sentence contains a '.', splitting the text before the final
      '.' at ". " recovers them. */
  lemma RenderSplits(s: seq<SentScore>)
    requires s != []
    requires forall i :: 0 <= i < |s| ==> '.' !in s[i].sentence
    ensures |Render(s)| >= 1 && Render(s)[|Render(s)| - 1] == '.'
    ensures Split(Render(s)[..|Render(s)| - 1], ". ") == Sentences(s)
  {
    var xs := Sentences(s);
    var body := Join(". ", xs);
    assert Render(s)[..|Render(s)| - 1] == body;
    assert OnlyAtEnd(xs[|xs| - 1], '.');
    SplitJoin(xs, ". ");
  }
}
