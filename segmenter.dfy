/** `clean_text` (app.py, app2.py): splits the article body on the literal
    ". ", replaces every character outside an allow-list by a space,
    normalises whitespace and drops fragments left empty. The surviving
    fragments are the sentences; their positions (from 1) are their ids. */
module Segmenter {
  import opened Strings

  const SentenceBreak: string := ". "

  /** The six Unicode blocks of the allow-list: Devanagari, Bengali,
      Gujarati, Tamil, Telugu and Malayalam. */
  predicate InIndicBlock(c: char) {
    ('\U{900}' <= c <= '\U{97F}') || ('\U{980}' <= c <= '\U{9FF}') ||
    ('\U{A80}' <= c <= '\U{AFF}') || ('\U{B80}' <= c <= '\U{BFF}') ||
    ('\U{C00}' <= c <= '\U{C7F}') || ('\U{D00}' <= c <= '\U{D7F}')
  }

  /** The characters the character class keeps: ASCII digits and letters,
      the six blocks, and whitespace. */
  predicate Allowed(c: char) {
    ('0' <= c <= '9') || ('A' <= c <= 'Z') || ('a' <= c <= 'z') ||
    InIndicBlock(c) || IsSpace(c)
  }

  /** The characters a sentence may contain. */
  predicate SentenceChar(c: char) {
    c == ' ' || (Allowed(c) && !IsSpace(c))
  }

  /** A sentence as `clean_text` emits it: non-empty, trimmed, single-spaced
      and built from allowed characters only. */
  predicate IsSentence(s: string) {
    s != [] && Normalized(s) && forall i :: 0 <= i < |s| ==> SentenceChar(s[i])
  }

  /** The first `re.sub`: every character outside the allow-list becomes ' '. */
  function Scrub(f: string): (r: string)
    ensures |r| == |f|
    ensures forall i :: 0 <= i < |f| ==> (Allowed(f[i]) ==> r[i] == f[i]) && (!Allowed(f[i]) ==> r[i] == ' ')
  {
    seq(|f|, i requires 0 <= i < |f| => if Allowed(f[i]) then f[i] else ' ')
  }

  /** One fragment, cleaned: the words of the scrubbed fragment, in order,
      separated by single spaces, without leading or trailing space. */
  function CleanFragment(f: string): (r: string)
    ensures r == [] || IsSentence(r)
    ensures NonSpace(r) == NonSpace(Scrub(f))
    ensures r == Join(" ", Words(Scrub(f)))
  {
    var r := Tidy(Scrub(f));
    forall i | 0 <= i < |r| ensures SentenceChar(r[i]) {
      if !IsSpace(r[i]) {
        NonSpaceMembers(r, r[i]);
        NonSpaceMembers(Scrub(f), r[i]);
      }
    }
    r
  }

  /** The non-empty cleaned fragments, in order. */
  function CleanFragments(fs: seq<string>): (r: seq<string>)
    ensures |r| <= |fs|
    ensures forall k :: 0 <= k < |r| ==> IsSentence(r[k])
  {
    if fs == [] then []
    else
      var c := CleanFragment(fs[|fs| - 1]);
      CleanFragments(fs[..|fs| - 1]) + (if c == [] then [] else [c])
  }

  /** Fragments are cleaned one at a time: sentences keep their source order. */
  lemma {:induction false} CleanFragmentsAppend(a: seq<string>, b: seq<string>)
    ensures CleanFragments(a + b) == CleanFragments(a) + CleanFragments(b)
    decreases |b|
  {
    if b == [] {
      assert a + b == a;
    } else {
      var n := |b| - 1;
      assert (a + b)[..|a + b| - 1] == a + b[..n];
      assert (a + b)[|a + b| - 1] == b[n];
      CleanFragmentsAppend(a, b[..n]);
      var c := CleanFragment(b[n]);
      AppendAssoc(CleanFragments(a), CleanFragments(b[..n]), if c == [] then [] else [c]);
    }
  }

  /** One more fragment adds its cleaned form, when that is not empty. */
  lemma CleanFragmentsStep(fs: seq<string>, i: nat)
    requires i < |fs|
    ensures CleanFragments(fs[..i + 1]) ==
            CleanFragments(fs[..i]) + (if Tidy(Scrub(fs[i])) == [] then [] else [Tidy(Scrub(fs[i]))])
  {
    assert fs[..i + 1][..i] == fs[..i];
    assert CleanFragment(fs[i]) == Tidy(Scrub(fs[i]));
  }

  /** The sentence list of an article body. */
  function Segment(body: string): (r: seq<string>)
    ensures |r| <= |Split(body, SentenceBreak)|
    ensures forall k :: 0 <= k < |r| ==> IsSentence(r[k])
  {
    CleanFragments(Split(body, SentenceBreak))
  }

  lemma SegmentEmpty()
    ensures Segment([]) == []
  {
    SplitEmpty(SentenceBreak);
    assert CleanFragment([]) == [];
  }

  /** A sentence contains no '.', so no ". " either. */
  lemma SentenceHasNoDot(s: string)
    requires IsSentence(s)
    ensures '.' !in s
  {
  }

  /** `clean_text`, as the source runs it: one fragment at a time, appending
      the survivors. */
  method CleanText(body: string) returns (sentences: seq<string>)
    ensures sentences == Segment(body)
    ensures forall k :: 0 <= k < |sentences| ==> IsSentence(sentences[k])
    ensures |sentences| <= |Split(body, SentenceBreak)|
    ensures body == [] ==> sentences == []
  {
    var article := Split(body, SentenceBreak);
    sentences := [];
    for i := 0 to |article|
      invariant sentences == CleanFragments(article[..i])
    {
      var sentence := Tidy(Scrub(article[i]));
      CleanFragmentsStep(article, i);
      if sentence != [] {
        sentences := sentences + [sentence];
      }
    }
    assert article[..|article|] == article;
    if body == [] {
      SegmentEmpty();
    }
  }
}
