/** `clean_news_text` (app.py): deletes a fixed, ordered list of junk
    patterns, keeps the lines that look like prose, and normalises the
    whitespace of what is left. */
module NewsCleaner {
  import opened Strings

  /** One junk pattern: a literal phrase matched case-insensitively, or
      `10\s+[a-zA-Z]+` (also case-insensitive). */
  datatype Junk = Phrase(words: string) | TenThenWord

  /** The junk list, in the order the patterns are applied. */
  const JunkPatterns: seq<Junk> := [
    Phrase("read more"), Phrase("also read"), Phrase("toi entertainment desk"),
    Phrase("recommended stories"), Phrase("most searched"), Phrase("trending"),
    Phrase("click here"), Phrase("follow us on"), TenThenWord,
    Phrase("we let chatgpt")
  ]

  /** Under `(?i)` a lower-case pattern character `p` matches itself, its
      ASCII capital and, for i, k and s, the non-ASCII letters whose case
      mapping leads to them (U+0130, U+0131, U+212A, U+017F). */
  predicate FoldMatch(c: char, p: char) {
    c == p ||
    ('a' <= p <= 'z' && c as int == p as int - 32) ||
    (p == 'i' && (c == '\U{130}' || c == '\U{131}')) ||
    (p == 'k' && c == '\U{212A}') ||
    (p == 's' && c == '\U{17F}')
  }

  /** `[a-zA-Z]` under `(?i)`. */
  predicate IsLetterCI(c: char) {
    ('a' <= c <= 'z') || ('A' <= c <= 'Z') ||
    c == '\U{130}' || c == '\U{131}' || c == '\U{17F}' || c == '\U{212A}'
  }

  predicate PhraseAt(p: string, s: string) {
    |p| <= |s| && forall i :: 0 <= i < |p| ==> FoldMatch(s[i], p[i])
  }

  /** Length of the whitespace run that starts `s`. */
  function SpaceRun(s: string): (n: nat)
    ensures n <= |s|
    ensures forall i :: 0 <= i < n ==> IsSpace(s[i])
    ensures n == |s| || !IsSpace(s[n])
  {
    if s != [] && IsSpace(s[0]) then 1 + SpaceRun(s[1..]) else 0
  }

  /** Length of the `[a-zA-Z]` (case-insensitive) run that starts `s`. */
  function LetterRun(s: string): (n: nat)
    ensures n <= |s|
    ensures forall i :: 0 <= i < n ==> IsLetterCI(s[i])
    ensures n == |s| || !IsLetterCI(s[n])
  {
    if s != [] && IsLetterCI(s[0]) then 1 + LetterRun(s[1..]) else 0
  }

  /** Length of the match of `j` at the start of `s`, 0 when there is none
      (no junk pattern matches the empty string). The greedy `\s+` and
      `[a-zA-Z]+` take maximal runs: the two classes are disjoint, so
      backtracking never finds a shorter match. */
  function MatchLen(j: Junk, s: string): (m: nat)
    ensures m <= |s|
  {
    match j
    case Phrase(p) => if PhraseAt(p, s) then |p| else 0
    case TenThenWord =>
      if |s| >= 2 && s[0] == '1' && s[1] == '0' then
        var w := SpaceRun(s[2..]);
        if w == 0 then 0
        else
          var l := LetterRun(s[2 + w..]);
          if l == 0 then 0 else 2 + w + l
      else 0
  }

  /** `s` starts with a match of `10\s+[a-zA-Z]+` that ends at `m`: "10",
      then `w >= 1` whitespace characters, then a non-empty run of letters
      that the next character (if any) does not extend. */
  predicate TenShape(s: string, w: nat, m: nat) {
    |s| >= 2 && s[0] == '1' && s[1] == '0' && 1 <= w && 2 + w < m <= |s| &&
    (forall i :: 2 <= i < 2 + w ==> IsSpace(s[i])) &&
    (forall i :: 2 + w <= i < m ==> IsLetterCI(s[i])) &&
    (m == |s| || !IsLetterCI(s[m]))
  }

  /** `s` starts with "10", then `w >= 1` whitespace characters, then a letter. */
  predicate SpacesThenLetter(s: string, w: nat) {
    |s| >= 2 && s[0] == '1' && s[1] == '0' && 1 <= w && 2 + w < |s| &&
    (forall i :: 2 <= i < 2 + w ==> IsSpace(s[i])) && IsLetterCI(s[2 + w])
  }

  /** What a match is: a phrase matches exactly where its letters occur,
      case folded, and is deleted whole; `10\s+[a-zA-Z]+` matches "10", a
      whitespace run and a maximal run of letters, and it matches whenever
      "10" and whitespace are followed by a letter, taking the whole of
      that whitespace. */
  lemma MatchLenShape(j: Junk, s: string)
    ensures j.Phrase? && j.words != [] ==>
              (MatchLen(j, s) > 0 <==> PhraseAt(j.words, s)) &&
              (MatchLen(j, s) > 0 ==> MatchLen(j, s) == |j.words|)
    ensures j == TenThenWord && MatchLen(j, s) > 0 ==> exists w :: TenShape(s, w, MatchLen(j, s))
    ensures forall w :: j == TenThenWord && SpacesThenLetter(s, w) ==> TenShape(s, w, MatchLen(j, s))
  {
    if j == TenThenWord {
      if MatchLen(j, s) > 0 {
        TenMatchShape(s);
      }
      forall w | SpacesThenLetter(s, w)
        ensures TenShape(s, w, MatchLen(j, s))
      {
        TenMatchFrom(s, w);
      }
    }
  }

  /** A match of `10\s+[a-zA-Z]+` has its shape, the whitespace run being
      `SpaceRun(s[2..])`. */
  lemma TenMatchShape(s: string)
    requires MatchLen(TenThenWord, s) > 0
    ensures TenShape(s, SpaceRun(s[2..]), MatchLen(TenThenWord, s))
  {
    var w := SpaceRun(s[2..]);
    var l := LetterRun(s[2 + w..]);
    var m := 2 + w + l;
    assert MatchLen(TenThenWord, s) == m;
    forall i | 2 <= i < 2 + w ensures IsSpace(s[i]) {
      assert s[i] == s[2..][i - 2];
    }
    forall i | 2 + w <= i < m ensures IsLetterCI(s[i]) {
      assert s[i] == s[2 + w..][i - 2 - w];
    }
    if m < |s| {
      assert s[m] == s[2 + w..][l];
    }
  }

  /** Whitespace after "10" followed by a letter starts a match, and the
      match takes exactly that whitespace. */
  lemma TenMatchFrom(s: string, w: nat)
    requires SpacesThenLetter(s, w)
    ensures TenShape(s, w, MatchLen(TenThenWord, s))
  {
    var t := s[2..];
    var n := SpaceRun(t);
    assert t[w] == s[2 + w];
    assert forall i :: 0 <= i < w ==> t[i] == s[2 + i];
    assert n == w;
    assert s[2 + w..][0] == s[2 + w];
    assert LetterRun(s[2 + w..]) >= 1;
    TenMatchShape(s);
  }

  /** `re.sub(pattern, "", s)`: scanning left to right, every match is
      deleted and the scan resumes after it; deleting never causes a rescan
      of the text before the resume point. */
  function DeleteMatches(j: Junk, s: string): (r: string)
    ensures |r| <= |s|
    decreases |s|
  {
    if s == [] then []
    else if MatchLen(j, s) > 0 then DeleteMatches(j, s[MatchLen(j, s)..])
    else [s[0]] + DeleteMatches(j, s[1..])
  }

  /** `a` is obtained from `b` by deleting characters. */
  predicate IsSubseq(a: string, b: string)
    decreases |b|
  {
    if b == [] then a == []
    else (a != [] && a[0] == b[0] && IsSubseq(a[1..], b[1..])) || IsSubseq(a, b[1..])
  }

  lemma {:induction false} SubseqDropPrefix(a: string, b: string, k: nat)
    requires k <= |b| && IsSubseq(a, b[k..])
    ensures IsSubseq(a, b)
    decreases k
  {
    if k > 0 {
      assert b[1..][k - 1..] == b[k..];
      SubseqDropPrefix(a, b[1..], k - 1);
    }
  }

  /** Junk removal only deletes: its result is a subsequence of its input. */
  lemma {:induction false} DeleteMatchesOnlyDeletes(j: Junk, s: string)
    ensures IsSubseq(DeleteMatches(j, s), s)
    decreases |s|
  {
    if s != [] {
      var m := MatchLen(j, s);
      if m > 0 {
        DeleteMatchesOnlyDeletes(j, s[m..]);
        SubseqDropPrefix(DeleteMatches(j, s[m..]), s, m);
      } else {
        DeleteMatchesOnlyDeletes(j, s[1..]);
        var r := DeleteMatches(j, s);
        assert r == [s[0]] + DeleteMatches(j, s[1..]);
        assert r[0] == s[0] && r[1..] == DeleteMatches(j, s[1..]);
      }
    }
  }

  /** The pattern matches at none of the first `n` positions of `s`. */
  predicate NoMatchBefore(j: Junk, s: string, n: nat) {
    forall k :: 0 <= k < n && k <= |s| ==> MatchLen(j, s[k..]) == 0
  }

  predicate NoMatchAnywhere(j: Junk, s: string) {
    NoMatchBefore(j, s, |s|)
  }

  /** Text in which the pattern matches nowhere passes through unchanged. */
  lemma {:induction false} DeleteMatchesNoMatch(j: Junk, s: string)
    requires NoMatchAnywhere(j, s)
    ensures DeleteMatches(j, s) == s
    decreases |s|
  {
    if s != [] {
      assert s[0..] == s;
      assert forall k :: 0 <= k < |s| - 1 ==> s[1..][k..] == s[k + 1..];
      DeleteMatchesNoMatch(j, s[1..]);
    }
  }

  /** Where the pattern does not match, the scan copies one character. */
  lemma CopyStep(j: Junk, s: string)
    requires s != [] && MatchLen(j, s) == 0
    ensures DeleteMatches(j, s) == [s[0]] + DeleteMatches(j, s[1..])
  {
  }

  lemma NoMatchBeforeTail(j: Junk, s: string, n: nat)
    requires 0 < n <= |s| && NoMatchBefore(j, s, n)
    ensures MatchLen(j, s) == 0
    ensures NoMatchBefore(j, s[1..], n - 1)
  {
    assert s[0..] == s;
    forall k | 0 <= k < n - 1 ensures MatchLen(j, s[1..][k..]) == 0 {
      assert s[1..][k..] == s[k + 1..];
    }
  }

  /** Copying the first character and then the next `n - 1` copies the
      first `n`. */
  lemma SplitFirst(s: string, n: nat, rest: string)
    requires 0 < n <= |s|
    ensures [s[0]] + (s[1..][..n - 1] + rest) == s[..n] + rest
    ensures s[1..][n - 1..] == s[n..]
  {
    assert [s[0]] + s[1..][..n - 1] == s[..n];
  }

  /** A stretch where the pattern matches nowhere is copied unchanged and
      the scan carries on behind it. */
  lemma {:induction false} DeleteMatchesKeep(j: Junk, s: string, n: nat)
    requires n <= |s| && NoMatchBefore(j, s, n)
    ensures DeleteMatches(j, s) == s[..n] + DeleteMatches(j, s[n..])
    decreases n
  {
    if n == 0 {
      assert s[..0] == [] && s[0..] == s;
    } else {
      NoMatchBeforeTail(j, s, n);
      CopyStep(j, s);
      DeleteMatchesKeep(j, s[1..], n - 1);
      SplitFirst(s, n, DeleteMatches(j, s[n..]));
    }
  }

  /** The first match is deleted whole, what precedes it stays, and the
      scan resumes behind it without looking back: text that the deletion
      joins together is not scanned again. */
  lemma DeleteAfterPrefix(j: Junk, s: string, n: nat, m: nat)
    requires n + m <= |s| && 0 < m && NoMatchBefore(j, s, n)
    requires MatchLen(j, s[n..]) == m
    ensures DeleteMatches(j, s) == s[..n] + DeleteMatches(j, s[n + m..])
  {
    DeleteMatchesKeep(j, s, n);
    assert s[n..][m..] == s[n + m..];
  }

  lemma TenMenMatch()
    ensures MatchLen(TenThenWord, "10 men") == 6
  {
    assert "men"[1..] == "en" && "en"[1..] == "n" && "n"[1..] == "";
    assert LetterRun("men") == 3;
    assert "10 men"[2..] == " men" && " men"[1..] == "men";
    assert SpaceRun(" men") == 1;
  }

  /** "10 men" behind a prefix `pre` in which the pattern never matches is
      deleted and `pre` is kept. */
  lemma TenMenDeleted(pre: string)
    requires NoMatchBefore(TenThenWord, pre + "10 men", |pre|)
    ensures DeleteMatches(TenThenWord, pre + "10 men") == pre
  {
    var s := pre + "10 men";
    var n := |pre|;
    assert DeleteMatches(TenThenWord, s) == s[..n] + DeleteMatches(TenThenWord, s[n + 6..]) by {
      assert s[n..] == "10 men";
      TenMenMatch();
      DeleteAfterPrefix(TenThenWord, s, n, 6);
    }
    assert s[n + 6..] == [] && s[..n] == pre;
    assert pre + [] == pre;
  }

  /** `10\s+[a-zA-Z]+` removes "10" together with the word after it. */
  lemma TenThenWordExample()
    ensures DeleteMatches(TenThenWord, "said 10 men") == "said "
  {
    var s := "said 10 men";
    assert s == "said " + "10 men";
    forall k | 0 <= k < 5 ensures MatchLen(TenThenWord, s[k..]) == 0 {
      assert s[k] != '1';
    }
    TenMenDeleted("said ");
  }

  /** The pattern is not anchored to a word boundary: it also matches the
      tail of a longer number. */
  lemma TenThenWordInsideNumber()
    ensures DeleteMatches(TenThenWord, "110 men") == "1"
  {
    var s := "110 men";
    assert s == "1" + "10 men";
    assert s[0..][1] == '1';
    assert NoMatchBefore(TenThenWord, s, 1);
    TenMenDeleted("1");
  }

  /** The phrases match whatever the letter case. */
  lemma CaselessExample()
    ensures DeleteMatches(Phrase("trending"), "TRENDING") == []
  {
    assert PhraseAt("trending", "TRENDING");
  }

  /** Each pattern of `ps` applied once, in list order. */
  function ApplyJunk(ps: seq<Junk>, text: string): (r: string)
    ensures |r| <= |text|
  {
    if ps == [] then text
    else DeleteMatches(ps[|ps| - 1], ApplyJunk(ps[..|ps| - 1], text))
  }

  /** A stripped line survives when it has at least 20 characters and at
      least three ' ' characters. */
  predicate LooksLikeProse(l: string) {
    |l| >= 20 && CountChar(l, ' ') >= 3
  }

  /** The stripped lines that survive the filter, in their original order. */
  function KeepLines(lines: seq<string>): (r: seq<string>)
    ensures |r| <= |lines|
    ensures forall k :: 0 <= k < |r| ==> LooksLikeProse(r[k]) && Trimmed(r[k])
  {
    if lines == [] then []
    else
      var l := Strip(lines[|lines| - 1]);
      KeepLines(lines[..|lines| - 1]) + (if LooksLikeProse(l) then [l] else [])
  }

  /** The filter works line by line: it keeps the survivors' relative order. */
  lemma {:induction false} KeepLinesAppend(a: seq<string>, b: seq<string>)
    ensures KeepLines(a + b) == KeepLines(a) + KeepLines(b)
    decreases |b|
  {
    if b == [] {
      assert a + b == a;
    } else {
      var n := |b| - 1;
      assert (a + b)[..|a + b| - 1] == a + b[..n];
      assert (a + b)[|a + b| - 1] == b[n];
      KeepLinesAppend(a, b[..n]);
      var l := Strip(b[n]);
      AppendAssoc(KeepLines(a), KeepLines(b[..n]), if LooksLikeProse(l) then [l] else []);
    }
  }

  /** The whole of `clean_news_text`. */
  function CleanNews(text: string): (r: string)
  {
    Tidy(Join(" ", KeepLines(Split(ApplyJunk(JunkPatterns, text), "\n"))))
  }

  /** What `clean_news_text` promises about its output: no leading or
      trailing whitespace, no whitespace but single ' ' characters; the
      result is the words of the surviving lines, line after line, joined
      by single spaces; empty input yields "". */
  lemma CleanNewsSpec(text: string)
    ensures Normalized(CleanNews(text))
    ensures NonSpace(CleanNews(text)) ==
            NonSpace(Join(" ", KeepLines(Split(ApplyJunk(JunkPatterns, text), "\n"))))
    ensures CleanNews(text) == Join(" ", LinesWords(KeepLines(Split(ApplyJunk(JunkPatterns, text), "\n"))))
    ensures text == [] ==> CleanNews(text) == []
  {
    var kept := KeepLines(Split(ApplyJunk(JunkPatterns, text), "\n"));
    WordsJoin(kept);
    if text == [] {
      CleanNewsEmpty();
    }
  }

  /** Empty text has no lines that survive, so the result is "". */
  lemma CleanNewsEmpty()
    ensures CleanNews([]) == []
  {
    ApplyJunkEmpty(JunkPatterns);
    assert Split([], "\n") == [[]];
    assert KeepLines([[]]) == [];
  }

  lemma {:induction false} ApplyJunkEmpty(ps: seq<Junk>)
    ensures ApplyJunk(ps, []) == []
  {
    if ps != [] {
      ApplyJunkEmpty(ps[..|ps| - 1]);
    }
  }

  /** The first loop of `clean_news_text`: each junk pattern in turn. */
  method RemoveJunk(text: string) returns (t: string)
    ensures t == ApplyJunk(JunkPatterns, text)
    ensures |t| <= |text|
  {
    t := text;
    for i := 0 to |JunkPatterns|
      invariant t == ApplyJunk(JunkPatterns[..i], text)
    {
      assert JunkPatterns[..i + 1][..i] == JunkPatterns[..i];
      t := DeleteMatches(JunkPatterns[i], t);
    }
    assert JunkPatterns[..|JunkPatterns|] == JunkPatterns;
  }

  /** The second loop of `clean_news_text`: strip each line and keep the
      prose-like ones. */
  method FilterLines(lines: seq<string>) returns (cleaned: seq<string>)
    ensures cleaned == KeepLines(lines)
    ensures forall k :: 0 <= k < |cleaned| ==> |cleaned[k]| >= 20 && Trimmed(cleaned[k])
  {
    cleaned := [];
    for i := 0 to |lines|
      invariant cleaned == KeepLines(lines[..i])
    {
      assert lines[..i + 1][..i] == lines[..i];
      var l := Strip(lines[i]);
      if |l| >= 20 && CountChar(l, ' ') >= 3 {
        cleaned := cleaned + [l];
      }
    }
    assert lines[..|lines|] == lines;
  }

  /** `clean_news_text`, step by step as the source runs it. */
  method CleanNewsText(text: string) returns (r: string)
    ensures r == CleanNews(text)
    ensures Normalized(r)
    ensures text == [] ==> r == []
  {
    var t := RemoveJunk(text);
    var cleaned := FilterLines(Split(t, "\n"));
    r := Tidy(Join(" ", cleaned));
    CleanNewsSpec(text);
  }
}
