/** The few Python string builtins the summariser leans on, as functions on
    code-point strings: `str.isspace`, `str.strip`, `str.split(sep)`,
    `str.split()`, `sep.join(xs)`, `re.sub(r"\s+", " ", s)` and `str.lower`
    (on the alphabet the summariser feeds it). */
module Strings {

  /** Python's whitespace (Py_UNICODE_ISSPACE): what `\s` matches in a str
      pattern and what `str.strip()` removes. */
  predicate IsSpace(c: char) {
    c == ' ' || ('\t' <= c <= '\r') || ('\U{1C}' <= c <= '\U{1F}') ||
    c == '\U{85}' || c == '\U{A0}' || c == '\U{1680}' ||
    ('\U{2000}' <= c <= '\U{200A}') || c == '\U{2028}' || c == '\U{2029}' ||
    c == '\U{202F}' || c == '\U{205F}' || c == '\U{3000}'
  }

  /** The characters of `s` that are not whitespace, in order. */
  function NonSpace(s: string): (r: string)
    ensures |r| <= |s|
  {
    if s == [] then []
    else (if IsSpace(s[0]) then [] else [s[0]]) + NonSpace(s[1..])
  }

  lemma {:induction false} NonSpaceAppend(a: string, b: string)
    ensures NonSpace(a + b) == NonSpace(a) + NonSpace(b)
  {
    if a != [] {
      assert (a + b)[0] == a[0];
      assert (a + b)[1..] == a[1..] + b;
      NonSpaceAppend(a[1..], b);
      var h := if IsSpace(a[0]) then [] else [a[0]];
      AppendAssoc(h, NonSpace(a[1..]), NonSpace(b));
    } else {
      assert a + b == b;
    }
  }

  lemma AppendAssoc<T>(a: seq<T>, b: seq<T>, c: seq<T>)
    ensures a + (b + c) == (a + b) + c
  {
  }

  lemma NonSpaceCons(c: char, x: string)
    ensures NonSpace([c] + x) == (if IsSpace(c) then [] else [c]) + NonSpace(x)
  {
    assert ([c] + x)[0] == c && ([c] + x)[1..] == x;
  }

  /** Leading whitespace contributes nothing. */
  lemma {:induction false} NonSpaceSkip(s: string, a: nat)
    requires a <= |s| && forall i :: 0 <= i < a ==> IsSpace(s[i])
    ensures NonSpace(s) == NonSpace(s[a..])
    decreases a
  {
    if a > 0 {
      NonSpaceSkip(s[1..], a - 1);
      assert s[1..][a - 1..] == s[a..];
      assert NonSpace(s) == [] + NonSpace(s[1..]);
    }
  }

  lemma {:induction false} NonSpaceMembers(s: string, c: char)
    ensures c in NonSpace(s) <==> c in s && !IsSpace(c)
  {
    if s != [] {
      NonSpaceMembers(s[1..], c);
      assert s == [s[0]] + s[1..];
    }
  }

  /** Number of occurrences of `c` in `s` (`s.count(c)`). */
  function CountChar(s: string, c: char): (n: nat)
    ensures n <= |s|
  {
    if s == [] then 0 else (if s[0] == c then 1 else 0) + CountChar(s[1..], c)
  }

  // ---------------------------------------------------------------- strip

  function TrimLeft(s: string): (r: string)
    ensures |r| <= |s| && r == s[|s| - |r|..]
    ensures r == [] || !IsSpace(r[0])
    ensures forall i :: 0 <= i < |s| - |r| ==> IsSpace(s[i])
  {
    if s != [] && IsSpace(s[0]) then TrimLeft(s[1..]) else s
  }

  function TrimRight(s: string): (r: string)
    ensures |r| <= |s| && r == s[..|r|]
    ensures r == [] || !IsSpace(r[|r| - 1])
    ensures forall i :: |r| <= i < |s| ==> IsSpace(s[i])
  {
    if s != [] && IsSpace(s[|s| - 1]) then TrimRight(s[..|s| - 1]) else s
  }

  /** `s.strip()`: the longest factor of `s` that neither starts nor ends
      with whitespace, obtained by removing whitespace only. */
  function Strip(s: string): (r: string)
    ensures Trimmed(r) && |r| <= |s|
  {
    var l := TrimLeft(s);
    var r := TrimRight(l);
    assert r != [] ==> r[0] == l[0];
    r
  }

  /** No leading or trailing whitespace. */
  predicate Trimmed(t: string) {
    t == [] || (!IsSpace(t[0]) && !IsSpace(t[|t| - 1]))
  }

  /** Where `Strip(s)` starts in `s`. */
  function StripStart(s: string): (a: nat)
    ensures a + |Strip(s)| <= |s| && Strip(s) == s[a..a + |Strip(s)|]
  {
    var l := TrimLeft(s);
    var r := TrimRight(l);
    assert r == l[..|r|];
    |s| - |l|
  }

  lemma StripSpec(s: string)
    ensures Trimmed(Strip(s))
    ensures NonSpace(Strip(s)) == NonSpace(s)
  {
    var l := TrimLeft(s);
    TrimLeftNonSpace(s);
    TrimRightNonSpace(l);
    var r := TrimRight(l);
    if r != [] {
      assert r[0] == l[0];
    }
  }

  lemma TrimLeftNonSpace(s: string)
    ensures NonSpace(TrimLeft(s)) == NonSpace(s)
  {
    NonSpaceSkip(s, |s| - |TrimLeft(s)|);
  }

  lemma TrimRightNonSpace(s: string)
    ensures NonSpace(TrimRight(s)) == NonSpace(s)
  {
    var r := TrimRight(s);
    assert s == r + s[|r|..];
    NonSpaceAllSpace(s[|r|..]);
    NonSpaceAppend(r, s[|r|..]);
  }

  lemma {:induction false} NonSpaceAllSpace(s: string)
    requires forall i :: 0 <= i < |s| ==> IsSpace(s[i])
    ensures NonSpace(s) == []
  {
    if s != [] {
      NonSpaceAllSpace(s[1..]);
    }
  }

  // ------------------------------------------------------- \s+ collapse

  /** `re.sub(r"\s+", " ", s)`: every maximal run of whitespace becomes one ' '. */
  function Collapse(s: string): (r: string)
    ensures |r| <= |s|
    decreases |s|
  {
    if s == [] then []
    else if IsSpace(s[0]) then " " + Collapse(TrimLeft(s))
    else [s[0]] + Collapse(s[1..])
  }

  /** Every whitespace character is a ' ' and is not followed by whitespace. */
  predicate SingleSpaced(t: string) {
    forall i :: 0 <= i < |t| && IsSpace(t[i]) ==>
      t[i] == ' ' && (i + 1 < |t| ==> !IsSpace(t[i + 1]))
  }

  /** Trimmed and single-spaced: the shape of every normalised text below. */
  predicate Normalized(t: string) {
    forall i :: 0 <= i < |t| && IsSpace(t[i]) ==>
      t[i] == ' ' && 0 < i && i + 1 < |t| && !IsSpace(t[i + 1])
  }

  /** Collapsing starts with whitespace exactly when the input does. */
  lemma CollapseHead(s: string)
    ensures s != [] ==> Collapse(s) != [] && (IsSpace(Collapse(s)[0]) <==> IsSpace(s[0]))
  {
  }

  lemma {:induction false} CollapseSingleSpaced(s: string)
    ensures SingleSpaced(Collapse(s))
    decreases |s|
  {
    if s == [] {
    } else if IsSpace(s[0]) {
      var d := TrimLeft(s);
      CollapseSingleSpaced(d);
      CollapseHead(d);
      assert Collapse(s) == " " + Collapse(d);
    } else {
      CollapseSingleSpaced(s[1..]);
      assert Collapse(s) == [s[0]] + Collapse(s[1..]);
    }
  }

  lemma {:induction false} CollapseNonSpace(s: string)
    ensures NonSpace(Collapse(s)) == NonSpace(s)
    decreases |s|
  {
    if s == [] {
    } else if IsSpace(s[0]) {
      var d := TrimLeft(s);
      CollapseNonSpace(d);
      NonSpaceSkip(s, |s| - |d|);
      NonSpaceCons(' ', Collapse(d));
    } else {
      CollapseNonSpace(s[1..]);
      NonSpaceCons(s[0], Collapse(s[1..]));
    }
  }

  /** Collapsing ends with whitespace exactly when the input does. */
  lemma {:induction false} CollapseLast(s: string)
    ensures s != [] ==> Collapse(s) != [] && (IsSpace(Collapse(s)[|Collapse(s)| - 1]) <==> IsSpace(s[|s| - 1]))
    decreases |s|
  {
    if s != [] {
      if IsSpace(s[0]) {
        var d := TrimLeft(s);
        CollapseLast(d);
        assert Collapse(s) == " " + Collapse(d);
        if d != [] {
          assert d[|d| - 1] == s[|s| - 1];
        }
      } else {
        CollapseLast(s[1..]);
        assert Collapse(s) == [s[0]] + Collapse(s[1..]);
      }
    }
  }

  /** `re.sub(r"\s+", " ", s)` turns every maximal whitespace run into one
      ' ': the result is single-spaced, has the words of `s`, and starts
      and ends with whitespace exactly when `s` does. */
  lemma CollapseSpec(s: string)
    ensures SingleSpaced(Collapse(s))
    ensures NonSpace(Collapse(s)) == NonSpace(s)
    ensures Words(Collapse(s)) == Words(s)
    ensures s != [] ==> Collapse(s) != [] && (IsSpace(Collapse(s)[0]) <==> IsSpace(s[0]))
    ensures s != [] ==> (IsSpace(Collapse(s)[|Collapse(s)| - 1]) <==> IsSpace(s[|s| - 1]))
  {
    CollapseSingleSpaced(s);
    CollapseNonSpace(s);
    CollapseHead(s);
    CollapseLast(s);
    WordsCollapse(s, []);
  }

  /** What the summariser does after every `re.sub(r"\s+", " ", …)`:
      `.strip()`. The result is `" ".join(s.split())`: the words of `s`,
      in order, separated by single spaces. */
  function Tidy(s: string): (r: string)
    ensures Normalized(r)
    ensures NonSpace(r) == NonSpace(s)
    ensures r == Join(" ", Words(s))
  {
    TidySpec(s);
    Strip(Collapse(s))
  }

  lemma TidySpec(s: string)
    ensures Normalized(Strip(Collapse(s)))
    ensures NonSpace(Strip(Collapse(s))) == NonSpace(s)
    ensures Words(Strip(Collapse(s))) == Words(s)
    ensures Strip(Collapse(s)) == Join(" ", Words(s))
  {
    CollapseSpec(s);
    StripSpec(Collapse(s));
    StripSingleSpaced(Collapse(s));
    WordsStrip(Collapse(s));
    NormalizedJoinWords(Strip(Collapse(s)));
  }

  /** A window of single-spaced text is single-spaced. */
  lemma WindowSingleSpaced(c: string, a: nat, n: nat)
    requires SingleSpaced(c) && a + n <= |c|
    ensures SingleSpaced(c[a..a + n])
  {
    var w := c[a..a + n];
    forall i | 0 <= i < |w| && IsSpace(w[i])
      ensures w[i] == ' ' && (i + 1 < |w| ==> !IsSpace(w[i + 1]))
    {
      assert w[i] == c[a + i];
      if i + 1 < |w| {
        assert w[i + 1] == c[a + i + 1];
      }
    }
  }

  lemma TrimmedSingleSpaced(r: string)
    requires Trimmed(r) && SingleSpaced(r)
    ensures Normalized(r)
  {
  }

  /** Stripping single-spaced text leaves it normalised. */
  lemma StripSingleSpaced(c: string)
    requires SingleSpaced(c)
    ensures Normalized(Strip(c))
  {
    var a := StripStart(c);
    WindowSingleSpaced(c, a, |Strip(c)|);
    TrimmedSingleSpaced(Strip(c));
  }

  // ----------------------------------------------------------- split/join

  predicate StartsWith(s: string, p: string) {
    |p| <= |s| && s[..|p|] == p
  }

  /** `sep.join(xs)`. */
  function Join(sep: string, xs: seq<string>): (r: string)
    ensures xs != [] ==> StartsWith(r, xs[0])
  {
    if xs == [] then []
    else if |xs| == 1 then xs[0]
    else xs[0] + sep + Join(sep, xs[1..])
  }

  /** `(cur + s).split(sep)` once the scan has reached `s`. */
  function SplitFrom(s: string, sep: string, cur: string): (r: seq<string>)
    requires sep != []
    ensures |r| >= 1
    decreases |s|
  {
    if s == [] then [cur]
    else if StartsWith(s, sep) then [cur] + SplitFrom(s[|sep|..], sep, [])
    else SplitFrom(s[1..], sep, cur + [s[0]])
  }

  /** `s.split(sep)`: the pieces between the leftmost non-overlapping
      occurrences of `sep`. */
  function Split(s: string, sep: string): (r: seq<string>)
    requires sep != []
    ensures |r| >= 1
  {
    SplitFrom(s, sep, [])
  }

  /** Splitting removes the separators and nothing else: joining the pieces
      back gives the input. */
  lemma {:induction false} JoinSplitFrom(s: string, sep: string, cur: string)
    requires sep != []
    ensures Join(sep, SplitFrom(s, sep, cur)) == cur + s
    decreases |s|
  {
    if s == [] {
    } else if StartsWith(s, sep) {
      JoinSplitFrom(s[|sep|..], sep, []);
      assert s == sep + s[|sep|..];
    } else {
      JoinSplitFrom(s[1..], sep, cur + [s[0]]);
      assert cur + [s[0]] + s[1..] == cur + s;
    }
  }

  lemma JoinSplit(s: string, sep: string)
    requires sep != []
    ensures Join(sep, Split(s, sep)) == s
  {
    JoinSplitFrom(s, sep, []);
  }

  /** `"".split(sep)` is `[""]`. */
  lemma SplitEmpty(sep: string)
    requires sep != []
    ensures Split([], sep) == [[]]
  {
  }

  /** `c` occurs in `x` at most as its last character. */
  predicate OnlyAtEnd(x: string, c: char) {
    forall i :: 0 <= i < |x| - 1 ==> x[i] != c
  }

  /** A stretch free of the separator's first character is copied into the
      current piece. */
  lemma {:induction false} ScanPlain(x: string, rest: string, sep: string, cur: string)
    requires sep != [] && sep[0] !in x
    ensures SplitFrom(x + rest, sep, cur) == SplitFrom(rest, sep, cur + x)
    decreases |x|
  {
    if x != [] {
      var t := x + rest;
      assert t[0] == x[0] && t[1..] == x[1..] + rest;
      assert t[0] != sep[0];
      assert !StartsWith(t, sep);
      ScanPlain(x[1..], rest, sep, cur + [x[0]]);
      assert cur + [x[0]] + x[1..] == cur + x;
    } else {
      assert x + rest == rest && cur + x == cur;
    }
  }

  lemma SplitLast(x: string, sep: string, cur: string)
    requires |sep| >= 2 && OnlyAtEnd(x, sep[0])
    ensures SplitFrom(x, sep, cur) == [cur + x]
  {
    if x != [] {
      var n := |x| - 1;
      assert x == x[..n] + [x[n]];
      ScanPlain(x[..n], [x[n]], sep, cur);
      assert cur + x[..n] + [x[n]] == cur + x;
    } else {
      assert cur + x == cur;
    }
  }

  /** Splitting a join gives the pieces back when the separator's first
      character occurs in none of them (except as the last character of the
      last one). */
  lemma {:induction false} SplitJoin(xs: seq<string>, sep: string)
    requires |sep| >= 2 && |xs| >= 1
    requires forall k :: 0 <= k < |xs| - 1 ==> sep[0] !in xs[k]
    requires OnlyAtEnd(xs[|xs| - 1], sep[0])
    ensures Split(Join(sep, xs), sep) == xs
    decreases |xs|
  {
    if |xs| == 1 {
      SplitLast(xs[0], sep, []);
      assert [] + xs[0] == xs[0];
    } else {
      var rest := Join(sep, xs[1..]);
      assert Join(sep, xs) == xs[0] + (sep + rest);
      ScanPlain(xs[0], sep + rest, sep, []);
      assert StartsWith(sep + rest, sep);
      assert (sep + rest)[|sep|..] == rest;
      SplitJoin(xs[1..], sep);
      assert [] + xs[0] == xs[0];
      assert [xs[0]] + xs[1..] == xs;
    }
  }

  // ---------------------------------------------------------------- words

  /** No whitespace at all. */
  predicate NoSpace(w: string) {
    forall i :: 0 <= i < |w| ==> !IsSpace(w[i])
  }

  lemma NoSpaceSnoc(w: string, c: char)
    requires NoSpace(w) && !IsSpace(c)
    ensures NoSpace(w + [c])
  {
    assert forall i :: 0 <= i < |w| ==> (w + [c])[i] == w[i];
  }

  /** The word in progress, if any, as a list of pieces. */
  function Flush(cur: string): seq<string> {
    if cur == [] then [] else [cur]
  }

  /** `(cur + s).split()` once the scan has reached `s` with the word `cur`
      in progress: whitespace ends a word, and empty words are dropped. */
  function WordsFrom(s: string, cur: string): (r: seq<string>)
    ensures NoSpace(cur) ==> forall k :: 0 <= k < |r| ==> r[k] != [] && NoSpace(r[k])
    decreases |s|
  {
    if s == [] then Flush(cur)
    else if IsSpace(s[0]) then Flush(cur) + WordsFrom(s[1..], [])
    else WordsFrom(s[1..], cur + [s[0]])
  }

  /** `s.split()`: the maximal runs of non-whitespace of `s`, in order. */
  function Words(s: string): (r: seq<string>)
    ensures forall k :: 0 <= k < |r| ==> r[k] != [] && NoSpace(r[k])
  {
    WordsFrom(s, [])
  }

  lemma {:induction false} WordsAllSpace(s: string)
    requires forall i :: 0 <= i < |s| ==> IsSpace(s[i])
    ensures WordsFrom(s, []) == []
  {
    if s != [] {
      WordsAllSpace(s[1..]);
    }
  }

  /** Leading whitespace separates nothing. */
  lemma {:induction false} WordsTrimLeft(s: string)
    ensures WordsFrom(s, []) == WordsFrom(TrimLeft(s), [])
    decreases |s|
  {
    if s != [] && IsSpace(s[0]) {
      WordsTrimLeft(s[1..]);
    }
  }

  /** Trailing whitespace only ends the word in progress. */
  lemma {:induction false} WordsTrailing(x: string, y: string, cur: string)
    requires forall i :: 0 <= i < |y| ==> IsSpace(y[i])
    ensures WordsFrom(x + y, cur) == WordsFrom(x, cur)
    decreases |x|
  {
    if x == [] {
      assert x + y == y;
      if y != [] {
        WordsAllSpace(y[1..]);
      }
    } else {
      assert (x + y)[0] == x[0] && (x + y)[1..] == x[1..] + y;
      if IsSpace(x[0]) {
        WordsTrailing(x[1..], y, []);
      } else {
        WordsTrailing(x[1..], y, cur + [x[0]]);
      }
    }
  }

  /** Trailing whitespace separates nothing. */
  lemma WordsTrimRight(s: string)
    ensures WordsFrom(TrimRight(s), []) == WordsFrom(s, [])
  {
    var r := TrimRight(s);
    assert s == r + s[|r|..];
    WordsTrailing(r, s[|r|..], []);
  }

  /** `s.strip().split() == s.split()`. */
  lemma WordsStrip(s: string)
    ensures Words(Strip(s)) == Words(s)
  {
    WordsTrimLeft(s);
    WordsTrimRight(TrimLeft(s));
    assert Strip(s) == TrimRight(TrimLeft(s));
  }

  /** `re.sub(r"\s+", " ", s).split() == s.split()`. */
  lemma {:induction false} WordsCollapse(s: string, cur: string)
    ensures WordsFrom(Collapse(s), cur) == WordsFrom(s, cur)
    decreases |s|
  {
    if s != [] {
      if IsSpace(s[0]) {
        var d := TrimLeft(s);
        var c := Collapse(d);
        assert Collapse(s) == " " + c;
        assert (" " + c)[0] == ' ' && (" " + c)[1..] == c;
        WordsCollapse(d, []);
        WordsTrimLeft(s[1..]);
      } else {
        var c := Collapse(s[1..]);
        assert Collapse(s) == [s[0]] + c;
        assert ([s[0]] + c)[0] == s[0] && ([s[0]] + c)[1..] == c;
        WordsCollapse(s[1..], cur + [s[0]]);
      }
    }
  }

  lemma {:induction false} WordsFromNonEmpty(s: string, cur: string)
    requires cur != []
    ensures WordsFrom(s, cur) != []
    decreases |s|
  {
    if s != [] && !IsSpace(s[0]) {
      WordsFromNonEmpty(s[1..], cur + [s[0]]);
    }
  }

  /** Every whitespace character is a ' ' followed by non-whitespace. */
  predicate SpacesBetween(t: string) {
    forall i :: 0 <= i < |t| && IsSpace(t[i]) ==> t[i] == ' ' && i + 1 < |t| && !IsSpace(t[i + 1])
  }

  lemma SpacesBetweenTail(t: string)
    requires t != [] && SpacesBetween(t)
    ensures SpacesBetween(t[1..])
  {
    var u := t[1..];
    forall i | 0 <= i < |u| && IsSpace(u[i])
      ensures u[i] == ' ' && i + 1 < |u| && !IsSpace(u[i + 1])
    {
      assert u[i] == t[i + 1];
    }
  }

  lemma JoinCons(x: string, w: seq<string>)
    requires w != []
    ensures Join(" ", [x] + w) == x + (" " + Join(" ", w))
  {
    assert ([x] + w)[1..] == w;
    AppendAssoc(x, " ", Join(" ", w));
  }

  /** A gap after the word in progress: the word is emitted, then the rest. */
  lemma JoinWordsGap(t: string, cur: string)
    requires cur != [] && |t| >= 2 && IsSpace(t[0]) && t[0] == ' ' && !IsSpace(t[1])
    requires Join(" ", WordsFrom(t[1..], [])) == t[1..]
    ensures Join(" ", WordsFrom(t, cur)) == cur + t
  {
    var u := t[1..];
    WordsFromNonEmpty(u[1..], [u[0]]);
    assert [] + [u[0]] == [u[0]];
    var w := WordsFrom(u, []);
    assert w == WordsFrom(u[1..], [u[0]]);
    assert WordsFrom(t, cur) == [cur] + w;
    JoinCons(cur, w);
    assert t == " " + u;
  }

  /** A letter extends the word in progress. */
  lemma JoinWordsLetter(t: string, cur: string)
    requires t != [] && !IsSpace(t[0])
    requires Join(" ", WordsFrom(t[1..], cur + [t[0]])) == cur + [t[0]] + t[1..]
    ensures Join(" ", WordsFrom(t, cur)) == cur + t
  {
    assert WordsFrom(t, cur) == WordsFrom(t[1..], cur + [t[0]]);
    assert t == [t[0]] + t[1..];
    AppendAssoc(cur, [t[0]], t[1..]);
  }

  /** Text whose whitespace is single ' ' characters, each between two
      non-whitespace characters, is the " "-join of its words. */
  lemma {:induction false} JoinWordsFrom(t: string, cur: string)
    requires NoSpace(cur)
    requires cur == [] ==> t == [] || !IsSpace(t[0])
    requires SpacesBetween(t)
    ensures Join(" ", WordsFrom(t, cur)) == cur + t
    decreases |t|
  {
    if t == [] {
      assert cur + t == cur;
    } else {
      SpacesBetweenTail(t);
      if IsSpace(t[0]) {
        JoinWordsFrom(t[1..], []);
        JoinWordsGap(t, cur);
      } else {
        NoSpaceSnoc(cur, t[0]);
        JoinWordsFrom(t[1..], cur + [t[0]]);
        JoinWordsLetter(t, cur);
      }
    }
  }

  /** Normalised text is `" ".join` of its words. */
  lemma NormalizedJoinWords(t: string)
    requires Normalized(t)
    ensures Join(" ", Words(t)) == t
  {
    JoinWordsFrom(t, []);
    assert [] + t == t;
  }

  /** The words of several lines, line after line. */
  function LinesWords(ls: seq<string>): seq<string> {
    if ls == [] then [] else Words(ls[0]) + LinesWords(ls[1..])
  }

  /** A space between two texts separates their words. */
  lemma {:induction false} WordsSpaceJoin(a: string, b: string, cur: string)
    ensures WordsFrom(a + (" " + b), cur) == WordsFrom(a, cur) + WordsFrom(b, [])
    decreases |a|
  {
    if a == [] {
      assert a + (" " + b) == " " + b;
      assert (" " + b)[0] == ' ' && (" " + b)[1..] == b;
    } else {
      assert (a + (" " + b))[0] == a[0] && (a + (" " + b))[1..] == a[1..] + (" " + b);
      if IsSpace(a[0]) {
        WordsSpaceJoin(a[1..], b, []);
        AppendAssoc(Flush(cur), WordsFrom(a[1..], []), WordsFrom(b, []));
      } else {
        WordsSpaceJoin(a[1..], b, cur + [a[0]]);
      }
    }
  }

  /** `" ".join(lines).split()` is the words of the lines, in order. */
  lemma {:induction false} WordsJoin(ls: seq<string>)
    ensures Words(Join(" ", ls)) == LinesWords(ls)
    decreases |ls|
  {
    if |ls| == 1 {
      assert LinesWords(ls) == Words(ls[0]) + LinesWords([]);
    } else if |ls| >= 2 {
      var rest := Join(" ", ls[1..]);
      assert Join(" ", ls) == ls[0] + " " + rest;
      AppendAssoc(ls[0], " ", rest);
      WordsSpaceJoin(ls[0], rest, []);
      WordsJoin(ls[1..]);
    }
  }

  // ---------------------------------------------------------------- lower

  function LowerChar(c: char): char {
    if 'A' <= c <= 'Z' then (c as int + 32) as char else c
  }

  /** `s.lower()` restricted to ASCII letters: exact on text whose only
      cased characters are ASCII letters. */
  function Lower(s: string): (r: string)
    ensures |r| == |s|
    ensures forall i :: 0 <= i < |s| ==> r[i] == LowerChar(s[i])
  {
    seq(|s|, i requires 0 <= i < |s| => LowerChar(s[i]))
  }
}
