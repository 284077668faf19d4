# News summariser core, in Dafny

The application fetches a news article and turns it into an extractive
summary. `get_article` picks the first usable result of three scrapers.
`clean_news_text` removes boiler-plate phrases and non-prose lines. The
summariser then proceeds in these steps:

1. `clean_text` splits the body into sentences and scrubs them.
2. `cnt_in_sent` and `freq_dict` count tokens and word frequencies per
   sentence.
3. `calc_TF`, `calc_IDF` and `calc_TFIDF` compute term statistics per
   (sentence id, word).
4. `sent_scores` sums each sentence's TF-IDF scores.
5. `summary` keeps the 3, 5 or 7 best sentences and joins them, in source
   order, with ". ".

`app.py` and `app2.py` behave identically along this chain, except in
`summary`:
- `app.py` looks the length up in a dict, so an unknown length raises
  `KeyError`;
- `app2.py` uses an `if`/`elif` chain that answers every unknown length
  with 7.

Modules, one per concern:

- `Strings`: the Python string built-ins the code uses, with their
  properties. These are `str.isspace`, `strip`, `split`, `join`, ASCII
  `lower`, and `re.sub(r"\s+", " ", ·).strip()`.
- `Extraction`: the `get_article` cascade. The scrapers' results are
  inputs.
- `NewsCleaner`: `clean_news_text`. It has the ten junk patterns under
  Python's `(?i)` folding, `re.sub` as a left-to-right delete, the line
  filter and the whitespace normalisation.
- `Segmenter`: `clean_text`.
- `Counting`: `cnt_in_sent` and `freq_dict`. A Python dict is a sequence
  of distinct `(word, count)` entries in insertion order.
- `TermStats`: `calc_TF`, `calc_IDF` and `calc_TFIDF`.
- `Scoring`: `sent_scores`.
- `StableSort`: Python's `sorted`. The model defines it as an insertion
  sort and proves it ascending, a permutation of its input and stable;
  `SortByUnique` shows that only one arrangement has all three
  properties, so it equals the result of any stable sort, Python's
  Timsort included. `reverse=True` is the same sort on the negated key.
- `Wrappers`: the `Option` type.
- `Summarizer`: both versions of `summary`.
- `Pipeline`: the chain from article body to summary text.

The loops of the source are methods with loop invariants. Each is proved
equal to a specification function, and the source's promises are lemmas
about those functions. NLTK's `word_tokenize` and `math.log` are function
parameters: no property depends on how they behave. Python floats are
`real`.

## Model

| member | source | states |
|---|---|---|
| Extraction.GetArticle | app.py:118-127 | The site-specific result when it exists with a body over 200 characters. Otherwise the readability result under the same test. Otherwise the generic result. |
| Extraction.GetArticleIsCascade | app.py:118-127 | `get_article` is the first accepted stage of the ordered list [custom, newspaper3k], with the generic scraper as fallback. |
| Extraction.ShortGenericStillReturned | app.py:125-127 | The generic result is returned even when it is short or empty, so the cascade never fails. |
| NewsCleaner.MatchLen | app.py:179-182 | The length of a junk pattern's match at the start of the text, 0 for none, never past the end. MatchLenShape, TenMatchShape and TenMatchFrom say which text it takes. |
| NewsCleaner.DeleteMatches | app.py:185 | `re.sub(pattern, "", text)` is never longer than the text. The DeleteMatches lemmas and DeleteAfterPrefix give its left-to-right, non-overlapping scan. |
| NewsCleaner.MatchLenShape | app.py:179-182 | A phrase pattern matches exactly where its letters occur under `(?i)` folding and is deleted whole. A match of `10\s+[a-zA-Z]+` is "10", then a run of whitespace, then a non-empty run of letters that the next character does not extend. Whenever "10" and a run of whitespace are followed by a letter, the pattern matches and takes exactly that whitespace run. |
| NewsCleaner.TenMatchShape | app.py:181 | A match of `10\s+[a-zA-Z]+` consists of "10", the whole whitespace run after it, and a maximal run of letters. |
| NewsCleaner.TenMatchFrom | app.py:181 | "10", any whitespace run and a letter start a match that takes exactly that whitespace run. |
| NewsCleaner.DeleteMatchesOnlyDeletes | app.py:184-185 | `re.sub(pattern, "", s)` only deletes: its result is a subsequence of `s`. |
| NewsCleaner.DeleteMatchesNoMatch | app.py:184-185 | Text where the pattern matches nowhere is left unchanged. |
| NewsCleaner.DeleteMatchesKeep | app.py:184-185 | The part before the first match is kept verbatim, and the scan continues on the rest. |
| NewsCleaner.DeleteAfterPrefix | app.py:184-185 | A match right after an unmatched prefix is deleted, and the scan resumes after it. |
| NewsCleaner.TenThenWordExample | app.py:181 | "said 10 men" becomes "said ". |
| NewsCleaner.TenThenWordInsideNumber | app.py:181 | The pattern is unanchored: "110 men" becomes "1". |
| NewsCleaner.CaselessExample | app.py:180 | Under `(?i)`, "TRENDING" is deleted completely. |
| NewsCleaner.KeepLinesAppend | app.py:187-192 | The line filter works line by line and keeps the survivors in source order. |
| NewsCleaner.CleanNewsEmpty | app.py:177-194 | Empty text gives "". |
| NewsCleaner.CleanNewsSpec | app.py:177-194 | The result is the words of the kept lines, line after line, joined by single spaces. So it is trimmed, its only whitespace is single ' ' characters, and the kept lines' non-whitespace is unchanged. Empty input yields "". |
| NewsCleaner.RemoveJunk | app.py:184-185 | The loop applies the ten patterns in list order, once each. The result is no longer than the input. |
| NewsCleaner.FilterLines | app.py:187-192 | The loop keeps exactly the stripped lines with at least 20 characters and at least three spaces, in order. Each kept line is trimmed. |
| NewsCleaner.CleanNewsText | app.py:177-194 | `clean_news_text` as run equals the composed specification. Its output is normalised, and "" maps to "". |
| Strings.Strip | app.py:190 | `strip()` yields text that neither starts nor ends with whitespace and is no longer than its input. StripSpec adds that it removes only whitespace. |
| Strings.Collapse | app.py:194 | `re.sub(r"\s+", " ", t)` is never longer than `t`. CollapseSpec states the rest. |
| Strings.CollapseSpec | app.py:194 | Every maximal whitespace run becomes exactly one ' '. The result is single-spaced, has the same words (`split()`) as `t`, and starts and ends with whitespace exactly when `t` does. |
| Strings.StripSpec | app.py:190 | `strip()` leaves no outer whitespace and removes only whitespace. |
| Strings.TidySpec | app.py:194 | `re.sub(r"\s+", " ", t).strip()` is `" ".join(t.split())`: the words of `t`, in order, joined by single spaces. It is normalised and has the same words and non-whitespace as `t`. |
| Strings.Tidy | app.py:194 | The same three facts, as the contract every caller sees: normalised, the same non-whitespace, and `" ".join(t.split())`. |
| Strings.Words | app.py:194 | `split()` with no argument, the reference that line's two operations are proved against. Every word it yields is non-empty and free of whitespace. |
| Strings.WordsStrip | app.py:194 | `t.strip().split() == t.split()`. |
| Strings.NormalizedJoinWords | app.py:194 | Normalised text is the `" "`-join of its own words. |
| Strings.WordsJoin | app.py:193 | `" ".join(lines).split()` is the words of each line, line after line. |
| Strings.Split | app.py:187 | `split(sep)` yields at least one piece, even for "". JoinSplit and SplitJoin make it the inverse of Join. |
| Strings.Join | app.py:193 | `sep.join(xs)` of a non-empty list starts with its first piece. JoinSplit and SplitJoin relate it to Split. |
| Strings.JoinSplit | app.py:202 | Joining the pieces of `split(sep)` with `sep` gives back the original text. |
| Strings.SplitJoin | app.py:254 | Splitting a `sep`-join of pieces without `sep[0]` (the last may end in it) gives back the pieces. |
| Segmenter.CleanFragment | app.py:203-207 | A scrubbed fragment is empty or a sentence. Sentences are non-empty, normalised, and built from ASCII letters, digits, the six Indic blocks and ' '. The result is the words of the scrubbed fragment, joined by single spaces, so its allowed non-whitespace characters are kept, in order. |
| Segmenter.CleanFragmentsAppend | app.py:202-208 | Fragments are cleaned independently, and sentences keep source order. |
| Segmenter.SegmentEmpty | app.py:200-209 | An empty body has no sentences. |
| Segmenter.SentenceHasNoDot | app.py:203-204 | No sentence contains '.'. |
| Segmenter.CleanText | app.py:200-209 | The loop yields the specified sentences. There are at most as many as ". "-pieces, each a sentence, and none for an empty body. The same code is app2.py:63-77. |
| Counting.CntInSent | app.py:211-212 | One record per sentence with ids 1..n in order, each holding its sentence's token count. |
| Counting.Tally | app.py:216-218 | The dict the inner loop of `freq_dict` builds. It has no contract of its own: TallySpec states its keys, counts and order, and CountTokens shows the loop builds it. |
| Counting.TallySpec | app.py:216-218 | The dict has one key per distinct token, in first-occurrence order. Each count is that token's number of occurrences, at least 1. The counts sum to the number of tokens. |
| Counting.CountTokens | app.py:216-218 | The inner loop builds that dict. Its keys are distinct and its total is the token count. |
| Strings.Lower | app.py:217 | `lower()` keeps the length and lowers each ASCII capital, leaving every other character as it is. |
| Counting.FreqList | app.py:213-220 | The list `freq_dict` returns has one record per sentence: record k has id k+1 and the table of sentence k. |
| Counting.FreqDict | app.py:213-220 | The loop builds exactly that list. Record k has id k+1 and the dict of the lower-cased sentence's tokens. Each dict has distinct keys, and its total is the token count. |
| TermStats.Denom | app.py:225 | `word_cnt or 1` is the count when that is non-zero, and 1 when it is 0. |
| TermStats.SentenceTotal | app.py:230 | `len(text_data) or 1` is the number of records when there are any, and 1 when there are none. |
| TermStats.CalcTF | app.py:221-227 | The loop emits count/denominator for each (id, word), in table and dict order. It emits exactly one record per pair of `freq_list`. |
| TermStats.DocFreq | app.py:233 | The number of tables holding the word is at most the number of tables, and at least 1 when some table holds it. |
| TermStats.DocFreqBounds | app.py:232-233 | A word's document frequency is between 1 and the number of tables, so the logarithm's argument is positive. |
| TermStats.CalcIDF | app.py:228-235 | The loop emits ln(N / (df + 1)) per (id, word), where N is `len(text_data) or 1` and df counts the tables holding the word. |
| TermStats.IdfLookup | app.py:237 | The lookup dict has exactly the (id, key) pairs of the IDF records as keys. IdfLookupDistinct gives each key its value. |
| TermStats.IdfLookupDistinct | app.py:237 | With distinct (id, word) keys, the lookup dict maps each key to its own record's IDF. |
| TermStats.JoinIsPositional | app.py:237-241 | When both lists carry the same distinct keys in the same order, the keyed lookup finds the same-position record. |
| TermStats.CalcTFIDF | app.py:236-242 | One record per TF record, in order. It scores TF times the looked-up IDF, and 0 when the key is missing. |
| TermStats.TfIdfIsProduct | app.py:236-242 | On lists keyed by the same distinct pairs, each TF-IDF score is the product of the TF and IDF scores at that position. |
| Scoring.ScoreOf | app.py:246 | A sentence's score is 0 when no TF-IDF record carries its id, and non-negative when every record's score is. |
| Scoring.ScoreOfAppend | app.py:246 | The per-sentence sum splits over concatenation. |
| Scoring.ScoreOfPermutation | app.py:246 | A sentence's score does not depend on the order of the TF-IDF records. |
| Scoring.ScoreOfOthers | app.py:246 | Records of other sentences contribute nothing. |
| Scoring.SentScores | app.py:243-248 | One record per `text_data` record, in order. Each holds the id, the sum of that id's TF-IDF scores, and `sentences[id - 1]`. |
| StableSort.SortBy | app.py:250 | `sorted` returns an ascending permutation of its input. |
| StableSort.SortByStable | app.py:250 | Records with equal keys keep their input order. |
| StableSort.SortByUnique | app.py:250 | An ascending arrangement that keeps every equal-key class in input order is the sorted result. |
| Summarizer.Ranked | app.py:250 | The ranking is a permutation of the records, with scores non-increasing. SortByStable and TiesGoToLowerIds settle ties. |
| Summarizer.PresetSize | app.py:251-252 | "Low" gives 3, "Medium" gives 5 and "High" gives 7. Every other length is a `KeyError`. |
| Summarizer.Render | app.py:254 | The rendered text always ends in '.'. RenderSplits recovers the sentences from it. |
| Summarizer.Summary | app.py:249-254 | `None` exactly for a `KeyError`. Otherwise the text ends in '.'. |
| Summarizer.SelectionIsTopK | app.py:250-252 | min(k, n) records are kept. The kept and dropped records together are the input. No dropped record outscores a kept one. |
| Summarizer.TiesGoToLowerIds | app.py:250-252 | Between equal scores, the stable descending sort keeps the lower id. |
| Summarizer.OrderedIsSelectionById | app.py:253 | The summary lists exactly the kept records, by ascending id. |
| Summarizer.OrderedStrictlyById | app.py:253 | With distinct increasing input ids, the listed ids strictly increase. |
| Summarizer.RenderSplits | app.py:254 | The text ends in '.'. Splitting what precedes that '.' at ". " gives back the sentences when none contains '.'. |
| Summarizer.EmptySummary | app.py:249-254 | With no sentences the summary is ".". |
| Summarizer.Summary2 | app2.py:156-167 | The text always ends in '.': this version never fails. |
| Summarizer.BranchSize | app2.py:159-164 | The size is 3 exactly for "Low", 5 exactly for "Medium", and 7 for every other length. |
| Summarizer.BranchSizeAgrees | app2.py:159-164 | The `if`/`elif` chain gives the table's size wherever the table has the key. It gives 7, the "High" size, for every other length. |
| Summarizer.Summary2Agrees | app2.py:156-167 | Both versions give the same text wherever app.py does not raise. app2.py answers every other length as "High". |
| Pipeline.ChosenIdsInOrder | app.py:249-254 | min(k, n) ids are chosen, each a valid sentence id, in strictly increasing order. |
| Pipeline.SummaryReadBack | app.py:249-254 | For numbered clean sentences, the summary splits back into exactly the chosen sentences in id order. |
| Pipeline.TermScores | app.py:346-348 | After TF, IDF and the keyed join, there is one record per (id, word), in visiting order. Each scores TF(id, word) times IDF(id, word). |
| Pipeline.SentenceTerms | app.py:344-348 | The token-count records are exactly `cnt_in_sent(sentences)`: numbered 1..n, each with its sentence's token count. The TF-IDF records are one per (id, word) of the `freq_dict` tables, in visiting order, each scored TF times IDF of that (id, word). |
| Pipeline.NumberedScores | app.py:349 | On records numbered 1..n, `sent_scores` gives record k sentence k and the sum of the TF-IDF scores of id k+1. |
| Pipeline.ScoreSentences | app.py:344-349 | The scoring chain numbers the sentences 1..n in order. Each scores the sum of its TF-IDF records, and each of those is TF times IDF for its (id, word). |
| Pipeline.ChosenSelected | app.py:250-253 | An id is listed exactly when the sentence it names survived the top-k cut. |
| Pipeline.ChosenOutscoreOthers | app.py:250-253 | Every listed sentence scores at least as high as every sentence left out. |
| Pipeline.SummaryOfSentences | app.py:351 | On the chain's output, `summary` yields "." for no sentences. Otherwise the picked ids are the ranking's chosen ids, none outscored by a sentence left out, and the text splits back into those sentences in source order. |
| Pipeline.Summarize | app.py:343-351 | From body to summary. The sentences are scored by their TF-IDF sums, and the result is `summary` of those scores. It is `None` exactly for an unknown length. Otherwise it ends in '.', and it is "." when the body has no sentences. Otherwise the text reads back as min(k, n) sentences of `clean_text(body)`, in source order, and no sentence left out scores higher than one kept. |

## Left out

- The scrapers (`scrape_custom`, `scrape_newspaper3k`, `scrape_generic` in app.py; `get_article_body` in app2.py): HTTP requests and HTML parsing. Their results are inputs of `GetArticle`. Because `scrape_generic` catches every exception and returns an article with empty text, it is modelled as an `Article`, not an `Option`.
- The Streamlit page, language detection, translation, text-to-speech and `nltk.download`: user interface and external services.
- NLTK's `word_tokenize` and `math.log`: these are parameters, so the model says nothing about how they split or what they compute.
- Python floats: modelled as exact `real` values, so rounding in `/`, `log` and the sums is not modelled.
- The regular-expression engine in general: only the patterns the core uses are modelled, each by hand.
- Strings.Lower: lowers ASCII letters only. It is exact on what `clean_text` emits (ASCII letters and digits, ' ' and the caseless Indic blocks), which is the only text `freq_dict` lowers in this chain.
- TermStats.CalcTF, Scoring.SentScores: the model requires every id to lie in 1..n, which is all that `freq_dict` and `cnt_in_sent` produce. In the source, an id above n raises `IndexError`. Id 0 reads the last record instead, because Python's index -1 counts from the end. Neither case is modelled.
- Summarizer.Summary: the `KeyError` is modelled as `None` rather than as an exception.
