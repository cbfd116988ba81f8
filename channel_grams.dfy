/** remote/channel.go, n-gram side of the page-channel job: counting the 1- to 4-word
    phrases of a text, the candidate keyword list sent to the keyword service, and the
    per-page context whose term counts the channel filter consults. */
module ChannelGrams {
  import opened Util

  /** The separator written between the words of a phrase. */
  const GramSep: string := "^^"

  // ---------------------------------------------------------------- phrases

  /** Every word of the `n` words at `i` is at least two bytes long. */
  predicate GoodWindow(words: seq<string>, i: nat, n: nat)
    requires i + n <= |words|
  {
    forall k :: i <= k < i + n ==> |words[k]| >= 2
  }

  /** The `n` words at `i` joined by "^^". */
  function Phrase(words: seq<string>, i: nat, n: nat): string
    requires i + n <= |words|
  {
    Join(words[i..i + n], GramSep)
  }

  /** The number of windows of `n` words in `words`. */
  function Windows(words: seq<string>, n: nat): nat
  {
    if |words| + 1 >= n then |words| + 1 - n else 0
  }

  /** The phrases counted from the windows that start before `upto`. */
  function GramBag(words: seq<string>, n: nat, upto: nat): multiset<string>
    requires upto == 0 || upto + n <= |words| + 1
    decreases upto
  {
    if upto == 0 then multiset{}
    else
      var i := upto - 1;
      GramBag(words, n, i) + (if GoodWindow(words, i, n) then multiset{Phrase(words, i, n)} else multiset{})
  }

  /** Every phrase of `n` good words in `words`, with its number of occurrences. */
  function Grams(words: seq<string>, n: nat): multiset<string>
  {
    GramBag(words, n, Windows(words, n))
  }

  /** The count map a `count*ws` function returns. */
  function GramCounts(words: seq<string>, n: nat): map<string, nat>
  {
    map p | p in Grams(words, n) :: Grams(words, n)[p]
  }

  /** The window of `n` words at `i` is good and spells `p`. */
  predicate SpelledAt(words: seq<string>, n: nat, i: nat, p: string)
  {
    i + n <= |words| && GoodWindow(words, i, n) && Phrase(words, i, n) == p
  }

  /** A phrase is counted iff some window of good words spells it. */
  lemma GramBagMembers(words: seq<string>, n: nat, upto: nat, p: string)
    requires upto == 0 || upto + n <= |words| + 1
    ensures p in GramBag(words, n, upto) <==> exists i :: 0 <= i < upto && SpelledAt(words, n, i, p)
  {
    if p in GramBag(words, n, upto) {
      var i := GramBagWitness(words, n, upto, p);
    }
    forall i | 0 <= i < upto && SpelledAt(words, n, i, p) ensures p in GramBag(words, n, upto) {
      GramBagHas(words, n, upto, i, p);
    }
  }

  /** A window that spells `p` puts it in the bag. */
  lemma {:induction false} GramBagHas(words: seq<string>, n: nat, upto: nat, i: nat, p: string)
    requires upto + n <= |words| + 1
    requires i < upto && SpelledAt(words, n, i, p)
    ensures p in GramBag(words, n, upto)
    decreases upto
  {
    GramBagStep(words, n, upto, p);
    if i < upto - 1 {
      GramBagHas(words, n, upto - 1, i, p);
    }
  }

  /** A phrase in the bag is spelled by some window. */
  lemma {:induction false} GramBagWitness(words: seq<string>, n: nat, upto: nat, p: string) returns (i: nat)
    requires upto == 0 || upto + n <= |words| + 1
    requires p in GramBag(words, n, upto)
    ensures i < upto && SpelledAt(words, n, i, p)
    decreases upto
  {
    var j := upto - 1;
    GramBagStep(words, n, upto, p);
    if SpelledAt(words, n, j, p) {
      i := j;
    } else {
      assert p in GramBag(words, n, j);
      i := GramBagWitness(words, n, j, p);
    }
  }

  /** The window at `upto - 1` adds one copy of `p` when it spells `p`, and none otherwise. */
  lemma GramBagStep(words: seq<string>, n: nat, upto: nat, p: string)
    requires 0 < upto && upto + n <= |words| + 1
    ensures GramBag(words, n, upto)[p] == GramBag(words, n, upto - 1)[p] + if SpelledAt(words, n, upto - 1, p) then 1 else 0
  {
  }

  /** There are no more counted phrases than windows. */
  lemma {:induction false} GramBagSize(words: seq<string>, n: nat, upto: nat)
    requires upto == 0 || upto + n <= |words| + 1
    ensures |GramBag(words, n, upto)| <= upto
    decreases upto
  {
    if upto > 0 {
      GramBagSize(words, n, upto - 1);
    }
  }

  /** The total of the counts is at most `len(words) - (n - 1)`. */
  lemma GramsSize(words: seq<string>, n: nat)
    requires n >= 1
    ensures |Grams(words, n)| <= Windows(words, n)
    ensures |words| >= n - 1 ==> |Grams(words, n)| <= |words| - (n - 1)
  {
    GramBagSize(words, n, Windows(words, n));
  }

  /** Single words: each word of at least two bytes is counted once per occurrence, and
      shorter words are not counted. */
  lemma {:induction false} KwsCountOccurrences(words: seq<string>, upto: nat, w: string)
    requires upto <= |words|
    ensures GramBag(words, 1, upto)[w] == if |w| >= 2 then multiset(words[..upto])[w] else 0
    decreases upto
  {
    if upto > 0 {
      var i := upto - 1;
      KwsCountOccurrences(words, i, w);
      assert words[i..i + 1] == [words[i]];
      assert Phrase(words, i, 1) == words[i];
      assert words[..upto] == words[..i] + [words[i]];
    }
  }

  /** The phrases of two, three and four words are the words joined by "^^". */
  lemma PhraseOfTwo(words: seq<string>, i: nat)
    requires i + 2 <= |words|
    ensures Phrase(words, i, 2) == words[i] + "^^" + words[i + 1]
  {
    var xs := words[i..i + 2];
    assert xs[1..] == [words[i + 1]];
    assert Join(xs, GramSep) == xs[0] + GramSep + Join(xs[1..], GramSep);
  }

  lemma PhraseOfThree(words: seq<string>, i: nat)
    requires i + 3 <= |words|
    ensures Phrase(words, i, 3) == words[i] + "^^" + words[i + 1] + "^^" + words[i + 2]
  {
    var xs := words[i..i + 3];
    assert xs[1..] == words[i + 1..i + 3];
    PhraseOfTwo(words, i + 1);
    assert Join(xs, GramSep) == xs[0] + GramSep + Join(xs[1..], GramSep);
  }

  lemma PhraseOfFour(words: seq<string>, i: nat)
    requires i + 4 <= |words|
    ensures Phrase(words, i, 4) == words[i] + "^^" + words[i + 1] + "^^" + words[i + 2] + "^^" + words[i + 3]
  {
    var xs := words[i..i + 4];
    assert xs[1..] == words[i + 1..i + 4];
    PhraseOfThree(words, i + 1);
    assert Join(xs, GramSep) == xs[0] + GramSep + Join(xs[1..], GramSep);
  }

  /** A counted phrase is at least two bytes long: no count map has the empty word or a
      one-letter word as a key. */
  lemma PhraseLength(words: seq<string>, i: nat, n: nat)
    requires n >= 1 && i + n <= |words| && GoodWindow(words, i, n)
    ensures |Phrase(words, i, n)| >= 2
  {
    var xs := words[i..i + n];
    assert xs[0] == words[i];
    if |xs| > 1 {
      assert Join(xs, GramSep) == xs[0] + GramSep + Join(xs[1..], GramSep);
    }
  }

  /** `counts` holds the multiplicity of every member of `bag`, and nothing else. */
  ghost predicate CountsOf(counts: map<string, nat>, bag: multiset<string>)
  {
    forall p :: (p in counts <==> p in bag) && (p in counts ==> counts[p] == bag[p])
  }

  /** Adding one to a phrase's count (from zero when it is new) counts one more copy. */
  lemma CountsOfAdd(counts: map<string, nat>, bag: multiset<string>, phrase: string)
    requires CountsOf(counts, bag)
    ensures CountsOf(counts[phrase := (if phrase in counts then counts[phrase] else 0) + 1], bag + multiset{phrase})
  {
  }

  /** One window of the counting loop: a good window adds one to its phrase's count,
      from zero when the phrase is new; any other leaves the counts as they are. */
  method CountWindow(counts: map<string, nat>, words: seq<string>, n: nat, i: nat) returns (next: map<string, nat>)
    requires i + n <= |words|
    requires CountsOf(counts, GramBag(words, n, i))
    ensures CountsOf(next, GramBag(words, n, i + 1))
  {
    next := counts;
    if GoodWindow(words, i, n) {
      var phrase := Phrase(words, i, n);
      var count := if phrase in counts then counts[phrase] else 0;
      CountsOfAdd(counts, GramBag(words, n, i), phrase);
      next := counts[phrase := count + 1];
      assert GramBag(words, n, i + 1) == GramBag(words, n, i) + multiset{phrase};
    } else {
      assert GramBag(words, n, i + 1) == GramBag(words, n, i);
    }
  }

  /** A map that counts exactly the phrases is the count map. */
  lemma CountsOfIsGramCounts(counts: map<string, nat>, words: seq<string>, n: nat)
    requires CountsOf(counts, Grams(words, n))
    ensures counts == GramCounts(words, n)
  {
    assert counts.Keys == GramCounts(words, n).Keys;
  }

  /** `countKws`, `countBws`, `countTws` and `countQws` share one loop over the windows of
      `n` words; a window of good words adds one to its phrase's count. */
  method CountGrams(words: seq<string>, n: nat) returns (counts: map<string, nat>)
    requires n >= 1
    ensures CountsOf(counts, Grams(words, n))
  {
    counts := map[];
    var i := 0;
    while i + n <= |words|
      invariant i <= Windows(words, n)
      invariant CountsOf(counts, GramBag(words, n, i))
      decreases |words| - i
    {
      counts := CountWindow(counts, words, n, i);
      i := i + 1;
    }
    assert i == Windows(words, n);
  }

  method CountKws(words: seq<string>) returns (kws: map<string, nat>)
    ensures kws == GramCounts(words, 1)
  {
    kws := CountGrams(words, 1);
    CountsOfIsGramCounts(kws, words, 1);
  }

  method CountBws(words: seq<string>) returns (bws: map<string, nat>)
    ensures bws == GramCounts(words, 2)
  {
    bws := CountGrams(words, 2);
    CountsOfIsGramCounts(bws, words, 2);
  }

  method CountTws(words: seq<string>) returns (tws: map<string, nat>)
    ensures tws == GramCounts(words, 3)
  {
    tws := CountGrams(words, 3);
    CountsOfIsGramCounts(tws, words, 3);
  }

  method CountQws(words: seq<string>) returns (qws: map<string, nat>)
    ensures qws == GramCounts(words, 4)
  {
    qws := CountGrams(words, 4);
    CountsOfIsGramCounts(qws, words, 4);
  }

  /** Every count in a count map is at least one, and its keys are exactly the phrases of
      good windows. */
  lemma GramCountsKeys(words: seq<string>, n: nat, p: string)
    requires n >= 1
    ensures p in GramCounts(words, n) ==> GramCounts(words, n)[p] >= 1
    ensures p in GramCounts(words, n) <==> exists i :: 0 <= i < Windows(words, n) && SpelledAt(words, n, i, p)
  {
    GramBagMembers(words, n, Windows(words, n), p);
  }

  // ---------------------------------------------------------------- candidate keywords

  /** The words of a text: the three characters `\s+` are replaced by a space (Go's
      `strings.ReplaceAll` takes them literally, not as a pattern), then the text is split
      on single spaces. */
  function TextWords(text: string): seq<string>
  {
    Split(ReplaceAll(text, "\\s+", " "), ' ')
  }

  /** The phrases of one to four words of `words`. */
  function GramKeys(words: seq<string>): set<string>
  {
    GramCounts(words, 1).Keys + GramCounts(words, 2).Keys + GramCounts(words, 3).Keys + GramCounts(words, 4).Keys
  }

  /** The keys `getKwsCandidate` collects: those of the title and those of the content,
      each only when that text is not empty. */
  function Candidates(title: string, content: string): set<string>
  {
    (if |title| > 0 then GramKeys(TextWords(title)) else {})
      + (if |content| > 0 then GramKeys(TextWords(content)) else {})
  }

  /** The four counts of one text, merged into the key set. */
  method AddGramKeys(keywords: set<string>, text: string) returns (r: set<string>)
    ensures r == keywords + GramKeys(TextWords(text))
  {
    var words := TextWords(text);
    var kws := CountKws(words);
    var bws := CountBws(words);
    var tws := CountTws(words);
    var qws := CountQws(words);
    r := keywords + kws.Keys + bws.Keys + tws.Keys + qws.Keys;
  }

  /** Go's `range` over a set-valued map, appending each key: a listing of the set. */
  method ListKeys(keywords: set<string>) returns (result: seq<string>)
    ensures Enumerates(result, keywords)
  {
    result := [];
    var remaining := keywords;
    while remaining != {}
      invariant remaining <= keywords
      invariant Enumerates(result, keywords - remaining)
      decreases remaining
    {
      var keyword :| keyword in remaining;
      EnumeratesVisit(result, keywords, remaining, keyword);
      result := result + [keyword];
      remaining := remaining - {keyword};
    }
    assert keywords - remaining == keywords;
  }

  /** `getKwsCandidate`: the keys of the title's and the content's count maps, listed
      once each in Go's map order. */
  method GetKwsCandidate(title: string, content: string) returns (result: seq<string>)
    ensures Enumerates(result, Candidates(title, content))
  {
    var keywords: set<string> := {};
    if |title| > 0 {
      keywords := AddGramKeys(keywords, title);
    }
    if |content| > 0 {
      keywords := AddGramKeys(keywords, content);
    }
    result := ListKeys(keywords);
  }

  /** A key of a text is a phrase of one to four good words of it. */
  lemma GramKeysIff(words: seq<string>, p: string)
    ensures p in GramKeys(words) <==> exists n, i :: 1 <= n <= 4 && 0 <= i < Windows(words, n) && SpelledAt(words, n, i, p)
  {
    GramCountsKeys(words, 1, p);
    GramCountsKeys(words, 2, p);
    GramCountsKeys(words, 3, p);
    GramCountsKeys(words, 4, p);
    if exists n, i :: 1 <= n <= 4 && 0 <= i < Windows(words, n) && SpelledAt(words, n, i, p) {
      var n, i :| 1 <= n <= 4 && 0 <= i < Windows(words, n) && SpelledAt(words, n, i, p);
      assert n == 1 || n == 2 || n == 3 || n == 4;
    }
  }

  /** A one-letter word is never a candidate. */
  lemma ShortWordNoCandidate(title: string, content: string, p: string)
    requires |p| < 2
    ensures p !in Candidates(title, content)
  {
    forall words: seq<string> | true ensures p !in GramKeys(words) {
      GramKeysIff(words, p);
      if p in GramKeys(words) {
        var n, i :| 1 <= n <= 4 && 0 <= i < Windows(words, n) && SpelledAt(words, n, i, p);
        PhraseLength(words, i, n);
      }
    }
  }

  // ---------------------------------------------------------------- page context

  /** `PageContext`, without the embedding vector. */
  datatype PageContext = PageContext(
    segTitle: string, segContent: string,
    contentKws: map<string, nat>, contentBws: map<string, nat>, contentSize: int,
    titleKws: map<string, nat>, titleBws: map<string, nat>, titleSize: int,
    keywords: seq<string>, scores: seq<real>,
    channels: seq<string>, scChannels: seq<real>)

  /** `NewPageContext`: the texts and keywords given, every count map empty, both sizes
      zero and no channels yet. */
  function NewPageContext(segTitle: string, segContent: string, keywords: seq<string>, scores: seq<real>): (c: PageContext)
    ensures c.contentKws == map[] && c.contentBws == map[] && c.titleKws == map[] && c.titleBws == map[]
    ensures c.contentSize == 0 && c.titleSize == 0
    ensures c.segTitle == segTitle && c.segContent == segContent && c.keywords == keywords && c.scores == scores
    ensures c.channels == [] && c.scChannels == []
  {
    PageContext(segTitle, segContent, map[], map[], 0, map[], map[], 0, keywords, scores, [], [])
  }

  /** A count read with Go's zero value for a missing key. */
  function CountOf(m: map<string, nat>, term: string): nat
  {
    if term in m then m[term] else 0
  }

  /** `getTitleTermFrequency`: the term's single-word count plus its two-word count in
      the title. */
  function TitleTermFrequency(term: string, c: PageContext): nat
  {
    CountOf(c.titleKws, term) + CountOf(c.titleBws, term)
  }

  /** `getContentTermFrequency`: the same for the content. */
  function ContentTermFrequency(term: string, c: PageContext): nat
  {
    CountOf(c.contentKws, term) + CountOf(c.contentBws, term)
  }

  /** The counting that opens `rankChannels`: the word count and the single-word and
      two-word counts of the title and of the content, each only when that text is not
      empty. */
  function CountPage(c: PageContext): PageContext
  {
    var titled :=
      if |c.segTitle| > 0 then
        var words := TextWords(c.segTitle);
        c.(titleSize := |words|, titleKws := GramCounts(words, 1), titleBws := GramCounts(words, 2))
      else c;
    if |c.segContent| > 0 then
      var words := TextWords(c.segContent);
      titled.(contentSize := |words|, contentKws := GramCounts(words, 1), contentBws := GramCounts(words, 2))
    else titled
  }

  /** Once a fresh page is counted, a term has a content frequency exactly when the content
      is not empty and a window of one or two good words of it spells the term. A page
      without content text has no content frequency at all. */
  lemma CountedContentFrequency(segTitle: string, segContent: string, keywords: seq<string>,
                                scores: seq<real>, term: string)
    ensures var c := CountPage(NewPageContext(segTitle, segContent, keywords, scores));
      ContentTermFrequency(term, c) != 0 <==>
        |segContent| > 0
        && exists n, i :: 1 <= n <= 2 && 0 <= i < Windows(TextWords(segContent), n)
                          && SpelledAt(TextWords(segContent), n, i, term)
  {
    if |segContent| > 0 {
      var words := TextWords(segContent);
      GramCountsKeys(words, 1, term);
      GramCountsKeys(words, 2, term);
      if exists n, i :: 1 <= n <= 2 && 0 <= i < Windows(words, n) && SpelledAt(words, n, i, term) {
        var n, i :| 1 <= n <= 2 && 0 <= i < Windows(words, n) && SpelledAt(words, n, i, term);
        assert n == 1 || n == 2;
      }
    }
  }

  /** Every count of `m` is at least one, as in a map built by counting. */
  predicate Counted(m: map<string, nat>)
  {
    forall k :: k in m ==> m[k] >= 1
  }

  /** With counted maps a frequency is zero exactly when neither map has the term. */
  lemma FrequencyZeroIffAbsent(term: string, c: PageContext)
    requires Counted(c.titleKws) && Counted(c.titleBws) && Counted(c.contentKws) && Counted(c.contentBws)
    ensures TitleTermFrequency(term, c) == 0 <==> term !in c.titleKws && term !in c.titleBws
    ensures ContentTermFrequency(term, c) == 0 <==> term !in c.contentKws && term !in c.contentBws
  {
  }

  /** Count maps built by `CountGrams` are counted. */
  lemma GramCountsCounted(words: seq<string>, n: nat)
    requires n >= 1
    ensures Counted(GramCounts(words, n))
  {
    forall p | p in GramCounts(words, n) ensures GramCounts(words, n)[p] >= 1 {
      GramCountsKeys(words, n, p);
    }
  }

  /** One word is found in the page: in the title or the content, as written or lower-cased. */
  predicate AppearsInPage(word: string, c: PageContext)
  {
    || TitleTermFrequency(word, c) != 0 || ContentTermFrequency(word, c) != 0
    || TitleTermFrequency(ToLower(word), c) != 0 || ContentTermFrequency(ToLower(word), c) != 0
  }

  /** What `areAllWordsAppearInPage` decides: a non-empty input, a page, and every piece of
      the input between single spaces found in the page. */
  predicate AllWordsAppearInPage(input: string, c: Option<PageContext>)
  {
    |input| > 0 && c.Some? && forall w :: w in Split(input, ' ') ==> AppearsInPage(w, c.value)
  }

  /** What `areAllWordsAppearInPageContent` decides: the same, looking only at the content
      and only at the word as written. */
  predicate AllWordsAppearInPageContent(input: string, c: Option<PageContext>)
  {
    |input| > 0 && c.Some? && AllInContent(Split(input, ' '), c.value)
  }

  /** Every word of `words`, in order, has a non-zero content frequency. */
  predicate AllInContent(words: seq<string>, c: PageContext)
    decreases |words|
  {
    |words| == 0 || (ContentTermFrequency(words[0], c) != 0 && AllInContent(words[1..], c))
  }

  /** The scan of the words succeeds iff every word is found in the content. */
  lemma {:induction false} AllInContentIff(words: seq<string>, c: PageContext)
    ensures AllInContent(words, c) <==> forall w :: w in words ==> ContentTermFrequency(w, c) != 0
    decreases |words|
  {
    if |words| > 0 {
      AllInContentIff(words[1..], c);
      assert words == [words[0]] + words[1..];
    }
  }

  /** `areAllWordsAppearInPage`, stopping at the first word not found. */
  method AreAllWordsAppearInPage(input: string, c: Option<PageContext>) returns (b: bool)
    ensures b == AllWordsAppearInPage(input, c)
  {
    if |input| == 0 || c.None? {
      return false;
    }
    var words := Split(input, ' ');
    var i := 0;
    while i < |words|
      invariant i <= |words|
      invariant forall k :: 0 <= k < i ==> AppearsInPage(words[k], c.value)
    {
      var word := words[i];
      if TitleTermFrequency(word, c.value) == 0 && ContentTermFrequency(word, c.value) == 0
         && TitleTermFrequency(ToLower(word), c.value) == 0 && ContentTermFrequency(ToLower(word), c.value) == 0 {
        assert word in words && !AppearsInPage(word, c.value);
        return false;
      }
      i := i + 1;
    }
    return true;
  }

  /** `areAllWordsAppearInPageContent`, stopping at the first word not found. */
  method AreAllWordsAppearInPageContent(input: string, c: Option<PageContext>) returns (b: bool)
    ensures b == AllWordsAppearInPageContent(input, c)
  {
    if |input| == 0 || c.None? {
      return false;
    }
    var words := Split(input, ' ');
    var i := 0;
    while i < |words|
      invariant i <= |words|
      invariant AllInContent(words, c.value) == AllInContent(words[i..], c.value)
    {
      if ContentTermFrequency(words[i], c.value) == 0 {
        return false;
      }
      assert words[i..][1..] == words[i + 1..];
      i := i + 1;
    }
    return true;
  }

  /** Found in the content means found in the page. */
  lemma ContentImpliesPage(input: string, c: Option<PageContext>)
    ensures AllWordsAppearInPageContent(input, c) ==> AllWordsAppearInPage(input, c)
  {
    if c.Some? {
      AllInContentIff(Split(input, ' '), c.value);
    }
  }

  /** With counted maps, the content test holds iff every piece is a key of the content's
      single-word or two-word counts. */
  lemma ContentTestIsMembership(input: string, c: PageContext)
    requires Counted(c.contentKws) && Counted(c.contentBws)
    ensures AllWordsAppearInPageContent(input, Some(c)) <==>
      |input| > 0 && forall w :: w in Split(input, ' ') ==> w in c.contentKws || w in c.contentBws
  {
    AllInContentIff(Split(input, ' '), c);
  }

  /** A context fresh from `NewPageContext` has empty count maps, so no input passes
      either test until the page is counted. */
  lemma FreshContextFindsNothing(input: string, segTitle: string, segContent: string,
                                 keywords: seq<string>, scores: seq<real>)
    ensures !AllWordsAppearInPage(input, Some(NewPageContext(segTitle, segContent, keywords, scores)))
    ensures !AllWordsAppearInPageContent(input, Some(NewPageContext(segTitle, segContent, keywords, scores)))
  {
    var ws := Split(input, ' ');
    assert ws[0] in ws;
    AllInContentIff(ws, NewPageContext(segTitle, segContent, keywords, scores));
  }
}
