/** remote/channel.go, text helpers of the page-channel job: number detection, entity
    suffix removal, case-insensitive keyword dedup, delimiters and whole-word
    containment. Text is ASCII, so a byte is a character. */
module ChannelText {
  import opened Util

  // ---------------------------------------------------------------- delimiters

  /** `isSpaceChar`: form feed, carriage return and shift-out (12, 13, 14). */
  predicate IsSpaceChar(c: char)
  {
    c as int == 12 || c as int == 13 || c as int == 14
  }

  /** The `delimiters` table. */
  const Delimiters: seq<char> :=
    ['?', ':', '!', '=', '(', ')', '[', ']', '{', '}', '\r', '\n', '\t', ' ', '"', '\'',
     '<', '>', ',', '.', '/', '\\', '+', '-', '*', '&', '|', '^', '%', ';']

  /** `isDelimiter`: a space character, '^', or one of the table. */
  predicate IsDelimiter(c: char)
  {
    IsSpaceChar(c) || c == '^' || c in Delimiters
  }

  /** A letter, a digit or '_'. */
  predicate WordChar(c: char)
  {
    'a' <= c <= 'z' || 'A' <= c <= 'Z' || '0' <= c <= '9' || c == '_'
  }

  /** Every entry of the table is an ASCII character that is not a word character. */
  lemma DelimiterTableIsPunctuation()
    ensures forall i :: 0 <= i < |Delimiters| ==> Delimiters[i] as int < 128 && !WordChar(Delimiters[i])
  {
  }

  /** Letters, digits and '_' never end a word; every delimiter is an ASCII control
      character or punctuation. */
  lemma WordCharsAreNotDelimiters(c: char)
    ensures WordChar(c) ==> !IsDelimiter(c)
    ensures IsDelimiter(c) ==> c as int < 128
  {
    if c in Delimiters {
      DelimiterTableIsPunctuation();
      var i :| 0 <= i < |Delimiters| && Delimiters[i] == c;
    }
  }

  // ---------------------------------------------------------------- whole-word containment

  /** `t` occurs in `s` at `p` with a boundary on each side. A side is a boundary at the
      edge of `s`, next to a delimiter of `s`, or when `t` itself starts (ends) with a
      delimiter. */
  predicate WholeAt(s: string, t: string, p: int)
  {
    && |t| > 0 && OccursAt(s, t, p)
    && (p == 0 || IsDelimiter(s[p - 1]) || IsDelimiter(t[0]))
    && (p + |t| == |s| || IsDelimiter(s[p + |t|]) || IsDelimiter(t[|t| - 1]))
  }

  /** Some occurrence of `t` at `p` or later in `s` is whole. */
  predicate WholeFrom(s: string, t: string, p: nat)
    decreases |s| - p
  {
    p + |t| <= |s| && (WholeAt(s, t, p) || WholeFrom(s, t, p + 1))
  }

  /** What `containWholeLowerString` decides: false for an empty `s`, true for an empty
      `t`, otherwise whether `t` occurs somewhere in `s` as a whole word. */
  predicate ContainsWhole(s: string, t: string)
  {
    |s| > 0 && (|t| == 0 || WholeFrom(s, t, 0))
  }

  /** The scan from `p` succeeds iff some position from `p` on holds a whole occurrence. */
  lemma {:induction false} WholeFromIff(s: string, t: string, p: nat)
    ensures WholeFrom(s, t, p) <==> exists q :: p <= q <= |s| - |t| && WholeAt(s, t, q)
    decreases |s| - p
  {
    if p + |t| <= |s| {
      WholeFromIff(s, t, p + 1);
      if !WholeAt(s, t, p) {
        assert forall q :: p <= q <= |s| - |t| && WholeAt(s, t, q) ==> p + 1 <= q;
      }
    }
  }

  lemma OccursShift(s: string, t: string, off: nat, q: nat)
    requires off <= |s|
    ensures OccursAt(s[off..], t, q) <==> OccursAt(s, t, off + q)
  {
    if 0 <= q && q + |t| <= |s| - off {
      assert s[off..][q..q + |t|] == s[off + q..off + q + |t|];
    }
  }

  /** The left-boundary test of `containWholeLowerString` at offset `p`. */
  method IsLeftBoundary(s: string, t: string, p: nat) returns (b: bool)
    requires p < |s| && |t| > 0
    ensures b == (p == 0 || IsDelimiter(s[p - 1]) || IsDelimiter(t[0]))
  {
    b := p == 0;
    if !b {
      b := IsDelimiter(s[p - 1]);
      if !b {
        b := IsDelimiter(t[0]);
      }
    }
  }

  /** The right-boundary test of `containWholeLowerString` for an occurrence at `p`. */
  method IsRightBoundary(s: string, t: string, p: nat) returns (b: bool)
    requires p + |t| <= |s| && |t| > 0
    ensures b == (p + |t| == |s| || IsDelimiter(s[p + |t|]) || IsDelimiter(t[|t| - 1]))
  {
    var rightOffset := p + |t| - 1;
    b := rightOffset + 1 == |s|;
    if !b {
      b := IsDelimiter(s[rightOffset + 1]);
      if !b {
        b := IsDelimiter(t[|t| - 1]);
      }
    }
  }

  /** `strings.Index` on the rest of `s` from `offset`, as a position in `s`: the first
      occurrence at or after `offset`, or -1 when there is none. */
  method NextOccurrence(s: string, t: string, offset: nat) returns (at: int)
    requires offset <= |s|
    ensures at < 0 ==> forall p :: offset <= p <= |s| - |t| ==> !OccursAt(s, t, p)
    ensures at >= 0 ==> offset <= at <= |s| - |t| && OccursAt(s, t, at)
    ensures at >= 0 ==> forall p :: offset <= p < at ==> !OccursAt(s, t, p)
  {
    var rel := IndexOf(s[offset..], t);
    if rel < 0 {
      forall p | offset <= p <= |s| - |t| ensures !OccursAt(s, t, p) {
        OccursShift(s, t, offset, p - offset);
      }
      return -1;
    }
    forall p | offset <= p < offset + rel ensures !OccursAt(s, t, p) {
      OccursShift(s, t, offset, p - offset);
    }
    OccursShift(s, t, offset, rel);
    at := offset + rel;
  }

  /** `containWholeLowerString`: scans the occurrences of `str1` left to right and stops
      at the first with a boundary on both sides. */
  method ContainWholeLowerString(str0: string, str1: string) returns (b: bool)
    ensures b == ContainsWhole(str0, str1)
  {
    if |str0| == 0 {
      return false;
    }
    if |str1| == 0 {
      return true;
    }
    var offset := 0;
    while true
      invariant 0 <= offset < |str0|
      invariant forall p :: 0 <= p < offset ==> !WholeAt(str0, str1, p)
      decreases |str0| - offset
    {
      var at := NextOccurrence(str0, str1, offset);
      if at < 0 {
        WholeFromIff(str0, str1, 0);
        return false;
      }
      offset := at;
      var leftIsBoundary := IsLeftBoundary(str0, str1, offset);
      if leftIsBoundary {
        var rightIsBoundary := IsRightBoundary(str0, str1, offset);
        if rightIsBoundary {
          assert WholeAt(str0, str1, offset);
          WholeFromIff(str0, str1, 0);
          return true;
        }
      }
      offset := offset + 1;
      if offset >= |str0| {
        WholeFromIff(str0, str1, 0);
        return false;
      }
    }
  }

  /** `containWholeString`: the same test on lower-cased copies. */
  method ContainWholeString(str0: string, str1: string) returns (b: bool)
    ensures b == ContainsWhole(ToLower(str0), ToLower(str1))
  {
    if |str0| == 0 {
      return false;
    }
    if |str1| == 0 {
      return true;
    }
    b := ContainWholeLowerString(ToLower(str0), ToLower(str1));
  }

  /** A whole-word match is in particular an occurrence. */
  lemma ContainsWholeOccurs(s: string, t: string)
    requires |t| > 0 && ContainsWhole(s, t)
    ensures IndexOf(s, t) >= 0
  {
    WholeFromIff(s, t, 0);
  }

  /** A non-empty text contains itself, and a word after a space is contained whole. */
  lemma ContainsWholeExamples(a: string, w: string)
    requires |a| > 0 && |w| > 0
    ensures ContainsWhole(a, a)
    ensures ContainsWhole(a + " " + w, w)
  {
    assert WholeAt(a, a, 0);
    var s := a + " " + w;
    assert s[|a| + 1..] == w;
    assert s[|a|] == ' ';
    assert WholeAt(s, w, |a| + 1);
    WholeFromIff(a, a, 0);
    WholeFromIff(s, w, 0);
  }

  /** Part of a word is not a whole word: "b" is not whole in "ab". */
  lemma PartOfWordIsNotWhole()
    ensures !ContainsWhole("ab", "b")
  {
    WordCharsAreNotDelimiters('a');
    WordCharsAreNotDelimiters('b');
    forall p | 0 <= p <= 1 ensures !WholeAt("ab", "b", p) {
      if p == 0 {
        assert "ab"[0] == 'a';
      }
    }
    WholeFromIff("ab", "b", 0);
  }

  // ---------------------------------------------------------------- numbers

  predicate IsDigitChar(c: char)
  {
    '0' <= c <= '9'
  }

  /** What `isNumber` accepts: a non-empty text of digits with at most one '.'. A lone
      "." is accepted. */
  predicate NumberText(s: string)
  {
    |s| > 0 && CountChar(s, '.') < 2 && forall i :: 0 <= i < |s| ==> s[i] == '.' || IsDigitChar(s[i])
  }

  lemma {:induction false} CountCharSnoc(s: string, c: char, x: char)
    ensures CountChar(s + [x], c) == CountChar(s, c) + (if x == c then 1 else 0)
    decreases |s|
  {
    if |s| > 0 {
      assert (s + [x])[1..] == s[1..] + [x];
      CountCharSnoc(s[1..], c, x);
    }
  }

  /** `isNumber`, scanning the runes and counting dots. */
  method IsNumber(str: string) returns (b: bool)
    ensures b == NumberText(str)
  {
    if |str| == 0 {
      return false;
    }
    var dotNumber := 0;
    var i := 0;
    while i < |str|
      invariant i <= |str|
      invariant dotNumber == CountChar(str[..i], '.') < 2
      invariant forall k :: 0 <= k < i ==> str[k] == '.' || IsDigitChar(str[k])
    {
      CountCharSnoc(str[..i], '.', str[i]);
      assert str[..i + 1] == str[..i] + [str[i]];
      if str[i] == '.' {
        dotNumber := dotNumber + 1;
        if dotNumber >= 2 {
          CountCharPrefix(str, '.', i + 1);
          return false;
        }
      } else if !IsDigitChar(str[i]) {
        return false;
      }
      i := i + 1;
    }
    assert str[..i] == str;
    return true;
  }

  /** A prefix never holds more of `c` than the whole text. */
  lemma {:induction false} CountCharPrefix(s: string, c: char, n: nat)
    requires n <= |s|
    ensures CountChar(s[..n], c) <= CountChar(s, c)
    decreases |s|
  {
    if n > 0 {
      assert s[..n][1..] == s[1..][..n - 1];
      CountCharPrefix(s[1..], c, n - 1);
    }
  }

  lemma NumberTextExamples()
    ensures NumberText("12") && NumberText("1.5") && NumberText(".")
    ensures !NumberText("") && !NumberText("1.2.3") && !NumberText("1a")
  {
    assert "1a"[1] == 'a';
    assert CountChar("1.2.3", '.') == 2;
  }

  // ---------------------------------------------------------------- entity suffixes

  /** The `entitySuffix` words. */
  const EntitySuffix: set<string> := {"Inc.", "Corp.", "Corporation", "Award", "Awards"}

  /** The words that are not entity suffixes, in order. */
  function KeptWords(words: seq<string>): seq<string>
    decreases |words|
  {
    if |words| == 0 then []
    else
      var last := words[|words| - 1];
      KeptWords(words[..|words| - 1]) + (if last in EntitySuffix then [] else [last])
  }

  /** Every kept word is a word of the input and not an entity suffix. */
  lemma {:induction false} KeptWordsMembers(words: seq<string>)
    ensures forall w :: w in KeptWords(words) ==> w in words && w !in EntitySuffix
    decreases |words|
  {
    if |words| > 0 {
      var init := words[..|words| - 1];
      KeptWordsMembers(init);
      assert words == init + [words[|words| - 1]];
    }
  }

  lemma {:induction false} KeptWordsIdentity(words: seq<string>)
    requires forall i :: 0 <= i < |words| ==> words[i] !in EntitySuffix
    ensures KeptWords(words) == words
    decreases |words|
  {
    if |words| > 0 {
      var init := words[..|words| - 1];
      forall i | 0 <= i < |init| ensures init[i] !in EntitySuffix {
        assert init[i] == words[i];
      }
      KeptWordsIdentity(init);
      assert words == init + [words[|words| - 1]];
    }
  }

  /** `words` without its leading empty words. */
  function DropLeadingEmpty(words: seq<string>): seq<string>
    decreases |words|
  {
    if |words| > 0 && words[0] == "" then DropLeadingEmpty(words[1..]) else words
  }

  /** What is left starts with a non-empty word and is a suffix of the input. */
  lemma {:induction false} DropLeadingEmptySuffix(words: seq<string>)
    ensures var r := DropLeadingEmpty(words);
      |r| <= |words| && r == words[|words| - |r|..] && (|r| > 0 ==> |r[0]| > 0)
    decreases |words|
  {
    if |words| > 0 && words[0] == "" {
      DropLeadingEmptySuffix(words[1..]);
    }
  }

  lemma {:induction false} DropLeadingEmptySnoc(words: seq<string>, w: string)
    ensures DropLeadingEmpty(words + [w]) ==
      if |DropLeadingEmpty(words)| == 0 then (if w == "" then [] else [w]) else DropLeadingEmpty(words) + [w]
    decreases |words|
  {
    if |words| > 0 {
      assert (words + [w])[1..] == words[1..] + [w];
      if words[0] == "" {
        DropLeadingEmptySnoc(words[1..], w);
      }
    }
  }

  lemma {:induction false} JoinSnoc(xs: seq<string>, w: string, sep: string)
    requires |xs| >= 1
    ensures Join(xs + [w], sep) == Join(xs, sep) + sep + w
    decreases |xs|
  {
    if |xs| > 1 {
      assert (xs + [w])[1..] == xs[1..] + [w];
      JoinSnoc(xs[1..], w, sep);
    }
  }

  /** What `removeEntity` returns: the words of `input` (split on single spaces) that
      are not entity suffixes, joined by single spaces, with the separator written only
      once some text has been written. */
  function EntityRemoved(input: string): string
  {
    Join(DropLeadingEmpty(KeptWords(Split(input, ' '))), " ")
  }

  /** The running result of the loop of `removeEntity` after a prefix of the words. */
  lemma EntityRemovedStep(kept: seq<string>, w: string)
    ensures var r := Join(DropLeadingEmpty(kept), " ");
      Join(DropLeadingEmpty(kept + [w]), " ") == if |r| > 0 then r + " " + w else r + w
  {
    DropLeadingEmptySnoc(kept, w);
    var d := DropLeadingEmpty(kept);
    DropLeadingEmptySuffix(kept);
    if |d| > 0 {
      JoinSnoc(d, w, " ");
      assert |Join(d, " ")| > 0 by {
        if |d| > 1 {
          assert Join(d, " ") == d[0] + " " + Join(d[1..], " ");
        }
      }
    }
  }

  /** `removeEntity`, building the result word by word. */
  method RemoveEntity(input: string) returns (result: string)
    ensures result == EntityRemoved(input)
  {
    var words := Split(input, ' ');
    result := "";
    var i := 0;
    while i < |words|
      invariant i <= |words|
      invariant result == Join(DropLeadingEmpty(KeptWords(words[..i])), " ")
    {
      var word := words[i];
      ghost var kept := KeptWords(words[..i]);
      assert words[..i + 1][..i] == words[..i];
      if word !in EntitySuffix {
        assert KeptWords(words[..i + 1]) == kept + [word];
        EntityRemovedStep(kept, word);
        if |result| > 0 {
          result := result + " ";
        }
        result := result + word;
      } else {
        assert KeptWords(words[..i + 1]) == kept;
      }
      i := i + 1;
    }
    assert words[..i] == words;
  }

  /** A text with no entity suffix and no leading space comes back unchanged. */
  lemma EntityRemovedIdentity(input: string)
    requires forall i :: 0 <= i < |Split(input, ' ')| ==> Split(input, ' ')[i] !in EntitySuffix
    requires |input| == 0 || input[0] != ' '
    ensures EntityRemoved(input) == input
  {
    var ws := Split(input, ' ');
    KeptWordsIdentity(ws);
    if |input| == 0 {
      EntityRemovedEmpty();
    } else {
      SplitFirstPiece(input, ' ');
      assert DropLeadingEmpty(ws) == ws;
      assert EntityRemoved(input) == Join(ws, " ");
      assert [' '] == " ";
      SplitJoin(input, ' ');
    }
  }

  lemma EntityRemovedEmpty()
    ensures EntityRemoved("") == ""
  {
    KeptWordsSingle("");
    DropLeadingEmptyOfEmpty();
    assert Split("", ' ') == [""];
  }

  /** A single word is kept unless it is an entity suffix. */
  lemma KeptWordsSingle(w: string)
    ensures KeptWords([w]) == if w in EntitySuffix then [] else [w]
  {
    var ws: seq<string> := [w];
    assert ws[..0] == [];
  }

  lemma DropLeadingEmptyOfEmpty()
    ensures DropLeadingEmpty([""]) == []
  {
    var ws: seq<string> := [""];
    assert ws[1..] == [];
  }

  /** A text that does not start with the separator has a non-empty first piece. */
  lemma SplitFirstPiece(s: string, sep: char)
    requires |s| > 0 && s[0] != sep
    ensures |Split(s, sep)[0]| > 0
  {
  }

  /** The words left after the suffixes and the leading empty words are dropped hold no
      space and are no entity suffix. */
  lemma RemovedWordsClean(input: string)
    ensures forall i :: 0 <= i < |DropLeadingEmpty(KeptWords(Split(input, ' ')))| ==>
      ' ' !in DropLeadingEmpty(KeptWords(Split(input, ' ')))[i]
      && DropLeadingEmpty(KeptWords(Split(input, ' ')))[i] !in EntitySuffix
  {
    var ws := Split(input, ' ');
    var kw := KeptWords(ws);
    var ys := DropLeadingEmpty(kw);
    SplitPiecesFree(input, ' ');
    KeptWordsMembers(ws);
    DropLeadingEmptySuffix(kw);
    forall i | 0 <= i < |ys| ensures ' ' !in ys[i] && ys[i] !in EntitySuffix {
      assert ys[i] == kw[|kw| - |ys| + i];
      assert ys[i] in kw;
      var j :| 0 <= j < |ws| && ws[j] == ys[i];
    }
  }

  /** The result's words are exactly the kept non-empty-led words: no entity suffix is
      left, and removing again changes nothing. */
  lemma EntityRemovedIdempotent(input: string)
    ensures forall w :: w in Split(EntityRemoved(input), ' ') ==> w !in EntitySuffix
    ensures EntityRemoved(EntityRemoved(input)) == EntityRemoved(input)
  {
    var kw := KeptWords(Split(input, ' '));
    var ys := DropLeadingEmpty(kw);
    var r := EntityRemoved(input);
    if |ys| == 0 {
      assert r == "";
      EntityRemovedEmpty();
    } else {
      RemovedWordsClean(input);
      DropLeadingEmptySuffix(kw);
      assert [' '] == " ";
      JoinSplit(ys, ' ');
      assert Split(r, ' ') == ys;
      KeptWordsIdentity(ys);
      assert ys[0] != "";
      assert DropLeadingEmpty(ys) == ys;
    }
  }

  // ---------------------------------------------------------------- keyword dedup

  /** The lower-case forms of `ks`. */
  function LowerForms(ks: seq<string>): set<string>
  {
    set i | 0 <= i < |ks| :: ToLower(ks[i])
  }

  lemma LowerFormsSnoc(xs: seq<string>, x: string)
    ensures LowerForms(xs + [x]) == LowerForms(xs) + {ToLower(x)}
  {
    var ys := xs + [x];
    forall y | y in LowerForms(ys) ensures y in LowerForms(xs) + {ToLower(x)} {
      var i :| 0 <= i < |ys| && y == ToLower(ys[i]);
      if i < |xs| {
        assert ys[i] == xs[i];
      }
    }
    forall y | y in LowerForms(xs) ensures y in LowerForms(ys) {
      var i :| 0 <= i < |xs| && y == ToLower(xs[i]);
      assert ys[i] == xs[i];
    }
    assert ToLower(ys[|xs|]) == ToLower(x);
  }

  /** The keywords `dedupKeywords` keeps from `ks`, with their scores: each keyword whose
      lower-case form was not seen earlier, in order. */
  function Dedup(ks: seq<string>, ss: seq<real>): (r: (seq<string>, seq<real>))
    requires |ss| >= |ks|
    ensures |r.0| == |r.1| <= |ks|
    decreases |ks|
  {
    if |ks| == 0 then ([], [])
    else
      var n := |ks| - 1;
      var prev := Dedup(ks[..n], ss);
      if ToLower(ks[n]) in LowerForms(ks[..n]) then prev else (prev.0 + [ks[n]], prev.1 + [ss[n]])
  }

  /** `dedupKeywords`. Go indexes `scores` by the keyword's position, so it needs at
      least as many scores as keywords. */
  method DedupKeywords(keywords: seq<string>, scores: seq<real>) returns (keywordsNew: seq<string>, scoresNew: seq<real>)
    requires |scores| >= |keywords|
    ensures (keywordsNew, scoresNew) == Dedup(keywords, scores)
  {
    keywordsNew := [];
    scoresNew := [];
    var existKeywords: set<string> := {};
    var i := 0;
    while i < |keywords|
      invariant i <= |keywords|
      invariant (keywordsNew, scoresNew) == Dedup(keywords[..i], scores)
      invariant existKeywords == LowerForms(keywords[..i])
    {
      var keyword := keywords[i];
      var score := scores[i];
      assert keywords[..i + 1][..i] == keywords[..i];
      assert keywords[..i + 1] == keywords[..i] + [keyword];
      LowerFormsSnoc(keywords[..i], keyword);
      if ToLower(keyword) !in existKeywords {
        keywordsNew := keywordsNew + [keyword];
        scoresNew := scoresNew + [score];
        existKeywords := existKeywords + {ToLower(keyword)};
      }
      i := i + 1;
    }
    assert keywords[..i] == keywords;
  }

  /** The kept keywords cover exactly the lower-case forms of the input. */
  lemma {:induction false} DedupForms(ks: seq<string>, ss: seq<real>)
    requires |ss| >= |ks|
    ensures LowerForms(Dedup(ks, ss).0) == LowerForms(ks)
    decreases |ks|
  {
    if |ks| > 0 {
      var n := |ks| - 1;
      var init := ks[..n];
      DedupForms(init, ss);
      var prev := Dedup(init, ss);
      assert ks == init + [ks[n]];
      LowerFormsSnoc(init, ks[n]);
      if ToLower(ks[n]) !in LowerForms(init) {
        LowerFormsSnoc(prev.0, ks[n]);
      }
    }
  }

  /** No two kept keywords have the same lower-case form. */
  lemma {:induction false} DedupDistinct(ks: seq<string>, ss: seq<real>)
    requires |ss| >= |ks|
    ensures var r := Dedup(ks, ss).0;
      forall i, j :: 0 <= i < j < |r| ==> ToLower(r[i]) != ToLower(r[j])
    decreases |ks|
  {
    if |ks| > 0 {
      var n := |ks| - 1;
      var init := ks[..n];
      DedupDistinct(init, ss);
      var prev := Dedup(init, ss).0;
      if ToLower(ks[n]) !in LowerForms(init) {
        DedupForms(init, ss);
        var r := prev + [ks[n]];
        forall i, j | 0 <= i < j < |r| ensures ToLower(r[i]) != ToLower(r[j]) {
          if j == |prev| {
            assert ToLower(prev[i]) in LowerForms(prev);
          } else {
            assert r[i] == prev[i] && r[j] == prev[j];
          }
        }
      }
    }
  }

  /** Each kept keyword comes from a position `idx[i]` of the input where its lower-case
      form appears for the first time, and carries that position's score; the positions
      strictly increase, so the kept keywords keep their input order. */
  lemma {:induction false} DedupFirst(ks: seq<string>, ss: seq<real>) returns (idx: seq<nat>)
    requires |ss| >= |ks|
    ensures var r := Dedup(ks, ss);
      && |idx| == |r.0|
      && (forall i :: 0 <= i < |idx| ==>
            idx[i] < |ks| && ks[idx[i]] == r.0[i] && ss[idx[i]] == r.1[i]
            && ToLower(ks[idx[i]]) !in LowerForms(ks[..idx[i]]))
      && (forall i, j :: 0 <= i < j < |idx| ==> idx[i] < idx[j])
    decreases |ks|
  {
    if |ks| == 0 {
      idx := [];
    } else {
      var n := |ks| - 1;
      var init := ks[..n];
      var prevIdx := DedupFirst(init, ss);
      var prev := Dedup(init, ss);
      var r := Dedup(ks, ss);
      forall i | 0 <= i < |prevIdx| ensures ks[..prevIdx[i]] == init[..prevIdx[i]] {
      }
      if ToLower(ks[n]) in LowerForms(init) {
        idx := prevIdx;
      } else {
        idx := prevIdx + [n];
        assert ks[..n] == init;
        forall i | 0 <= i < |idx| ensures idx[i] < |ks| && ks[idx[i]] == r.0[i] && ss[idx[i]] == r.1[i]
                                          && ToLower(ks[idx[i]]) !in LowerForms(ks[..idx[i]]) {
          if i < |prevIdx| {
            assert r.0[i] == prev.0[i] && r.1[i] == prev.1[i];
          }
        }
      }
    }
  }
}
