/** remote/channel.go, the ranking side of the page-channel job: `sortMap`, which
    orders a score map by descending score with an exchange sort, and `filterChannels`,
    which trims the ranked channels to a clean, non-overlapping list. */
module ChannelRank {
  import opened Util
  import opened Constant
  import opened ChannelText
  import opened ChannelGrams

  // ---------------------------------------------------------------- sortMap

  /** Go's `m[k]` on a score map: the zero value for a missing key. */
  function ScoreOf(m: map<string, real>, k: string): real
  {
    if k in m then m[k] else 0.0
  }

  /** Scores never increase along `keys`. */
  ghost predicate SortedByScore(keys: seq<string>, m: map<string, real>)
  {
    forall i, j :: 0 <= i < j < |keys| ==> ScoreOf(m, keys[i]) >= ScoreOf(m, keys[j])
  }

  /** Every key before position `i` scores at least as high as every key from `i` on. */
  ghost predicate PrefixDominates(s: seq<string>, m: map<string, real>, i: nat)
  {
    forall p, q :: 0 <= p < i <= q < |s| ==> ScoreOf(m, s[p]) >= ScoreOf(m, s[q])
  }

  /** The key at `i` scores at least as high as every key strictly between `i` and `j`. */
  ghost predicate HeadDominates(s: seq<string>, m: map<string, real>, i: nat, j: nat)
    requires i < |s|
  {
    forall q :: i < q < j && q < |s| ==> ScoreOf(m, s[i]) >= ScoreOf(m, s[q])
  }

  /** One turn of the inner loop: swapping in a higher-scoring key at `j` (or leaving a
      lower one) extends the head's dominance past `j` and keeps the prefix's. */
  lemma SwapStep(s: seq<string>, m: map<string, real>, i: nat, j: nat)
    requires i < j < |s|
    requires PrefixDominates(s, m, i) && HeadDominates(s, m, i, j)
    ensures var t := if ScoreOf(m, s[i]) < ScoreOf(m, s[j]) then s[i := s[j]][j := s[i]] else s;
      PrefixDominates(t, m, i) && HeadDominates(t, m, i, j + 1)
  {
  }

  /** A head that dominates the rest extends a sorted, dominating prefix by one. */
  lemma ExtendSorted(s: seq<string>, m: map<string, real>, i: nat)
    requires i < |s|
    requires SortedByScore(s[..i], m) && PrefixDominates(s, m, i) && HeadDominates(s, m, i, |s|)
    ensures SortedByScore(s[..i + 1], m) && PrefixDominates(s, m, i + 1)
  {
  }

  /** The nested loops of `sortMap`: for each position in turn, every later key with a
      higher score is swapped into it. */
  method ExchangeSort(a: array<string>, m: map<string, real>)
    modifies a
    ensures multiset(a[..]) == multiset(old(a[..]))
    ensures SortedByScore(a[..], m)
  {
    var i := 0;
    while i < a.Length
      invariant 0 <= i <= a.Length
      invariant multiset(a[..]) == multiset(old(a[..]))
      invariant SortedByScore(a[..i], m) && PrefixDominates(a[..], m, i)
    {
      SwapInLargest(a, m, i);
      ExtendSorted(a[..], m, i);
      i := i + 1;
    }
    assert a[..a.Length] == a[..];
  }

  /** The inner loop of `sortMap`: position `i` ends up holding a highest score among
      positions `i` onwards; the positions before `i` are not touched. */
  method SwapInLargest(a: array<string>, m: map<string, real>, i: nat)
    requires i < a.Length
    requires PrefixDominates(a[..], m, i)
    modifies a
    ensures a[..i] == old(a[..i])
    ensures multiset(a[..]) == multiset(old(a[..]))
    ensures PrefixDominates(a[..], m, i) && HeadDominates(a[..], m, i, a.Length)
  {
    var j := i + 1;
    while j < a.Length
      invariant i < j <= a.Length
      invariant a[..i] == old(a[..i])
      invariant multiset(a[..]) == multiset(old(a[..]))
      invariant PrefixDominates(a[..], m, i) && HeadDominates(a[..], m, i, j)
    {
      SwapStep(a[..], m, i, j);
      if ScoreOf(m, a[i]) < ScoreOf(m, a[j]) {
        Swap(a, i, j);
      }
      j := j + 1;
    }
  }

  /** `keys[i], keys[j] = keys[j], keys[i]`. */
  method Swap(a: array<string>, i: nat, j: nat)
    requires i < j < a.Length
    modifies a
    ensures a[..] == old(a[..])[i := old(a[j])][j := old(a[i])]
    ensures a[..i] == old(a[..i])
    ensures multiset(a[..]) == multiset(old(a[..]))
  {
    a[i], a[j] := a[j], a[i];
  }

  /** A sequence is free of repeats iff each element occurs at most once in its multiset. */
  lemma {:induction false} DistinctByCounts(s: seq<string>)
    ensures Distinct(s) <==> forall x :: multiset(s)[x] <= 1
    decreases |s|
  {
    if |s| > 0 {
      var n := |s| - 1;
      var init := s[..n];
      DistinctByCounts(init);
      assert s == init + [s[n]];
      assert multiset(s) == multiset(init) + multiset{s[n]};
      if Distinct(s) {
        assert Distinct(init) by {
          forall i, j | 0 <= i < j < |init| ensures init[i] != init[j] {
            assert init[i] == s[i] && init[j] == s[j];
          }
        }
        forall x ensures multiset(s)[x] <= 1 {
          if x == s[n] {
            assert multiset(init)[x] == 0;
          }
        }
      } else {
        var i, j :| 0 <= i < j < |s| && s[i] == s[j];
        var x := s[i];
        if j < n {
          assert init[i] == init[j];
          assert !Distinct(init);
          var y :| multiset(init)[y] > 1;
          assert multiset(s)[y] > 1;
        } else {
          assert x in init by { assert init[i] == x; }
          assert multiset(s)[x] == multiset(init)[x] + 1;
        }
      }
    }
  }

  /** Reordering a listing of a set gives a listing of the same set. */
  lemma PermutedEnumeration(xs: seq<string>, ys: seq<string>, keys: set<string>)
    requires Enumerates(xs, keys) && multiset(xs) == multiset(ys)
    ensures Enumerates(ys, keys)
  {
    DistinctByCounts(xs);
    DistinctByCounts(ys);
    forall x ensures x in ys <==> x in keys {
      assert x in ys <==> x in multiset(ys);
      assert x in xs <==> x in multiset(xs);
    }
  }

  /** `sortMap`: the keys, gathered in Go's map order and exchange-sorted in place by
      descending score, and their scores. */
  method SortMap(m: map<string, real>) returns (keys: seq<string>, values: seq<real>)
    ensures Enumerates(keys, m.Keys)
    ensures SortedByScore(keys, m)
    ensures |values| == |keys| && forall i :: 0 <= i < |keys| ==> keys[i] in m && values[i] == m[keys[i]]
  {
    var listed := ListKeys(m.Keys);
    var a := new string[|listed|];
    forall t | 0 <= t < a.Length {
      a[t] := listed[t];
    }
    assert a[..] == listed;
    ExchangeSort(a, m);
    keys := a[..];
    PermutedEnumeration(listed, keys, m.Keys);
    values := [];
    var i := 0;
    while i < |keys|
      invariant i <= |keys|
      invariant |values| == i && forall t :: 0 <= t < i ==> values[t] == m[keys[t]]
    {
      assert keys[i] in keys;
      values := values + [m[keys[i]]];
      i := i + 1;
    }
  }

  // ---------------------------------------------------------------- filterChannels

  /** `scoreThreshold`: the scan stops at the first score not above it. */
  const ScoreThreshold: real := 0.2

  /** One of two channels contains the other as a whole word, ignoring case. */
  predicate Overlap(x: string, y: string)
  {
    ContainsWhole(ToLower(x), ToLower(y)) || ContainsWhole(ToLower(y), ToLower(x))
  }

  /** `chn` overlaps some channel already kept. */
  predicate OverlapsAny(kept: seq<string>, chn: string)
  {
    exists k :: 0 <= k < |kept| && Overlap(kept[k], chn)
  }

  /** The channel names of an entity whose other words the page content does not
      contain: removing the entity suffixes changes the name and the rest is not all
      found in the content. */
  predicate UnsupportedEntity(chn: string, c: PageContext)
  {
    EntityRemoved(chn) != chn && !AllWordsAppearInPageContent(EntityRemoved(chn), Some(c))
  }

  /** The kept channels and scores, the names seen so far, and whether the scan stopped. */
  datatype FilterState = FilterState(out: seq<string>, scores: seq<real>, seen: set<string>, stopped: bool)

  /** One turn of the loop of `filterChannels` on the channel `chn` with score `score`.
      It specifies the method `FilterTurn`; `StepCases` and `FilteredSources` state what
      the turn and the whole scan keep. */
  function FilterStep(c: PageContext, blackList: set<string>, st: FilterState, chn: string, score: real): FilterState
  {
    if st.stopped then st
    else if score <= ScoreThreshold then st.(stopped := true)
    else if chn in st.seen then st
    else if ToLower(chn) in blackList || UnsupportedEntity(chn, c) || OverlapsAny(st.out, ReplaceSpace(chn))
    then st.(seen := st.seen + {chn})
    else FilterState(st.out + [ReplaceSpace(chn)], st.scores + [score], st.seen + {chn}, false)
  }

  /** The state after the first `n` ranked channels. */
  function Filtered(c: PageContext, blackList: set<string>, n: nat): FilterState
    requires n <= |c.channels| <= |c.scChannels|
    decreases n
  {
    if n == 0 then FilterState([], [], {}, false)
    else FilterStep(c, blackList, Filtered(c, blackList, n - 1), c.channels[n - 1], c.scChannels[n - 1])
  }

  /** Whether `chn` overlaps a kept channel, tried in order and in both directions. */
  method HasOverlap(kept: seq<string>, chn: string) returns (overlap: bool)
    ensures overlap == OverlapsAny(kept, chn)
  {
    var k := 0;
    while k < |kept|
      invariant k <= |kept|
      invariant forall q :: 0 <= q < k ==> !Overlap(kept[q], chn)
    {
      var inside := ContainWholeString(kept[k], chn);
      if !inside {
        inside := ContainWholeString(chn, kept[k]);
      }
      if inside {
        return true;
      }
      k := k + 1;
    }
    return false;
  }

  /** Once the scan has stopped nothing changes. */
  lemma {:induction false} StoppedStays(c: PageContext, blackList: set<string>, m: nat, n: nat)
    requires m <= n <= |c.channels| <= |c.scChannels|
    requires Filtered(c, blackList, m).stopped
    ensures Filtered(c, blackList, n) == Filtered(c, blackList, m)
    decreases n
  {
    if n > m {
      StoppedStays(c, blackList, m, n - 1);
    }
  }

  /** `filterChannels` over the ranked channels of `c`. Go reads `scChannels[i]` for each
      channel, so there are at least as many scores as channels. */
  method FilterChannels(c: PageContext, blackList: set<string>) returns (channelSorted: seq<string>, scoresSorted: seq<real>)
    requires |c.scChannels| >= |c.channels|
    ensures channelSorted == Filtered(c, blackList, |c.channels|).out
    ensures scoresSorted == Filtered(c, blackList, |c.channels|).scores
  {
    var channels: set<string> := {};
    channelSorted := [];
    scoresSorted := [];
    var i := 0;
    var stop := false;
    while i < |c.channels| && !stop
      invariant i <= |c.channels|
      invariant Filtered(c, blackList, i) == FilterState(channelSorted, scoresSorted, channels, stop)
    {
      channelSorted, scoresSorted, channels, stop := FilterTurn(c, blackList, channelSorted, scoresSorted, channels, c.channels[i], c.scChannels[i]);
      i := i + 1;
    }
    if stop {
      StoppedStays(c, blackList, i, |c.channels|);
    }
  }

  /** The body of the loop of `filterChannels` for the channel `chn` with score `score`:
      `stop` when the loop breaks, otherwise the lists and the names seen after the turn. */
  method FilterTurn(c: PageContext, blackList: set<string>, kept: seq<string>, scores: seq<real>, seen: set<string>, chn: string, score: real)
    returns (kept': seq<string>, scores': seq<real>, seen': set<string>, stop: bool)
    ensures FilterStep(c, blackList, FilterState(kept, scores, seen, false), chn, score)
         == FilterState(kept', scores', seen', stop)
  {
    kept', scores', seen', stop := kept, scores, seen, false;
    if score <= ScoreThreshold {
      stop := true;
      return;
    }
    if chn in seen {
      return;
    }
    seen' := seen + {chn};
    if ToLower(chn) in blackList {
      return;
    }
    var chnEntityRemoved := RemoveEntity(chn);
    if chnEntityRemoved != chn {
      var found := AreAllWordsAppearInPageContent(chnEntityRemoved, Some(c));
      if !found {
        return;
      }
    }
    var replaced := ReplaceSpace(chn);
    var overlap := HasOverlap(kept, replaced);
    if overlap {
      return;
    }
    kept' := kept + [replaced];
    scores' := scores + [score];
  }

  /** One turn either keeps the lists as they were or appends the channel, with its
      score, when the scan has not stopped, its score is above the threshold, its name is
      new, not blacklisted, not an unsupported entity, and overlaps no kept channel. */
  lemma StepCases(c: PageContext, blackList: set<string>, st: FilterState, chn: string, score: real)
    ensures var r := FilterStep(c, blackList, st, chn, score);
      if r.out == st.out then r.scores == st.scores
      else
        && !st.stopped && score > ScoreThreshold && chn !in st.seen
        && ToLower(chn) !in blackList && !UnsupportedEntity(chn, c)
        && !OverlapsAny(st.out, ReplaceSpace(chn))
        && r.out == st.out + [ReplaceSpace(chn)] && r.scores == st.scores + [score]
  {
  }

  /** The output lists are aligned, every score is above the threshold and no name holds
      a space. */
  ghost predicate Aligned(st: FilterState)
  {
    && |st.out| == |st.scores|
    && (forall k :: 0 <= k < |st.scores| ==> st.scores[k] > ScoreThreshold)
    && (forall k :: 0 <= k < |st.out| ==> ' ' !in st.out[k])
  }

  /** A turn keeps the lists aligned. */
  lemma StepAligned(c: PageContext, blackList: set<string>, st: FilterState, chn: string, score: real)
    requires Aligned(st)
    ensures Aligned(FilterStep(c, blackList, st, chn, score))
  {
    StepCases(c, blackList, st, chn, score);
  }

  /** Every state of the scan has its lists aligned. */
  lemma {:induction false} FilteredAligned(c: PageContext, blackList: set<string>, n: nat)
    requires n <= |c.channels| <= |c.scChannels|
    ensures Aligned(Filtered(c, blackList, n))
    decreases n
  {
    if n > 0 {
      FilteredAligned(c, blackList, n - 1);
      StepAligned(c, blackList, Filtered(c, blackList, n - 1), c.channels[n - 1], c.scChannels[n - 1]);
    }
  }

  /** No channel of `out` contains another as a whole word, in either direction: each
      one overlaps none of the channels before it. */
  predicate Disjoint(out: seq<string>)
    decreases |out|
  {
    |out| == 0 || (Disjoint(out[..|out| - 1]) && !OverlapsAny(out[..|out| - 1], out[|out| - 1]))
  }

  /** Appending a channel that overlaps none of a disjoint list keeps it disjoint. */
  lemma DisjointSnoc(out: seq<string>, chn: string)
    requires Disjoint(out) && !OverlapsAny(out, chn)
    ensures Disjoint(out + [chn])
  {
    assert (out + [chn])[..|out|] == out;
  }

  /** A disjoint list is one in which no channel overlaps another, whichever comes first. */
  lemma {:induction false} DisjointPairwise(out: seq<string>)
    ensures Disjoint(out) <==> forall p, q :: 0 <= p < q < |out| ==> !Overlap(out[p], out[q])
    decreases |out|
  {
    if |out| > 0 {
      var init := out[..|out| - 1];
      DisjointPairwise(init);
      if Disjoint(out) {
        forall p, q | 0 <= p < q < |out| ensures !Overlap(out[p], out[q]) {
          if q < |out| - 1 {
            assert out[p] == init[p] && out[q] == init[q];
          } else {
            assert out[p] == init[p];
          }
        }
      } else if Disjoint(init) {
        var k :| 0 <= k < |init| && Overlap(init[k], out[|out| - 1]);
        assert out[k] == init[k];
      } else {
        var p, q :| 0 <= p < q < |init| && Overlap(init[p], init[q]);
        assert out[p] == init[p] && out[q] == init[q];
      }
    }
  }

  /** A turn keeps the kept list disjoint. */
  lemma StepDisjoint(c: PageContext, blackList: set<string>, st: FilterState, chn: string, score: real)
    requires Disjoint(st.out)
    ensures Disjoint(FilterStep(c, blackList, st, chn, score).out)
  {
    var r := FilterStep(c, blackList, st, chn, score);
    if r.out != st.out {
      DisjointSnoc(st.out, ReplaceSpace(chn));
    }
  }

  /** No kept channel contains another as a whole word, in either direction. */
  lemma {:induction false} FilteredDisjoint(c: PageContext, blackList: set<string>, n: nat)
    requires n <= |c.channels| <= |c.scChannels|
    ensures Disjoint(Filtered(c, blackList, n).out)
    decreases n
  {
    if n > 0 {
      FilteredDisjoint(c, blackList, n - 1);
      StepDisjoint(c, blackList, Filtered(c, blackList, n - 1), c.channels[n - 1], c.scChannels[n - 1]);
    }
  }

  /** Where a kept channel came from: position `t` of the ranked list, whose score is
      kept with it, that is not blacklisted and is not an unsupported entity, that is the
      first occurrence of its name, and before which no score was at or below the
      threshold. */
  ghost predicate KeptFrom(c: PageContext, blackList: set<string>, t: nat, name: string, score: real)
    requires t < |c.channels| <= |c.scChannels|
  {
    && name == ReplaceSpace(c.channels[t]) && score == c.scChannels[t]
    && ToLower(c.channels[t]) !in blackList
    && !UnsupportedEntity(c.channels[t], c)
    && (forall u :: 0 <= u < t ==> c.channels[u] != c.channels[t])
    && (forall u :: 0 <= u <= t ==> c.scChannels[u] > ScoreThreshold)
  }

  /** A turn after which the scan goes on had a score above the threshold and adds the
      channel to the names seen. */
  lemma StepSeen(c: PageContext, blackList: set<string>, st: FilterState, chn: string, score: real)
    requires !FilterStep(c, blackList, st, chn, score).stopped
    ensures !st.stopped && score > ScoreThreshold
    ensures FilterStep(c, blackList, st, chn, score).seen == st.seen + {chn}
  {
  }

  /** The names seen are those of the channels scanned, until the scan stops. */
  lemma {:induction false} FilteredSeen(c: PageContext, blackList: set<string>, n: nat)
    requires n <= |c.channels| <= |c.scChannels|
    ensures !Filtered(c, blackList, n).stopped ==>
      (forall u :: 0 <= u < n ==> c.scChannels[u] > ScoreThreshold)
      && Filtered(c, blackList, n).seen == set u | 0 <= u < n :: c.channels[u]
    decreases n
  {
    if n > 0 && !Filtered(c, blackList, n).stopped {
      StepSeen(c, blackList, Filtered(c, blackList, n - 1), c.channels[n - 1], c.scChannels[n - 1]);
      FilteredSeen(c, blackList, n - 1);
      var old_seen := set u | 0 <= u < n - 1 :: c.channels[u];
      var new_seen := set u | 0 <= u < n :: c.channels[u];
      assert new_seen == old_seen + {c.channels[n - 1]} by {
        forall x | x in new_seen ensures x in old_seen + {c.channels[n - 1]} {
          var u :| 0 <= u < n && x == c.channels[u];
          if u < n - 1 {
            assert x in old_seen;
          }
        }
      }
    }
  }

  /** `idx` traces each kept channel, with its score, to a ranked position below `n`
      it was kept from; the positions increase. */
  ghost predicate TracedTo(c: PageContext, blackList: set<string>, out: seq<string>, scores: seq<real>, idx: seq<nat>, n: nat)
    requires n <= |c.channels| <= |c.scChannels|
  {
    && |idx| == |out| == |scores|
    && (forall k :: 0 <= k < |idx| ==> idx[k] < n)
    && (forall k, l :: 0 <= k < l < |idx| ==> idx[k] < idx[l])
    && (forall k :: 0 <= k < |idx| ==> KeptFrom(c, blackList, idx[k], out[k], scores[k]))
  }

  /** A trace still holds one position further on. */
  lemma TracedWiden(c: PageContext, blackList: set<string>, out: seq<string>, scores: seq<real>, idx: seq<nat>, n: nat)
    requires n < |c.channels| <= |c.scChannels|
    requires TracedTo(c, blackList, out, scores, idx, n)
    ensures TracedTo(c, blackList, out, scores, idx, n + 1)
  {
  }

  /** Keeping the channel at position `n` extends the trace with `n`. */
  lemma TracedSnoc(c: PageContext, blackList: set<string>, out: seq<string>, scores: seq<real>, idx: seq<nat>, n: nat)
    requires n < |c.channels| <= |c.scChannels|
    requires TracedTo(c, blackList, out, scores, idx, n)
    requires KeptFrom(c, blackList, n, ReplaceSpace(c.channels[n]), c.scChannels[n])
    ensures TracedTo(c, blackList, out + [ReplaceSpace(c.channels[n])], scores + [c.scChannels[n]], idx + [n], n + 1)
  {
    var out', scores', idx' := out + [ReplaceSpace(c.channels[n])], scores + [c.scChannels[n]], idx + [n];
    forall k | 0 <= k < |idx'| ensures KeptFrom(c, blackList, idx'[k], out'[k], scores'[k]) {
      if k < |idx| {
        assert idx'[k] == idx[k] && out'[k] == out[k] && scores'[k] == scores[k];
      }
    }
  }

  /** Every kept channel is traced to its ranked position; the positions increase. */
  lemma {:induction false} FilteredSources(c: PageContext, blackList: set<string>, n: nat) returns (idx: seq<nat>)
    requires n <= |c.channels| <= |c.scChannels|
    ensures TracedTo(c, blackList, Filtered(c, blackList, n).out, Filtered(c, blackList, n).scores, idx, n)
    decreases n
  {
    if n == 0 {
      idx := [];
    } else {
      var prevIdx := FilteredSources(c, blackList, n - 1);
      var prev := Filtered(c, blackList, n - 1);
      var st := FilterStep(c, blackList, prev, c.channels[n - 1], c.scChannels[n - 1]);
      StepCases(c, blackList, prev, c.channels[n - 1], c.scChannels[n - 1]);
      if st.out == prev.out {
        idx := prevIdx;
        TracedWiden(c, blackList, prev.out, prev.scores, idx, n - 1);
      } else {
        KeptLast(c, blackList, n);
        idx := prevIdx + [n - 1];
        TracedSnoc(c, blackList, prev.out, prev.scores, prevIdx, n - 1);
      }
    }
  }

  /** A channel appended at step `n` comes from position `n - 1`. */
  lemma KeptLast(c: PageContext, blackList: set<string>, n: nat)
    requires 0 < n <= |c.channels| <= |c.scChannels|
    requires Filtered(c, blackList, n).out != Filtered(c, blackList, n - 1).out
    ensures KeptFrom(c, blackList, n - 1, ReplaceSpace(c.channels[n - 1]), c.scChannels[n - 1])
  {
    var t := n - 1;
    var prev := Filtered(c, blackList, t);
    StepCases(c, blackList, prev, c.channels[t], c.scChannels[t]);
    FilteredSeen(c, blackList, t);
    forall u | 0 <= u < t ensures c.channels[u] != c.channels[t] {
      assert c.channels[u] in prev.seen;
    }
  }

  /** A turn only appends to the kept list. */
  lemma StepGrows(c: PageContext, blackList: set<string>, st: FilterState, chn: string, score: real)
    ensures var r := FilterStep(c, blackList, st, chn, score).out;
      |st.out| <= |r| && r[..|st.out|] == st.out
  {
    StepCases(c, blackList, st, chn, score);
  }

  /** The kept list only grows as the scan goes on. */
  lemma {:induction false} FilteredGrows(c: PageContext, blackList: set<string>, m: nat, n: nat)
    requires m <= n <= |c.channels| <= |c.scChannels|
    ensures var a := Filtered(c, blackList, m).out;
      var b := Filtered(c, blackList, n).out;
      |a| <= |b| && b[..|a|] == a
    decreases n
  {
    if n > m {
      FilteredGrows(c, blackList, m, n - 1);
      StepGrows(c, blackList, Filtered(c, blackList, n - 1), c.channels[n - 1], c.scChannels[n - 1]);
      PrefixTransitive(Filtered(c, blackList, m).out, Filtered(c, blackList, n - 1).out, Filtered(c, blackList, n).out);
    }
  }

  lemma PrefixTransitive(a: seq<string>, mid: seq<string>, b: seq<string>)
    requires |a| <= |mid| <= |b| && mid[..|a|] == a && b[..|mid|] == mid
    ensures b[..|a|] == a
  {
    assert b[..|a|] == b[..|mid|][..|a|];
  }

  /** The top-ranked channel is kept when its score is above the threshold, it is not
      blacklisted and it has no entity suffix. */
  lemma FirstChannelKept(c: PageContext, blackList: set<string>)
    requires 0 < |c.channels| <= |c.scChannels|
    requires c.scChannels[0] > ScoreThreshold && ToLower(c.channels[0]) !in blackList
    requires EntityRemoved(c.channels[0]) == c.channels[0]
    ensures var out := Filtered(c, blackList, |c.channels|).out;
      |out| >= 1 && out[0] == ReplaceSpace(c.channels[0])
  {
    assert !OverlapsAny([], ReplaceSpace(c.channels[0]));
    assert Filtered(c, blackList, 1).out == [ReplaceSpace(c.channels[0])];
    FilteredGrows(c, blackList, 1, |c.channels|);
  }

  /** On a page whose content counts are empty (a page without content text, see
      `CountedContentFrequency`), every kept channel is free of entity suffixes: the
      content test cannot pass, so a channel such as "Acme Inc." is always dropped. */
  lemma EmptyContentDropsEntities(c: PageContext, blackList: set<string>, k: nat)
    requires |c.channels| <= |c.scChannels|
    requires c.contentKws == map[] && c.contentBws == map[]
    requires k < |Filtered(c, blackList, |c.channels|).out|
    ensures exists t :: 0 <= t < |c.channels| && EntityRemoved(c.channels[t]) == c.channels[t]
                        && Filtered(c, blackList, |c.channels|).out[k] == ReplaceSpace(c.channels[t])
  {
    var idx := FilteredSources(c, blackList, |c.channels|);
    assert KeptFrom(c, blackList, idx[k], Filtered(c, blackList, |c.channels|).out[k], Filtered(c, blackList, |c.channels|).scores[k]);
    var t := idx[k];
    var removed := EntityRemoved(c.channels[t]);
    assert !AllWordsAppearInPageContent(removed, Some(c)) by {
      var ws := Split(removed, ' ');
      assert ws[0] in ws;
    }
  }
}
