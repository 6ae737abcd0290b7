/** The relevance scorer of the RAG tool (`findRelevantChunks`, 03/main.go):
    keyword filter, substring-count score, the in-place bubble sort by
    descending score, and the selection with its fallback. */
module Ranking {
  import opened GoStrings

  /** The (chunk, score) record that findRelevantChunks sorts. */
  datatype ChunkScore = ChunkScore(chunk: string, score: int)

  /** The keyword filter: a word counts if its UTF-8 encoding is longer than
      two bytes, or it is one of the two-byte words "go", "js" and "c+". */
  predicate IsKeyword(word: string) {
    ByteLen(word) > 2 || (ByteLen(word) == 2 && (word == "go" || word == "js" || word == "c+"))
  }

  lemma KeywordNotEmpty(word: string)
    requires IsKeyword(word)
    ensures word != []
  {
  }

  /** Which short words count: any ASCII word of three letters or more, an
      accented two-letter word (its UTF-8 takes three bytes) such as "él",
      and of the two-letter ASCII words only "go", "js" and "c+". */
  lemma KeywordExamples()
    ensures IsKeyword("que") && IsKeyword("go") && IsKeyword("c+")
    ensures IsKeyword("\U{00E9}l") && IsKeyword("t\U{00FA}")
    ensures !IsKeyword("de") && !IsKeyword("el") && !IsKeyword("a") && !IsKeyword("")
  {
  }

  /** A word of three characters or more always counts; below that, the
      word counts exactly when it is one of the three listed words or its
      encoding is longer than two bytes. */
  lemma KeywordByLength(word: string)
    ensures |word| > 2 ==> IsKeyword(word)
    ensures |word| <= 2 ==> (IsKeyword(word) <==>
      ByteLen(word) > 2 || word == "go" || word == "js" || word == "c+")
  {
  }

  /** strings.Fields(strings.ToLower(question)). */
  function QuestionWords(question: string): seq<string> {
    Fields(ToLower(question))
  }

  /** The score of a lower-cased chunk: over the question's words in order,
      repeats included, the number of occurrences of each keyword. */
  function Score(chunkLower: string, words: seq<string>): (score: nat)
    decreases |words|
  {
    if words == [] then 0
    else
      var w := words[|words| - 1];
      Score(chunkLower, words[..|words| - 1]) + (if IsKeyword(w) then Count(chunkLower, w) else 0)
  }

  /** A chunk scores zero exactly when none of the question's keywords occurs
      in it as a substring. */
  lemma {:induction false} ScoreZeroIff(text: string, words: seq<string>)
    ensures Score(text, words) == 0 <==>
      forall k :: 0 <= k < |words| && IsKeyword(words[k]) ==> !Contains(text, words[k])
    decreases |words|
  {
    if words != [] {
      var init := words[..|words| - 1];
      var w := words[|words| - 1];
      ScoreZeroIff(text, init);
      if IsKeyword(w) {
        CountPositiveIffContains(text, w);
      }
      assert forall k :: 0 <= k < |init| ==> init[k] == words[k];
    }
  }

  /** Every chunk paired with its score against the question's words. */
  function Scored(chunks: seq<string>, words: seq<string>): (r: seq<ChunkScore>)
    ensures |r| == |chunks|
  {
    seq(|chunks|, i requires 0 <= i < |chunks| =>
      ChunkScore(chunks[i], Score(ToLower(chunks[i]), words)))
  }

  /** `order` lists each index below n exactly once. */
  predicate IsIndexPermutation(order: seq<int>, n: int) {
    |order| == n &&
    (forall k :: 0 <= k < |order| ==> 0 <= order[k] < n) &&
    (forall p, q :: 0 <= p < q < |order| ==> order[p] != order[q])
  }

  /** The entries of `s` in the order `order` lists them. */
  function Permute(s: seq<ChunkScore>, order: seq<int>): (r: seq<ChunkScore>)
    requires forall k :: 0 <= k < |order| ==> 0 <= order[k] < |s|
    ensures |r| == |order|
  {
    seq(|order|, k requires 0 <= k < |order| => s[order[k]])
  }

  predicate NonIncreasing(s: seq<ChunkScore>) {
    forall p, q :: 0 <= p < q < |s| ==> s[p].score >= s[q].score
  }

  /** `order` ranks `s` by non-increasing score and keeps entries with equal
      scores in their original relative order. */
  ghost predicate StableRanking(s: seq<ChunkScore>, order: seq<int>) {
    IsIndexPermutation(order, |s|) &&
    multiset(Permute(s, order)) == multiset(s) &&
    NonIncreasing(Permute(s, order)) &&
    (forall p, q :: 0 <= p < q < |order| && s[order[p]].score == s[order[q]].score ==>
      order[p] < order[q])
  }

  /** `a` holds the entries of `orig` in the order `order` lists them. */
  ghost predicate Tracks(a: seq<ChunkScore>, orig: seq<ChunkScore>, order: seq<int>) {
    IsIndexPermutation(order, |orig|) && |a| == |orig| &&
    (forall k :: 0 <= k < |a| ==> a[k] == orig[order[k]])
  }

  /** Entries of equal score appear in increasing original position. */
  ghost predicate StableOn(a: seq<ChunkScore>, order: seq<int>)
    requires |order| == |a|
  {
    forall p, q :: 0 <= p < q < |a| && a[p].score == a[q].score ==> order[p] < order[q]
  }

  /** Everything from index t on is in place: no earlier entry scores less. */
  ghost predicate TailSorted(a: seq<ChunkScore>, t: int) {
    forall p, q :: 0 <= p < q < |a| && t <= q ==> a[p].score >= a[q].score
  }

  /** a[j] has the lowest score among a[..j+1]. */
  ghost predicate MinAt(a: seq<ChunkScore>, j: int) {
    0 <= j < |a| && forall p :: 0 <= p <= j ==> a[p].score >= a[j].score
  }

  /** An array that holds the entries of `orig` in the order `order` lists
      them holds the same multiset of entries as `orig`. */
  lemma {:induction false} TracksMultiset(a: seq<ChunkScore>, orig: seq<ChunkScore>, order: seq<int>)
    requires Tracks(a, orig, order)
    ensures multiset(a) == multiset(orig)
    decreases |a|
  {
    if a != [] {
      var n := |a| - 1;
      var p := order[n];
      var a', orig' := a[..n], orig[..p] + orig[p + 1..];
      var order' := seq(n, k requires 0 <= k < n => if order[k] < p then order[k] else order[k] - 1);
      forall k | 0 <= k < n
        ensures 0 <= order'[k] < n && a'[k] == orig'[order'[k]]
      {
        assert order[k] != order[n];
      }
      forall k1, k2 | 0 <= k1 < k2 < n
        ensures order'[k1] != order'[k2]
      {
        assert order[k1] != order[k2];
      }
      assert Tracks(a', orig', order');
      TracksMultiset(a', orig', order');
      assert a == a' + [orig[p]];
      var u := orig[p..];
      HeadTail(u);
      assert u[1..] == orig[p + 1..];
      assert orig == orig[..p] + u;
    }
  }

  /** One step of the inner loop carries the lowest score along to j + 1. */
  lemma MinMovesRight(a: seq<ChunkScore>, j: int)
    requires MinAt(a, j) && j + 1 < |a|
    ensures a[j].score < a[j + 1].score ==> MinAt(a[j := a[j + 1]][j + 1 := a[j]], j + 1)
    ensures a[j].score >= a[j + 1].score ==> MinAt(a, j + 1)
  {
  }

  /** At the end of a pass the lowest score of the unsorted part sits at its
      right end, so the sorted tail grows by one. */
  lemma TailGrows(a: seq<ChunkScore>, t: int)
    requires 0 < t && TailSorted(a, t) && MinAt(a, t - 1)
    ensures TailSorted(a, t - 1)
  {
  }

  /** One swap of the inner loop keeps the ranking invariants. */
  lemma SwapKeepsRanking(a: seq<ChunkScore>, orig: seq<ChunkScore>, order: seq<int>, j: int, t: int)
    requires Tracks(a, orig, order) && StableOn(a, order) && TailSorted(a, t)
    requires 0 <= j && j + 1 < t <= |a| && a[j].score < a[j + 1].score
    ensures var a' := a[j := a[j + 1]][j + 1 := a[j]];
      var order' := order[j := order[j + 1]][j + 1 := order[j]];
      Tracks(a', orig, order') && StableOn(a', order') && TailSorted(a', t) &&
      multiset(a') == multiset(a)
  {
    SwapTracks(a, orig, order, j);
    SwapStable(a, order, j);
  }

  /** Swapping neighbours in both the array and the recorded order keeps the
      one tracking the other, and keeps the multiset. */
  lemma SwapTracks(a: seq<ChunkScore>, orig: seq<ChunkScore>, order: seq<int>, j: int)
    requires Tracks(a, orig, order) && 0 <= j && j + 1 < |a|
    ensures var a' := a[j := a[j + 1]][j + 1 := a[j]];
      var order' := order[j := order[j + 1]][j + 1 := order[j]];
      Tracks(a', orig, order') && multiset(a') == multiset(a)
  {
    var a' := a[j := a[j + 1]][j + 1 := a[j]];
    var order' := order[j := order[j + 1]][j + 1 := order[j]];
    assert forall k :: 0 <= k < |a| ==> a'[k] == orig[order'[k]];
    forall p, q | 0 <= p < q < |a| ensures order'[p] != order'[q] {
      var p0 := if p == j then j + 1 else if p == j + 1 then j else p;
      var q0 := if q == j then j + 1 else if q == j + 1 then j else q;
      assert order'[p] == order[p0] && order'[q] == order[q0] && p0 != q0;
    }
  }

  /** Swapping neighbours whose left score is strictly smaller keeps equal
      scores in increasing original position. */
  lemma SwapStable(a: seq<ChunkScore>, order: seq<int>, j: int)
    requires |order| == |a| && StableOn(a, order)
    requires 0 <= j && j + 1 < |a| && a[j].score < a[j + 1].score
    ensures var a' := a[j := a[j + 1]][j + 1 := a[j]];
      var order' := order[j := order[j + 1]][j + 1 := order[j]];
      StableOn(a', order')
  {
    var a' := a[j := a[j + 1]][j + 1 := a[j]];
    var order' := order[j := order[j + 1]][j + 1 := order[j]];
    forall p, q | 0 <= p < q < |a| && a'[p].score == a'[q].score
      ensures order'[p] < order'[q]
    {
      var p0 := if p == j then j + 1 else if p == j + 1 then j else p;
      var q0 := if q == j then j + 1 else if q == j + 1 then j else q;
      assert a'[p] == a[p0] && a'[q] == a[q0] && order'[p] == order[p0] && order'[q] == order[q0];
      assert p0 < q0;
    }
  }

  /** The bubble sort of findRelevantChunks, in place: a swap happens only
      when the left score is strictly smaller, so the sort is stable.  The
      ghost result records where each entry came from. */
  method BubbleSortByScore(a: array<ChunkScore>) returns (ghost order: seq<int>)
    modifies a
    ensures StableRanking(old(a[..]), order)
    ensures a[..] == Permute(old(a[..]), order)
  {
    ghost var orig := a[..];
    var n := a.Length;
    order := seq(n, k => k);
    IdentityTracks(orig);
    var i := 0;
    while i < n - 1
      invariant 0 <= i && (n > 0 ==> i <= n - 1)
      invariant Tracks(a[..], orig, order) && StableOn(a[..], order)
      invariant multiset(a[..]) == multiset(orig)
      invariant TailSorted(a[..], n - i)
    {
      order := BubblePass(a, n - i, orig, order);
      i := i + 1;
    }
    SortedIsStableRanking(a[..], orig, order);
  }

  lemma IdentityTracks(s: seq<ChunkScore>)
    ensures Tracks(s, s, seq(|s|, k => k)) && StableOn(s, seq(|s|, k => k))
  {
  }

  /** Once the whole array is sorted, the recorded order is a stable ranking. */
  lemma SortedIsStableRanking(a: seq<ChunkScore>, orig: seq<ChunkScore>, order: seq<int>)
    requires Tracks(a, orig, order) && StableOn(a, order) && TailSorted(a, 1)
    requires multiset(a) == multiset(orig)
    ensures StableRanking(orig, order) && a == Permute(orig, order)
  {
    assert a == Permute(orig, order);
  }

  /** One comparison of the inner loop: entries j and j + 1 trade places
      when the left score is strictly smaller; nothing else moves. */
  function CompareSwap(s: seq<ChunkScore>, j: int): (r: seq<ChunkScore>)
    requires 0 <= j && j + 1 < |s|
    ensures |r| == |s|
  {
    if s[j].score < s[j + 1].score then s[j := s[j + 1]][j + 1 := s[j]] else s
  }

  /** A comparison moves nothing but entries j and j + 1, moves those
      exactly when the left score is strictly smaller, and leaves the left
      score at least the right one. */
  lemma CompareSwapMoves(s: seq<ChunkScore>, j: int)
    requires 0 <= j && j + 1 < |s|
    ensures var r := CompareSwap(s, j);
      (forall k :: 0 <= k < |s| && k != j && k != j + 1 ==> r[k] == s[k]) &&
      (r == s <==> s[j].score >= s[j + 1].score) &&
      r[j].score >= r[j + 1].score
  {
    var r := CompareSwap(s, j);
    if s[j].score < s[j + 1].score {
      assert r[j] != s[j];
    }
  }

  /** The array after the first j comparisons of an inner pass. */
  function PassTo(s: seq<ChunkScore>, j: int): (r: seq<ChunkScore>)
    requires 0 <= j < |s|
    ensures |r| == |s|
    decreases j
  {
    if j == 0 then s else CompareSwap(PassTo(s, j - 1), j - 1)
  }

  /** The first j comparisons leave everything after index j in place. */
  lemma {:induction false} PassToKeepsTail(s: seq<ChunkScore>, j: int)
    requires 0 <= j < |s|
    ensures PassTo(s, j)[j + 1..] == s[j + 1..]
    decreases j
  {
    if j > 0 {
      var r := PassTo(s, j - 1);
      PassToKeepsTail(s, j - 1);
      CompareSwapMoves(r, j - 1);
      assert PassTo(s, j)[j + 1..] == r[j + 1..];
    }
  }

  /** The recorded order after one comparison: it swaps exactly when the
      entries do. */
  function SwapOrder(a: seq<ChunkScore>, order: seq<int>, j: int): (r: seq<int>)
    requires 0 <= j && j + 1 < |a| && |order| == |a|
    ensures |r| == |order|
  {
    if a[j].score < a[j + 1].score then order[j := order[j + 1]][j + 1 := order[j]] else order
  }

  /** One comparison keeps the ranking invariants and carries the lowest
      score along to j + 1. */
  lemma CompareSwapKeepsRanking(a: seq<ChunkScore>, orig: seq<ChunkScore>, order: seq<int>, j: int, t: int)
    requires 0 <= j && j + 1 < t <= |a|
    requires Tracks(a, orig, order) && StableOn(a, order)
    requires TailSorted(a, t) && MinAt(a, j)
    ensures var a', order' := CompareSwap(a, j), SwapOrder(a, order, j);
      Tracks(a', orig, order') && StableOn(a', order') &&
      TailSorted(a', t) && MinAt(a', j + 1) && multiset(a') == multiset(a)
  {
    MinMovesRight(a, j);
    if a[j].score < a[j + 1].score {
      SwapKeepsRanking(a, orig, order, j, t);
    }
  }

  /** The body of the inner loop: swaps a[j] and a[j + 1] when the left
      score is strictly smaller, carrying the lowest score to j + 1. */
  method CompareAndSwap(a: array<ChunkScore>, j: int, t: int, ghost orig: seq<ChunkScore>, ghost order0: seq<int>)
    returns (ghost order: seq<int>)
    requires 0 <= j && j + 1 < t <= a.Length
    requires Tracks(a[..], orig, order0) && StableOn(a[..], order0)
    requires TailSorted(a[..], t) && MinAt(a[..], j)
    modifies a
    ensures Tracks(a[..], orig, order) && StableOn(a[..], order)
    ensures TailSorted(a[..], t) && MinAt(a[..], j + 1)
    ensures a[..] == CompareSwap(old(a[..]), j) && multiset(a[..]) == multiset(old(a[..]))
    ensures order == if old(a[j].score < a[j + 1].score)
                     then order0[j := order0[j + 1]][j + 1 := order0[j]] else order0
  {
    ghost var before := a[..];
    CompareSwapKeepsRanking(before, orig, order0, j, t);
    order := order0;
    if a[j].score < a[j + 1].score {
      a[j], a[j + 1] := a[j + 1], a[j];
      order := order[j := order[j + 1]][j + 1 := order[j]];
      assert a[..] == before[j := before[j + 1]][j + 1 := before[j]];
    }
  }

  /** The ranking state of an inner pass over a[..t] after its first j
      comparisons. */
  ghost predicate PassRanking(a: seq<ChunkScore>, orig: seq<ChunkScore>, order: seq<int>, j: int, t: int) {
    0 <= j < t <= |a| && Tracks(a, orig, order) && StableOn(a, order) &&
    TailSorted(a, t) && MinAt(a, j)
  }

  /** The contents of an inner pass after its first j comparisons, starting
      from a0. */
  ghost predicate PassValue(a: seq<ChunkScore>, a0: seq<ChunkScore>, j: int) {
    0 <= j < |a0| && a == PassTo(a0, j)
  }

  /** Each comparison of the pass keeps its ranking state. */
  lemma PassRankingStep(a: seq<ChunkScore>, orig: seq<ChunkScore>, order: seq<int>, j: int, t: int)
    requires PassRanking(a, orig, order, j, t) && j + 1 < t
    ensures PassRanking(CompareSwap(a, j), orig, SwapOrder(a, order, j), j + 1, t)
  {
    CompareSwapKeepsRanking(a, orig, order, j, t);
  }

  /** Each comparison of the pass advances its contents by one step. */
  lemma PassValueStep(a: seq<ChunkScore>, a0: seq<ChunkScore>, j: int)
    requires PassValue(a, a0, j) && j + 1 < |a0|
    ensures PassValue(CompareSwap(a, j), a0, j + 1)
  {
  }

  /** At the end of the pass the sorted tail has grown by one. */
  lemma PassRankingEnd(a: seq<ChunkScore>, orig: seq<ChunkScore>, order: seq<int>, t: int)
    requires PassRanking(a, orig, order, t - 1, t)
    ensures Tracks(a, orig, order) && StableOn(a, order) && TailSorted(a, t - 1)
  {
    TailGrows(a, t);
  }

  /** At the end of the pass nothing from t on has moved. */
  lemma PassValueEnd(a: seq<ChunkScore>, a0: seq<ChunkScore>, t: int)
    requires 0 < t <= |a0| && PassValue(a, a0, t - 1)
    ensures a[t..] == a0[t..]
  {
    PassToKeepsTail(a0, t - 1);
  }

  /** One pass of the inner loop over a[..t]: the lowest score among them
      moves to index t - 1, and the tail from t - 1 on is sorted. */
  method BubblePass(a: array<ChunkScore>, t: int, ghost orig: seq<ChunkScore>, ghost order0: seq<int>)
    returns (ghost order: seq<int>)
    requires 1 < t <= a.Length
    requires Tracks(a[..], orig, order0) && StableOn(a[..], order0) && TailSorted(a[..], t)
    modifies a
    ensures Tracks(a[..], orig, order) && StableOn(a[..], order) && TailSorted(a[..], t - 1)
    ensures a[..] == PassTo(old(a[..]), t - 1)
    ensures multiset(a[..]) == multiset(old(a[..])) && a[t..] == old(a[t..])
  {
    ghost var a0 := a[..];
    order := order0;
    var j := 0;
    while j < t - 1
      invariant PassRanking(a[..], orig, order, j, t)
      invariant PassValue(a[..], a0, j)
    {
      PassValueStep(a[..], a0, j);
      order := CompareAndSwap(a, j, t, orig, order);
      j := j + 1;
    }
    assert j == t - 1;
    PassRankingEnd(a[..], orig, order, t);
    PassValueEnd(a[..], a0, t);
    TracksMultiset(a[..], orig, order);
    TracksMultiset(a0, orig, order0);
  }

  function Min(x: int, y: int): int {
    if x <= y then x else y
  }

  function Max(x: int, y: int): int {
    if x <= y then y else x
  }

  function ChunksOf(s: seq<ChunkScore>): (r: seq<string>)
    ensures |r| == |s|
  {
    seq(|s|, i requires 0 <= i < |s| => s[i].chunk)
  }

  /** What the selection loop appends: the chunks of the positive-score
      entries, in order. */
  function PositiveChunks(s: seq<ChunkScore>): (r: seq<string>)
    ensures |r| <= |s|
    decreases |s|
  {
    if s == [] then []
    else PositiveChunks(s[..|s| - 1]) + (if s[|s| - 1].score > 0 then [s[|s| - 1].chunk] else [])
  }

  /** The number of entries with a positive score. */
  function CountPositive(s: seq<ChunkScore>): (n: nat)
    ensures n <= |s|
    decreases |s|
  {
    if s == [] then 0
    else CountPositive(s[..|s| - 1]) + (if s[|s| - 1].score > 0 then 1 else 0)
  }

  /** The result of findRelevantChunks given the ranked entries: up to
      maxChunks leading positive-score entries; if that picks nothing and
      there are chunks, the first min(maxChunks, |chunks|) chunks in their
      original order. */
  function Selection(ranked: seq<ChunkScore>, chunks: seq<string>, maxChunks: int): (relevant: seq<string>)
    requires chunks != [] ==> 0 <= maxChunks
    ensures |relevant| <= Max(maxChunks, 0)
  {
    var picked := PositiveChunks(ranked[..Min(|ranked|, Max(maxChunks, 0))]);
    if picked == [] && chunks != [] then chunks[..Min(maxChunks, |chunks|)] else picked
  }

  /** `relevant` is what findRelevantChunks returns for these chunks and
      this question, `order` being the ranking its bubble sort produced. */
  ghost predicate IsSelection(chunks: seq<string>, question: string, maxChunks: int,
                              relevant: seq<string>, order: seq<int>)
  {
    (chunks != [] ==> 0 <= maxChunks) &&
    var scored := Scored(chunks, QuestionWords(question));
    StableRanking(scored, order) &&
    relevant == Selection(Permute(scored, order), chunks, maxChunks)
  }

  lemma {:induction false} PositiveChunksMembers(s: seq<ChunkScore>)
    ensures forall x :: x in PositiveChunks(s) ==> x in ChunksOf(s)
    decreases |s|
  {
    if s != [] {
      var init := s[..|s| - 1];
      PositiveChunksMembers(init);
      assert forall k :: 0 <= k < |init| ==> ChunksOf(init)[k] == ChunksOf(s)[k];
      assert ChunksOf(s)[|s| - 1] == s[|s| - 1].chunk;
    }
  }

  lemma {:induction false} CountPositiveAppend(a: seq<ChunkScore>, b: seq<ChunkScore>)
    ensures CountPositive(a + b) == CountPositive(a) + CountPositive(b)
    decreases |b|
  {
    if b == [] {
      assert a + b == a;
    } else {
      var b' := b[..|b| - 1];
      assert (a + b)[..|a + b| - 1] == a + b';
      CountPositiveAppend(a, b');
    }
  }

  /** Taking out entry j removes that one entry from the multiset. */
  lemma RemoveAtMultiset(t: seq<ChunkScore>, j: nat)
    requires j < |t|
    ensures multiset(t[..j] + t[j + 1..]) == multiset(t) - multiset{t[j]}
  {
    assert t == t[..j] + [t[j]] + t[j + 1..];
  }

  lemma CountPositiveOne(x: ChunkScore)
    ensures CountPositive([x]) == (if x.score > 0 then 1 else 0)
  {
    assert [x][..0] == [];
  }

  /** A non-empty sequence is its head followed by its tail. */
  lemma HeadTail<T>(u: seq<T>)
    requires u != []
    ensures u == [u[0]] + u[1..]
  {
  }

  /** Taking out entry j removes it from the count of positive entries. */
  lemma RemoveAtCount(t: seq<ChunkScore>, j: nat)
    requires j < |t|
    ensures CountPositive(t) == CountPositive(t[..j] + t[j + 1..]) + (if t[j].score > 0 then 1 else 0)
  {
    var x, left, right := t[j], t[..j], t[j + 1..];
    var tail := [x] + right;
    var u := t[j..];
    assert u[1..] == right;
    HeadTail(u);
    assert t == left + u;
    CountPositiveAppend(left, tail);
    assert CountPositive(t) == CountPositive(left) + CountPositive(tail);
    CountPositiveAppend([x], right);
    CountPositiveOne(x);
    CountPositiveAppend(left, right);
  }

  /** The number of positive entries does not depend on their order. */
  lemma {:induction false} CountPositivePermutation(s: seq<ChunkScore>, t: seq<ChunkScore>)
    requires multiset(s) == multiset(t)
    ensures CountPositive(s) == CountPositive(t)
    decreases |s|
  {
    if s == [] {
      assert |t| == |multiset(t)| == 0;
    } else {
      var x := s[|s| - 1];
      var s' := s[..|s| - 1];
      assert s == s' + [x];
      assert x in multiset(t);
      var j :| 0 <= j < |t| && t[j] == x;
      RemoveAtMultiset(t, j);
      RemoveAtCount(t, j);
      assert multiset(s') == multiset(s) - multiset{x};
      CountPositivePermutation(s', t[..j] + t[j + 1..]);
    }
  }

  /** In a list sorted by non-increasing score the positive entries come
      first: exactly the first CountPositive entries are positive. */
  lemma {:induction false} SortedPositivesFirst(s: seq<ChunkScore>)
    requires NonIncreasing(s)
    ensures forall k :: 0 <= k < |s| ==> (s[k].score > 0 <==> k < CountPositive(s))
    decreases |s|
  {
    if s != [] {
      var n := |s| - 1;
      var init := s[..n];
      assert NonIncreasing(init) by {
        forall p, q | 0 <= p < q < n ensures init[p].score >= init[q].score {
          assert init[p] == s[p] && init[q] == s[q];
        }
      }
      SortedPositivesFirst(init);
      var c := CountPositive(init);
      assert CountPositive(s) == c + (if s[n].score > 0 then 1 else 0);
      if s[n].score > 0 && n > 0 {
        assert init[n - 1].score >= s[n].score;
        assert n - 1 < c;
      }
      forall k | 0 <= k < |s| ensures s[k].score > 0 <==> k < CountPositive(s) {
        if k < n {
          assert s[k] == init[k];
        }
      }
    }
  }

  /** On a sorted list, the selection loop's picks of the first m entries
      are the first min(m, CountPositive) entries. */
  lemma {:induction false} PositiveChunksOfSorted(s: seq<ChunkScore>, m: nat)
    requires NonIncreasing(s) && m <= |s|
    ensures PositiveChunks(s[..m]) == ChunksOf(s[..Min(m, CountPositive(s))])
    decreases m
  {
    SortedPositivesFirst(s);
    if m == 0 {
      assert s[..0] == [];
    } else {
      PositiveChunksOfSorted(s, m - 1);
      assert s[..m][..m - 1] == s[..m - 1];
      if m - 1 < CountPositive(s) {
        assert ChunksOf(s[..m]) == ChunksOf(s[..m - 1]) + [s[m - 1].chunk];
      }
    }
  }

  /** Bounds of findRelevantChunks: no more than maxChunks results, no more
      than there are chunks, and every result is one of the chunks. */
  lemma SelectionBounds(chunks: seq<string>, question: string, maxChunks: int,
                        relevant: seq<string>, order: seq<int>)
    requires IsSelection(chunks, question, maxChunks, relevant, order)
    ensures |relevant| <= |chunks| && |relevant| <= Max(maxChunks, 0)
    ensures forall x :: x in relevant ==> x in chunks
  {
    var scored := Scored(chunks, QuestionWords(question));
    var ranked := Permute(scored, order);
    var m := Min(|ranked|, Max(maxChunks, 0));
    var head := ranked[..m];
    PositiveChunksMembers(head);
    forall x | x in PositiveChunks(head) ensures x in chunks {
      var k :| 0 <= k < |head| && ChunksOf(head)[k] == x;
      assert x == scored[order[k]].chunk == chunks[order[k]];
    }
  }

  /** When some chunk contains a keyword (and maxChunks > 0), the result is
      the first min(maxChunks, #positive) entries of the ranking, all of
      them with a positive score. */
  lemma SelectionRanked(chunks: seq<string>, question: string, maxChunks: int,
                        relevant: seq<string>, order: seq<int>)
    requires IsSelection(chunks, question, maxChunks, relevant, order)
    requires CountPositive(Scored(chunks, QuestionWords(question))) > 0 && maxChunks > 0
    ensures var scored := Scored(chunks, QuestionWords(question));
      var ranked := Permute(scored, order);
      var p := CountPositive(scored);
      relevant == ChunksOf(ranked[..Min(maxChunks, p)]) &&
      (forall k :: 0 <= k < Min(maxChunks, p) ==> ranked[k].score > 0)
  {
    var scored := Scored(chunks, QuestionWords(question));
    var ranked := Permute(scored, order);
    CountPositivePermutation(ranked, scored);
    SortedPositivesFirst(ranked);
    var m := Min(|ranked|, Max(maxChunks, 0));
    PositiveChunksOfSorted(ranked, m);
    assert Min(m, CountPositive(ranked)) == Min(maxChunks, CountPositive(scored));
    assert ChunksOf(ranked[..Min(maxChunks, CountPositive(scored))]) != [];
  }

  /** When no chunk contains a keyword, or maxChunks is 0, the result is the
      first min(maxChunks, |chunks|) chunks in their original order. */
  lemma SelectionFallback(chunks: seq<string>, question: string, maxChunks: int,
                          relevant: seq<string>, order: seq<int>)
    requires IsSelection(chunks, question, maxChunks, relevant, order)
    requires CountPositive(Scored(chunks, QuestionWords(question))) == 0 || maxChunks <= 0
    ensures relevant == chunks[..Min(Max(maxChunks, 0), |chunks|)]
  {
    var scored := Scored(chunks, QuestionWords(question));
    var ranked := Permute(scored, order);
    CountPositivePermutation(ranked, scored);
    var m := Min(|ranked|, Max(maxChunks, 0));
    PositiveChunksOfSorted(ranked, m);
  }

  /** With a document loaded and maxChunks > 0 the selection is never empty. */
  lemma SelectionNonEmpty(chunks: seq<string>, question: string, maxChunks: int,
                          relevant: seq<string>, order: seq<int>)
    requires IsSelection(chunks, question, maxChunks, relevant, order)
    requires chunks != [] && maxChunks > 0
    ensures relevant != []
  {
    if CountPositive(Scored(chunks, QuestionWords(question))) > 0 {
      SelectionRanked(chunks, question, maxChunks, relevant, order);
    } else {
      SelectionFallback(chunks, question, maxChunks, relevant, order);
    }
  }
}
