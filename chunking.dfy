/** The chunker of the RAG tool (`splitIntoChunks`, 03/main.go): whole
    trimmed lines are packed greedily into chunks of a soft maximum size.
    The functions here state what the loop computes; the loop itself is the
    method RAGSystem.SplitIntoChunks. */
module Chunking {
  import opened GoStrings

  /** The text a strings.Builder holds after `WriteString(line + "\n")` for
      each line of `g`, in order. */
  function JoinLines(g: seq<string>): (r: string)
    ensures |r| >= |g|
    ensures g != [] ==> r[|r| - 1] == '\n'
    ensures g == [] <==> r == []
    decreases |g|
  {
    if g == [] then [] else JoinLines(g[..|g| - 1]) + g[|g| - 1] + "\n"
  }

  function Flatten(groups: seq<seq<string>>): seq<string>
    decreases |groups|
  {
    if groups == [] then [] else groups[0] + Flatten(groups[1..])
  }

  function Concat(parts: seq<string>): string
    decreases |parts|
  {
    if parts == [] then [] else parts[0] + Concat(parts[1..])
  }

  /** The input lines as the loop sees them: strings.Split(text, "\n"),
      each line passed through TrimSpace. */
  function Lines(text: string): (r: seq<string>)
    ensures |r| == |Split(text, '\n')| >= 1
    ensures forall i :: 0 <= i < |r| ==> Trimmed(r[i])
  {
    var raw := Split(text, '\n');
    seq(|raw|, i requires 0 <= i < |raw| => TrimSpace(raw[i]))
  }

  /** The groups of lines the loop emits, given the lines still to read and
      the lines already in the accumulator `current`.  Before a line is
      written the accumulator is flushed if it is non-empty and its length
      plus the line's would exceed `size`; the final flush fires when the
      accumulator is non-empty. */
  function Pack(lines: seq<string>, current: seq<string>, size: int): (groups: seq<seq<string>>)
    ensures |groups| <= |lines| + 1
    decreases |lines|
  {
    if lines == [] then
      if |JoinLines(current)| > 0 then [current] else []
    else if |JoinLines(current)| + |lines[0]| > size && |JoinLines(current)| > 0 then
      [current] + Pack(lines[1..], [lines[0]], size)
    else
      Pack(lines[1..], current + [lines[0]], size)
  }

  /** The lines that make up each chunk of `text`. */
  function Groups(text: string, size: int): seq<seq<string>> {
    Pack(Lines(text), [], size)
  }

  /** The raw accumulator contents at each flush. */
  function Accumulators(groups: seq<seq<string>>): (r: seq<string>)
    ensures |r| == |groups|
  {
    seq(|groups|, i requires 0 <= i < |groups| => JoinLines(groups[i]))
  }

  /** Each emitted chunk is the trimmed accumulator. */
  function Render(groups: seq<seq<string>>): (r: seq<string>)
    ensures |r| == |groups|
  {
    seq(|groups|, i requires 0 <= i < |groups| => TrimSpace(JoinLines(groups[i])))
  }

  /** splitIntoChunks(text, size), as a function. */
  function ChunkText(text: string, size: int): (chunks: seq<string>)
    ensures |chunks| <= |Lines(text)|
  {
    var lines := Lines(text);
    assert Pack(lines, [], size) == Pack(lines[1..], [lines[0]], size);
    Render(Groups(text, size))
  }

  /** No flush happened inside `g`: every line after the first fitted. */
  ghost predicate FitsWithin(g: seq<string>, size: int) {
    forall k :: 1 <= k < |g| ==> |JoinLines(g[..k])| + |g[k]| <= size
  }

  /** No flush was premature in any group. */
  ghost predicate AllFit(gs: seq<seq<string>>, size: int) {
    forall i :: 0 <= i < |gs| ==> FitsWithin(gs[i], size)
  }

  /** Each flush between consecutive groups was forced: the next group's
      first line did not fit in the flushed accumulator. */
  ghost predicate FlushesForced(gs: seq<seq<string>>, size: int) {
    forall j :: 1 <= j < |gs| ==> ForcedBefore(gs, j, size)
  }

  /** Group j starts with a line that did not fit after group j - 1. */
  ghost predicate ForcedBefore(gs: seq<seq<string>>, j: int, size: int)
    requires 1 <= j < |gs|
  {
    gs[j] != [] && |JoinLines(gs[j - 1])| + |gs[j][0]| > size
  }

  lemma {:induction false} JoinLinesAppend(a: seq<string>, b: seq<string>)
    ensures JoinLines(a + b) == JoinLines(a) + JoinLines(b)
    decreases |b|
  {
    if b != [] {
      var b' := b[..|b| - 1];
      assert (a + b)[..|a + b| - 1] == a + b';
      JoinLinesAppend(a, b');
    } else {
      assert a + b == a;
    }
  }

  /** A group of two or more lines is at least two characters longer than
      any one of its lines. */
  lemma {:induction false} JoinLinesLongerThanLine(g: seq<string>, k: nat)
    requires |g| >= 2 && k < |g|
    ensures |JoinLines(g)| >= |g[k]| + 2
    decreases |g|
  {
    var g' := g[..|g| - 1];
    if k < |g| - 1 && |g'| >= 2 {
      JoinLinesLongerThanLine(g', k);
    }
  }

  lemma {:induction false} FlattenCons(g: seq<string>, rest: seq<seq<string>>)
    ensures Flatten([g] + rest) == g + Flatten(rest)
  {
    assert ([g] + rest)[1..] == rest;
  }

  /** Packing loses no line, splits no line and keeps their order. */
  lemma {:induction false} PackFlatten(lines: seq<string>, current: seq<string>, size: int)
    ensures Flatten(Pack(lines, current, size)) == current + lines
    decreases |lines|
  {
    if lines == [] {
      assert current + lines == current;
      if current != [] {
        FlattenCons(current, []);
      }
    } else {
      var rest := lines[1..];
      assert lines == [lines[0]] + rest;
      if |JoinLines(current)| + |lines[0]| > size && |JoinLines(current)| > 0 {
        PackFlatten(rest, [lines[0]], size);
        FlattenCons(current, Pack(rest, [lines[0]], size));
      } else {
        PackFlatten(rest, current + [lines[0]], size);
      }
    }
  }

  lemma {:induction false} PackNonEmptyGroups(lines: seq<string>, current: seq<string>, size: int)
    ensures forall i :: 0 <= i < |Pack(lines, current, size)| ==> Pack(lines, current, size)[i] != []
    decreases |lines|
  {
    if lines != [] {
      if |JoinLines(current)| + |lines[0]| > size && |JoinLines(current)| > 0 {
        PackNonEmptyGroups(lines[1..], [lines[0]], size);
      } else {
        PackNonEmptyGroups(lines[1..], current + [lines[0]], size);
      }
    }
  }

  /** A non-empty accumulator stays at the head of the first group. */
  lemma {:induction false} PackFirst(lines: seq<string>, current: seq<string>, size: int)
    requires current != []
    ensures |Pack(lines, current, size)| >= 1
    ensures Pack(lines, current, size)[0] != [] && Pack(lines, current, size)[0][0] == current[0]
    decreases |lines|
  {
    if lines != [] && !(|JoinLines(current)| + |lines[0]| > size && |JoinLines(current)| > 0) {
      PackFirst(lines[1..], current + [lines[0]], size);
    }
  }

  /** Every flush was forced: between consecutive groups, adding the next
      group's first line to the flushed accumulator would have exceeded size. */
  lemma {:induction false} PackGreedy(lines: seq<string>, current: seq<string>, size: int)
    ensures FlushesForced(Pack(lines, current, size), size)
    decreases |lines|
  {
    if lines != [] {
      var rest := lines[1..];
      if |JoinLines(current)| + |lines[0]| > size && |JoinLines(current)| > 0 {
        var tail := Pack(rest, [lines[0]], size);
        PackGreedy(rest, [lines[0]], size);
        PackFirst(rest, [lines[0]], size);
        var gs := [current] + tail;
        assert Pack(lines, current, size) == gs;
        forall j | 1 <= j < |gs|
          ensures ForcedBefore(gs, j, size)
        {
          if j > 1 {
            assert gs[j - 1] == tail[j - 2] && gs[j] == tail[j - 1];
            assert ForcedBefore(tail, j - 1, size);
          } else {
            assert gs[0] == current && gs[1] == tail[0] && tail[0][0] == lines[0];
          }
        }
        assert FlushesForced(gs, size);
      } else {
        assert Pack(lines, current, size) == Pack(rest, current + [lines[0]], size);
        PackGreedy(rest, current + [lines[0]], size);
      }
    }
  }

  /** No flush was premature: inside a group every line after the first fitted. */
  lemma {:induction false} PackNoEarlyFlush(lines: seq<string>, current: seq<string>, size: int)
    requires FitsWithin(current, size)
    ensures AllFit(Pack(lines, current, size), size)
    decreases |lines|
  {
    if lines != [] {
      var rest := lines[1..];
      if |JoinLines(current)| + |lines[0]| > size && |JoinLines(current)| > 0 {
        var tail := Pack(rest, [lines[0]], size);
        PackNoEarlyFlush(rest, [lines[0]], size);
        var gs := [current] + tail;
        assert Pack(lines, current, size) == gs;
        forall i | 0 <= i < |gs| ensures FitsWithin(gs[i], size) {
          if i == 0 {
            assert gs[0] == current;
          } else {
            assert gs[i] == tail[i - 1];
          }
        }
      } else {
        var next := current + [lines[0]];
        forall k | 1 <= k < |next| ensures |JoinLines(next[..k])| + |next[k]| <= size {
          if k < |current| {
            assert next[..k] == current[..k];
          } else {
            assert next[..k] == current;
          }
        }
        PackNoEarlyFlush(rest, next, size);
        assert Pack(lines, current, size) == Pack(rest, next, size);
      }
    }
  }

  /** A group whose lines all fitted trims to at most `size` characters once
      it holds two or more lines. */
  lemma FitsWithinBound(g: seq<string>, size: int)
    requires FitsWithin(g, size) && |g| >= 2
    ensures |JoinLines(g)| <= size + 1
    ensures |TrimSpace(JoinLines(g))| <= size
  {
    var k := |g| - 1;
    assert g[..k] == g[..|g| - 1];
    TrimSpaceShortens(JoinLines(g));
  }

  lemma ConcatAccumulators(groups: seq<seq<string>>)
    ensures Concat(Accumulators(groups)) == JoinLines(Flatten(groups))
    decreases |groups|
  {
    if groups != [] {
      assert Accumulators(groups)[1..] == Accumulators(groups[1..]);
      ConcatAccumulators(groups[1..]);
      JoinLinesAppend(groups[0], Flatten(groups[1..]));
    }
  }

  /** The chunker always emits at least one chunk, one per group, and each
      group is a non-empty run of whole input lines; in order, the groups are
      exactly the trimmed input lines. */
  lemma ChunkTextStructure(text: string, size: int)
    ensures var gs := Groups(text, size);
      |ChunkText(text, size)| == |gs| >= 1 &&
      Flatten(gs) == Lines(text) &&
      (forall i :: 0 <= i < |gs| ==> gs[i] != [])
  {
    var gs := Groups(text, size);
    PackFlatten(Lines(text), [], size);
    PackNonEmptyGroups(Lines(text), [], size);
    assert [] + Lines(text) == Lines(text);
  }

  /** The accumulators, concatenated in the order they were flushed, are the
      input lines each trimmed and followed by "\n". */
  lemma ChunkTextCoversText(text: string, size: int)
    ensures Concat(Accumulators(Groups(text, size))) == JoinLines(Lines(text))
  {
    ChunkTextStructure(text, size);
    ConcatAccumulators(Groups(text, size));
  }

  /** Empty text makes one empty chunk, not an empty sequence. */
  lemma ChunkTextOfEmpty(size: int)
    ensures ChunkText([], size) == [[]]
  {
    assert Split([], '\n') == [[]];
    assert Lines([]) == [[]];
    assert JoinLines([]) == [];
    assert Pack([[]], [], size) == Pack([], [[]], size);
    assert JoinLines([[]]) == "\n";
    assert Groups([], size) == [[[]]];
    TrimSpaceDropsTrailingSpace([], '\n');
  }

  /** The greedy flush rule, no flush premature: inside every group each
      line after the first fitted into the accumulator. */
  lemma ChunkTextNoEarlyFlush(text: string, size: int)
    ensures AllFit(Groups(text, size), size)
  {
    PackNoEarlyFlush(Lines(text), [], size);
  }

  /** The greedy flush rule, every flush forced: the first line of each
      chunk after the first did not fit into the accumulator before it. */
  lemma ChunkTextFlushesForced(text: string, size: int)
    ensures FlushesForced(Groups(text, size), size)
  {
    PackGreedy(Lines(text), [], size);
  }

  /** The soft size bound: a chunk built from two or more lines is at most
      `size` characters long. */
  lemma ChunkTextSoftBound(text: string, size: int, i: nat)
    requires i < |Groups(text, size)| && |Groups(text, size)[i]| >= 2
    ensures |ChunkText(text, size)[i]| <= size
  {
    ChunkTextNoEarlyFlush(text, size);
    FitsWithinBound(Groups(text, size)[i], size);
  }

  /** A chunk made of one line is that line, whole. */
  lemma ChunkTextSingleLine(text: string, size: int, i: nat)
    requires i < |Groups(text, size)| && |Groups(text, size)[i]| == 1
    ensures ChunkText(text, size)[i] == Groups(text, size)[i][0]
  {
    var gs := Groups(text, size);
    var line := gs[i][0];
    ChunkTextStructure(text, size);
    FlattenMember(gs, i, 0);
    assert line in Lines(text);
    assert Trimmed(line);
    assert gs[i][..0] == [];
    assert JoinLines(gs[i]) == line + "\n";
    TrimSpaceDropsTrailingSpace(line, '\n');
  }

  /** A line longer than `size` is never split and is emitted alone. */
  lemma ChunkTextLongLine(text: string, size: int, i: nat, k: nat)
    requires i < |Groups(text, size)| && k < |Groups(text, size)[i]|
    requires |Groups(text, size)[i][k]| > size
    ensures Groups(text, size)[i] == [Groups(text, size)[i][k]]
    ensures ChunkText(text, size)[i] == Groups(text, size)[i][k]
  {
    var gs := Groups(text, size);
    var g := gs[i];
    ChunkTextNoEarlyFlush(text, size);
    assert FitsWithin(g, size);
    if |g| >= 2 {
      FitsWithinBound(g, size);
      JoinLinesLongerThanLine(g, k);
      assert false;
    }
    assert k == 0 && g == [g[0]];
    ChunkTextSingleLine(text, size, i);
  }

  lemma {:induction false} FlattenMember(gs: seq<seq<string>>, i: nat, k: nat)
    requires i < |gs| && k < |gs[i]|
    ensures gs[i][k] in Flatten(gs)
    decreases i
  {
    if i > 0 {
      FlattenMember(gs[1..], i - 1, k);
      assert gs[1..][i - 1] == gs[i];
    }
  }

  /** One iteration of the splitIntoChunks loop, seen on the groups: either
      the accumulator is flushed as a group and restarted with the line, or
      the line joins it; in both cases the groups still to come are Pack's. */
  lemma PackStep(lines: seq<string>, i: nat, cur: seq<string>, size: int,
                 groups: seq<seq<string>>, target: seq<seq<string>>)
    requires i < |lines| && groups + Pack(lines[i..], cur, size) == target
    ensures |JoinLines(cur)| + |lines[i]| > size && |JoinLines(cur)| > 0 ==>
      (groups + [cur]) + Pack(lines[i + 1..], [lines[i]], size) == target
    ensures !(|JoinLines(cur)| + |lines[i]| > size && |JoinLines(cur)| > 0) ==>
      groups + Pack(lines[i + 1..], cur + [lines[i]], size) == target
  {
    assert lines[i..][0] == lines[i] && lines[i..][1..] == lines[i + 1..];
    if |JoinLines(cur)| + |lines[i]| > size && |JoinLines(cur)| > 0 {
      assert groups + ([cur] + Pack(lines[i + 1..], [lines[i]], size)) == target;
    }
  }

  /** The end of the loop: the final flush when the accumulator is not empty. */
  lemma PackEnd(lines: seq<string>, cur: seq<string>, size: int,
                groups: seq<seq<string>>, target: seq<seq<string>>)
    requires groups + Pack(lines[|lines|..], cur, size) == target
    ensures |JoinLines(cur)| > 0 ==> groups + [cur] == target
    ensures |JoinLines(cur)| == 0 ==> groups == target
  {
    assert lines[|lines|..] == [];
  }

  lemma JoinLinesSnoc(cur: seq<string>, line: string)
    ensures JoinLines(cur + [line]) == JoinLines(cur) + line + "\n"
  {
    assert (cur + [line])[..|cur|] == cur;
  }

  lemma RenderSnoc(groups: seq<seq<string>>, g: seq<string>)
    ensures Render(groups + [g]) == Render(groups) + [TrimSpace(JoinLines(g))]
  {
    var gs := groups + [g];
    var r := Render(gs);
    assert |r| == |Render(groups)| + 1;
    forall k | 0 <= k < |groups|
      ensures r[k] == Render(groups)[k]
    {
      assert gs[k] == groups[k];
    }
    assert r[|groups|] == TrimSpace(JoinLines(g));
  }
}
