/** The Brainfuck chunker (util/chunk-bf.js): strip everything that is not one
    of the eight Brainfuck commands, then cut what is left into chunks of at
    most nine commands, also ending a chunk after every output (`.`) or input
    (`,`) command. */
module ChunkBF {

  /** One of the eight Brainfuck commands `+ - > < [ ] . ,`. */
  predicate IsCommand(c: char)
  {
    c == '+' || c == '-' || c == '>' || c == '<' || c == '[' || c == ']' || c == '.' || c == ','
  }

  /** An output or input command, after which a chunk ends. */
  predicate IsInputOutput(c: char)
  {
    c == '.' || c == ','
  }

  /** `code.replace(/[^+\-><\[\].,]/g, "")`: the commands of `code`, in order. */
  function Filter(code: string): (r: string)
    ensures forall c :: c in r ==> IsCommand(c)
    ensures |r| <= |code|
  {
    if code == [] then []
    else (if IsCommand(code[0]) then [code[0]] else []) + Filter(code[1..])
  }

  /** The chunks written one after another. */
  function Flatten(chunks: seq<string>): string
  {
    if chunks == [] then [] else Flatten(chunks[..|chunks| - 1]) + chunks[|chunks| - 1]
  }

  /** Where chunk k starts in the filtered string. */
  function Offset(chunks: seq<string>, k: int): nat
    requires 0 <= k <= |chunks|
  {
    |Flatten(chunks[..k])|
  }

  /** The chunk ends with an output or input command. */
  predicate EndsInInputOutput(s: string)
  {
    |s| > 0 && IsInputOutput(s[|s| - 1])
  }

  /** Every chunk holds at most nine commands. */
  predicate Short(chunks: seq<string>)
  {
    forall k :: 0 <= k < |chunks| ==> |chunks[k]| <= 9
  }

  /** A `.` or `,` is the last command of its chunk, and another chunk follows. */
  predicate InputOutputLast(chunks: seq<string>)
  {
    forall k, p :: 0 <= k < |chunks| && 0 <= p < |chunks[k]| && IsInputOutput(chunks[k][p]) ==>
      p == |chunks[k]| - 1 && k + 1 < |chunks|
  }

  /** No chunk runs past the next multiple of 9 from where it starts (so a new
      chunk begins at every filtered index that is a multiple of 9). */
  predicate WithinBlocks(chunks: seq<string>)
  {
    forall k :: 0 <= k < |chunks| ==> Offset(chunks, k) % 9 + |chunks[k]| <= 9
  }

  /** A chunk begins only at a multiple of 9 or after an output or input. */
  predicate BoundariesJustified(chunks: seq<string>)
  {
    forall k :: 0 < k < |chunks| ==> EndsInInputOutput(chunks[k - 1]) || Offset(chunks, k) % 9 == 0
  }

  /** A chunk is empty exactly when it follows an output or input and starts
      at a multiple of 9 or at the end of the string: the chunk pushed after
      the `.` / `,` then gets no command before the next push or the end. */
  predicate EmptyExactlyAfterInputOutput(chunks: seq<string>)
  {
    forall k :: 0 <= k < |chunks| ==> EmptyExactlyAt(chunks, k)
  }

  /** Chunk k is empty exactly when it follows an output or input and starts
      at a multiple of 9 or at the end of the string. */
  predicate EmptyExactlyAt(chunks: seq<string>, k: int)
    requires 0 <= k < |chunks|
  {
    chunks[k] == [] <==>
      && 0 < k && EndsInInputOutput(chunks[k - 1])
      && (Offset(chunks, k) % 9 == 0 || Offset(chunks, k) == |Flatten(chunks)|)
  }

  // ---------------------------------------------------------------------
  // The filter

  /** The filter keeps every command as often as it occurs and drops
      everything else. */
  lemma {:induction false} FilterCounts(code: string)
    ensures forall c :: IsCommand(c) ==> multiset(Filter(code))[c] == multiset(code)[c]
    ensures forall c :: !IsCommand(c) ==> multiset(Filter(code))[c] == 0
  {
    if code != [] {
      FilterCounts(code[1..]);
      assert code == [code[0]] + code[1..];
    }
  }

  /** A string of commands only is left as it is. */
  lemma {:induction false} FilterOfCommands(s: string)
    requires forall c :: c in s ==> IsCommand(c)
    ensures Filter(s) == s
  {
    if s != [] {
      assert s[0] in s;
      assert forall c :: c in s[1..] ==> c in s;
      FilterOfCommands(s[1..]);
      assert s == [s[0]] + s[1..];
    }
  }

  /** Filtering twice is filtering once. */
  lemma FilterIdempotent(s: string)
    ensures Filter(Filter(s)) == Filter(s)
  {
    FilterOfCommands(Filter(s));
  }

  /** The filter works character by character, so it distributes over `+`. */
  lemma {:induction false} FilterAppend(a: string, b: string)
    ensures Filter(a + b) == Filter(a) + Filter(b)
  {
    if a != [] {
      assert (a + b)[0] == a[0];
      assert (a + b)[1..] == a[1..] + b;
      FilterAppend(a[1..], b);
    } else {
      assert a + b == b;
    }
  }

  // ---------------------------------------------------------------------
  // Flattening

  /** Pushing a chunk appends it to the flattened string and moves no chunk. */
  lemma FlattenPush(chunks: seq<string>, s: string)
    ensures Flatten(chunks + [s]) == Flatten(chunks) + s
    ensures forall k :: 0 <= k <= |chunks| ==> Offset(chunks + [s], k) == Offset(chunks, k)
  {
    assert (chunks + [s])[..|chunks|] == chunks;
    forall k | 0 <= k <= |chunks|
      ensures Offset(chunks + [s], k) == Offset(chunks, k)
    {
      assert (chunks + [s])[..k] == chunks[..k];
    }
  }

  /** Replacing the last chunk replaces the tail of the flattened string and
      moves no chunk. */
  lemma FlattenSetLast(chunks: seq<string>, s: string)
    requires chunks != []
    ensures Flatten(chunks[|chunks| - 1 := s]) == Flatten(chunks[..|chunks| - 1]) + s
    ensures forall k :: 0 <= k < |chunks| ==> Offset(chunks[|chunks| - 1 := s], k) == Offset(chunks, k)
  {
    var t := chunks[|chunks| - 1 := s];
    assert t[..|t| - 1] == chunks[..|chunks| - 1];
    forall k | 0 <= k < |chunks|
      ensures Offset(t, k) == Offset(chunks, k)
    {
      assert t[..k] == chunks[..k];
    }
  }

  /** The last chunk starts where the chunks before it end. */
  lemma OffsetOfLast(chunks: seq<string>)
    requires chunks != []
    ensures Offset(chunks, |chunks| - 1) + |chunks[|chunks| - 1]| == |Flatten(chunks)|
  {
  }

  /** Each chunk starts where the one before it ends. */
  lemma OffsetNext(chunks: seq<string>, k: int)
    requires 0 <= k < |chunks|
    ensures Offset(chunks, k + 1) == Offset(chunks, k) + |chunks[k]|
  {
    assert chunks[..k + 1][..k] == chunks[..k];
  }

  /** Later chunks start no earlier, and none after the end. */
  lemma OffsetMonotone(chunks: seq<string>, k: int, j: int)
    requires 0 <= k <= j <= |chunks|
    ensures Offset(chunks, k) <= Offset(chunks, j) <= |Flatten(chunks)|
  {
    OffsetsGrow(chunks, k, j);
    OffsetsGrow(chunks, j, |chunks|);
    assert chunks[..|chunks|] == chunks;
  }

  lemma {:induction false} OffsetsGrow(chunks: seq<string>, k: int, j: int)
    requires 0 <= k <= j <= |chunks|
    ensures Offset(chunks, k) <= Offset(chunks, j)
    decreases j - k
  {
    if k < j {
      OffsetNext(chunks, k);
      OffsetsGrow(chunks, k + 1, j);
    }
  }

  /** With every output and input followed by another chunk, the last chunk
      does not end in one. */
  lemma LastNotInputOutput(chunks: seq<string>)
    requires InputOutputLast(chunks) && chunks != []
    ensures !EndsInInputOutput(chunks[|chunks| - 1])
  {
    var last := chunks[|chunks| - 1];
    if |last| > 0 {
      assert !IsInputOutput(chunks[|chunks| - 1][|last| - 1]) || |chunks| - 1 + 1 < |chunks|;
    }
  }

  /** Each character of a chunk occurs in the flattened string. */
  lemma {:induction false} InFlatten(chunks: seq<string>, k: int, c: char)
    requires 0 <= k < |chunks| && c in chunks[k]
    ensures c in Flatten(chunks)
    decreases |chunks|
  {
    if k < |chunks| - 1 {
      InFlatten(chunks[..|chunks| - 1], k, c);
    }
  }

  // ---------------------------------------------------------------------
  // Blocks of nine

  /** Chunks within their blocks hold at most nine commands. */
  lemma WithinBlocksShort(chunks: seq<string>)
    requires WithinBlocks(chunks)
    ensures Short(chunks)
  {
  }

  /** A chunk that reaches the end of its block ends at a multiple of 9. */
  lemma FillsBlock(o: nat, len: nat)
    requires o % 9 + len == 9
    ensures (o + len) % 9 == 0
  {
    assert o == 9 * (o / 9) + o % 9;
    assert o + len == 9 * (o / 9 + 1);
  }

  /** With the chunks within their blocks, the command at a filtered index that
      is a multiple of 9 is the first of its chunk. */
  lemma NineStartsChunk(chunks: seq<string>, k: int, p: int)
    requires WithinBlocks(chunks)
    requires 0 <= k < |chunks| && 0 <= p < |chunks[k]| && (Offset(chunks, k) + p) % 9 == 0
    ensures p == 0
  {
    assert Offset(chunks, k) % 9 + |chunks[k]| <= 9;
  }

  /** For `++++++++.+` the loop pushes a chunk after the `.` at index 8 and
      another at index 9, leaving an empty chunk between them; the iff demands
      that empty chunk. */
  lemma EmptyChunkAtBlockEnd()
    ensures EmptyExactlyAfterInputOutput(["++++++++.", "", "+"])
    ensures !EmptyExactlyAfterInputOutput(["++++++++.", "+"])
  {
    var a := ["++++++++.", "+"];
    assert Flatten(a[..1]) == "++++++++.";
    assert !EmptyExactlyAt(a, 1);
    var b := ["++++++++.", "", "+"];
    assert b[..0] == [] && b[..1] == ["++++++++."] && b[..2] == ["++++++++.", ""];
    assert Flatten(b[..2]) == "++++++++.";
    assert Flatten(b) == "++++++++.+";
    assert EmptyExactlyAt(b, 0) && EmptyExactlyAt(b, 1) && EmptyExactlyAt(b, 2);
  }

  // ---------------------------------------------------------------------
  // The chunker

  /** `chunkBF` (util/chunk-bf.js:1-19). */
  method ChunkBF(code: string) returns (chunked: seq<string>)
    ensures Flatten(chunked) == Filter(code)
    ensures chunked == [] <==> Filter(code) == []
    ensures forall k, c :: 0 <= k < |chunked| && c in chunked[k] ==> IsCommand(c)
    ensures WithinBlocks(chunked) && Short(chunked)
    ensures InputOutputLast(chunked)
    ensures BoundariesJustified(chunked)
    ensures EmptyExactlyAfterInputOutput(chunked)
  {
    var f := Filter(code);
    chunked := [];
    var i := 0;
    while i < |f|
      invariant 0 <= i <= |f|
      invariant Chunking(chunked, f[..i])
    {
      ghost var before := chunked;
      if i % 9 == 0 {
        chunked := chunked + [""];
      }
      ghost var started := chunked;
      chunked := chunked[|chunked| - 1 := chunked[|chunked| - 1] + [f[i]]];
      ghost var filled := chunked;
      if f[i] == '.' || f[i] == ',' {
        chunked := chunked + [""];
      }
      Step(before, started, filled, chunked, f, i);
      i := i + 1;
    }
    assert f[..|f|] == f;
    WithinBlocksShort(chunked);
    forall k, c | 0 <= k < |chunked| && c in chunked[k]
      ensures IsCommand(c)
    {
      InFlatten(chunked, k, c);
    }
  }

  /** The prefix of one more character. */
  lemma PrefixStep(f: string, i: int)
    requires 0 <= i < |f|
    ensures f[..i + 1] == f[..i] + [f[i]]
  {
  }

  /** What the loop of util/chunk-bf.js:7-16 keeps once `done` has been cut
      into `chunks`. */
  predicate Chunking(chunks: seq<string>, done: string)
  {
    && Flatten(chunks) == done
    && (chunks == [] <==> done == [])
    && WithinBlocks(chunks)
    && InputOutputLast(chunks)
    && BoundariesJustified(chunks)
    && EmptyExactlyAfterInputOutput(chunks)
  }

  /** A pass over command i of f keeps the chunking. */
  lemma Step(before: seq<string>, started: seq<string>, filled: seq<string>,
             after: seq<string>, f: string, i: int)
    requires 0 <= i < |f| && Chunking(before, f[..i])
    requires started == (if i % 9 == 0 then before + [""] else before)
    requires started != []
    requires filled == started[|started| - 1 := started[|started| - 1] + [f[i]]]
    requires after == (if IsInputOutput(f[i]) then filled + [""] else filled)
    ensures Chunking(after, f[..i + 1])
  {
    var done, c := f[..i], f[i];
    assert Pass(before, started, filled, after, done, c, i);
    StepFlatten(before, started, filled, after, done, c, i);
    StepWithinBlocks(before, started, filled, after, done, c, i);
    StepInputOutputLast(before, started, filled, after, done, c, i);
    StepBoundaries(before, started, filled, after, done, c, i);
    StepEmpty(before, started, filled, after, done, c, i);
    PrefixStep(f, i);
  }

  /** One pass of the loop of util/chunk-bf.js:7-16 with command c at index i,
      after the chunks before it have been cut from `done`: `started` after
      the push at a multiple of 9, `filled` after appending c to the last
      chunk, `after` after the push that follows an output or input. */
  predicate Pass(before: seq<string>, started: seq<string>, filled: seq<string>,
                 after: seq<string>, done: string, c: char, i: int)
  {
    && 0 <= i && Flatten(before) == done && |done| == i
    && (before == [] <==> i == 0)
    && started == (if i % 9 == 0 then before + [""] else before)
    && started != []
    && filled == started[|started| - 1 := started[|started| - 1] + [c]]
    && after == (if IsInputOutput(c) then filled + [""] else filled)
  }

  /** A pass appends its command to the flattened chunks and leaves every
      earlier chunk where it was. */
  lemma StepFlatten(before: seq<string>, started: seq<string>, filled: seq<string>,
                    after: seq<string>, done: string, c: char, i: int)
    requires Pass(before, started, filled, after, done, c, i)
    ensures Flatten(after) == done + [c] && after != []
    ensures Offset(started, |started| - 1) + |started[|started| - 1]| == i
    ensures forall k :: 0 <= k < |started| ==> Offset(filled, k) == Offset(started, k)
    ensures forall k :: 0 <= k <= |filled| ==> Offset(after, k) == Offset(filled, k)
    ensures forall k :: 0 <= k <= |before| ==> Offset(started, k) == Offset(before, k)
  {
    FlattenPush(before, "");
    assert Flatten(started) == done;
    var m := |started|;
    var last := started[m - 1];
    assert started[..m] == started;
    OffsetOfLast(started);
    FlattenSetLast(started, last + [c]);
    assert Flatten(filled) == Flatten(started[..m - 1]) + (last + [c]);
    assert Flatten(started) == Flatten(started[..m - 1]) + last;
    assert Flatten(filled) == done + [c];
    FlattenPush(filled, "");
  }

  /** A pass keeps every chunk within its block of nine. */
  lemma StepWithinBlocks(before: seq<string>, started: seq<string>, filled: seq<string>,
                         after: seq<string>, done: string, c: char, i: int)
    requires Pass(before, started, filled, after, done, c, i)
    requires WithinBlocks(before)
    ensures WithinBlocks(after)
  {
    StepFlatten(before, started, filled, after, done, c, i);
    var m := |started|;
    var o := Offset(started, m - 1);
    assert |after[m - 1]| == |started[m - 1]| + 1;
    RoomInBlock(before, started, filled, after, done, c, i);
    forall k | 0 <= k < |after|
      ensures Offset(after, k) % 9 + |after[k]| <= 9
    {
      if k < m - 1 {
        assert after[k] == before[k];
        assert Offset(after, k) == Offset(before, k);
      } else if k == m - 1 {
        assert Offset(after, k) == o;
      } else {
        assert after[k] == "";
      }
    }
  }

  /** The chunk a pass appends to has room for one more command in its block. */
  lemma RoomInBlock(before: seq<string>, started: seq<string>, filled: seq<string>,
                    after: seq<string>, done: string, c: char, i: int)
    requires Pass(before, started, filled, after, done, c, i)
    requires WithinBlocks(before)
    ensures Offset(started, |started| - 1) % 9 + |started[|started| - 1]| < 9
  {
    StepFlatten(before, started, filled, after, done, c, i);
    var m := |started|;
    var o := Offset(started, m - 1);
    if i % 9 == 0 {
      assert started[m - 1] == "";
    } else {
      assert o % 9 + |started[m - 1]| <= 9;
      if o % 9 + |started[m - 1]| == 9 {
        FillsBlock(o, |started[m - 1]|);
      }
    }
  }

  /** A pass keeps every output and input last in its chunk and followed by
      another chunk. */
  lemma StepInputOutputLast(before: seq<string>, started: seq<string>, filled: seq<string>,
                            after: seq<string>, done: string, c: char, i: int)
    requires Pass(before, started, filled, after, done, c, i)
    requires InputOutputLast(before)
    ensures InputOutputLast(after)
  {
    var m := |started|;
    var last := started[m - 1];
    assert forall p :: 0 <= p < |last| ==> !IsInputOutput(last[p]) by {
      forall p | 0 <= p < |last|
        ensures !IsInputOutput(last[p])
      {
        if i % 9 != 0 {
          assert last == before[m - 1];
        }
      }
    }
    forall k, p | 0 <= k < |after| && 0 <= p < |after[k]| && IsInputOutput(after[k][p])
      ensures p == |after[k]| - 1 && k + 1 < |after|
    {
      if k == m - 1 {
        assert after[k] == started[m - 1] + [c];
      } else if k < m - 1 {
        assert after[k] == before[k];
      }
    }
  }

  /** A pass opens chunks only at a multiple of 9 or after an output or input. */
  lemma StepBoundaries(before: seq<string>, started: seq<string>, filled: seq<string>,
                       after: seq<string>, done: string, c: char, i: int)
    requires Pass(before, started, filled, after, done, c, i)
    requires BoundariesJustified(before)
    ensures BoundariesJustified(after)
  {
    StepFlatten(before, started, filled, after, done, c, i);
    var n := |before|;
    forall k | 0 < k < |after|
      ensures EndsInInputOutput(after[k - 1]) || Offset(after, k) % 9 == 0
    {
      if k < n {
        assert after[k - 1] == before[k - 1] || k == n - 1;
      }
    }
  }

  /** A pass keeps the empty chunks exactly those after an output or input
      at the end of a block or of the string. */
  lemma StepEmpty(before: seq<string>, started: seq<string>, filled: seq<string>,
                  after: seq<string>, done: string, c: char, i: int)
    requires Pass(before, started, filled, after, done, c, i)
    requires InputOutputLast(before) && EmptyExactlyAfterInputOutput(before)
    ensures EmptyExactlyAfterInputOutput(after)
  {
    StepFlatten(before, started, filled, after, done, c, i);
    var m, n := |started|, |before|;
    var o := Offset(started, m - 1);
    assert |Flatten(after)| == i + 1;
    if n > 0 {
      LastNotInputOutput(before);
      OffsetMonotone(before, 0, n);
      assert before[..n] == before;
    }
    forall k | 0 <= k < |after|
      ensures EmptyExactlyAt(after, k)
    {
      if k == m {
        assert after[k - 1] == started[m - 1] + [c];
        assert after[..k] == filled;
        assert Offset(after, k) == |Flatten(after)|;
        assert after[k] == [];
      } else if k == m - 1 {
        StepLast(before, started, filled, after, done, c, i);
        assert after[k] != [];
      } else {
        StepKept(before, started, filled, after, done, c, i, k);
      }
    }
  }

  /** A chunk before the one a pass appends to keeps its commands and where
      it starts, so the iff carries over to it. */
  lemma StepKept(before: seq<string>, started: seq<string>, filled: seq<string>,
                 after: seq<string>, done: string, c: char, i: int, k: int)
    requires Pass(before, started, filled, after, done, c, i)
    requires EmptyExactlyAfterInputOutput(before)
    requires 0 <= k < |started| - 1
    ensures EmptyExactlyAt(after, k)
  {
    StepFlatten(before, started, filled, after, done, c, i);
    var n := |before|;
    assert EmptyExactlyAt(before, k);
    assert after[k] == before[k];
    if k > 0 {
      assert after[k - 1] == before[k - 1];
    }
    assert Offset(after, k) == Offset(before, k);
    OffsetMonotone(before, k, n);
    if i % 9 != 0 {
      assert EmptyExactlyAt(before, n - 1);
      StepEarlier(before, k);
    }
  }

  /** The chunk a pass appends its command to is not empty, and not one the
      iff would call empty. */
  lemma StepLast(before: seq<string>, started: seq<string>, filled: seq<string>,
                 after: seq<string>, done: string, c: char, i: int)
    requires Pass(before, started, filled, after, done, c, i)
    requires InputOutputLast(before) && EmptyExactlyAfterInputOutput(before)
    ensures var m := |started|;
      !(0 < m - 1 && EndsInInputOutput(after[m - 2]) && Offset(after, m - 1) % 9 == 0)
    ensures Offset(after, |started| - 1) < |Flatten(after)|
  {
    StepFlatten(before, started, filled, after, done, c, i);
    var m, n := |started|, |before|;
    if i % 9 == 0 {
      if n > 0 {
        LastNotInputOutput(before);
        assert after[m - 2] == before[n - 1];
      }
    } else {
      if m > 1 {
        assert after[m - 2] == before[n - 2];
      }
      assert EmptyExactlyAt(before, n - 1);
      OffsetMonotone(before, n - 1, n);
      assert before[..n] == before;
    }
  }

  /** Before the last chunk, no chunk starts at the end of the string, unless
      the last two chunks are both empty. */
  lemma StepEarlier(chunks: seq<string>, k: int)
    requires 0 <= k < |chunks| - 1
    requires chunks[|chunks| - 1] == [] ==> chunks[|chunks| - 2] != []
    ensures Offset(chunks, k) < |Flatten(chunks)|
  {
    var n := |chunks|;
    OffsetsGrow(chunks, k, n - 2);
    OffsetNext(chunks, n - 2);
    OffsetNext(chunks, n - 1);
    assert chunks[..n] == chunks;
  }
}
