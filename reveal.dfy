/**
 * The reveal chunker: `Tossup.generate_lines`. A question is normalised
 * (stripped, newlines turned into spaces) and split on single spaces into
 * words; chunks are the word prefixes that end at every stride of
 * `chunk_size` words, plus, when the power mark is watched, one extra chunk
 * that ends exactly on the first `(*)` word if the stride would overshoot it.
 */
module Reveal {
  import opened Text

  /** The power mark as a word of the question text. */
  const PowerMark: string := "(*)"

  function Min(a: int, b: int): int {
    if a < b then a else b
  }

  /** `text.strip().replace("\n", " ")` */
  function Normalize(text: string): string {
    ReplaceChar(Strip(text), '\n', ' ')
  }

  /** `text.strip().replace("\n", " ").split(" ")` */
  function Words(text: string): (ws: seq<string>)
    ensures |ws| >= 1
  {
    Split(Normalize(text), ' ')
  }

  /** `" ".join(words[:c])`, the chunk that shows the first `c` words. */
  function Chunk(words: seq<string>, c: nat): string {
    Join(words[..Min(c, |words|)], ' ')
  }

  function Chunks(words: seq<string>, cuts: seq<nat>): (r: seq<string>)
    ensures |r| == |cuts|
  {
    seq(|cuts|, k requires 0 <= k < |cuts| => Chunk(words, cuts[k]))
  }

  /** The end of the stride prefix `words[:i + size]`. */
  function StrideEnd(words: seq<string>, size: nat, i: nat): nat {
    Min(i + size, |words|)
  }

  /** Whether the stride at `i` is the first whose prefix holds the power mark. */
  predicate Hit(words: seq<string>, size: nat, watch: bool, i: nat, seen: bool) {
    watch && !seen && PowerMark in words[..StrideEnd(words, size, i)]
  }

  /** The cuts one stride contributes: possibly the power cut, then the stride end. */
  function StrideCuts(words: seq<string>, size: nat, watch: bool, i: nat, seen: bool): seq<nat>
    requires i < |words|
  {
    var e := StrideEnd(words, size, i);
    if Hit(words, size, watch, i, seen) && !EndsWith(words[e - 1], PowerMark)
    then [IndexOf(words[..e], PowerMark) + 1, e]
    else [e]
  }

  /**
   * The word counts at which the chunks end, for the strides that start at
   * `i`, `i + size`, ... below `|words|`; `seen` is `seen_power`.
   */
  function CutsFrom(words: seq<string>, size: nat, watch: bool, i: nat, seen: bool): seq<nat>
    requires size > 0
    decreases |words| - i
  {
    if i >= |words| then []
    else StrideCuts(words, size, watch, i, seen) + CutsFrom(words, size, watch, i + size, seen || Hit(words, size, watch, i, seen))
  }

  function Cuts(words: seq<string>, size: nat, watch: bool): seq<nat>
    requires size > 0
  {
    CutsFrom(words, size, watch, 0, false)
  }

  /** What `generate_lines(text, size, watch)` returns. */
  function Lines(text: string, size: nat, watch: bool): seq<string>
    requires size > 0
  {
    Chunks(Words(text), Cuts(Words(text), size, watch))
  }

  lemma ChunksAppend(words: seq<string>, cuts: seq<nat>, more: seq<nat>)
    ensures Chunks(words, cuts + more) == Chunks(words, cuts) + Chunks(words, more)
  {
  }

  /** One pass of the stride loop's body: the chunks it appends and the new `seen_power`. */
  method ReadStride(words: seq<string>, chunkSize: nat, watchPower: bool, i: nat, seenPower: bool)
    returns (added: seq<string>, seen: bool)
    requires chunkSize > 0 && i < |words|
    ensures added == Chunks(words, StrideCuts(words, chunkSize, watchPower, i, seenPower))
    ensures seen == (seenPower || Hit(words, chunkSize, watchPower, i, seenPower))
  {
    var e := Min(i + chunkSize, |words|);
    var nextRead := words[..e];
    added := [];
    seen := seenPower;
    if watchPower && !seenPower && PowerMark in nextRead {
      if !EndsWith(nextRead[|nextRead| - 1], PowerMark) {
        var p := IndexOf(nextRead, PowerMark);
        var powerChunk := nextRead[..p + 1];
        assert p + 1 <= e && powerChunk == words[..p + 1];
        added := added + [Join(powerChunk, ' ')];
      }
      seen := true;
    }
    added := added + [Join(nextRead, ' ')];
  }

  /** The stride loop of `Tossup.generate_lines` over the split words. */
  method ChunkWords(words: seq<string>, chunkSize: nat, watchPower: bool) returns (chunks: seq<string>)
    requires chunkSize > 0
    ensures chunks == Chunks(words, Cuts(words, chunkSize, watchPower))
  {
    chunks := [];
    var seenPower := false;
    ghost var cuts: seq<nat> := [];
    var i := 0;
    while i < |words|
      invariant cuts + CutsFrom(words, chunkSize, watchPower, i, seenPower) == Cuts(words, chunkSize, watchPower)
      invariant chunks == Chunks(words, cuts)
      decreases |words| - i
    {
      ghost var stride := StrideCuts(words, chunkSize, watchPower, i, seenPower);
      ghost var rest := CutsFrom(words, chunkSize, watchPower, i + chunkSize, seenPower || Hit(words, chunkSize, watchPower, i, seenPower));
      ghost var cuts' := cuts + stride;
      assert cuts' + rest == Cuts(words, chunkSize, watchPower) by {
        assert CutsFrom(words, chunkSize, watchPower, i, seenPower) == stride + rest;
        assert cuts + (stride + rest) == cuts' + rest;
      }
      var added;
      added, seenPower := ReadStride(words, chunkSize, watchPower, i, seenPower);
      assert chunks + added == Chunks(words, cuts') by {
        ChunksAppend(words, cuts, stride);
      }
      chunks := chunks + added;
      cuts := cuts';
      i := i + chunkSize;
    }
  }

  /** `Tossup.generate_lines`: normalise and split the text, then run the stride loop. */
  method GenerateLines(text: string, chunkSize: nat, watchPower: bool) returns (chunks: seq<string>)
    requires chunkSize > 0
    ensures chunks == Lines(text, chunkSize, watchPower)
  {
    var words := Split(ReplaceChar(Strip(text), '\n', ' '), ' ');
    chunks := ChunkWords(words, chunkSize, watchPower);
  }

  // ---------------------------------------------------------------- properties

  predicate Increasing(s: seq<nat>) {
    forall a, b :: 0 <= a < b < |s| ==> s[a] < s[b]
  }

  /** Every element of `s` lies in `lo + 1 .. hi`. */
  predicate Within(s: seq<nat>, lo: nat, hi: nat) {
    forall k :: 0 <= k < |s| ==> lo < s[k] <= hi
  }

  /** No word before position `i` is the power mark. */
  predicate MarkFreeBelow(words: seq<string>, i: nat) {
    forall j :: 0 <= j < |words| && j < i ==> words[j] != PowerMark
  }

  /** The cuts of one stride rise strictly, lie above `i` and end at the stride's end. */
  lemma StrideShape(words: seq<string>, size: nat, watch: bool, i: nat, seen: bool)
    requires size > 0 && i < |words|
    requires watch && !seen ==> MarkFreeBelow(words, i)
    ensures var stride := StrideCuts(words, size, watch, i, seen);
            && Increasing(stride)
            && Within(stride, i, StrideEnd(words, size, i))
            && stride[|stride| - 1] == StrideEnd(words, size, i)
  {
    var e := StrideEnd(words, size, i);
    var stride := StrideCuts(words, size, watch, i, seen);
    if |stride| == 2 {
      var p := IndexOf(words[..e], PowerMark);
      assert words[p] == PowerMark;
      assert p != e - 1;
    }
  }

  /** Once a stride misses the mark, the words up to its end are mark-free. */
  lemma MissKeepsMarkFree(words: seq<string>, size: nat, watch: bool, i: nat, seen: bool)
    requires size > 0 && i < |words|
    requires watch && !seen && !Hit(words, size, watch, i, seen)
    ensures MarkFreeBelow(words, i + size)
  {
    var e := StrideEnd(words, size, i);
    forall j | 0 <= j < |words| && j < i + size ensures words[j] != PowerMark {
      assert words[..e][j] == words[j];
    }
  }

  lemma {:induction false} CutsFromShape(words: seq<string>, size: nat, watch: bool, i: nat, seen: bool)
    requires size > 0
    requires watch && !seen ==> MarkFreeBelow(words, i)
    ensures var r := CutsFrom(words, size, watch, i, seen);
            && Increasing(r)
            && Within(r, i, |words|)
            && (i < |words| ==> |r| > 0 && r[|r| - 1] == |words|)
    decreases |words| - i
  {
    if i < |words| {
      var hit := Hit(words, size, watch, i, seen);
      var stride := StrideCuts(words, size, watch, i, seen);
      var rest := CutsFrom(words, size, watch, i + size, seen || hit);
      if watch && !(seen || hit) {
        MissKeepsMarkFree(words, size, watch, i, seen);
      }
      CutsFromShape(words, size, watch, i + size, seen || hit);
      StrideShape(words, size, watch, i, seen);
      var e := StrideEnd(words, size, i);
      assert Within(rest, e, |words|);
      ConcatShape(stride, rest, i, e, |words|);
      CutsFromStep(words, size, watch, i, seen);
    }
  }

  lemma ConcatShape(a: seq<nat>, b: seq<nat>, lo: nat, mid: nat, hi: nat)
    requires Increasing(a) && Increasing(b) && lo <= mid <= hi
    requires Within(a, lo, mid) && Within(b, mid, hi)
    ensures Increasing(a + b) && Within(a + b, lo, hi)
  {
    var s := a + b;
    forall x, y | 0 <= x < y < |s| ensures s[x] < s[y] {
      if x < |a| && y >= |a| {
        assert s[x] == a[x] && s[y] == b[y - |a|];
      }
    }
    forall k | 0 <= k < |s| ensures lo < s[k] <= hi {
      if k >= |a| {
        assert s[k] == b[k - |a|];
      }
    }
  }

  /** The cut sequence rises strictly, stays within the words, and ends at the last word. */
  lemma CutsShape(words: seq<string>, size: nat, watch: bool)
    requires size > 0 && |words| > 0
    ensures var r := Cuts(words, size, watch);
            Increasing(r) && |r| > 0 && r[|r| - 1] == |words| && Within(r, 0, |words|)
  {
    CutsFromShape(words, size, watch, 0, false);
  }

  /** Number of iterations of `range(i, n, size)`. */
  function StrideCount(n: nat, size: nat, i: nat): nat
    requires size > 0
    decreases n - i
  {
    if i >= n then 0 else 1 + StrideCount(n, size, i + size)
  }

  /** `range(i, n, size)` runs the least `k` with `i + k * size >= n` times: ceil((n - i) / size). */
  lemma {:induction false} StrideCountCeil(n: nat, size: nat, i: nat)
    requires size > 0
    ensures var k := StrideCount(n, size, i);
            i + k * size >= n && (k == 0 || i + (k - 1) * size < n)
    decreases n - i
  {
    if i < n {
      StrideCountCeil(n, size, i + size);
      var k' := StrideCount(n, size, i + size);
      assert (1 + k') * size == size + k' * size;
    }
  }

  /** The end of the first stride at or after `i` whose prefix reaches word `p`. */
  function CoverEnd(words: seq<string>, size: nat, p: nat, i: nat): (e: nat)
    requires size > 0
    ensures p < |words| ==> p < e <= |words|
    decreases p - i
  {
    if p < i + size then StrideEnd(words, size, i) else CoverEnd(words, size, p, i + size)
  }

  /**
   * From stride `i` on, the power mark is still ahead and the first stride
   * prefix that reaches it does not end on a word ending in `(*)`.
   */
  predicate Pending(words: seq<string>, size: nat, i: nat)
    requires size > 0
  {
    var p := IndexOf(words, PowerMark);
    p < |words| && !EndsWith(words[CoverEnd(words, size, p, i) - 1], PowerMark)
  }

  /** `generate_lines` inserts a power chunk. */
  predicate Inserts(words: seq<string>, size: nat, watch: bool)
    requires size > 0
  {
    watch && Pending(words, size, 0)
  }

  lemma MarkAhead(words: seq<string>, i: nat)
    requires MarkFreeBelow(words, i)
    ensures IndexOf(words, PowerMark) < |words| ==> i <= IndexOf(words, PowerMark)
  {
  }

  /** A stride adds one cut, plus the power cut when the pending mark falls inside it. */
  lemma StrideCutsCount(words: seq<string>, size: nat, watch: bool, i: nat, seen: bool)
    requires size > 0 && i < |words|
    requires watch && !seen ==> MarkFreeBelow(words, i)
    ensures var hit := Hit(words, size, watch, i, seen);
            && (watch && !(seen || hit) ==> MarkFreeBelow(words, i + size))
            && |StrideCuts(words, size, watch, i, seen)|
               + (if watch && !(seen || hit) && Pending(words, size, i + size) then 1 else 0)
               == 1 + (if watch && !seen && Pending(words, size, i) then 1 else 0)
  {
    var e := StrideEnd(words, size, i);
    var hit := Hit(words, size, watch, i, seen);
    var p := IndexOf(words, PowerMark);
    if !(watch && !seen) {
      assert |StrideCuts(words, size, watch, i, seen)| == 1;
    } else if hit {
      assert p < e by {
        var q := IndexOf(words[..e], PowerMark);
        assert words[q] == words[..e][q];
        IndexOfFirst(words, PowerMark, q);
      }
      assert CoverEnd(words, size, p, i) == e;
      assert Pending(words, size, i) == !EndsWith(words[e - 1], PowerMark);
      assert |StrideCuts(words, size, watch, i, seen)| == if EndsWith(words[e - 1], PowerMark) then 1 else 2;
    } else {
      MissKeepsMarkFree(words, size, watch, i, seen);
      MarkAhead(words, i + size);
      assert p < |words| ==> CoverEnd(words, size, p, i) == CoverEnd(words, size, p, i + size);
      assert Pending(words, size, i) == Pending(words, size, i + size);
      assert |StrideCuts(words, size, watch, i, seen)| == 1;
    }
  }

  lemma {:induction false} CutsFromCount(words: seq<string>, size: nat, watch: bool, i: nat, seen: bool)
    requires size > 0
    requires watch && !seen ==> MarkFreeBelow(words, i)
    ensures |CutsFrom(words, size, watch, i, seen)|
            == StrideCount(|words|, size, i) + (if watch && !seen && Pending(words, size, i) then 1 else 0)
    decreases |words| - i
  {
    if i < |words| {
      var hit := Hit(words, size, watch, i, seen);
      StrideCutsCount(words, size, watch, i, seen);
      CutsFromCount(words, size, watch, i + size, seen || hit);
      assert CutsFrom(words, size, watch, i, seen)
             == StrideCuts(words, size, watch, i, seen) + CutsFrom(words, size, watch, i + size, seen || hit);
    } else if watch && !seen {
      MarkAhead(words, i);
    }
  }

  /** No mark among the first `n` words. */
  lemma MarkFreePrefix(words: seq<string>, n: nat)
    requires n <= |words| && MarkFreeBelow(words, n)
    ensures PowerMark !in words[..n]
  {
  }

  /** Word `p` is the first power mark. */
  predicate FirstMark(words: seq<string>, p: nat) {
    p < |words| && words[p] == PowerMark && MarkFreeBelow(words, p)
  }

  /** The stride at `i` reaches the first mark `p`: it cuts just after the mark, then at its end. */
  lemma PowerStride(words: seq<string>, size: nat, i: nat, p: nat)
    requires size > 0 && FirstMark(words, p) && i <= p < i + size
    requires !EndsWith(words[CoverEnd(words, size, p, i) - 1], PowerMark)
    ensures i < |words|
    ensures StrideCuts(words, size, true, i, false) == [p + 1, StrideEnd(words, size, i)]
  {
    var e := StrideEnd(words, size, i);
    assert words[..e][p] == PowerMark;
    assert forall j :: 0 <= j < p ==> words[..e][j] != PowerMark by {
      forall j | 0 <= j < p ensures words[..e][j] != PowerMark {
        assert words[..e][j] == words[j];
      }
    }
    IndexOfAt(words[..e], PowerMark, p);
  }

  /** A stride that ends before the first mark misses it and leaves the cover end unchanged. */
  lemma PowerAhead(words: seq<string>, size: nat, i: nat, p: nat)
    requires size > 0 && FirstMark(words, p) && i + size <= p
    ensures i < |words| && !Hit(words, size, true, i, false)
    ensures CoverEnd(words, size, p, i) == CoverEnd(words, size, p, i + size)
  {
    MarkFreePrefix(words, StrideEnd(words, size, i));
  }

  lemma CutsFromStep(words: seq<string>, size: nat, watch: bool, i: nat, seen: bool)
    requires size > 0 && i < |words|
    ensures CutsFrom(words, size, watch, i, seen)
            == StrideCuts(words, size, watch, i, seen) + CutsFrom(words, size, watch, i + size, seen || Hit(words, size, watch, i, seen))
  {
  }

  /**
   * While the first mark `p` lies ahead and the stride prefix that first
   * reaches it does not end in `(*)`, some later stride cuts just after it,
   * and the next cut is that stride's end.
   */
  lemma {:induction false} CutsFromPowerCut(words: seq<string>, size: nat, i: nat, p: nat) returns (k: nat)
    requires size > 0 && FirstMark(words, p) && i <= p
    requires !EndsWith(words[CoverEnd(words, size, p, i) - 1], PowerMark)
    ensures var r := CutsFrom(words, size, true, i, false);
            k + 1 < |r| && r[k] == p + 1 && r[k + 1] == CoverEnd(words, size, p, i)
    decreases p - i
  {
    if p < i + size {
      PowerStride(words, size, i, p);
      CutsFromStep(words, size, true, i, false);
      k := 0;
    } else {
      PowerAhead(words, size, i, p);
      var k' := CutsFromPowerCut(words, size, i + size, p);
      CutsFromStep(words, size, true, i, false);
      var stride := StrideCuts(words, size, true, i, false);
      var rest := CutsFrom(words, size, true, i + size, false);
      assert CutsFrom(words, size, true, i, false) == stride + rest;
      k := |stride| + k';
      assert (stride + rest)[k] == rest[k'] && (stride + rest)[k + 1] == rest[k' + 1];
    }
  }

  /** Splitting a chunk on spaces gives back the words it shows. */
  lemma ChunkSplit(words: seq<string>, c: nat)
    requires 0 < c <= |words|
    requires forall w <- words :: ' ' !in w
    ensures Split(Chunk(words, c), ' ') == words[..c]
  {
    assert forall w <- words[..c] :: w in words;
    SplitJoin(words[..c], ' ');
  }

  /** The last line reveals the whole normalised question. */
  lemma LastLine(text: string, size: nat, watch: bool)
    requires size > 0
    ensures var lines := Lines(text, size, watch);
            |lines| > 0 && lines[|lines| - 1] == Normalize(text)
  {
    var words := Words(text);
    CutsShape(words, size, watch);
    assert words[..|words|] == words;
    JoinSplit(Normalize(text), ' ');
  }

  /**
   * `generate_lines` returns ceil(n / size) stride prefixes of the n words,
   * plus exactly one power chunk when `Inserts` holds.
   */
  lemma LineCount(text: string, size: nat, watch: bool)
    requires size > 0
    ensures |Lines(text, size, watch)|
            == StrideCount(|Words(text)|, size, 0) + (if Inserts(Words(text), size, watch) then 1 else 0)
  {
    CutsFromCount(Words(text), size, watch, 0, false);
  }

  /** Each line's words are a proper prefix of the next line's, and all are prefixes of the question's words. */
  lemma LinesGrow(text: string, size: nat, watch: bool, k: nat)
    requires size > 0 && k + 1 < |Lines(text, size, watch)|
    ensures var lines := Lines(text, size, watch);
            var a := Split(lines[k], ' ');
            var b := Split(lines[k + 1], ' ');
            a < b && b <= Words(text)
  {
    var words := Words(text);
    var cuts := Cuts(words, size, watch);
    CutsShape(words, size, watch);
    SplitPiecesFree(Normalize(text), ' ');
    ChunkSplit(words, cuts[k]);
    ChunkSplit(words, cuts[k + 1]);
  }

  /** When a power chunk is inserted, one line shows exactly the words up to the first `(*)`. */
  lemma PowerLine(text: string, size: nat, watch: bool)
    requires size > 0 && Inserts(Words(text), size, watch)
    ensures var words := Words(text);
            var p := IndexOf(words, PowerMark);
            && p < |words| && words[p] == PowerMark && (forall j :: 0 <= j < p ==> words[j] != PowerMark)
            && exists line <- Lines(text, size, watch) :: Split(line, ' ') == words[..p + 1]
  {
    var words := Words(text);
    var p := IndexOf(words, PowerMark);
    var k := InsertsPowerCut(words, size, watch);
    var cuts := Cuts(words, size, watch);
    assert Lines(text, size, watch)[k] == Chunk(words, p + 1);
    SplitPiecesFree(Normalize(text), ' ');
    ChunkSplit(words, p + 1);
  }

  /**
   * When `Inserts` holds, cut `k` ends just after the first mark and cut
   * `k + 1` ends the stride that first reached it, whose last word does not
   * end with `(*)`.
   */
  lemma InsertsPowerCut(words: seq<string>, size: nat, watch: bool) returns (k: nat)
    requires size > 0 && Inserts(words, size, watch)
    ensures var p := IndexOf(words, PowerMark);
            var e := CoverEnd(words, size, p, 0);
            var cuts := Cuts(words, size, watch);
            && FirstMark(words, p)
            && k + 1 < |cuts| && cuts[k] == p + 1 && cuts[k + 1] == e
            && !EndsWith(words[e - 1], PowerMark)
  {
    var p := IndexOf(words, PowerMark);
    assert FirstMark(words, p) by {
      IndexOfNoEarlier(words, PowerMark);
    }
    assert watch && !EndsWith(words[CoverEnd(words, size, p, 0) - 1], PowerMark);
    k := CutsFromPowerCut(words, size, 0, p);
    assert Cuts(words, size, watch) == CutsFrom(words, size, true, 0, false);
  }

  /** A character of a word, other than a space or a newline, occurs in the question text. */
  lemma WordCharInText(text: string, j: nat, c: char)
    requires j < |Words(text)| && c in Words(text)[j] && c != ' ' && c != '\n'
    ensures c in text
  {
    var s := Normalize(text);
    JoinSplit(s, ' ');
    JoinHasChar(Split(s, ' '), ' ', c);
    var i :| 0 <= i < |s| && s[i] == c;
    var t := TrimStart(text);
    var u := Strip(text);
    assert u[i] == c;
    assert u == t[..|u|] && t == text[|text| - |t|..];
    assert text[|text| - |t| + i] == c;
  }
}
