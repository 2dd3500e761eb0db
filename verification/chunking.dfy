/**
 * chunk_text: the paragraph split, the greedy packing of paragraphs into a
 * buffer of at most chunk_size characters, the hard split of a paragraph into
 * windows, and the sliding-window overlap pass. Each stage is a specification
 * function with its properties proved as lemmas; ChunkText is the imperative
 * procedure, proved equal to their composition.
 */
module Chunking {
  import opened Base
  import opened Chars
  import opened TextUtils
  import opened Scanning

  /** The ValueError raised by chunk_text's argument check. */
  datatype ChunkError = ChunkSizeNotPositive | OverlapNegative | OverlapNotBelowChunkSize

  /** The argument check: the first failing condition, in the order the source tests them. */
  function ParamError(chunkSize: int, overlap: int): (e: Option<ChunkError>)
    ensures e.None? <==> 0 < chunkSize && 0 <= overlap < chunkSize
    ensures e == Some(ChunkSizeNotPositive) <==> chunkSize <= 0
    ensures e == Some(OverlapNegative) <==> 0 < chunkSize && overlap < 0
  {
    if chunkSize <= 0 then Some(ChunkSizeNotPositive)
    else if overlap < 0 then Some(OverlapNegative)
    else if overlap >= chunkSize then Some(OverlapNotBelowChunkSize)
    else None
  }

  /** The concatenation of a list of strings. */
  function Concat(ss: seq<string>): string {
    if ss == [] then [] else ss[0] + Concat(ss[1..])
  }

  lemma ConcatCons(s: string, ss: seq<string>)
    ensures Concat([s] + ss) == s + Concat(ss)
  {
    assert ([s] + ss)[1..] == ss;
  }

  // ---------------------------------------------------------------------------
  // The paragraph split: [p.strip() for p in re.split(r"\n\s*\n", text) if p.strip()]

  /** The end of the whitespace run of s that starts at k. */
  function SpaceRunEnd(s: string, k: nat): (e: nat)
    requires k <= |s|
    ensures k <= e <= |s|
    ensures forall j :: k <= j < e ==> IsSpace(s[j])
    ensures e == |s| || !IsSpace(s[e])
    decreases |s| - k
  {
    if k < |s| && IsSpace(s[k]) then SpaceRunEnd(s, k + 1) else k
  }

  /** The last position in [lo, hi) that holds a newline, if any. */
  function LastNewline(s: string, lo: nat, hi: nat): (r: Option<nat>)
    requires lo <= hi <= |s|
    ensures r.Some? ==> lo <= r.value < hi && s[r.value] == '\n'
    ensures r.None? ==> forall j :: lo <= j < hi ==> s[j] != '\n'
    decreases hi - lo
  {
    if hi == lo then None
    else if s[hi - 1] == '\n' then Some(hi - 1)
    else LastNewline(s, lo, hi - 1)
  }

  /**
   * The end of the match of \n\s*\n that starts at i, if one does: the greedy
   * \s* takes the whole whitespace run after the first newline and gives back
   * characters until a newline can close the match.
   */
  function SeparatorEnd(s: string, i: nat): (r: Option<nat>)
    requires i < |s|
    ensures r.Some? ==> i + 2 <= r.value <= |s| && s[i] == '\n' && s[r.value - 1] == '\n'
    ensures r.Some? ==> forall j :: i <= j < r.value ==> IsSpace(s[j])
  {
    if s[i] != '\n' then None
    else match LastNewline(s, i + 1, SpaceRunEnd(s, i + 1))
      case None => None
      case Some(j) => Some(j + 1)
  }

  /**
   * re.split(r"\n\s*\n", s[start..]): the leftmost separator at or after i
   * ends the current part. No separator starts in [start, i).
   */
  function SplitParts(s: string, start: nat, i: nat): (parts: seq<string>)
    requires start <= i <= |s|
    requires forall j :: start <= j < i ==> SeparatorEnd(s, j).None?
    decreases |s| - i
  {
    if i == |s| then [s[start..]]
    else match SeparatorEnd(s, i)
      case Some(e) => [s[start..i]] + SplitParts(s, e, e)
      case None => SplitParts(s, start, i + 1)
  }

  /** The stripped parts that are not empty, in order. */
  function KeepStripped(parts: seq<string>): seq<string> {
    if parts == [] then []
    else (var p := Strip(parts[0]); if p != [] then [p] else []) + KeepStripped(parts[1..])
  }

  /** The paragraphs of normalised text. */
  function Paragraphs(text: string): seq<string> {
    KeepStripped(SplitParts(text, 0, 0))
  }

  /** A blank line: two newlines with only whitespace between them. */
  ghost predicate HasBlankLine(p: string) {
    exists j, k :: 0 <= j < k < |p| && p[j] == '\n' && p[k] == '\n' && AllSpace(p, j + 1, k)
  }

  ghost predicate AllSpace(p: string, lo: int, hi: int)
    requires 0 <= lo && hi <= |p|
  {
    forall m :: lo <= m < hi ==> IsSpace(p[m])
  }

  /** Between a newline that starts no separator and a later newline there is a non-whitespace character. */
  lemma SeparatorlessGap(s: string, a: nat, b: nat) returns (m: nat)
    requires a < b < |s| && s[a] == '\n' && s[b] == '\n' && SeparatorEnd(s, a).None?
    ensures a < m < b && !IsSpace(s[m])
  {
    m := SpaceRunEnd(s, a + 1);
    assert LastNewline(s, a + 1, m).None?;
  }

  /** A piece of s in which no separator starts holds no blank line. */
  lemma PieceHasNoBlankLine(s: string, start: nat, i: nat)
    requires start <= i <= |s|
    requires forall j :: start <= j < i ==> SeparatorEnd(s, j).None?
    ensures !HasBlankLine(s[start..i])
  {
    var p := s[start..i];
    forall j, k | 0 <= j < k < |p| && p[j] == '\n' && p[k] == '\n' ensures !AllSpace(p, j + 1, k) {
      var m := SeparatorlessGap(s, start + j, start + k);
      assert p[m - start] == s[m];
    }
  }

  lemma SliceHasNoBlankLine(p: string, a: nat, b: nat)
    requires a <= b <= |p| && !HasBlankLine(p)
    ensures !HasBlankLine(p[a..b])
  {
    var q := p[a..b];
    forall j, k | 0 <= j < k < |q| && q[j] == '\n' && q[k] == '\n' ensures !AllSpace(q, j + 1, k) {
      assert p[a + j] == '\n' && p[a + k] == '\n';
      assert !AllSpace(p, a + j + 1, a + k);
      var m :| a + j + 1 <= m < a + k && !IsSpace(p[m]);
      assert q[m - a] == p[m];
    }
  }

  /** Every part of the split holds no blank line. */
  lemma {:induction false} SplitPartsNoBlankLine(s: string, start: nat, i: nat)
    requires start <= i <= |s|
    requires forall j :: start <= j < i ==> SeparatorEnd(s, j).None?
    ensures forall q :: q in SplitParts(s, start, i) ==> !HasBlankLine(q)
    decreases |s| - i
  {
    if i == |s| {
      PieceHasNoBlankLine(s, start, i);
      assert s[start..i] == s[start..];
    } else {
      match SeparatorEnd(s, i)
      case Some(e) =>
        SplitPartsNoBlankLine(s, e, e);
        PieceHasNoBlankLine(s, start, i);
      case None =>
        SplitPartsNoBlankLine(s, start, i + 1);
    }
  }

  /** Removing a whitespace-only separator keeps the non-whitespace content. */
  lemma NonSpaceAroundSeparator(s: string, start: nat, i: nat, e: nat)
    requires start <= i <= e <= |s|
    requires forall j :: i <= j < e ==> IsSpace(s[j])
    ensures NonSpace(s[start..]) == NonSpace(s[start..i]) + NonSpace(s[e..])
  {
    assert s[start..] == s[start..i] + s[i..e] + s[e..];
    NonSpaceAppend(s[start..i] + s[i..e], s[e..]);
    NonSpaceAppend(s[start..i], s[i..e]);
    NonSpaceOfSpaces(s[i..e]);
  }

  /** The separators the split removes are whitespace only. */
  lemma {:induction false} SplitPartsNonSpace(s: string, start: nat, i: nat)
    requires start <= i <= |s|
    requires forall j :: start <= j < i ==> SeparatorEnd(s, j).None?
    ensures NonSpace(Concat(SplitParts(s, start, i))) == NonSpace(s[start..])
    decreases |s| - i
  {
    if i == |s| {
      var x := s[start..];
      assert SplitParts(s, start, i) == [x];
      ConcatCons(x, []);
      assert [x] + [] == [x];
      assert x + Concat([]) == x;
    } else {
      match SeparatorEnd(s, i)
      case Some(e) =>
        var rest := SplitParts(s, e, e);
        SplitPartsNonSpace(s, e, e);
        assert SplitParts(s, start, i) == [s[start..i]] + rest;
        ConcatCons(s[start..i], rest);
        NonSpaceAppend(s[start..i], Concat(rest));
        NonSpaceAroundSeparator(s, start, i, e);
      case None =>
        SplitPartsNonSpace(s, start, i + 1);
    }
  }

  /** Stripping a part without a blank line leaves it without one, and without whitespace at either end. */
  lemma StrippedPartShape(q: string)
    requires !HasBlankLine(q)
    ensures var p := Strip(q); p != [] ==> !IsSpace(p[0]) && !IsSpace(p[|p| - 1]) && !HasBlankLine(p)
  {
    var i, j := StripIsSlice(q);
    SliceHasNoBlankLine(q, i, j);
  }

  lemma {:induction false} KeepStrippedShape(parts: seq<string>)
    requires forall q :: q in parts ==> !HasBlankLine(q)
    ensures forall p :: p in KeepStripped(parts) ==>
      p != [] && !IsSpace(p[0]) && !IsSpace(p[|p| - 1]) && !HasBlankLine(p)
  {
    if parts != [] {
      KeepStrippedShape(parts[1..]);
      StrippedPartShape(parts[0]);
    }
  }

  lemma {:induction false} KeepStrippedNonSpace(parts: seq<string>)
    ensures NonSpace(Concat(KeepStripped(parts))) == NonSpace(Concat(parts))
  {
    if parts != [] {
      KeepStrippedNonSpace(parts[1..]);
      var p := Strip(parts[0]);
      var rest := KeepStripped(parts[1..]);
      StripKeepsNonSpace(parts[0]);
      ConcatCons(parts[0], parts[1..]);
      NonSpaceAppend(parts[0], Concat(parts[1..]));
      if p != [] {
        ConcatCons(p, rest);
        NonSpaceAppend(p, Concat(rest));
      } else {
        assert KeepStripped(parts) == rest;
      }
    }
  }

  /**
   * The paragraph split: every paragraph is non-empty, has no whitespace at
   * either end and holds no blank line, and together the paragraphs keep
   * every non-whitespace character of the text, in order.
   */
  lemma ParagraphsShape(text: string)
    ensures forall p :: p in Paragraphs(text) ==>
      p != [] && !IsSpace(p[0]) && !IsSpace(p[|p| - 1]) && !HasBlankLine(p)
    ensures NonSpace(Concat(Paragraphs(text))) == NonSpace(text)
  {
    SplitPartsNoBlankLine(text, 0, 0);
    SplitPartsNonSpace(text, 0, 0);
    KeepStrippedShape(SplitParts(text, 0, 0));
    KeepStrippedNonSpace(SplitParts(text, 0, 0));
    assert text[0..] == text;
  }

  /** A separator match is a blank line of the text. */
  lemma SeparatorIsBlankLine(s: string, i: nat)
    requires i < |s|
    ensures SeparatorEnd(s, i).Some? ==> HasBlankLine(s)
  {
    if SeparatorEnd(s, i).Some? {
      var e := SeparatorEnd(s, i).value;
      assert AllSpace(s, i + 1, e - 1);
      assert s[i] == '\n' && s[e - 1] == '\n';
    }
  }

  /** With no separator from start on, the rest of the text is a single part. */
  lemma {:induction false} SplitPartsWhole(s: string, start: nat, i: nat)
    requires start <= i <= |s|
    requires forall j :: start <= j < |s| ==> SeparatorEnd(s, j).None?
    ensures SplitParts(s, start, i) == [s[start..]]
    decreases |s| - i
  {
    if i < |s| {
      SplitPartsWhole(s, start, i + 1);
    }
  }

  /**
   * The split cuts only at blank lines: a text without one is a single
   * paragraph, the stripped text, or none when the text is all whitespace.
   */
  lemma ParagraphsWithoutBlankLine(text: string)
    requires !HasBlankLine(text)
    ensures Paragraphs(text) == if Strip(text) == [] then [] else [Strip(text)]
  {
    forall j | 0 <= j < |text| ensures SeparatorEnd(text, j).None? {
      SeparatorIsBlankLine(text, j);
    }
    SplitPartsWhole(text, 0, 0);
    assert text[0..] == text;
    assert SplitParts(text, 0, 0) == [text];
    assert [text][1..] == [];
    assert KeepStripped([text]) == (if Strip(text) != [] then [Strip(text)] else []) + KeepStripped([]);
  }

  // ---------------------------------------------------------------------------
  // The hard split of one paragraph into windows

  /**
   * The windows of p from offset start: each takes min(len(p), start +
   * chunk_size) as its end; the next starts overlap characters before that
   * end, unless the end is the paragraph's end.
   */
  function WindowsFrom(p: string, start: nat, size: nat, overlap: nat): seq<string>
    requires overlap < size
    decreases |p| - start
  {
    if start >= |p| then []
    else
      var end := if start + size < |p| then start + size else |p|;
      [p[start..end]] + (if end < |p| then WindowsFrom(p, end - overlap, size, overlap) else [])
  }

  function Windows(p: string, size: nat, overlap: nat): seq<string>
    requires overlap < size
  {
    WindowsFrom(p, 0, size, overlap)
  }

  /** min(len(p), start + chunk_size): the end of the window that starts at start. */
  function WindowEnd(p: string, start: nat, size: nat): nat {
    if start + size < |p| then start + size else |p|
  }

  /** One window, then the windows from overlap characters before its end, unless it reaches the end. */
  lemma WindowsFromStep(p: string, start: nat, size: nat, overlap: nat)
    requires overlap < size && start < |p|
    ensures var end := WindowEnd(p, start, size);
      && start < end <= |p|
      && WindowsFrom(p, start, size, overlap)
         == [p[start..end]] + (if end < |p| then WindowsFrom(p, end - overlap, size, overlap) else [])
  {
  }

  /** The first window from start ends at WindowEnd. */
  lemma WindowsFromHead(p: string, start: nat, size: nat, overlap: nat)
    requires overlap < size && start < |p|
    ensures var w := WindowsFrom(p, start, size, overlap);
      w != [] && w[0] == p[start..WindowEnd(p, start, size)]
  {
  }

  /**
   * The invariant of the hard-split loop: with the windows before start
   * done, appending the window at start leaves the windows from the next
   * start to go.
   */
  lemma WindowsAdvance(p: string, start: nat, size: nat, overlap: nat, done: seq<string>)
    requires overlap < size && start < |p|
    requires done + WindowsFrom(p, start, size, overlap) == Windows(p, size, overlap)
    ensures var end := WindowEnd(p, start, size);
      var next := if end < |p| then end - overlap else end;
      (done + [p[start..end]]) + WindowsFrom(p, next, size, overlap) == Windows(p, size, overlap)
  {
    var end := WindowEnd(p, start, size);
    WindowsFromStep(p, start, size, overlap);
    if end == |p| {
      assert WindowsFrom(p, end, size, overlap) == [];
    }
  }

  /** Every window is non-empty and at most size long; all but the last are exactly size long. */
  lemma {:induction false} WindowsLengths(p: string, start: nat, size: nat, overlap: nat, w: seq<string>)
    requires overlap < size && w == WindowsFrom(p, start, size, overlap)
    ensures w == [] <==> start >= |p|
    ensures forall k :: 0 <= k < |w| ==> 0 < |w[k]| <= size
    ensures forall k :: 0 <= k < |w| - 1 ==> |w[k]| == size
    ensures forall k :: 1 <= k < |w| ==> |w[k]| > overlap
    ensures start < |p| <= start + size ==> w == [p[start..]]
    decreases |p| - start
  {
    if start < |p| {
      var end := if start + size < |p| then start + size else |p|;
      if end < |p| {
        var rest := WindowsFrom(p, end - overlap, size, overlap);
        WindowsLengths(p, end - overlap, size, overlap, rest);
        assert w == [p[start..end]] + rest;
      } else {
        assert p[start..|p|] == p[start..];
      }
    }
  }

  /** b begins with the last n characters of a. */
  ghost predicate SharesOverlap(a: string, b: string, n: nat) {
    n <= |a| && n <= |b| && b[..n] == a[|a| - n..]
  }

  /** A full window and the window starting overlap characters before its end share those characters. */
  lemma NextWindowOverlaps(p: string, start: nat, size: nat, overlap: nat)
    requires overlap < size && start + size < |p|
    ensures SharesOverlap(p[start..start + size], p[start + size - overlap..WindowEnd(p, start + size - overlap, size)], overlap)
  {
    var end := start + size;
    var first, head := p[start..end], p[end - overlap..WindowEnd(p, end - overlap, size)];
    assert head[..overlap] == p[end - overlap..end];
    assert first[size - overlap..] == p[end - overlap..end];
  }

  /** Every string of w shares n characters with the one before it. */
  ghost predicate ChainOverlaps(w: seq<string>, n: nat)
    decreases |w|
  {
    |w| <= 1 || (SharesOverlap(w[0], w[1], n) && ChainOverlaps(w[1..], n))
  }

  lemma {:induction false} ChainOverlapsAt(w: seq<string>, n: nat, j: nat)
    requires ChainOverlaps(w, n) && j + 1 < |w|
    ensures SharesOverlap(w[j], w[j + 1], n)
    decreases j
  {
    if j > 0 {
      ChainOverlapsAt(w[1..], n, j - 1);
    }
  }

  /** Splits the windows from start into the first one and the windows from the next start. */
  lemma WindowsFromSplit(p: string, start: nat, size: nat, overlap: nat)
    requires overlap < size && start + size < |p|
    ensures var w := WindowsFrom(p, start, size, overlap);
      |w| >= 2 && w[0] == p[start..start + size]
      && w[1..] == WindowsFrom(p, start + size - overlap, size, overlap)
  {
    WindowsFromStep(p, start, size, overlap);
    WindowsFromHead(p, start + size - overlap, size, overlap);
  }

  /** A chain whose first pair overlaps and whose tail is a chain is a chain. */
  lemma ChainOverlapsStep(w: seq<string>, n: nat)
    requires |w| >= 2 && SharesOverlap(w[0], w[1], n) && ChainOverlaps(w[1..], n)
    ensures ChainOverlaps(w, n)
  {
  }

  lemma {:induction false} WindowsChain(p: string, start: nat, size: nat, overlap: nat)
    requires overlap < size
    ensures ChainOverlaps(WindowsFrom(p, start, size, overlap), overlap)
    decreases |p| - start
  {
    if start + size < |p| {
      var next := start + size - overlap;
      var w := WindowsFrom(p, start, size, overlap);
      WindowsChain(p, next, size, overlap);
      WindowsFromSplit(p, start, size, overlap);
      WindowsFromHead(p, next, size, overlap);
      assert w[1] == w[1..][0];
      NextWindowOverlaps(p, start, size, overlap);
      ChainOverlapsStep(w, overlap);
    } else if start < |p| {
      WindowsFromStep(p, start, size, overlap);
    }
  }

  /** Consecutive windows share exactly overlap characters. */
  lemma WindowsOverlap(p: string, start: nat, size: nat, overlap: nat, w: seq<string>)
    requires overlap < size && w == WindowsFrom(p, start, size, overlap)
    ensures forall j, k :: 0 <= j && k == j + 1 && k < |w| ==> SharesOverlap(w[j], w[k], overlap)
  {
    WindowsChain(p, start, size, overlap);
    forall j, k | 0 <= j && k == j + 1 && k < |w| ensures SharesOverlap(w[j], w[k], overlap) {
      ChainOverlapsAt(w, overlap, j);
    }
  }

  /** The last window ends at the paragraph's end. */
  lemma {:induction false} WindowsEndAtParagraphEnd(p: string, start: nat, size: nat, overlap: nat, w: seq<string>)
    requires overlap < size && w == WindowsFrom(p, start, size, overlap)
    ensures w != [] ==> |w[|w| - 1]| <= |p| && w[|w| - 1] == p[|p| - |w[|w| - 1]|..]
    decreases |p| - start
  {
    if start < |p| {
      var end := WindowEnd(p, start, size);
      WindowsFromStep(p, start, size, overlap);
      if end < |p| {
        var rest := WindowsFrom(p, end - overlap, size, overlap);
        WindowsEndAtParagraphEnd(p, end - overlap, size, overlap, rest);
        WindowsFromStep(p, end - overlap, size, overlap);
        assert w == [p[start..end]] + rest && rest != [];
        assert w[|w| - 1] == rest[|rest| - 1];
      } else {
        assert p[start..end] == p[start..];
      }
    }
  }

  /** Drops the first overlap characters of each string and concatenates the rest. */
  function DropOverlaps(ws: seq<string>, overlap: nat): string {
    if ws == [] then []
    else ws[0][if overlap <= |ws[0]| then overlap else |ws[0]|..] + DropOverlaps(ws[1..], overlap)
  }

  /** The first window followed by the non-overlapping part of every later window. */
  function Rebuild(ws: seq<string>, overlap: nat): string {
    if ws == [] then [] else ws[0] + DropOverlaps(ws[1..], overlap)
  }

  lemma DropPrefixOfAppend(x: string, d: string, n: nat)
    requires n <= |x|
    ensures (x + d)[n..] == x[n..] + d
  {
  }

  /** Rebuilding one more leading window: it is kept whole and the rebuild of the rest loses its overlap. */
  lemma RebuildCons(first: string, rest: seq<string>, overlap: nat)
    requires rest != [] && overlap <= |rest[0]|
    ensures overlap <= |Rebuild(rest, overlap)|
    ensures Rebuild([first] + rest, overlap) == first + Rebuild(rest, overlap)[overlap..]
  {
    assert ([first] + rest)[1..] == rest;
    DropPrefixOfAppend(rest[0], DropOverlaps(rest[1..], overlap), overlap);
  }

  /** Dropping each later window's overlap and concatenating gives back the paragraph. */
  lemma {:induction false} WindowsRebuild(p: string, start: nat, size: nat, overlap: nat, w: seq<string>)
    requires overlap < size && start <= |p| && w == WindowsFrom(p, start, size, overlap)
    ensures Rebuild(w, overlap) == p[start..]
    decreases |p| - start
  {
    if start < |p| {
      var end := WindowEnd(p, start, size);
      WindowsFromStep(p, start, size, overlap);
      if end < |p| {
        var next := end - overlap;
        var rest := WindowsFrom(p, next, size, overlap);
        WindowsRebuild(p, next, size, overlap, rest);
        WindowsFromStep(p, next, size, overlap);
        var first := p[start..end];
        assert w == [first] + rest;
        var r := Rebuild(rest, overlap);
        assert r == p[next..];
        RebuildCons(first, rest, overlap);
        assert Rebuild(w, overlap) == first + r[overlap..];
        assert r[overlap..] == p[end..];
        assert first + p[end..] == p[start..];
      } else {
        assert p[start..end] == p[start..];
      }
    }
  }

  // ---------------------------------------------------------------------------
  // Greedy packing of paragraphs

  /** The loop state of the packing: the chunks emitted so far and the buffer. */
  datatype PackState = PackState(chunks: seq<string>, current: string)

  /** The buffer with the next paragraph appended after a blank line. */
  function Candidate(current: string, p: string): string {
    if current != [] then Strip(current + "\n\n" + p) else p
  }

  /** The buffer as a chunk, if it is not empty. */
  function Flushed(current: string): seq<string> {
    if current != [] then [current] else []
  }

  /**
   * One paragraph of the packing loop: keep the candidate when it fits;
   * otherwise flush the buffer, hard-split the paragraph and leave the
   * buffer empty.
   */
  function PackStep(st: PackState, p: string, size: nat, overlap: nat): PackState
    requires overlap < size
  {
    var candidate := Candidate(st.current, p);
    if |candidate| <= size then PackState(st.chunks, candidate)
    else PackState(st.chunks + Flushed(st.current) + Windows(p, size, overlap), "")
  }

  /** The loop state after the paragraphs paras. */
  function PackPrefix(paras: seq<string>, size: nat, overlap: nat): PackState
    requires overlap < size
    decreases |paras|
  {
    if paras == [] then PackState([], "")
    else PackStep(PackPrefix(paras[..|paras| - 1], size, overlap), paras[|paras| - 1], size, overlap)
  }

  /** The chunks before the overlap pass: the loop's chunks, then the final buffer. */
  function Pack(paras: seq<string>, size: nat, overlap: nat): seq<string>
    requires overlap < size
  {
    var st := PackPrefix(paras, size, overlap);
    st.chunks + Flushed(st.current)
  }

  lemma {:induction false} PackPrefixBounded(paras: seq<string>, size: nat, overlap: nat)
    requires overlap < size
    ensures var st := PackPrefix(paras, size, overlap);
      |st.current| <= size && forall c :: c in st.chunks ==> 0 < |c| <= size
    decreases |paras|
  {
    if paras != [] {
      var p := paras[|paras| - 1];
      var prev := PackPrefix(paras[..|paras| - 1], size, overlap);
      PackPrefixBounded(paras[..|paras| - 1], size, overlap);
      var st := PackStep(prev, p, size, overlap);
      assert PackPrefix(paras, size, overlap) == st;
      if |Candidate(prev.current, p)| > size {
        var w := Windows(p, size, overlap);
        WindowsLengths(p, 0, size, overlap, w);
        assert st.chunks == prev.chunks + Flushed(prev.current) + w;
        forall c | c in st.chunks ensures 0 < |c| <= size {
          if c in prev.chunks {
          } else if c in Flushed(prev.current) {
          } else {
            assert c in w;
          }
        }
      }
    }
  }

  /** Every chunk before the overlap pass is non-empty and at most chunk_size long. */
  lemma PackBounded(paras: seq<string>, size: nat, overlap: nat)
    requires overlap < size
    ensures forall c :: c in Pack(paras, size, overlap) ==> 0 < |c| <= size
  {
    PackPrefixBounded(paras, size, overlap);
  }

  /** A packing step does not look at the chunks already emitted. */
  lemma PackStepAfter(emitted: seq<string>, st: PackState, p: string, size: nat, overlap: nat)
    requires overlap < size
    ensures var next := PackStep(st, p, size, overlap);
      PackStep(PackState(emitted + st.chunks, st.current), p, size, overlap) ==
        PackState(emitted + next.chunks, next.current)
  {
  }

  /** Packing after an empty buffer is packing from scratch, after the chunks already emitted. */
  lemma {:induction false} PackPrefixAppend(xs: seq<string>, ys: seq<string>, size: nat, overlap: nat)
    requires overlap < size
    requires PackPrefix(xs, size, overlap).current == []
    ensures PackPrefix(xs + ys, size, overlap) ==
      PackState(PackPrefix(xs, size, overlap).chunks + PackPrefix(ys, size, overlap).chunks,
                PackPrefix(ys, size, overlap).current)
    decreases |ys|
  {
    if ys == [] {
      assert xs + ys == xs;
    } else {
      var init := ys[..|ys| - 1];
      assert (xs + ys)[..|xs + ys| - 1] == xs + init;
      assert (xs + ys)[|xs + ys| - 1] == ys[|ys| - 1];
      PackPrefixAppend(xs, init, size, overlap);
      PackStepAfter(PackPrefix(xs, size, overlap).chunks, PackPrefix(init, size, overlap), ys[|ys| - 1], size, overlap);
    }
  }

  /**
   * A paragraph that does not fit next to the buffer is emitted as its own
   * windows after the flushed buffer, and the paragraphs after it are packed
   * as if from scratch: it is never merged with a later paragraph.
   */
  lemma OverflowStartsFresh(paras: seq<string>, i: nat, size: nat, overlap: nat)
    requires overlap < size && i < |paras|
    requires |Candidate(PackPrefix(paras[..i], size, overlap).current, paras[i])| > size
    ensures var st := PackPrefix(paras[..i], size, overlap);
      Pack(paras, size, overlap) ==
        st.chunks + Flushed(st.current) + Windows(paras[i], size, overlap) + Pack(paras[i + 1..], size, overlap)
  {
    var st := PackPrefix(paras[..i], size, overlap);
    var xs := paras[..i + 1];
    var ys := paras[i + 1..];
    assert xs[..|xs| - 1] == paras[..i];
    assert xs[|xs| - 1] == paras[i];
    var mid := PackPrefix(xs, size, overlap);
    assert mid == PackStep(st, paras[i], size, overlap);
    assert mid == PackState(st.chunks + Flushed(st.current) + Windows(paras[i], size, overlap), "");
    assert paras == xs + ys;
    PackPrefixAppend(xs, ys, size, overlap);
    var rest := PackPrefix(ys, size, overlap);
    assert PackPrefix(paras, size, overlap) == PackState(mid.chunks + rest.chunks, rest.current);
  }

  /** Non-empty, with no whitespace at either end: what a paragraph is. */
  predicate Trimmed(s: string) {
    s != [] && !IsSpace(s[0]) && !IsSpace(s[|s| - 1])
  }

  /** The buffer holds the paragraphs read since the last overflow, joined by blank lines. */
  lemma {:induction false} PackBufferIsRun(paras: seq<string>, size: nat, overlap: nat) returns (a: nat)
    requires overlap < size
    requires forall i :: 0 <= i < |paras| ==> Trimmed(paras[i])
    ensures var cur := PackPrefix(paras, size, overlap).current;
      a <= |paras| && cur == JoinWith("\n\n", paras[a..]) && (cur == [] || Trimmed(cur))
    decreases |paras|
  {
    if paras == [] {
      a := 0;
    } else {
      var init := paras[..|paras| - 1];
      var p := paras[|paras| - 1];
      var prev := PackPrefix(init, size, overlap);
      var b := PackBufferIsRun(init, size, overlap);
      var st := PackPrefix(paras, size, overlap);
      assert st == PackStep(prev, p, size, overlap);
      var cand := Candidate(prev.current, p);
      if |cand| > size {
        a := |paras|;
        assert st.current == [];
        assert paras[a..] == [];
      } else if prev.current == [] {
        a := |init|;
        assert st.current == p;
        assert paras[a..] == [p];
        assert JoinWith("\n\n", [p]) == p;
      } else {
        a := b;
        assert st.current == cand;
        assert prev.current == JoinWith("\n\n", init[b..]);
        MergeExtendsRun(init[b..], p);
        SuffixSnoc(paras, b);
      }
    }
  }

  /** A suffix of all but the last element, then the last element, is a suffix. */
  lemma SuffixSnoc(xs: seq<string>, b: nat)
    requires b < |xs|
    ensures xs[..|xs| - 1][b..] + [xs[|xs| - 1]] == xs[b..]
  {
  }

  /** Appending a paragraph to a non-empty buffer that joins a run extends the run. */
  lemma MergeExtendsRun(run: seq<string>, p: string)
    requires Trimmed(p) && Trimmed(JoinWith("\n\n", run))
    ensures var cand := Candidate(JoinWith("\n\n", run), p);
      cand == JoinWith("\n\n", run + [p]) && Trimmed(cand)
  {
    var cur := JoinWith("\n\n", run);
    var joined := cur + "\n\n" + p;
    assert joined[0] == cur[0] && joined[|joined| - 1] == p[|p| - 1];
    StripStripped(joined);
    JoinWithSnoc("\n\n", run, p);
  }

  lemma {:induction false} ConcatAppend(xs: seq<string>, ys: seq<string>)
    ensures Concat(xs + ys) == Concat(xs) + Concat(ys)
    decreases |xs|
  {
    if xs == [] {
      assert xs + ys == ys;
    } else {
      assert (xs + ys)[1..] == xs[1..] + ys;
      ConcatAppend(xs[1..], ys);
    }
  }

  lemma ConcatFlushed(current: string)
    ensures Concat(Flushed(current)) == current
  {
    if current != [] {
      assert [current][1..] == [];
    }
  }

  /** With no overlap, dropping the overlaps is plain concatenation. */
  lemma {:induction false} DropNoOverlap(ws: seq<string>)
    ensures DropOverlaps(ws, 0) == Concat(ws)
    decreases |ws|
  {
    if ws != [] {
      DropNoOverlap(ws[1..]);
      assert ws[0][0..] == ws[0];
    }
  }

  /** With no overlap, the windows of a paragraph concatenate back to it. */
  lemma WindowsConcat(p: string, size: nat)
    requires 0 < size
    ensures Concat(Windows(p, size, 0)) == p
  {
    var w := Windows(p, size, 0);
    WindowsRebuild(p, 0, size, 0, w);
    if w != [] {
      DropNoOverlap(w[1..]);
    }
    assert p[0..] == p;
  }

  /** Appending a paragraph to the buffer adds only whitespace besides the paragraph. */
  lemma CandidateKeepsText(current: string, p: string)
    ensures NonSpace(Candidate(current, p)) == NonSpace(current) + NonSpace(p)
  {
    if current != [] {
      var joined := current + "\n\n" + p;
      StripKeepsNonSpace(joined);
      NonSpaceAppend(current + "\n\n", p);
      NonSpaceAppend(current, "\n\n");
      assert NonSpace("\n\n") == [] by {
        assert "\n\n"[1..] == "\n";
        assert "\n"[1..] == [];
      }
    }
  }

  /** The emitted chunks followed by the buffer keep the text of the paragraphs read, in order. */
  lemma {:induction false} PackPrefixKeepsText(paras: seq<string>, size: nat)
    requires 0 < size
    ensures var st := PackPrefix(paras, size, 0);
      NonSpace(Concat(st.chunks) + st.current) == NonSpace(Concat(paras))
    decreases |paras|
  {
    if paras != [] {
      var init := paras[..|paras| - 1];
      var p := paras[|paras| - 1];
      var prev := PackPrefix(init, size, 0);
      PackPrefixKeepsText(init, size);
      PackStepKeepsText(prev, p, size);
      ConcatSnoc(paras);
      NonSpaceAppend(Concat(init), p);
    }
  }

  lemma ConcatSnoc(ss: seq<string>)
    requires ss != []
    ensures Concat(ss) == Concat(ss[..|ss| - 1]) + ss[|ss| - 1]
  {
    assert ss == ss[..|ss| - 1] + [ss[|ss| - 1]];
    ConcatAppend(ss[..|ss| - 1], [ss[|ss| - 1]]);
    ConcatFlushed(ss[|ss| - 1]);
  }

  /** One packing step without overlap adds the text of the paragraph after what was there. */
  lemma PackStepKeepsText(st: PackState, p: string, size: nat)
    requires 0 < size
    ensures var next := PackStep(st, p, size, 0);
      NonSpace(Concat(next.chunks) + next.current) == NonSpace(Concat(st.chunks) + st.current) + NonSpace(p)
  {
    var cand := Candidate(st.current, p);
    if |cand| <= size {
      CandidateKeepsText(st.current, p);
      MergeKeepsText(Concat(st.chunks), st.current, cand, p);
    } else {
      OverflowKeepsText(st, p, size);
    }
  }

  /** Replacing the buffer by one holding its text and then p's appends p's text. */
  lemma MergeKeepsText(before: string, current: string, c: string, p: string)
    requires NonSpace(c) == NonSpace(current) + NonSpace(p)
    ensures NonSpace(before + c) == NonSpace(before + current) + NonSpace(p)
  {
    calc {
      NonSpace(before + c);
      { NonSpaceAppend(before, c); }
      NonSpace(before) + NonSpace(c);
      NonSpace(before) + (NonSpace(current) + NonSpace(p));
      (NonSpace(before) + NonSpace(current)) + NonSpace(p);
      { NonSpaceAppend(before, current); }
      NonSpace(before + current) + NonSpace(p);
    }
  }

  /** Flushing and splitting: the buffer and then the windows of the paragraph are emitted. */
  lemma OverflowKeepsText(st: PackState, p: string, size: nat)
    requires 0 < size
    ensures var emitted := st.chunks + Flushed(st.current) + Windows(p, size, 0);
      NonSpace(Concat(emitted) + "") == NonSpace(Concat(st.chunks) + st.current) + NonSpace(p)
  {
    var before := Concat(st.chunks);
    var w := Windows(p, size, 0);
    ConcatAppend(st.chunks + Flushed(st.current), w);
    ConcatAppend(st.chunks, Flushed(st.current));
    ConcatFlushed(st.current);
    WindowsConcat(p, size);
    assert Concat(st.chunks + Flushed(st.current) + w) + "" == (before + st.current) + p;
    NonSpaceAppend(before + st.current, p);
  }

  /**
   * Without overlap, packing keeps every non-whitespace character of the
   * paragraphs, in order: each is emitted once, whole in a chunk or split
   * across consecutive windows.
   */
  lemma PackKeepsText(paras: seq<string>, size: nat)
    requires 0 < size
    ensures NonSpace(Concat(Pack(paras, size, 0))) == NonSpace(Concat(paras))
  {
    var st := PackPrefix(paras, size, 0);
    PackPrefixKeepsText(paras, size);
    ConcatAppend(st.chunks, Flushed(st.current));
    ConcatFlushed(st.current);
  }

  // ---------------------------------------------------------------------------
  // The overlap pass

  /** prev[-n:] for n > 0: the last n characters, or all of them when there are fewer. */
  function Tail(s: string, n: nat): string {
    if n < |s| then s[|s| - n..] else s
  }

  /** The tail is the suffix of s of length min(n, |s|). */
  lemma TailIsSuffix(s: string, n: nat)
    ensures var r := Tail(s, n);
      |r| == (if n < |s| then n else |s|) && r == s[|s| - |r|..]
  {
    assert s[0..] == s;
  }

  /** One step of the overlap pass: the stripped tail of the previous output chunk, then the chunk. */
  function OverlapJoin(overlap: nat): (string, string) -> string {
    (prev: string, c: string) => Strip(Tail(prev, overlap) + c)
  }

  /** The overlap pass, skipped when overlap is 0 or there is at most one chunk. */
  function OverlapPass(chunks: seq<string>, overlap: nat): seq<string> {
    if overlap == 0 || |chunks| <= 1 then chunks else Scan(chunks, OverlapJoin(overlap))
  }

  /**
   * The overlap pass keeps the number of chunks and the first chunk; every
   * later chunk is the stripped concatenation of the last overlap characters
   * of the previous OUTPUT chunk and the chunk itself.
   */
  lemma OverlapPassShape(chunks: seq<string>, overlap: nat)
    ensures var out := OverlapPass(chunks, overlap);
      && |out| == |chunks|
      && (overlap == 0 || |chunks| <= 1 ==> out == chunks)
      && (|chunks| > 0 ==> out[0] == chunks[0])
      && (overlap > 0 ==> forall i :: 1 <= i < |chunks| ==>
            out[i] == Strip(Tail(out[i - 1], overlap) + chunks[i]))
  {
    if overlap > 0 && |chunks| > 1 {
      var join := OverlapJoin(overlap);
      var out := Scan(chunks, join);
      ScanAt(chunks, join, 0);
      forall i | 1 <= i < |chunks| ensures out[i] == Strip(Tail(out[i - 1], overlap) + chunks[i]) {
        ScanAt(chunks, join, i);
      }
    }
  }

  lemma StripShorter(s: string)
    ensures |Strip(s)| <= |s|
  {
    var i, j := StripIsSlice(s);
  }

  /** An overlapped chunk is at most overlap characters longer than the chunk it came from. */
  lemma OverlapPassBound(chunks: seq<string>, overlap: nat)
    ensures forall i :: 0 <= i < |chunks| ==> |OverlapPass(chunks, overlap)[i]| <= |chunks[i]| + overlap
  {
    OverlapPassShape(chunks, overlap);
    var out := OverlapPass(chunks, overlap);
    forall i | 1 <= i < |chunks| && overlap > 0 ensures |out[i]| <= |chunks[i]| + overlap {
      StripShorter(Tail(out[i - 1], overlap) + chunks[i]);
      TailIsSuffix(out[i - 1], overlap);
    }
  }

  /**
   * The strip after prepending the tail can drop the tail's leading
   * whitespace: with the chunks "ab cd" and "ef" and overlap 3, the second
   * output chunk is "cdef", which does not begin with the tail " cd".
   */
  lemma OverlapStripsTail()
    ensures Tail("ab cd", 3) == " cd"
    ensures OverlapPass(["ab cd", "ef"], 3) == ["ab cd", "cdef"]
  {
    var chunks := ["ab cd", "ef"];
    var tail := Tail("ab cd", 3);
    assert tail == "ab cd"[2..];
    assert tail == " cd";
    var joined := tail + "ef";
    assert joined == " cdef";
    assert IsSpace(joined[0]) && joined[1..] == "cdef";
    assert !IsSpace('c');
    assert TrimStart(joined) == TrimStart("cdef") == "cdef";
    assert !IsSpace('f');
    assert TrimEnd("cdef") == "cdef";
    assert chunks[1..] == ["ef"] && chunks[1..][1..] == [];
    assert Scan(chunks, OverlapJoin(3)) == ["ab cd"] + [Strip(Tail("ab cd", 3) + "ef")];
  }

  // ---------------------------------------------------------------------------
  // chunk_text

  /** What chunk_text returns for valid arguments. */
  function ChunkSpec(text: string, size: nat, overlap: nat): seq<string>
    requires overlap < size
  {
    var t := Normalize(text);
    if t == [] then [] else OverlapPass(Pack(Paragraphs(t), size, overlap), overlap)
  }

  /** Without overlap, the chunks keep every non-whitespace character of the text, in order. */
  lemma ChunkSpecKeepsText(text: string, size: nat)
    requires 0 < size
    ensures NonSpace(Concat(ChunkSpec(text, size, 0))) == NonSpace(text)
  {
    var t := Normalize(text);
    NormalizeShape(text);
    if t != [] {
      ParagraphsShape(t);
      PackKeepsText(Paragraphs(t), size);
    }
  }

  /** Every returned chunk is at most chunk_size + overlap characters long. */
  lemma ChunkSpecBound(text: string, size: nat, overlap: nat)
    requires overlap < size
    ensures forall c :: c in ChunkSpec(text, size, overlap) ==> |c| <= size + overlap
  {
    var t := Normalize(text);
    if t != [] {
      var chunks := Pack(Paragraphs(t), size, overlap);
      PackBounded(Paragraphs(t), size, overlap);
      OverlapPassBound(chunks, overlap);
      OverlapPassShape(chunks, overlap);
      forall c | c in ChunkSpec(text, size, overlap) ensures |c| <= size + overlap {
        var i :| 0 <= i < |chunks| && OverlapPass(chunks, overlap)[i] == c;
        assert chunks[i] in chunks;
      }
    }
  }

  /** The hard split of one paragraph into windows of chunk_size characters stepping back by overlap. */
  method HardSplit(p: string, chunkSize: nat, overlap: nat) returns (windows: seq<string>)
    requires overlap < chunkSize
    ensures windows == Windows(p, chunkSize, overlap)
  {
    windows := [];
    var start := 0;
    while start < |p|
      invariant start <= |p|
      invariant windows + WindowsFrom(p, start, chunkSize, overlap) == Windows(p, chunkSize, overlap)
      decreases |p| - start
    {
      var end := WindowEnd(p, start, chunkSize);
      WindowsAdvance(p, start, chunkSize, overlap, windows);
      windows := windows + [p[start..end]];
      start := if end < |p| then end - overlap else end;
    }
  }

  /** The greedy packing loop of chunk_text, with the final flush of the buffer. */
  method PackParagraphs(paragraphs: seq<string>, chunkSize: nat, overlap: nat) returns (chunks: seq<string>)
    requires overlap < chunkSize
    ensures chunks == Pack(paragraphs, chunkSize, overlap)
  {
    chunks := [];
    var current: string := "";
    var i := 0;
    while i < |paragraphs|
      invariant 0 <= i <= |paragraphs|
      invariant PackState(chunks, current) == PackPrefix(paragraphs[..i], chunkSize, overlap)
    {
      var p := paragraphs[i];
      assert paragraphs[..i + 1][..i] == paragraphs[..i];
      var candidate := if current != [] then Strip(current + "\n\n" + p) else p;
      if |candidate| <= chunkSize {
        current := candidate;
      } else {
        if current != [] {
          chunks := chunks + [current];
          current := "";
        }
        var windows := HardSplit(p, chunkSize, overlap);
        chunks := chunks + windows;
      }
      i := i + 1;
    }
    assert paragraphs[..i] == paragraphs;
    if current != [] {
      chunks := chunks + [current];
    }
  }

  /** The overlap pass of chunk_text over the packed chunks. */
  method ApplyOverlap(chunks: seq<string>, overlap: nat) returns (overlapped: seq<string>)
    ensures overlapped == OverlapPass(chunks, overlap)
  {
    if overlap == 0 || |chunks| <= 1 {
      return chunks;
    }
    var join := OverlapJoin(overlap);
    overlapped := [chunks[0]];
    var k := 1;
    while k < |chunks|
      invariant 1 <= k <= |chunks| && |overlapped| == k
      invariant overlapped + ScanFrom(overlapped[k - 1], chunks[k..], join) == Scan(chunks, join)
    {
      var prev := overlapped[|overlapped| - 1];
      var tail := Tail(prev, overlap);
      var next := Strip(tail + chunks[k]);
      ScanAdvance(chunks, join, overlapped, k);
      assert next == join(prev, chunks[k]);
      overlapped := overlapped + [next];
      k := k + 1;
    }
  }

  /**
   * chunk_text: raises before any work on invalid arguments; otherwise
   * normalises, splits into paragraphs, packs them greedily (hard-splitting a
   * paragraph that overflows the buffer) and applies the overlap pass.
   */
  method ChunkText(text: string, chunkSize: int, overlap: int) returns (r: Result<seq<string>, ChunkError>)
    ensures r.Failure? <==> ParamError(chunkSize, overlap).Some?
    ensures r.Failure? ==> Some(r.error) == ParamError(chunkSize, overlap)
    ensures 0 <= overlap < chunkSize ==> r == Success(ChunkSpec(text, chunkSize, overlap))
  {
    if chunkSize <= 0 {
      return Failure(ChunkSizeNotPositive);
    }
    if overlap < 0 {
      return Failure(OverlapNegative);
    }
    if overlap >= chunkSize {
      return Failure(OverlapNotBelowChunkSize);
    }

    var t := Normalize(text);
    if t == [] {
      return Success([]);
    }
    var paragraphs := Paragraphs(t);
    var chunks := PackParagraphs(paragraphs, chunkSize, overlap);
    var overlapped := ApplyOverlap(chunks, overlap);
    return Success(overlapped);
  }
}
