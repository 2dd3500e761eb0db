/**
 * The whitespace normalisation of the assistant's text utilities:
 * Python's str.strip and the four-step normalize_text rewrite, with the
 * shape of its output, the characters it keeps, and its idempotence.
 */
module TextUtils {
  import opened Chars

  /** A passage of a document: its text, the document it came from and its ordinal there. */
  datatype Chunk = Chunk(text: string, source: string, chunkId: int)

  const NoBreakSpace: char := '\U{A0}'

  // ---------------------------------------------------------------------------
  // str.strip

  /** Drops the leading whitespace. */
  function TrimStart(s: string): string {
    if s != [] && IsSpace(s[0]) then TrimStart(s[1..]) else s
  }

  /** Drops the trailing whitespace. */
  function TrimEnd(s: string): string {
    if s != [] && IsSpace(s[|s| - 1]) then TrimEnd(s[..|s| - 1]) else s
  }

  /** TrimStart drops a run of whitespace from the front and stops at the first other character. */
  lemma {:induction false} TrimStartShape(s: string)
    ensures var r := TrimStart(s);
      && |r| <= |s| && r == s[|s| - |r|..]
      && (forall i :: 0 <= i < |s| - |r| ==> IsSpace(s[i]))
      && (r == [] || !IsSpace(r[0]))
  {
    if s != [] && IsSpace(s[0]) {
      var t := s[1..];
      TrimStartShape(t);
      var r := TrimStart(t);
      assert t[|t| - |r|..] == s[|s| - |r|..];
      forall i | 0 <= i < |s| - |r| ensures IsSpace(s[i]) {
        if i > 0 {
          assert s[i] == t[i - 1];
        }
      }
    }
  }

  /** TrimEnd drops a run of whitespace from the back and stops at the last other character. */
  lemma {:induction false} TrimEndShape(s: string)
    ensures var r := TrimEnd(s);
      && |r| <= |s| && r == s[..|r|]
      && (forall i :: |r| <= i < |s| ==> IsSpace(s[i]))
      && (r == [] || !IsSpace(r[|r| - 1]))
  {
    if s != [] && IsSpace(s[|s| - 1]) {
      var t := s[..|s| - 1];
      TrimEndShape(t);
      var r := TrimEnd(t);
      assert t[..|r|] == s[..|r|];
      forall i | |r| <= i < |s| ensures IsSpace(s[i]) {
        if i < |s| - 1 {
          assert s[i] == t[i];
        }
      }
    }
  }

  /** Python's str.strip(): removes whitespace at both ends. */
  function Strip(s: string): string {
    TrimEnd(TrimStart(s))
  }

  /** What Strip keeps is one contiguous piece of its input, bounded by non-whitespace. */
  lemma StripIsSlice(s: string) returns (i: nat, j: nat)
    ensures i <= j <= |s| && Strip(s) == s[i..j]
    ensures forall k :: 0 <= k < i ==> IsSpace(s[k])
    ensures forall k :: j <= k < |s| ==> IsSpace(s[k])
    ensures Strip(s) == [] || (!IsSpace(Strip(s)[0]) && !IsSpace(Strip(s)[|Strip(s)| - 1]))
  {
    var t := TrimStart(s);
    TrimStartShape(s);
    TrimEndShape(t);
    i := |s| - |t|;
    j := i + |TrimEnd(t)|;
    assert Strip(s) == t[..|TrimEnd(t)|];
    forall k | j <= k < |s| ensures IsSpace(s[k]) {
      assert s[k] == t[k - i];
    }
  }

  /** Stripping twice is stripping once. */
  lemma StripIdempotent(s: string)
    ensures Strip(Strip(s)) == Strip(s)
  {
    var i, j := StripIsSlice(s);
    StripStripped(Strip(s));
  }

  /** A piece of s that begins and ends with non-whitespace survives Strip, with its neighbours. */
  lemma StripKeepsInner(s: string, lo: nat, hi: nat) returns (k: nat)
    requires lo < hi <= |s| && !IsSpace(s[lo]) && !IsSpace(s[hi - 1])
    ensures var r := Strip(s);
      && k + (hi - lo) <= |r| && r[k..k + (hi - lo)] == s[lo..hi]
      && (k == 0 <==> lo == 0 || forall m :: 0 <= m < lo ==> IsSpace(s[m]))
      && (k > 0 ==> lo > 0 && r[k - 1] == s[lo - 1])
      && (k + (hi - lo) < |r| ==> hi < |s| && r[k + (hi - lo)] == s[hi])
  {
    var i, j := StripIsSlice(s);
    assert i <= lo && hi <= j;
    k := lo - i;
    var r := Strip(s);
    forall x | 0 <= x < hi - lo ensures r[k..k + (hi - lo)][x] == s[lo..hi][x] {
      assert r[k + x] == s[i..j][k + x] == s[lo + x];
    }
    if k > 0 {
      assert r[k - 1] == s[lo - 1];
      assert r[0] == s[i] && !IsSpace(s[i]);
    }
    if k + (hi - lo) < |r| {
      assert r[k + (hi - lo)] == s[hi];
    }
  }

  /** Strip leaves a string that already has no whitespace at either end unchanged. */
  lemma StripStripped(s: string)
    requires s == [] || (!IsSpace(s[0]) && !IsSpace(s[|s| - 1]))
    ensures Strip(s) == s
  {
  }

  // ---------------------------------------------------------------------------
  // str.join

  /** sep.join(parts): the parts in order, with sep between neighbours. */
  function JoinWith(sep: string, parts: seq<string>): string
    decreases |parts|
  {
    if parts == [] then [] else if |parts| == 1 then parts[0] else parts[0] + sep + JoinWith(sep, parts[1..])
  }

  /** Joining one more part appends the separator and that part. */
  lemma {:induction false} JoinWithSnoc(sep: string, parts: seq<string>, p: string)
    requires parts != []
    ensures JoinWith(sep, parts + [p]) == JoinWith(sep, parts) + sep + p
    decreases |parts|
  {
    if |parts| > 1 {
      assert (parts + [p])[1..] == parts[1..] + [p];
      JoinWithSnoc(sep, parts[1..], p);
    }
  }

  /** Where part i starts in the joined string: the parts before it, each followed by sep. */
  function JoinOffset(sep: string, parts: seq<string>, i: nat): nat
    requires i < |parts|
    decreases i
  {
    if i == 0 then 0 else |parts[0]| + |sep| + JoinOffset(sep, parts[1..], i - 1)
  }

  /** The parts are laid out in order: part i and a separator end before part j starts. */
  lemma {:induction false} JoinOffsetOrder(sep: string, parts: seq<string>, i: nat, j: nat)
    requires i < j < |parts|
    ensures JoinOffset(sep, parts, i) + |parts[i]| + |sep| <= JoinOffset(sep, parts, j)
    decreases i
  {
    if i > 0 {
      assert parts[1..][i - 1] == parts[i];
      JoinOffsetOrder(sep, parts[1..], i - 1, j - 1);
    }
  }

  /** Each part occurs in the joined string, at its offset. */
  lemma {:induction false} JoinWithPartAt(sep: string, parts: seq<string>, i: nat) returns (k: nat)
    requires i < |parts|
    ensures k == JoinOffset(sep, parts, i)
    ensures k + |parts[i]| <= |JoinWith(sep, parts)|
    ensures JoinWith(sep, parts)[k..k + |parts[i]|] == parts[i]
    decreases |parts|
  {
    var j := JoinWith(sep, parts);
    if |parts| == 1 {
      k := 0;
    } else if i == 0 {
      k := 0;
      assert j == parts[0] + (sep + JoinWith(sep, parts[1..]));
    } else {
      var rest := JoinWith(sep, parts[1..]);
      var k' := JoinWithPartAt(sep, parts[1..], i - 1);
      k := |parts[0]| + |sep| + k';
      assert j == (parts[0] + sep) + rest;
      assert j[k..k + |parts[i]|] == rest[k'..k' + |parts[i]|];
    }
  }

  // ---------------------------------------------------------------------------
  // The non-whitespace content of a string

  /** The non-whitespace characters of s, in order. */
  function NonSpace(s: string): string {
    if s == [] then [] else (if IsSpace(s[0]) then [] else [s[0]]) + NonSpace(s[1..])
  }

  lemma {:induction false} NonSpaceAppend(a: string, b: string)
    ensures NonSpace(a + b) == NonSpace(a) + NonSpace(b)
  {
    if a == [] {
      assert a + b == b;
    } else {
      assert (a + b)[1..] == a[1..] + b;
      NonSpaceAppend(a[1..], b);
    }
  }

  lemma {:induction false} NonSpaceOfSpaces(s: string)
    requires forall i :: 0 <= i < |s| ==> IsSpace(s[i])
    ensures NonSpace(s) == []
  {
    if s != [] {
      NonSpaceOfSpaces(s[1..]);
    }
  }

  lemma {:induction false} TrimStartKeepsNonSpace(s: string)
    ensures NonSpace(TrimStart(s)) == NonSpace(s)
  {
    if s != [] && IsSpace(s[0]) {
      TrimStartKeepsNonSpace(s[1..]);
    }
  }

  lemma {:induction false} TrimEndKeepsNonSpace(s: string)
    ensures NonSpace(TrimEnd(s)) == NonSpace(s)
  {
    if s != [] && IsSpace(s[|s| - 1]) {
      var init := s[..|s| - 1];
      assert s == init + [s[|s| - 1]];
      NonSpaceAppend(init, [s[|s| - 1]]);
      TrimEndKeepsNonSpace(init);
    }
  }

  /** Strip removes whitespace only. */
  lemma StripKeepsNonSpace(s: string)
    ensures NonSpace(Strip(s)) == NonSpace(s)
  {
    TrimStartKeepsNonSpace(s);
    TrimEndKeepsNonSpace(TrimStart(s));
  }

  // ---------------------------------------------------------------------------
  // The four rewrite steps of normalize_text

  /** Step 1, text.replace(" ", " "). */
  function ReplaceNoBreakSpace(s: string): string {
    if s == [] then [] else [if s[0] == NoBreakSpace then ' ' else s[0]] + ReplaceNoBreakSpace(s[1..])
  }

  predicate IsBlank(c: char) {
    c == ' ' || c == '\t'
  }

  /**
   * Step 2, re.sub(r"[ \t]+", " ", text): every maximal run of spaces and tabs
   * becomes one space. inRun says that the previous input character was such a
   * blank, so that this run has already produced its space.
   */
  function CollapseBlanks(s: string, inRun: bool): string {
    if s == [] then []
    else if IsBlank(s[0]) then
      (if inRun then CollapseBlanks(s[1..], true) else [' '] + CollapseBlanks(s[1..], true))
    else [s[0]] + CollapseBlanks(s[1..], false)
  }

  /**
   * Step 3, re.sub(r"\n{3,}", "\n\n", text): every maximal run of newlines
   * longer than two becomes two newlines. run counts the newlines of the
   * current run already produced (at most two).
   */
  function CollapseNewlines(s: string, run: nat): string {
    if s == [] then []
    else if s[0] == '\n' then
      (if run >= 2 then CollapseNewlines(s[1..], run) else ['\n'] + CollapseNewlines(s[1..], run + 1))
    else [s[0]] + CollapseNewlines(s[1..], 0)
  }

  /** normalize_text: the three substitutions, then str.strip(). */
  function Normalize(s: string): string {
    Strip(CollapseNewlines(CollapseBlanks(ReplaceNoBreakSpace(s), false), 0))
  }

  // ---------------------------------------------------------------------------
  // The shape of normalised text

  ghost predicate NoDoubleSpace(s: string) {
    forall i :: 0 <= i < |s| - 1 ==> !(s[i] == ' ' && s[i + 1] == ' ')
  }

  ghost predicate NoTripleNewline(s: string) {
    forall i :: 0 <= i < |s| - 2 ==> !(s[i] == '\n' && s[i + 1] == '\n' && s[i + 2] == '\n')
  }

  /** Everything normalize_text promises about its output. */
  ghost predicate Normalized(s: string) {
    && NoBreakSpace !in s
    && '\t' !in s
    && NoDoubleSpace(s)
    && NoTripleNewline(s)
    && (s == [] || (!IsSpace(s[0]) && !IsSpace(s[|s| - 1])))
  }

  lemma ConsNoDoubleSpace(c: char, s: string)
    requires NoDoubleSpace(s)
    requires c == ' ' ==> s == [] || s[0] != ' '
    ensures NoDoubleSpace([c] + s)
  {
    var t := [c] + s;
    forall i | 0 <= i < |t| - 1 ensures !(t[i] == ' ' && t[i + 1] == ' ') {
      if i > 0 {
        assert t[i] == s[i - 1] && t[i + 1] == s[i];
      }
    }
  }

  lemma ConsNoTripleNewline(c: char, s: string)
    requires NoTripleNewline(s)
    requires c == '\n' && |s| >= 2 ==> !(s[0] == '\n' && s[1] == '\n')
    ensures NoTripleNewline([c] + s)
  {
    var t := [c] + s;
    forall i | 0 <= i < |t| - 2 ensures !(t[i] == '\n' && t[i + 1] == '\n' && t[i + 2] == '\n') {
      if i > 0 {
        assert t[i] == s[i - 1] && t[i + 1] == s[i] && t[i + 2] == s[i + 1];
      }
    }
  }

  lemma {:induction false} ReplaceNoBreakSpaceShape(s: string)
    ensures NoBreakSpace !in ReplaceNoBreakSpace(s)
    ensures NonSpace(ReplaceNoBreakSpace(s)) == NonSpace(s)
  {
    if s != [] {
      ReplaceNoBreakSpaceShape(s[1..]);
    }
  }

  lemma {:induction false} CollapseBlanksShape(s: string, inRun: bool)
    ensures var r := CollapseBlanks(s, inRun);
      && '\t' !in r
      && (NoBreakSpace !in s ==> NoBreakSpace !in r)
      && NoDoubleSpace(r)
      && (inRun ==> r == [] || r[0] != ' ')
  {
    if s != [] {
      CollapseBlanksShape(s[1..], true);
      CollapseBlanksShape(s[1..], false);
      if IsBlank(s[0]) {
        if !inRun {
          ConsNoDoubleSpace(' ', CollapseBlanks(s[1..], true));
        }
      } else {
        ConsNoDoubleSpace(s[0], CollapseBlanks(s[1..], false));
      }
    }
  }

  lemma {:induction false} CollapseBlanksKeepsNonSpace(s: string, inRun: bool)
    ensures NonSpace(CollapseBlanks(s, inRun)) == NonSpace(s)
  {
    if s != [] {
      CollapseBlanksKeepsNonSpace(s[1..], !IsBlank(s[0]) || inRun);
      if IsBlank(s[0]) && inRun {
      } else {
        var c := if IsBlank(s[0]) then ' ' else s[0];
        var rest := CollapseBlanks(s[1..], IsBlank(s[0]) || inRun);
        assert ([c] + rest)[1..] == rest;
      }
    }
  }

  /** CollapseNewlines with no pending run starts with the character its input starts with. */
  lemma CollapseNewlinesHead(s: string)
    requires s != []
    ensures CollapseNewlines(s, 0) != [] && CollapseNewlines(s, 0)[0] == s[0]
  {
  }

  /** Collapsing newline runs only drops newlines. */
  lemma {:induction false} CollapseNewlinesKeeps(s: string, run: nat)
    ensures var r := CollapseNewlines(s, run);
      && (forall c :: c in r ==> c in s)
      && NonSpace(r) == NonSpace(s)
  {
    if s != [] {
      var next := if s[0] == '\n' && run >= 2 then run else if s[0] == '\n' then run + 1 else 0;
      CollapseNewlinesKeeps(s[1..], next);
      var rest := CollapseNewlines(s[1..], next);
      if !(s[0] == '\n' && run >= 2) {
        assert ([s[0]] + rest)[1..] == rest;
      }
    }
  }

  /** Collapsing newline runs never puts two spaces side by side. */
  lemma {:induction false} CollapseNewlinesNoDoubleSpace(s: string, run: nat)
    requires NoDoubleSpace(s)
    ensures NoDoubleSpace(CollapseNewlines(s, run))
  {
    if s != [] {
      assert NoDoubleSpace(s[1..]) by {
        forall i | 0 <= i < |s[1..]| - 1 ensures !(s[1..][i] == ' ' && s[1..][i + 1] == ' ') {
          assert s[1..][i] == s[i + 1] && s[1..][i + 1] == s[i + 2];
        }
      }
      if s[0] == '\n' {
        var next := if run >= 2 then run else run + 1;
        CollapseNewlinesNoDoubleSpace(s[1..], next);
        if run < 2 {
          ConsNoDoubleSpace('\n', CollapseNewlines(s[1..], next));
        }
      } else {
        CollapseNewlinesNoDoubleSpace(s[1..], 0);
        if |s| > 1 {
          CollapseNewlinesHead(s[1..]);
        }
        assert s[0] == ' ' && |s| > 1 ==> s[1] != ' ';
        ConsNoDoubleSpace(s[0], CollapseNewlines(s[1..], 0));
      }
    }
  }

  /** Collapsing newline runs leaves no three newlines in a row, counting the run already produced. */
  lemma {:induction false} CollapseNewlinesNoTriple(s: string, run: nat)
    requires run <= 2
    ensures var r := CollapseNewlines(s, run);
      && NoTripleNewline(r)
      && (run == 2 ==> r == [] || r[0] != '\n')
      && (run == 1 ==> |r| < 2 || !(r[0] == '\n' && r[1] == '\n'))
  {
    if s != [] {
      if s[0] == '\n' {
        if run >= 2 {
          CollapseNewlinesNoTriple(s[1..], run);
        } else {
          CollapseNewlinesNoTriple(s[1..], run + 1);
          ConsNoTripleNewline('\n', CollapseNewlines(s[1..], run + 1));
        }
      } else {
        CollapseNewlinesNoTriple(s[1..], 0);
        ConsNoTripleNewline(s[0], CollapseNewlines(s[1..], 0));
      }
    }
  }

  /** Step 3 keeps the characters, adds no double space and leaves no run of three newlines. */
  lemma CollapseNewlinesShape(s: string, run: nat)
    requires run <= 2
    ensures var r := CollapseNewlines(s, run);
      && (forall c :: c in r ==> c in s)
      && (NoDoubleSpace(s) ==> NoDoubleSpace(r))
      && NoTripleNewline(r)
      && (run == 2 ==> r == [] || r[0] != '\n')
      && (run == 1 ==> |r| < 2 || !(r[0] == '\n' && r[1] == '\n'))
      && NonSpace(r) == NonSpace(s)
  {
    CollapseNewlinesKeeps(s, run);
    CollapseNewlinesNoTriple(s, run);
    if NoDoubleSpace(s) {
      CollapseNewlinesNoDoubleSpace(s, run);
    }
  }

  lemma SliceKeepsNoDoubleSpace(c: string, i: nat, j: nat)
    requires i <= j <= |c| && NoDoubleSpace(c)
    ensures NoDoubleSpace(c[i..j])
  {
    var r := c[i..j];
    forall k | 0 <= k < |r| - 1 ensures !(r[k] == ' ' && r[k + 1] == ' ') {
      assert r[k] == c[i + k] && r[k + 1] == c[i + k + 1];
    }
  }

  lemma SliceKeepsNoTripleNewline(c: string, i: nat, j: nat)
    requires i <= j <= |c| && NoTripleNewline(c)
    ensures NoTripleNewline(c[i..j])
  {
    var r := c[i..j];
    forall k | 0 <= k < |r| - 2 ensures !(r[k] == '\n' && r[k + 1] == '\n' && r[k + 2] == '\n') {
      assert r[k] == c[i + k] && r[k + 1] == c[i + k + 1] && r[k + 2] == c[i + k + 2];
    }
  }

  /** Strip keeps the absence of no-break spaces, tabs, double spaces and triple newlines. */
  lemma StripShape(c: string)
    requires NoBreakSpace !in c && '\t' !in c && NoDoubleSpace(c) && NoTripleNewline(c)
    ensures Normalized(Strip(c))
  {
    var i, j := StripIsSlice(c);
    var r := Strip(c);
    forall k | 0 <= k < |r| ensures r[k] != NoBreakSpace && r[k] != '\t' {
      assert r[k] == c[i + k];
    }
    SliceKeepsNoDoubleSpace(c, i, j);
    SliceKeepsNoTripleNewline(c, i, j);
  }

  /**
   * normalize_text's output has no no-break space, no tab, no two consecutive
   * spaces, no three consecutive newlines and no whitespace at either end, and
   * it keeps the non-whitespace characters of its input, in order.
   */
  lemma NormalizeShape(s: string)
    ensures Normalized(Normalize(s))
    ensures NonSpace(Normalize(s)) == NonSpace(s)
  {
    var a := ReplaceNoBreakSpace(s);
    var b := CollapseBlanks(a, false);
    var c := CollapseNewlines(b, 0);
    ReplaceNoBreakSpaceShape(s);
    CollapseBlanksShape(a, false);
    CollapseBlanksKeepsNonSpace(a, false);
    CollapseNewlinesShape(b, 0);
    assert NoBreakSpace !in c && '\t' !in c;
    StripShape(c);
    StripKeepsNonSpace(c);
  }

  lemma {:induction false} ReplaceNoBreakSpaceFixes(s: string)
    requires NoBreakSpace !in s
    ensures ReplaceNoBreakSpace(s) == s
  {
    if s != [] {
      ReplaceNoBreakSpaceFixes(s[1..]);
    }
  }

  lemma {:induction false} CollapseBlanksFixes(s: string, inRun: bool)
    requires '\t' !in s && NoDoubleSpace(s)
    requires inRun ==> s == [] || s[0] != ' '
    ensures CollapseBlanks(s, inRun) == s
  {
    if s != [] {
      assert NoDoubleSpace(s[1..]) by {
        forall i | 0 <= i < |s[1..]| - 1 ensures !(s[1..][i] == ' ' && s[1..][i + 1] == ' ') {
          assert s[1..][i] == s[i + 1] && s[1..][i + 1] == s[i + 2];
        }
      }
      CollapseBlanksFixes(s[1..], s[0] == ' ');
    }
  }

  lemma {:induction false} CollapseNewlinesFixes(s: string, run: nat)
    requires run <= 2 && NoTripleNewline(s)
    requires run == 2 ==> s == [] || s[0] != '\n'
    requires run == 1 ==> |s| < 2 || !(s[0] == '\n' && s[1] == '\n')
    ensures CollapseNewlines(s, run) == s
  {
    if s != [] {
      assert NoTripleNewline(s[1..]) by {
        forall i | 0 <= i < |s[1..]| - 2
          ensures !(s[1..][i] == '\n' && s[1..][i + 1] == '\n' && s[1..][i + 2] == '\n')
        {
          assert s[1..][i] == s[i + 1] && s[1..][i + 1] == s[i + 2] && s[1..][i + 2] == s[i + 3];
        }
      }
      if s[0] == '\n' {
        CollapseNewlinesFixes(s[1..], run + 1);
      } else {
        CollapseNewlinesFixes(s[1..], 0);
      }
    }
  }

  /** Normalising text that is already normalised changes nothing. */
  lemma NormalizeFixesNormalized(s: string)
    requires Normalized(s)
    ensures Normalize(s) == s
  {
    ReplaceNoBreakSpaceFixes(s);
    CollapseBlanksFixes(s, false);
    CollapseNewlinesFixes(s, 0);
    StripStripped(s);
  }

  /** normalize_text is idempotent. */
  lemma NormalizeIdempotent(s: string)
    ensures Normalize(Normalize(s)) == Normalize(s)
  {
    NormalizeShape(s);
    NormalizeFixesNormalized(Normalize(s));
  }
}
