/** Preprocessor lines kept per token number until the tokens before which they
    stand are emitted. */
module PreprocessorInfo {
  import opened Wrappers

  type Lines<T> = map<int, seq<T>>

  function At<T>(m: Lines<T>, tok: int): seq<T> {
    if tok in m then m[tok] else []
  }

  function Tagged<T>(tok: int, lines: seq<T>): seq<(int, T)> {
    seq(|lines|, i requires 0 <= i < |lines| => (tok, lines[i]))
  }

  /** The lines of tokens lo to hi-1, by token and then in the order of insertion. */
  function Range<T>(m: Lines<T>, lo: int, hi: int): seq<(int, T)>
    decreases hi - lo
  {
    if lo >= hi then [] else Range(m, lo, hi - 1) + Tagged(hi - 1, At(m, hi - 1))
  }

  /** The lines of token `tok` in s, in order. */
  function Of<T>(s: seq<(int, T)>, tok: int): seq<T> {
    if s == [] then []
    else Of(s[..|s| - 1], tok) + if s[|s| - 1].0 == tok then [s[|s| - 1].1] else []
  }

  function Untagged<T>(s: seq<(int, T)>): seq<T> {
    seq(|s|, i requires 0 <= i < |s| => s[i].1)
  }

  lemma {:induction false} OfAppend<T>(a: seq<(int, T)>, b: seq<(int, T)>, tok: int)
    ensures Of(a + b, tok) == Of(a, tok) + Of(b, tok)
    decreases |b|
  {
    if b == [] {
      assert a + b == a;
    } else {
      assert (a + b)[..|a + b| - 1] == a + b[..|b| - 1];
      OfAppend(a, b[..|b| - 1], tok);
    }
  }

  lemma {:induction false} OfTagged<T>(t: int, lines: seq<T>, tok: int)
    ensures Of(Tagged(t, lines), tok) == if t == tok then lines else []
    decreases |lines|
  {
    if lines != [] {
      var s := Tagged(t, lines);
      assert s[..|s| - 1] == Tagged(t, lines[..|lines| - 1]);
      OfTagged(t, lines[..|lines| - 1], tok);
    }
  }

  /** A range holds, for each of its tokens, exactly the lines of that token. */
  lemma {:induction false} OfRange<T>(m: Lines<T>, lo: int, hi: int, tok: int)
    ensures Of(Range(m, lo, hi), tok) == if lo <= tok < hi then At(m, tok) else []
    decreases hi - lo
  {
    if lo < hi {
      OfRange(m, lo, hi - 1, tok);
      OfTagged(hi - 1, At(m, hi - 1), tok);
      OfAppend(Range(m, lo, hi - 1), Tagged(hi - 1, At(m, hi - 1)), tok);
    }
  }

  /** Tagged lines are in the order of their tokens. */
  predicate ByToken<T>(s: seq<(int, T)>) {
    forall i, j | 0 <= i < j < |s| :: s[i].0 <= s[j].0
  }

  lemma {:induction false} RangeSorted<T>(m: Lines<T>, lo: int, hi: int)
    ensures forall i | 0 <= i < |Range(m, lo, hi)| :: lo <= Range(m, lo, hi)[i].0 < hi
    ensures ByToken(Range(m, lo, hi))
    decreases hi - lo
  {
    if lo < hi {
      RangeSorted(m, lo, hi - 1);
    }
  }

  /** The entries of tokens lo to hi-1 removed. */
  function Without<T>(m: Lines<T>, lo: int, hi: int): Lines<T> {
    map t | t in m && !(lo <= t < hi) :: m[t]
  }

  /** Extracting in two steps is extracting once. */
  lemma {:induction false} RangeSplit<T>(m: Lines<T>, lo: int, mid: int, hi: int)
    requires lo <= mid <= hi
    ensures Range(m, lo, mid) + Range(Without(m, lo, mid), mid, hi) == Range(m, lo, hi)
    ensures Without(Without(m, lo, mid), mid, hi) == Without(m, lo, hi)
    decreases hi - mid
  {
    if mid < hi {
      RangeSplit(m, lo, mid, hi - 1);
      var rest := Without(m, lo, mid);
      assert At(rest, hi - 1) == At(m, hi - 1);
      assert Range(m, lo, mid) + (Range(rest, mid, hi - 1) + Tagged(hi - 1, At(m, hi - 1)))
          == (Range(m, lo, mid) + Range(rest, mid, hi - 1)) + Tagged(hi - 1, At(m, hi - 1));
    }
  }

  /** One more token extracted. */
  lemma ExtractStep<T>(m: Lines<T>, lo: int, i: int)
    requires lo <= i
    ensures Untagged(Range(m, lo, i + 1)) == Untagged(Range(m, lo, i)) + At(m, i)
    ensures Without(m, lo, i + 1) == Without(m, lo, i) - {i}
    ensures i in Without(m, lo, i) <==> i in m
    ensures i in m ==> Without(m, lo, i)[i] == m[i]
  {
    assert Range(m, lo, i + 1) == Range(m, lo, i) + Tagged(i, At(m, i));
  }

  /** The lines added at `tok` are those extracted followed by those left. */
  ghost predicate ConservedAt<T>(added: Lines<T>, emitted: seq<(int, T)>, left: Lines<T>, tok: int) {
    At(added, tok) == Of(emitted, tok) + At(left, tok)
  }

  ghost predicate Conserved<T>(added: Lines<T>, emitted: seq<(int, T)>, left: Lines<T>) {
    forall tok :: ConservedAt(added, emitted, left, tok)
  }

  lemma AddConservesAt<T>(added: Lines<T>, emitted: seq<(int, T)>, left: Lines<T>, tok: int, line: T, t: int)
    requires ConservedAt(added, emitted, left, t)
    ensures ConservedAt(added[tok := At(added, tok) + [line]], emitted, left[tok := At(left, tok) + [line]], t)
  {
    if t == tok {
      assert Of(emitted, t) + (At(left, t) + [line]) == (Of(emitted, t) + At(left, t)) + [line];
    }
  }

  lemma AddConserves<T>(added: Lines<T>, emitted: seq<(int, T)>, left: Lines<T>, tok: int, line: T)
    requires Conserved(added, emitted, left)
    ensures Conserved(added[tok := At(added, tok) + [line]], emitted, left[tok := At(left, tok) + [line]])
  {
    hide ConservedAt;
    var added', left' := added[tok := At(added, tok) + [line]], left[tok := At(left, tok) + [line]];
    forall t ensures ConservedAt(added', emitted, left', t) {
      AddConservesAt(added, emitted, left, tok, line, t);
    }
  }

  lemma ExtractConservesAt<T>(added: Lines<T>, emitted: seq<(int, T)>, left: Lines<T>, lo: int, hi: int, t: int)
    requires ConservedAt(added, emitted, left, t)
    ensures ConservedAt(added, emitted + Range(left, lo, hi), Without(left, lo, hi), t)
  {
    var out, rest := Of(Range(left, lo, hi), t), At(Without(left, lo, hi), t);
    OfRange(left, lo, hi, t);
    OfAppend(emitted, Range(left, lo, hi), t);
    assert out + rest == At(left, t);
    assert (Of(emitted, t) + out) + rest == Of(emitted, t) + (out + rest);
  }

  lemma ExtractConserves<T>(added: Lines<T>, emitted: seq<(int, T)>, left: Lines<T>, lo: int, hi: int)
    requires Conserved(added, emitted, left)
    ensures Conserved(added, emitted + Range(left, lo, hi), Without(left, lo, hi))
  {
    hide ConservedAt;
    forall t ensures ConservedAt(added, emitted + Range(left, lo, hi), Without(left, lo, hi), t) {
      ExtractConservesAt(added, emitted, left, lo, hi, t);
    }
  }

  class PreprocessorInfoChannel<T> {
    var lineMap: Lines<T>
    var firstValidTokenNumber: int
    var maxTokenNumber: int
    ghost var added: Lines<T>          // all lines ever added
    ghost var emitted: seq<(int, T)>   // all lines ever extracted

    ghost predicate Valid()
      reads this
    {
      Conserved(added, emitted, lineMap)
    }

    constructor ()
      ensures Valid() && lineMap == map[] && firstValidTokenNumber == 0 && added == map[] && emitted == []
    {
      lineMap, firstValidTokenNumber, maxTokenNumber := map[], 0, 0;
      added, emitted := map[], [];
    }

    method AddLineForTokenNumber(line: T, toknum: int)
      requires Valid()
      modifies this
      ensures Valid()
      ensures lineMap == old(lineMap)[toknum := At(old(lineMap), toknum) + [line]]
      ensures added == old(added)[toknum := At(old(added), toknum) + [line]]
      ensures emitted == old(emitted) && firstValidTokenNumber == old(firstValidTokenNumber)
    {
      AddConserves(added, emitted, lineMap, toknum, line);
      if toknum in lineMap {
        lineMap := lineMap[toknum := lineMap[toknum] + [line]];
      } else {
        assert [] + [line] == [line];
        lineMap := lineMap[toknum := [line]];
        if maxTokenNumber < toknum {
          maxTokenNumber := toknum;
        }
      }
      added := added[toknum := At(added, toknum) + [line]];
    }

    /** Removes and returns the lines of the tokens from the last extraction up to
        `toknum`; None is the null token. */
    method ExtractLinesPrecedingTokenNumber(toknum: Option<int>) returns (lines: seq<T>)
      requires Valid()
      modifies this
      ensures Valid() && added == old(added)
      ensures toknum.None? ==>
        lines == [] && lineMap == old(lineMap) && firstValidTokenNumber == old(firstValidTokenNumber)
      ensures toknum.Some? ==>
        && lines == Untagged(Range(old(lineMap), old(firstValidTokenNumber), toknum.value))
        && lineMap == Without(old(lineMap), old(firstValidTokenNumber), toknum.value)
        && emitted == old(emitted) + Range(old(lineMap), old(firstValidTokenNumber), toknum.value)
        && firstValidTokenNumber == toknum.value
    {
      hide Conserved;
      lines := [];
      if toknum.None? {
        return;
      }
      ghost var before := lineMap;
      var first := firstValidTokenNumber;
      var i := first;
      assert Without(before, first, first) == before;
      while i < toknum.value
        invariant first <= i && (i <= toknum.value || i == first)
        invariant lineMap == Without(before, first, i)
        invariant lines == Untagged(Range(before, first, i))
        invariant added == old(added) && emitted == old(emitted) && firstValidTokenNumber == first
      {
        ExtractStep(before, first, i);
        if i in lineMap {
          lines := lines + lineMap[i];
          lineMap := lineMap - {i};
        } else {
          assert lineMap - {i} == lineMap;
        }
        i := i + 1;
      }
      firstValidTokenNumber := toknum.value;
      NothingToExtract(before, first, i, toknum.value);
      ExtractConserves(added, emitted, before, first, toknum.value);
      emitted := emitted + Range(before, first, toknum.value);
    }
  }

  /** Going back to an earlier token extracts nothing. */
  lemma NothingToExtract<T>(m: Lines<T>, lo: int, i: int, hi: int)
    requires i == hi || (i == lo && hi <= lo)
    ensures Range(m, lo, i) == Range(m, lo, hi) && Without(m, lo, i) == Without(m, lo, hi)
  {
  }

  // ---------------------------------------------------------------------
  // Runs of extractions
  // ---------------------------------------------------------------------

  predicate NonDecreasing(toks: seq<int>) {
    forall i, j | 0 <= i < j < |toks| :: toks[i] <= toks[j]
  }

  /** What extractions at `toks` give, and what they leave. */
  function ExtractRun<T>(m: Lines<T>, first: int, toks: seq<int>): (seq<(int, T)>, Lines<T>)
    decreases |toks|
  {
    if toks == [] then ([], m)
    else
      var (out, left) := ExtractRun(Without(m, first, toks[0]), toks[0], toks[1..]);
      (Range(m, first, toks[0]) + out, left)
  }

  lemma {:induction false} RunIsRange<T>(m: Lines<T>, first: int, toks: seq<int>)
    requires toks != [] && first <= toks[0] && NonDecreasing(toks)
    ensures var last := toks[|toks| - 1];
            ExtractRun(m, first, toks) == (Range(m, first, last), Without(m, first, last))
    decreases |toks|
  {
    var mid, last := toks[0], toks[|toks| - 1];
    if |toks| == 1 {
      assert toks[1..] == [];
      assert Range(m, first, mid) + [] == Range(m, first, mid);
    } else {
      RunIsRange(Without(m, first, mid), mid, toks[1..]);
      RangeSplit(m, first, mid, last);
    }
  }

  /** Extractions at tokens that never go back give the lines by token, all those of each
      token before the last one in the order of insertion, and leave nothing below it. */
  lemma OrderedExtraction<T>(m: Lines<T>, first: int, toks: seq<int>)
    requires toks != [] && first <= toks[0] && NonDecreasing(toks)
    ensures var (out, left) := ExtractRun(m, first, toks);
            var last := toks[|toks| - 1];
            && ByToken(out)
            && (forall t :: Of(out, t) == if first <= t < last then At(m, t) else [])
            && left == Without(m, first, last)
            && forall t <- left :: t < first || last <= t
  {
    var last := toks[|toks| - 1];
    RunIsRange(m, first, toks);
    hide ExtractRun, Of, Range;
    RangeSorted(m, first, last);
    forall t
      ensures Of(Range(m, first, last), t) == if first <= t < last then At(m, t) else []
    {
      OfRange(m, first, last, t);
    }
  }
}
