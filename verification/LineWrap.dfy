/**
 Greedy wrapping of a note by rune, with an ellipsis when it does not fit, over an
 arbitrary measure of text; and shrinking a title until it fits.
 */
module LineWrap {
  import opened Common

  type Rune = nat
  type Text = seq<Rune>

  const ELLIPSIS: Text := [0x2026]

  /** How wide a piece of text is, in the chosen face. */
  type Measure = Text -> int

  predicate Fits(m: Measure, t: Text, width: int) {
    m(t) <= width
  }

  // ----------------------------------------------------------- one greedy line

  /** The longest prefix of at most `end` runes that fits; 0 if none does. */
  function LongestUpTo(m: Measure, t: Text, width: int, end: nat): (n: nat)
    requires end <= |t|
    ensures n <= end && (n > 0 ==> Fits(m, t[..n], width))
    ensures forall k | n < k <= end :: !Fits(m, t[..k], width)
  {
    if end == 0 || Fits(m, t[..end], width) then end else LongestUpTo(m, t, width, end - 1)
  }

  /** What a line takes: the longest fitting prefix, or one forced rune. */
  function Take(m: Measure, t: Text, width: int): (n: nat)
    requires t != []
    ensures 1 <= n <= |t|
    ensures Fits(m, t[..n], width) || n == 1
    ensures forall k | n < k <= |t| :: !Fits(m, t[..k], width)
  {
    Max(1, LongestUpTo(m, t, width, |t|))
  }

  /** As many leading runes as fit together with the ellipsis. */
  function KeepWithEllipsis(m: Measure, t: Text, width: int, end: nat): (n: nat)
    requires end <= |t|
    ensures n <= end && (n > 0 ==> Fits(m, t[..n] + ELLIPSIS, width))
    ensures forall k | n < k <= end :: !Fits(m, t[..k] + ELLIPSIS, width)
  {
    if end == 0 || Fits(m, t[..end] + ELLIPSIS, width) then end else KeepWithEllipsis(m, t, width, end - 1)
  }

  function Truncated(m: Measure, t: Text, width: int): Text {
    t[..KeepWithEllipsis(m, t, width, |t|)] + ELLIPSIS
  }

  /** The lines of t, at most maxLines of them. */
  function Wrap(m: Measure, t: Text, width: int, maxLines: nat): seq<Text>
    decreases maxLines
  {
    if t == [] || maxLines == 0 then [] else
      var n := Take(m, t, width);
      if maxLines == 1 && n < |t| then [Truncated(m, t, width)] else [t[..n]] + Wrap(m, t[n..], width, maxLines - 1)
  }

  /** A first line of n runes: as many as fit, and at least one. */
  ghost predicate Longest(m: Measure, t: Text, width: int, n: int) {
    && 1 <= n <= |t| && (m(t[..n]) <= width || n == 1)
    && forall k | n < k <= |t| :: m(t[..k]) > width
  }

  /** A last line of n runes and the ellipsis: as many as fit beside it. */
  ghost predicate LongestBesideEllipsis(m: Measure, t: Text, width: int, n: int) {
    && 0 <= n <= |t| && (n > 0 ==> m(t[..n] + [0x2026]) <= width)
    && forall k | n < k <= |t| :: m(t[..k] + [0x2026]) > width
  }

  method TruncateWithEllipsis(m: Measure, runes: Text, width: int) returns (line: Text)
    ensures line == Truncated(m, runes, width)
    ensures exists n | LongestBesideEllipsis(m, runes, width, n) :: line == runes[..n] + [0x2026]
  {
    var end := |runes|;
    while end > 0 && m(runes[..end] + ELLIPSIS) > width
      invariant 0 <= end <= |runes|
      invariant KeepWithEllipsis(m, runes, width, end) == KeepWithEllipsis(m, runes, width, |runes|)
    {
      end := end - 1;
    }
    assert LongestBesideEllipsis(m, runes, width, end);
    return runes[..end] + ELLIPSIS;
  }

  /** A negative or zero maxLines gives no lines. */
  method WrapLines(m: Measure, s: Text, width: int, maxLines: int) returns (lines: seq<Text>)
    ensures lines == Wrap(m, s, width, Max(0, maxLines))
  {
    if s == [] {
      return [];
    }
    var runes := s;
    lines := [];
    ghost var wanted, left := Wrap(m, s, width, Max(0, maxLines)), Max(0, maxLines);
    while |runes| > 0 && |lines| < maxLines
      invariant left == Max(0, maxLines) - |lines| >= 0
      invariant wanted == lines + Wrap(m, runes, width, left)
      decreases |runes|
    {
      var last := |lines| == maxLines - 1;
      var end := |runes|;
      while end > 0 && m(runes[..end]) > width
        invariant 0 <= end <= |runes|
        invariant LongestUpTo(m, runes, width, end) == LongestUpTo(m, runes, width, |runes|)
      {
        end := end - 1;
      }
      if end == 0 {
        end := 1;
      }
      assert end == Take(m, runes, width);
      if last && end < |runes| {
        var line := TruncateWithEllipsis(m, runes, width);
        lines := lines + [line];
        return;
      }
      Regroup(lines, runes[..end], Wrap(m, runes[end..], width, left - 1));
      lines := lines + [runes[..end]];
      runes := runes[end..];
      left := left - 1;
    }
  }

  lemma Regroup<T>(a: seq<T>, x: T, b: seq<T>)
    ensures a + ([x] + b) == (a + [x]) + b
  {
  }

  // -------------------------------------------------------- what the lines are

  function Concat(lines: seq<Text>): Text {
    if lines == [] then [] else lines[0] + Concat(lines[1..])
  }

  /** Wrapping had to cut the text off. */
  predicate CutsOff(m: Measure, t: Text, width: int, maxLines: nat)
    decreases maxLines
  {
    t != [] && maxLines > 0 &&
    var n := Take(m, t, width);
    if maxLines == 1 then n < |t| else CutsOff(m, t[n..], width, maxLines - 1)
  }

  lemma {:induction false} AtMostMaxLines(m: Measure, t: Text, width: int, maxLines: nat)
    ensures |Wrap(m, t, width, maxLines)| <= maxLines
    ensures t != [] && maxLines > 0 ==> |Wrap(m, t, width, maxLines)| > 0
    decreases maxLines
  {
    if t != [] && maxLines > 0 {
      AtMostMaxLines(m, t[Take(m, t, width)..], width, maxLines - 1);
    }
  }

  /** Line by line: each takes as much of what is left as fits, and only the last may end in an ellipsis. */
  lemma WrapIsGreedy(m: Measure, t: Text, width: int, maxLines: nat)
    ensures t == [] || maxLines == 0 ==> Wrap(m, t, width, maxLines) == []
    ensures t != [] && maxLines > 0 ==>
              exists n | Longest(m, t, width, n) ::
                var lines := Wrap(m, t, width, maxLines);
                if maxLines == 1 && n < |t| then
                  exists k | LongestBesideEllipsis(m, t, width, k) :: lines == [t[..k] + [0x2026]]
                else
                  lines == [t[..n]] + Wrap(m, t[n..], width, maxLines - 1)
  {
    if t != [] && maxLines > 0 {
      var n, k := Take(m, t, width), KeepWithEllipsis(m, t, width, |t|);
      assert Longest(m, t, width, n) && LongestBesideEllipsis(m, t, width, k);
    }
  }

  lemma ShiftPrefix(t: Text, n: nat, k: nat)
    requires n + k <= |t|
    ensures t[..n] + (t[n..][..k] + ELLIPSIS) == t[..n + k] + ELLIPSIS
  {
    assert t[..n] + t[n..][..k] == t[..n + k];
  }

  lemma WrapUnfolds(m: Measure, t: Text, width: int, maxLines: nat)
    requires t != [] && maxLines > 1
    ensures
      var n := Take(m, t, width);
      && Wrap(m, t, width, maxLines) == [t[..n]] + Wrap(m, t[n..], width, maxLines - 1)
      && (CutsOff(m, t, width, maxLines) <==> CutsOff(m, t[n..], width, maxLines - 1))
  {
  }

  lemma ConcatCons(first: Text, later: seq<Text>)
    ensures Concat([first] + later) == first + Concat(later)
  {
    assert ([first] + later)[1..] == later;
  }

  lemma ConcatOne(line: Text)
    ensures Concat([line]) == line
  {
    assert [line][1..] == [] && line + [] == line;
  }

  lemma LastLineSpellsTheText(m: Measure, t: Text, width: int)
    requires t != []
    ensures
      var lines := Wrap(m, t, width, 1);
      if Take(m, t, width) < |t| then
        Concat(lines) == t[..KeepWithEllipsis(m, t, width, |t|)] + ELLIPSIS
      else
        Concat(lines) == t
  {
    var n := Take(m, t, width);
    if n < |t| {
      ConcatOne(Truncated(m, t, width));
    } else {
      assert Wrap(m, t, width, 1) == [t[..n]] + [];
      ConcatOne(t);
    }
  }

  /** Uncut, the lines are exactly the text; cut, they are a prefix of it and then the ellipsis. */
  lemma {:induction false} LinesSpellTheText(m: Measure, t: Text, width: int, maxLines: nat)
    requires maxLines > 0
    ensures !CutsOff(m, t, width, maxLines) ==> Concat(Wrap(m, t, width, maxLines)) == t
    ensures CutsOff(m, t, width, maxLines) ==>
              exists n :: 0 <= n <= |t| && Concat(Wrap(m, t, width, maxLines)) == t[..n] + ELLIPSIS
    decreases maxLines
  {
    if t == [] {
    } else if maxLines == 1 {
      LastLineSpellsTheText(m, t, width);
    } else {
      var n := Take(m, t, width);
      var rest := t[n..];
      WrapUnfolds(m, t, width, maxLines);
      hide Wrap, CutsOff, Concat, Take;
      var later := Wrap(m, rest, width, maxLines - 1);
      ConcatCons(t[..n], later);
      LinesSpellTheText(m, rest, width, maxLines - 1);
      assert t[..n] + rest == t;
      if CutsOff(m, rest, width, maxLines - 1) {
        var k :| 0 <= k <= |rest| && Concat(later) == rest[..k] + ELLIPSIS;
        ShiftPrefix(t, n, k);
      }
    }
  }

  /** Every line fits, except a forced single rune, or an ellipsis alone. */
  lemma {:induction false} LinesFit(m: Measure, t: Text, width: int, maxLines: nat, i: nat)
    requires i < |Wrap(m, t, width, maxLines)|
    ensures
      var line := Wrap(m, t, width, maxLines)[i];
      Fits(m, line, width) || |line| == 1
    decreases maxLines
  {
    var n := Take(m, t, width);
    if !(maxLines == 1 && n < |t|) && i > 0 {
      LinesFit(m, t[n..], width, maxLines - 1, i - 1);
    }
  }

  // ------------------------------------------------------ greedy is the best cut

  /** t can be cut into at most k lines that fit. */
  ghost predicate CanCut(m: Measure, t: Text, width: int, k: nat)
    decreases k
  {
    t == [] || (k > 0 && exists n :: CutAt(m, t, width, k, n))
  }

  ghost predicate CutAt(m: Measure, t: Text, width: int, k: nat, n: int)
    requires k > 0
    decreases k, 0
  {
    1 <= n <= |t| && Fits(m, t[..n], width) && CanCut(m, t[n..], width, k - 1)
  }

  /** What is left of a line that fits when its first runes are dropped also fits. */
  ghost predicate Hereditary(m: Measure, width: int) {
    forall t: Text, i | 0 <= i <= |t| && Fits(m, t, width) :: Fits(m, t[i..], width)
  }

  ghost predicate RunesFit(m: Measure, t: Text, width: int) {
    forall i | 0 <= i < |t| :: Fits(m, [t[i]], width)
  }

  /** A shorter remainder never needs more lines. */
  lemma {:induction false} SuffixIsNoHarder(m: Measure, t: Text, width: int, k: nat, d: nat)
    requires Hereditary(m, width) && d <= |t| && CanCut(m, t, width, k)
    ensures CanCut(m, t[d..], width, k)
    decreases k, d
  {
    var s := t[d..];
    if t != [] && s != [] {
      var n :| CutAt(m, t, width, k, n);
      if d < n {
        // The first line loses its first d runes.
        assert t[..n][d..] == s[..n - d];
        assert s[n - d..] == t[n..];
        assert CutAt(m, s, width, k, n - d);
      } else {
        SuffixIsNoHarder(m, t[n..], width, k - 1, d - n);
        assert t[n..][d - n..] == s;
        MoreLinesIsNoHarder(m, s, width, k - 1);
      }
    }
  }

  lemma {:induction false} MoreLinesIsNoHarder(m: Measure, t: Text, width: int, k: nat)
    requires CanCut(m, t, width, k)
    ensures CanCut(m, t, width, k + 1)
    decreases k
  {
    if t != [] {
      var n :| CutAt(m, t, width, k, n);
      MoreLinesIsNoHarder(m, t[n..], width, k - 1);
      assert CutAt(m, t, width, k + 1, n);
    }
  }

  /** If any cut into k lines exists, taking the greedy first line leaves one into k - 1. */
  lemma GreedyStaysAhead(m: Measure, t: Text, width: int, k: nat)
    requires Hereditary(m, width) && t != [] && CanCut(m, t, width, k)
    ensures k > 0 && CanCut(m, t[Take(m, t, width)..], width, k - 1)
  {
    var n :| CutAt(m, t, width, k, n);
    var g := Take(m, t, width);
    assert n <= g;
    SuffixIsNoHarder(m, t[n..], width, k - 1, g - n);
    assert t[n..][g - n..] == t[g..];
  }

  /**
   Main result: where the rest of a fitting line fits and every single rune fits, the
   ellipsis appears exactly when no cut into maxLines fitting lines exists.
   */
  lemma {:induction false} EllipsisOnlyIfNeeded(m: Measure, t: Text, width: int, maxLines: nat)
    requires Hereditary(m, width) && RunesFit(m, t, width) && maxLines > 0
    ensures CutsOff(m, t, width, maxLines) <==> !CanCut(m, t, width, maxLines)
    decreases maxLines
  {
    if t != [] {
      var n := Take(m, t, width);
      assert Fits(m, t[..n], width) by {
        assert n == 1 ==> t[..n] == [t[0]];
      }
      if maxLines > 1 {
        EllipsisOnlyIfNeeded(m, t[n..], width, maxLines - 1);
      }
      if CanCut(m, t, width, maxLines) {
        GreedyStaysAhead(m, t, width, maxLines);
      }
      if CanCut(m, t[n..], width, maxLines - 1) {
        assert CutAt(m, t, width, maxLines, n);
      }
    }
  }

  /** One half holds of every measure: text that is not cut off could be cut into fitting lines. */
  lemma {:induction false} UncutMeansCanCut(m: Measure, t: Text, width: int, maxLines: nat)
    requires RunesFit(m, t, width) && maxLines > 0 && !CutsOff(m, t, width, maxLines)
    ensures CanCut(m, t, width, maxLines)
    decreases maxLines
  {
    if t != [] {
      var n := Take(m, t, width);
      assert n == 1 ==> t[..n] == [t[0]];
      if maxLines > 1 {
        UncutMeansCanCut(m, t[n..], width, maxLines - 1);
      }
      assert CutAt(m, t, width, maxLines, n);
    }
  }

  /** And then no cut into fitting lines uses fewer lines than greedy wrapping. */
  lemma {:induction false} GreedyUsesFewestLines(m: Measure, t: Text, width: int, maxLines: nat, k: nat)
    requires Hereditary(m, width) && CanCut(m, t, width, k) && k <= maxLines
    ensures |Wrap(m, t, width, maxLines)| <= k
    ensures Concat(Wrap(m, t, width, maxLines)) == t
    decreases maxLines
  {
    if t != [] {
      var n := Take(m, t, width);
      GreedyStaysAhead(m, t, width, k);
      GreedyUsesFewestLines(m, t[n..], width, maxLines - 1, k - 1);
      if maxLines == 1 {
        assert t[n..] == [];
      }
      var later := Wrap(m, t[n..], width, maxLines - 1);
      assert Wrap(m, t, width, maxLines) == [t[..n]] + later;
      assert ([t[..n]] + later)[1..] == later;
      assert t == t[..n] + t[n..];
    }
  }

  // --------------------------------------------------------- advances and kerning

  /** What a face measures text by: each rune's advance, and the kerning of each pair of neighbours. */
  datatype Face = Face(adv: Rune -> int, kern: (Rune, Rune) -> int) {
    function Measured(t: Text): int {
      if t == [] then 0
      else if |t| == 1 then adv(t[0])
      else adv(t[0]) + kern(t[0], t[1]) + Measured(t[1..])
    }

    /** No rune takes back more room than it takes. */
    ghost predicate Sound() {
      && (forall a :: adv(a) >= 0)
      && (forall a, b :: adv(a) + kern(a, b) >= 0)
    }
  }

  lemma DropFirst(f: Face, t: Text)
    requires f.Sound() && t != []
    ensures f.Measured(t[1..]) <= f.Measured(t)
  {
    if |t| > 1 {
      assert f.adv(t[0]) + f.kern(t[0], t[1]) >= 0;
    } else {
      assert f.adv(t[0]) >= 0;
    }
  }

  lemma {:induction false} DropMany(f: Face, t: Text, i: nat)
    requires f.Sound() && i <= |t|
    ensures f.Measured(t[i..]) <= f.Measured(t)
    decreases i
  {
    if i == 0 {
      assert t[0..] == t;
    } else {
      DropFirst(f, t);
      DropMany(f, t[1..], i - 1);
      assert t[1..][i - 1..] == t[i..];
    }
  }

  /** The rest of a fitting line fits, whatever the width. */
  ghost predicate AlwaysHereditary(f: Face) {
    forall width :: Hereditary(f.Measured, width)
  }

  lemma SoundIsHereditary(f: Face)
    requires f.Sound()
    ensures AlwaysHereditary(f)
  {
    forall width ensures Hereditary(f.Measured, width) {
      forall t: Text, i | 0 <= i <= |t| && Fits(f.Measured, t, width) ensures Fits(f.Measured, t[i..], width) {
        DropMany(f, t, i);
      }
    }
  }

  lemma HereditaryIsSound(f: Face)
    requires AlwaysHereditary(f)
    ensures f.Sound()
  {
    forall a ensures f.adv(a) >= 0 {
      OneRune(f, a);
    }
    forall a, b ensures f.adv(a) + f.kern(a, b) >= 0 {
      TwoRunes(f, a, b);
    }
  }

  /** Main result: that is so exactly when no kern takes back more than the advance before it. */
  lemma FaceIsHereditaryIff(f: Face)
    ensures AlwaysHereditary(f) <==> f.Sound()
  {
    if f.Sound() {
      SoundIsHereditary(f);
    }
    if AlwaysHereditary(f) {
      HereditaryIsSound(f);
    }
  }

  lemma OneRune(f: Face, a: Rune)
    requires AlwaysHereditary(f)
    ensures f.adv(a) >= 0
  {
    DropOfFitting(f, [a]);
    assert f.Measured([a][1..]) == 0 && f.Measured([a]) == f.adv(a);
  }

  lemma TwoRunes(f: Face, a: Rune, b: Rune)
    requires AlwaysHereditary(f)
    ensures f.adv(a) + f.kern(a, b) >= 0
  {
    DropOfFitting(f, [a, b]);
    assert [a, b][1..] == [b] && f.Measured([a, b]) == f.adv(a) + f.kern(a, b) + f.Measured([b]);
  }

  lemma DropOfFitting(f: Face, t: Text)
    requires t != [] && AlwaysHereditary(f)
    ensures f.Measured(t[1..]) <= f.Measured(t)
  {
    var width := f.Measured(t);
    assert Hereditary(f.Measured, width) && Fits(f.Measured, t, width);
  }

  /** So with such a face greedy wrapping is the best cut, and cuts text off only when every cut does. */
  lemma FaceWrapsBest(f: Face, t: Text, width: int, maxLines: nat, k: nat)
    requires f.Sound() && RunesFit(f.Measured, t, width) && maxLines > 0
    ensures CutsOff(f.Measured, t, width, maxLines) <==> !CanCut(f.Measured, t, width, maxLines)
    ensures CanCut(f.Measured, t, width, k) && k <= maxLines ==>
              |Wrap(f.Measured, t, width, maxLines)| <= k && Concat(Wrap(f.Measured, t, width, maxLines)) == t
  {
    SoundIsHereditary(f);
    EllipsisOnlyIfNeeded(f.Measured, t, width, maxLines);
    if CanCut(f.Measured, t, width, k) && k <= maxLines {
      GreedyUsesFewestLines(f.Measured, t, width, maxLines, k);
    }
  }

  /** Four runes with advances 5, 1, 3, 4; the second and third are kerned by more than the second's advance. */
  const TIGHT := Face((a: Rune) => if a == 0 then 5 else if a == 1 then 1 else if a == 2 then 3 else 4,
                      (a: Rune, b: Rune) => if a == 1 && b == 2 then -2 else 0)

  lemma TightMeasures()
    ensures TIGHT.Measured([0]) == 5 && TIGHT.Measured([1]) == 1 && TIGHT.Measured([2]) == 3 && TIGHT.Measured([3]) == 4
    ensures TIGHT.Measured([0, 1]) == 6 && TIGHT.Measured([2, 3]) == 7
    ensures TIGHT.Measured([1, 2, 3]) == 6 && TIGHT.Measured([0, 1, 2]) == 7 && TIGHT.Measured([0, 1, 2, 3]) == 11
  {
    assert [0, 1][1..] == [1] && [2, 3][1..] == [3] && [1, 2][1..] == [2];
    assert [1, 2, 3][1..] == [2, 3] && [0, 1, 2][1..] == [1, 2] && [0, 1, 2, 3][1..] == [1, 2, 3];
    assert TIGHT.Measured([1, 2]) == 2;
  }

  /** Such kerning is needed: with that face 0123 is cut off at width 6 though 0 and 123 fit on two lines. */
  lemma KerningDefeatsGreedy()
    ensures !TIGHT.Sound() && RunesFit(TIGHT.Measured, [0, 1, 2, 3], 6)
    ensures CutsOff(TIGHT.Measured, [0, 1, 2, 3], 6, 2) && CanCut(TIGHT.Measured, [0, 1, 2, 3], 6, 2)
  {
    var t: Text, m := [0, 1, 2, 3], TIGHT.Measured;
    TightMeasures();
    assert TIGHT.adv(1) + TIGHT.kern(1, 2) < 0;
    assert t[..1] == [0] && t[..2] == [0, 1] && t[..3] == [0, 1, 2] && t[..4] == t;
    assert Fits(m, t[..2], 6) && !Fits(m, t[..3], 6) && !Fits(m, t[..4], 6);
    assert Take(m, t, 6) == 2;
    var rest := t[2..];
    assert rest == [2, 3] && rest[..2] == rest && !Fits(m, rest[..2], 6);
    assert Take(m, rest, 6) == 1;
    assert t[1..] == [1, 2, 3] && t[1..][..3] == [1, 2, 3] && t[1..][3..] == [];
    assert CanCut(m, t[1..][3..], 6, 0);
    assert CutAt(m, t[1..], 6, 1, 3);
    assert CutAt(m, t, 6, 2, 1);
  }

  // ------------------------------------------------------------- fitting a title

  const STEP := 4

  /** None is a face that could not be built. */
  type FaceWidth = int -> Option<int>

  /** The sizes tried are maxSize, maxSize - 4, ... while above minSize. */
  ghost predicate Tried(size: int, maxSize: int, minSize: int) {
    minSize < size <= maxSize && (maxSize - size) % STEP == 0
  }

  /**
   The largest tried size at which the text fits, else minSize, which is never
   measured; an error is the first face that cannot be built before one fits.
   */
  method FitSize(width: FaceWidth, maxSize: int, minSize: int, maxWidth: int) returns (r: Option<int>)
    ensures r.Some? ==>
              && (r.value == minSize
                  || (Tried(r.value, maxSize, minSize) && width(r.value).Some? && width(r.value).value <= maxWidth))
              && forall s | Tried(s, maxSize, minSize) && s > r.value :: width(s).Some? && width(s).value > maxWidth
    ensures r.None? ==>
              exists s :: Tried(s, maxSize, minSize) && width(s).None?
                          && forall u | Tried(u, maxSize, minSize) && u > s ::
                               width(u).Some? && width(u).value > maxWidth
  {
    var size := maxSize;
    while size > minSize
      invariant size <= maxSize && (maxSize - size) % STEP == 0
      invariant forall s | Tried(s, maxSize, minSize) && s > size :: width(s).Some? && width(s).value > maxWidth
      decreases size - minSize
    {
      var face := width(size);
      if face.None? {
        assert Tried(size, maxSize, minSize);
        return None;
      }
      if face.value <= maxWidth {
        return Some(size);
      }
      size := size - STEP;
    }
    return Some(minSize);
  }
}
