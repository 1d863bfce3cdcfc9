/** What the text forms of module RangeForms promise, proved for every range and
    every choice of collaborators. */
module RangeFormProperties {
  import opened Wrappers
  import opened RangeForms

  // ---------------------------------------------------------------------------
  // Format strings

  /** Exactly the eight specifiers P, L, U, S, N, D, T and A have a render;
      every other character has none. */
  lemma RenderDefinedIffSpecifier<V, F>(c: Collaborators<V, F>, r: VersionRange<V, F>, ch: char)
    ensures Render(c, r, ch).Some? <==> ch in "PLUSNDTA"
  {
  }

  /** A format string without any specifier is copied literally. */
  lemma {:induction false} RenderAllCopiesNonSpecifiers<V, F>(c: Collaborators<V, F>, r: VersionRange<V, F>, format: string)
    requires forall i :: 0 <= i < |format| ==> format[i] !in "PLUSNDTA"
    ensures RenderAll(c, r, format) == format
  {
    if format != [] {
      RenderDefinedIffSpecifier(c, r, format[0]);
      RenderAllCopiesNonSpecifiers(c, r, format[1..]);
      assert format == [format[0]] + format[1..];
    }
  }

  /** A character that is not a specifier has no render of its own, yet
      inside a longer format string it stands for itself. */
  lemma NonSpecifierAloneVersusInFormat<V, F>(c: Collaborators<V, F>, r: VersionRange<V, F>, ch: char, format: string)
    requires ch !in "PLUSNDTA"
    ensures Render(c, r, ch) == None
    ensures RenderAll(c, r, format + [ch]) == RenderAll(c, r, format) + [ch]
  {
    RenderAllSnoc(c, r, format, ch);
  }

  // ---------------------------------------------------------------------------
  // L and U

  /** `L` and `U` give the bound's version text or the empty string, and
      neither inclusivity nor floating changes them. */
  lemma BoundTextsIgnoreInclusivityAndFloating<V, F>(
    c: Collaborators<V, F>, r: VersionRange<V, F>,
    minInclusive: bool, maxInclusive: bool, floating: bool, float: Option<F>)
    requires floating ==> float.Some?
    ensures Render(c, r, 'L') == Some(if r.minVersion.Some? then c.versionText(r.minVersion.value) else "")
    ensures Render(c, r, 'U') == Some(if r.maxVersion.Some? then c.versionText(r.maxVersion.value) else "")
    ensures var r' := r.(isMinInclusive := minInclusive, isMaxInclusive := maxInclusive,
                         isFloating := floating, float := float);
            Render(c, r', 'L') == Render(c, r, 'L') && Render(c, r', 'U') == Render(c, r, 'U')
  {
  }

  // ---------------------------------------------------------------------------
  // N and D: the bracket forms

  /** The parts of interval notation can be read back from its text. */
  lemma IntervalParts(open: char, lower: string, upper: string, close: char)
    ensures var s := Interval(open, lower, upper, close);
            |s| == |lower| + |upper| + 4 && s[0] == open && s[|s| - 1] == close
            && s[1..|s| - 1] == lower + ", " + upper
  {
    var s := Interval(open, lower, upper, close);
    assert s[1..|s| - 1] == lower + ", " + upper;
  }

  /** `N` is bracket, lower text, ", ", upper text, bracket; it opens with `[`
      exactly when there is an inclusive lower bound and closes with `]`
      exactly when there is an inclusive upper bound. */
  lemma NormalizedBracketShape<V, F>(c: Collaborators<V, F>, r: VersionRange<V, F>)
    ensures var s := NormalizedForm(c, r);
            |s| >= 4 && s[0] in "[(" && s[|s| - 1] in "])"
            && (s[0] == '[' <==> r.HasLowerBound() && r.isMinInclusive)
            && (s[|s| - 1] == ']' <==> r.HasUpperBound() && r.isMaxInclusive)
            && s[1..|s| - 1] == FloatAwareLowerText(c, r) + ", " + UpperText(c, r)
  {
    IntervalParts(OpenBracket(r), FloatAwareLowerText(c, r), UpperText(c, r), CloseBracket(r));
  }

  /** `D` has the same bracket shape as `N`, with the plain `L` and `U` texts inside. */
  lemma LegacyBracketShape<V, F>(c: Collaborators<V, F>, r: VersionRange<V, F>)
    ensures var s := LegacyForm(c, r);
            |s| >= 4 && s[0] in "[(" && s[|s| - 1] in "])"
            && (s[0] == '[' <==> r.HasLowerBound() && r.isMinInclusive)
            && (s[|s| - 1] == ']' <==> r.HasUpperBound() && r.isMaxInclusive)
            && s[1..|s| - 1] == LowerText(c, r) + ", " + UpperText(c, r)
  {
    IntervalParts(OpenBracket(r), LowerText(c, r), UpperText(c, r), CloseBracket(r));
  }

  /** A range without bounds renders as `(, )` in both bracket forms. */
  lemma UnboundedBracketForms<V, F>(c: Collaborators<V, F>, r: VersionRange<V, F>)
    requires !r.HasLowerBound() && !r.HasUpperBound()
    ensures NormalizedForm(c, r) == "(, )" && LegacyForm(c, r) == "(, )"
  {
  }

  /** `D` and `N` agree on every range whose lower bound is not floating. */
  lemma LegacyIsNormalizedWithoutFloating<V, F>(c: Collaborators<V, F>, r: VersionRange<V, F>)
    requires !(r.HasLowerBound() && r.isFloating)
    ensures LegacyForm(c, r) == NormalizedForm(c, r)
  {
  }

  /** On a floating lower bound, `N` writes the floating text where `D` writes
      the minimum version's text, and the two are equal everywhere else. */
  lemma FloatingNormalizedVersusLegacy<V, F>(c: Collaborators<V, F>, r: VersionRange<V, F>)
    requires r.HasLowerBound() && r.isFloating
    ensures var d := LegacyForm(c, r);
            var skip := 1 + |c.versionText(r.minVersion.value)|;
            skip <= |d|
            && d[..skip] == [OpenBracket(r)] + c.versionText(r.minVersion.value)
            && NormalizedForm(c, r) == [OpenBracket(r)] + c.floatText(r.float.value) + d[skip..]
  {
    var v := c.versionText(r.minVersion.value);
    var tail := ", " + UpperText(c, r) + [CloseBracket(r)];
    var d := LegacyForm(c, r);
    assert d == [OpenBracket(r)] + v + tail;
    assert d[..1 + |v|] == [OpenBracket(r)] + v;
    assert d[1 + |v|..] == tail;
  }

  // ---------------------------------------------------------------------------
  // A, S and T: the shorthand forms

  /** An "at least" range renders as its minimum version under `S` and `T`,
      and under `A` as the floating text when floating, else the minimum version. */
  lemma AtLeastShorthand<V, F>(c: Collaborators<V, F>, r: VersionRange<V, F>)
    requires r.HasLowerBound() && r.isMinInclusive && !r.HasUpperBound()
    ensures ToStringForm(c, r) == c.versionText(r.minVersion.value)
    ensures LegacyShortForm(c, r) == c.versionText(r.minVersion.value)
    ensures ShortForm(c, r)
            == if r.isFloating then c.floatText(r.float.value) else c.versionText(r.minVersion.value)
  {
  }

  /** When both bounds are inclusive and the minimum equals the maximum, `A`,
      `S` and `T` all give the minimum version in brackets, floating or not. */
  lemma ExactlyShorthand<V, F>(c: Collaborators<V, F>, r: VersionRange<V, F>)
    requires r.HasLowerAndUpperBounds() && r.isMinInclusive && r.isMaxInclusive
    requires c.versionEquals(r.minVersion.value, r.maxVersion.value)
    ensures ShortForm(c, r) == "[" + c.versionText(r.minVersion.value) + "]"
    ensures ToStringForm(c, r) == ShortForm(c, r) && LegacyShortForm(c, r) == ShortForm(c, r)
  {
  }

  /** Outside those two shapes `A` and `S` are `N`, and `T` is `D`. */
  lemma ShorthandFallbacks<V, F>(c: Collaborators<V, F>, r: VersionRange<V, F>)
    requires !IsAtLeast(r) && !IsExactly(c, r)
    ensures ShortForm(c, r) == NormalizedForm(c, r)
    ensures ToStringForm(c, r) == NormalizedForm(c, r)
    ensures LegacyShortForm(c, r) == LegacyForm(c, r)
  {
  }

  /** `A` and `S` differ at most on a floating "at least" range. */
  lemma ShortVersusToString<V, F>(c: Collaborators<V, F>, r: VersionRange<V, F>)
    ensures ShortForm(c, r) != ToStringForm(c, r) ==> IsAtLeast(r) && r.isFloating
  {
  }

  /** `S` and `T` agree on every range whose lower bound is not floating. */
  lemma ToStringIsLegacyShortWithoutFloating<V, F>(c: Collaborators<V, F>, r: VersionRange<V, F>)
    requires !(r.HasLowerBound() && r.isFloating)
    ensures ToStringForm(c, r) == LegacyShortForm(c, r)
  {
    LegacyIsNormalizedWithoutFloating(c, r);
  }

  /** Every shorthand is either the bracket form it falls back to, a bare
      version or floating text, or a single bracketed version. */
  lemma ShorthandCases<V, F>(c: Collaborators<V, F>, r: VersionRange<V, F>)
    ensures ShortForm(c, r) == NormalizedForm(c, r)
            || (IsAtLeast(r) && ShortForm(c, r) == FloatAwareLowerText(c, r))
            || (IsExactly(c, r) && ShortForm(c, r) == PinnedText(c, r.minVersion.value))
    ensures LegacyShortForm(c, r) == LegacyForm(c, r)
            || (IsAtLeast(r) && LegacyShortForm(c, r) == LowerText(c, r))
            || (IsExactly(c, r) && LegacyShortForm(c, r) == PinnedText(c, r.minVersion.value))
  {
  }

  // ---------------------------------------------------------------------------
  // P: the pretty form

  /** The pretty form is empty exactly when the range has no bounds. */
  lemma PrettyEmptyIffUnbounded<V, F>(c: Collaborators<V, F>, r: VersionRange<V, F>)
    ensures PrettyForm(c, r) == "" <==> !r.HasLowerBound() && !r.HasUpperBound()
  {
  }

  /** A pinned range (inclusive on both sides, maximum equal to minimum) is `(= v)`. */
  lemma PrettyPinned<V, F>(c: Collaborators<V, F>, r: VersionRange<V, F>)
    requires r.HasLowerAndUpperBounds() && r.isMinInclusive && r.isMaxInclusive
    requires c.versionEquals(r.maxVersion.value, r.minVersion.value)
    ensures PrettyForm(c, r) == "(= " + c.versionText(r.minVersion.value) + ")"
  {
  }

  /** Any other bounded range is `(`, the lower comparison if there is a lower
      bound, ` && ` only when both bounds exist, the upper comparison if there
      is an upper bound, and `)`. */
  lemma PrettyLayout<V, F>(c: Collaborators<V, F>, r: VersionRange<V, F>)
    requires r.HasLowerBound() || r.HasUpperBound()
    requires !IsPinned(c, r)
    ensures PrettyForm(c, r)
            == "("
               + (if r.HasLowerBound() then ">" + (if r.isMinInclusive then "=" else "") + " "
                                            + c.versionText(r.minVersion.value) else "")
               + (if r.HasLowerAndUpperBounds() then " && " else "")
               + (if r.HasUpperBound() then "<" + (if r.isMaxInclusive then "=" else "") + " "
                                            + c.versionText(r.maxVersion.value) else "")
               + ")"
  {
    var clauses := PrettyClauses(c, r);
    if r.HasLowerAndUpperBounds() {
      assert |clauses| == 2;
      assert Join(clauses[1..], " && ") == clauses[1];
    }
  }

  /** The pretty form ignores floating. */
  lemma PrettyIgnoresFloating<V, F>(c: Collaborators<V, F>, r: VersionRange<V, F>, floating: bool, float: Option<F>)
    requires floating ==> float.Some?
    ensures PrettyForm(c, r.(isFloating := floating, float := float)) == PrettyForm(c, r)
  {
  }

  /** With a symmetric equality, the pretty form's single-version case and the
      shorthands' "exactly" case pick out the same ranges. */
  lemma PinnedIffExactlyWhenEqualsSymmetric<V, F>(c: Collaborators<V, F>, r: VersionRange<V, F>)
    requires r.HasLowerAndUpperBounds()
    requires c.versionEquals(r.minVersion.value, r.maxVersion.value)
             == c.versionEquals(r.maxVersion.value, r.minVersion.value)
    ensures IsPinned(c, r) <==> IsExactly(c, r)
    ensures IsExactly(c, r) ==>
              PrettyForm(c, r) == "(= " + c.versionText(r.minVersion.value) + ")"
              && ShortForm(c, r) == "[" + c.versionText(r.minVersion.value) + "]"
  {
  }
}
