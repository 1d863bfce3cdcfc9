/** Concrete ranges rendered with versions written as their own text and
    string equality as version equality. */
module RangeFormExamples {
  import opened Wrappers
  import opened RangeForms

  function Plain(): Collaborators<string, string>
  {
    Collaborators(v => v, f => f, (a, b) => a == b)
  }

  /** `[1.0.0, 2.0.0)` under `N`, `P` and `A`. */
  lemma HalfOpenRange()
    ensures var r: VersionRange<string, string> := RangeFields(Some("1.0.0"), Some("2.0.0"), true, false, false, None);
            NormalizedForm(Plain(), r) == "[1.0.0, 2.0.0)"
            && PrettyForm(Plain(), r) == "(>= 1.0.0 && < 2.0.0)"
            && ShortForm(Plain(), r) == "[1.0.0, 2.0.0)"
  {
    var r: VersionRange<string, string> := RangeFields(Some("1.0.0"), Some("2.0.0"), true, false, false, None);
    var lower, upper := BoundClause(Plain(), "1.0.0", true, ">"), BoundClause(Plain(), "2.0.0", false, "<");
    assert lower == ">= 1.0.0";
    assert upper == "< 2.0.0";
    assert PrettyClauses(Plain(), r) == [lower, upper];
    assert Join([lower, upper], " && ") == lower + " && " + upper;
  }

  /** `[1.0.0, )` under `A`, `S`, `T` and `P`. */
  lemma AtLeastRange()
    ensures var r: VersionRange<string, string> := RangeFields(Some("1.0.0"), None, true, false, false, None);
            ShortForm(Plain(), r) == "1.0.0" && ToStringForm(Plain(), r) == "1.0.0"
            && LegacyShortForm(Plain(), r) == "1.0.0" && PrettyForm(Plain(), r) == "(>= 1.0.0)"
  {
  }

  /** `[1.0.0, 1.0.0]` under `A` and `P`. */
  lemma PinnedRange()
    ensures var r: VersionRange<string, string> := RangeFields(Some("1.0.0"), Some("1.0.0"), true, true, false, None);
            ShortForm(Plain(), r) == "[1.0.0]" && PrettyForm(Plain(), r) == "(= 1.0.0)"
  {
  }

  /** A floating "at least" range: `A` writes the floating text, `S` the version. */
  lemma FloatingAtLeastRange()
    ensures var r: VersionRange<string, string> := RangeFields(Some("1.0.0"), None, true, false, true, Some("1.*"));
            ShortForm(Plain(), r) == "1.*" && ToStringForm(Plain(), r) == "1.0.0"
            && NormalizedForm(Plain(), r) == "[1.*, )" && LegacyForm(Plain(), r) == "[1.0.0, )"
  {
  }

  /** The unbounded range `(, )`, and a format string mixing specifiers and literals. */
  lemma UnboundedRangeAndFormatString()
    ensures var r: VersionRange<string, string> := RangeFields(None, None, false, false, false, None);
            NormalizedForm(Plain(), r) == "(, )" && PrettyForm(Plain(), r) == ""
            && Render(Plain(), r, 'X') == None && RenderAll(Plain(), r, "XNP") == "X(, )"
  {
  }

  /** A format made of one character outside the Basic Multilingual Plane is two
      UTF-16 code units long, so it is rendered as a longer format and comes back
      as itself, not as null. */
  lemma AstralCharacterFormat()
    ensures var r: VersionRange<string, string> := RangeFields(None, None, false, false, false, None);
            Utf16Length("\U{1F600}") == 2 && RenderAll(Plain(), r, "\U{1F600}") == "\U{1F600}"
  {
  }
}
