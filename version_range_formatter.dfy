/** The formatter itself: `Format(string, object, IFormatProvider)` with its loop
    over the format string, the per-specifier dispatch, and the builders that
    append to a StringBuilder step by step. Each method is proved to produce the
    text that module RangeForms specifies. */
module VersionRangeFormatter {
  import opened Wrappers
  import opened Text
  import opened RangeForms

  /** The `object arg` handed to `Format`: null, a VersionRange, or anything else. */
  datatype FormatArg<V, F> = NullArg | RangeArg(range: VersionRange<V, F>) | OtherArg

  /** What `Format` does: throw ArgumentNullException, or return a string that may be null. */
  datatype FormatOutcome = ArgumentNullException | Returned(text: Option<string>)

  /** `Format(string format, object arg, IFormatProvider)`; a null format string is None.
      `format.Length` counts UTF-16 code units, so a single character outside the
      Basic Multilingual Plane is a two-unit format and goes through the loop. */
  method Format<V, F>(c: Collaborators<V, F>, format: Option<string>, arg: FormatArg<V, F>)
    returns (result: FormatOutcome)
    ensures result == ArgumentNullException <==> arg.NullArg?
    ensures !arg.NullArg? && (format.None? || format.value == "" || arg.OtherArg?) ==>
              result == Returned(None)
    ensures arg.RangeArg? && format.Some? && Utf16Length(format.value) == 1 ==>
              |format.value| == 1 && result == Returned(Render(c, arg.range, format.value[0]))
    ensures arg.RangeArg? && format.Some? && Utf16Length(format.value) >= 2 ==>
              result == Returned(Some(RenderAll(c, arg.range, format.value)))
  {
    if arg.NullArg? {
      return ArgumentNullException;
    }
    var formatted: Option<string> := None;
    if format.Some? && format.value != "" {
      if arg.RangeArg? {
        var fmt, range := format.value, arg.range;
        Utf16LengthBounds(fmt);
        if Utf16Length(fmt) == 1 {
          formatted := FormatSpecifier(c, fmt[0], range);
        } else {
          // The loop steps over characters where .NET steps over code units. A
          // surrogate pair is no specifier and its two halves are appended one
          // after the other, which appends the character they encode.
          var sb := new StringBuilder("");
          var i := 0;
          while i < |fmt|
            invariant 0 <= i <= |fmt|
            invariant sb.contents == RenderAll(c, range, fmt[..i])
          {
            var s := FormatSpecifier(c, fmt[i], range);
            if s.None? {
              sb.AppendChar(fmt[i]);
            } else {
              sb.Append(s.value);
            }
            RenderAllSnoc(c, range, fmt[..i], fmt[i]);
            assert fmt[..i + 1] == fmt[..i] + [fmt[i]];
            i := i + 1;
          }
          assert fmt[..i] == fmt;
          formatted := Some(sb.ToString());
        }
      }
    }
    return Returned(formatted);
  }

  /** `Format(char, VersionRange)`: the text of one specifier, None for any
      other character. */
  method FormatSpecifier<V, F>(c: Collaborators<V, F>, specifier: char, range: VersionRange<V, F>)
    returns (s: Option<string>)
    ensures s.Some? <==> specifier in "PLUSNDTA"
    ensures s == Render(c, range, specifier)
  {
    s := None;
    match specifier {
      case 'P' =>
        var t := PrettyPrint(c, range);
        s := Some(t);
      case 'L' =>
        s := Some(if range.HasLowerBound() then c.versionText(range.minVersion.value) else "");
      case 'U' =>
        s := Some(if range.HasUpperBound() then c.versionText(range.maxVersion.value) else "");
      case 'S' =>
        var t := GetToString(c, range);
        s := Some(t);
      case 'N' =>
        var t := GetNormalizedString(c, range);
        s := Some(t);
      case 'D' =>
        var t := GetLegacyString(c, range);
        s := Some(t);
      case 'T' =>
        var t := GetLegacyShortString(c, range);
        s := Some(t);
      case 'A' =>
        var t := GetShortString(c, range);
        s := Some(t);
      case _ =>
    }
  }

  /** Specifier `A`. */
  method GetShortString<V, F>(c: Collaborators<V, F>, range: VersionRange<V, F>) returns (s: string)
    ensures s == ShortForm(c, range)
  {
    if range.HasLowerBound() && range.isMinInclusive && !range.HasUpperBound() {
      s := if range.isFloating then c.floatText(range.float.value) else c.versionText(range.minVersion.value);
    } else if range.HasLowerAndUpperBounds() && range.isMinInclusive && range.isMaxInclusive
              && c.versionEquals(range.minVersion.value, range.maxVersion.value) {
      s := "[" + c.versionText(range.minVersion.value) + "]";
    } else {
      s := GetNormalizedString(c, range);
    }
  }

  /** Specifier `N`: bracket notation with no shorthand. */
  method GetNormalizedString<V, F>(c: Collaborators<V, F>, range: VersionRange<V, F>) returns (s: string)
    ensures s == NormalizedForm(c, range)
  {
    var sb := new StringBuilder("");
    sb.AppendChar(if range.HasLowerBound() && range.isMinInclusive then '[' else '(');
    if range.HasLowerBound() {
      if range.isFloating {
        sb.Append(c.floatText(range.float.value));
      } else {
        sb.Append(c.versionText(range.minVersion.value));
      }
    }
    sb.Append(", ");
    if range.HasUpperBound() {
      sb.Append(c.versionText(range.maxVersion.value));
    }
    sb.AppendChar(if range.HasUpperBound() && range.isMaxInclusive then ']' else ')');
    s := sb.ToString();
  }

  /** Specifier `S`: shorthand where it applies, else `N`. */
  method GetToString<V, F>(c: Collaborators<V, F>, range: VersionRange<V, F>) returns (s: string)
    ensures s == ToStringForm(c, range)
  {
    if range.HasLowerBound() && range.isMinInclusive && !range.HasUpperBound() {
      s := c.versionText(range.minVersion.value);
    } else if range.HasLowerAndUpperBounds() && range.isMinInclusive && range.isMaxInclusive
              && c.versionEquals(range.minVersion.value, range.maxVersion.value) {
      s := "[" + c.versionText(range.minVersion.value) + "]";
    } else {
      s := GetNormalizedString(c, range);
    }
  }

  /** Specifier `T`: shorthand where it applies, else `D`. */
  method GetLegacyShortString<V, F>(c: Collaborators<V, F>, range: VersionRange<V, F>) returns (s: string)
    ensures s == LegacyShortForm(c, range)
  {
    if range.HasLowerBound() && range.isMinInclusive && !range.HasUpperBound() {
      s := c.versionText(range.minVersion.value);
    } else if range.HasLowerAndUpperBounds() && range.isMinInclusive && range.isMaxInclusive
              && c.versionEquals(range.minVersion.value, range.maxVersion.value) {
      s := "[" + c.versionText(range.minVersion.value) + "]";
    } else {
      s := GetLegacyString(c, range);
    }
  }

  /** Specifier `D`: bracket notation as NuGet 2.8.3 wrote it. */
  method GetLegacyString<V, F>(c: Collaborators<V, F>, range: VersionRange<V, F>) returns (s: string)
    ensures s == LegacyForm(c, range)
  {
    var sb := new StringBuilder("");
    sb.AppendChar(if range.HasLowerBound() && range.isMinInclusive then '[' else '(');
    if range.HasLowerBound() {
      sb.Append(c.versionText(range.minVersion.value));
    }
    sb.Append(", ");
    if range.HasUpperBound() {
      sb.Append(c.versionText(range.maxVersion.value));
    }
    sb.AppendChar(if range.HasUpperBound() && range.isMaxInclusive then ']' else ')');
    s := sb.ToString();
  }

  /** Specifier `P`: the comparisons joined by ` && ` in parentheses. */
  method PrettyPrint<V, F>(c: Collaborators<V, F>, range: VersionRange<V, F>) returns (s: string)
    ensures s == PrettyForm(c, range)
  {
    if !range.HasLowerBound() && !range.HasUpperBound() {
      return "";
    }
    if range.HasLowerAndUpperBounds() && c.versionEquals(range.maxVersion.value, range.minVersion.value)
       && range.isMinInclusive && range.isMaxInclusive {
      return "(= " + c.versionText(range.minVersion.value) + ")";
    }
    var sb := new StringBuilder("(");
    if range.HasLowerBound() {
      PrettyPrintBound(c, sb, range.minVersion.value, range.isMinInclusive, ">");
    }
    if range.HasLowerAndUpperBounds() {
      sb.Append(" && ");
    }
    if range.HasUpperBound() {
      PrettyPrintBound(c, sb, range.maxVersion.value, range.isMaxInclusive, "<");
    }
    sb.Append(")");
    s := sb.ToString();
    var clauses := PrettyClauses(c, range);
    if range.HasLowerAndUpperBounds() {
      assert Join(clauses[1..], " && ") == clauses[1];
    }
  }

  /** Appends one comparison of the pretty form to `sb`. */
  method PrettyPrintBound<V, F>(c: Collaborators<V, F>, sb: StringBuilder, version: V, inclusive: bool, boundChar: string)
    modifies sb
    ensures sb.contents == old(sb.contents) + BoundClause(c, version, inclusive, boundChar)
  {
    sb.Append(boundChar);
    if inclusive {
      sb.Append("=");
    }
    sb.Append(" ");
    sb.Append(c.versionText(version));
  }
}
