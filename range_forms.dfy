/** The version range as the formatter reads it, and the text of each format
    specifier stated as a function of the range. These functions are the
    specification the builder methods of module VersionRangeFormatter are
    proved against. */
module RangeForms {
  import opened Wrappers

  /** What the formatter takes from code outside it: the normalized ("N")
      rendering of one version, the text of a floating range, and version
      equality, called as `receiver.Equals(argument)`. */
  datatype Collaborators<!V, !F> = Collaborators(
    versionText: V -> string,
    floatText: F -> string,
    versionEquals: (V, V) -> bool)

  /** The fields of a version range that the formatter reads. */
  datatype RangeFields<V, F> = RangeFields(
    minVersion: Option<V>,
    maxVersion: Option<V>,
    isMinInclusive: bool,
    isMaxInclusive: bool,
    isFloating: bool,
    float: Option<F>)
  {
    predicate HasLowerBound() { minVersion.Some? }

    predicate HasUpperBound() { maxVersion.Some? }

    predicate HasLowerAndUpperBounds() { HasLowerBound() && HasUpperBound() }

    /** A floating range carries its floating value. */
    predicate FloatIsSet() { isFloating ==> float.Some? }
  }

  /** A range as its producer hands it over: the formatter dereferences
      `Float` whenever `IsFloating` holds. */
  type VersionRange<V, F> = r: RangeFields<V, F> | r.FloatIsSet()
    witness RangeFields(None, None, false, false, false, None)

  /** "At least" shape: an inclusive lower bound and no upper bound. */
  predicate IsAtLeast<V, F>(r: VersionRange<V, F>)
  {
    r.HasLowerBound() && r.isMinInclusive && !r.HasUpperBound()
  }

  /** "Exactly" shape: both bounds inclusive and `MinVersion.Equals(MaxVersion)`. */
  predicate IsExactly<V, F>(c: Collaborators<V, F>, r: VersionRange<V, F>)
  {
    r.HasLowerAndUpperBounds() && r.isMinInclusive && r.isMaxInclusive
    && c.versionEquals(r.minVersion.value, r.maxVersion.value)
  }

  /** "Single version" shape of the pretty form, which asks
      `MaxVersion.Equals(MinVersion)`. */
  predicate IsPinned<V, F>(c: Collaborators<V, F>, r: VersionRange<V, F>)
  {
    r.HasLowerAndUpperBounds() && c.versionEquals(r.maxVersion.value, r.minVersion.value)
    && r.isMinInclusive && r.isMaxInclusive
  }

  /** Specifier `L`. */
  function LowerText<V, F>(c: Collaborators<V, F>, r: VersionRange<V, F>): string
  {
    if r.HasLowerBound() then c.versionText(r.minVersion.value) else ""
  }

  /** Specifier `U`. */
  function UpperText<V, F>(c: Collaborators<V, F>, r: VersionRange<V, F>): string
  {
    if r.HasUpperBound() then c.versionText(r.maxVersion.value) else ""
  }

  /** The lower text of the normalized form: the floating value stands in for
      the minimum version of a floating range. */
  function FloatAwareLowerText<V, F>(c: Collaborators<V, F>, r: VersionRange<V, F>): string
  {
    if r.HasLowerBound() && r.isFloating then c.floatText(r.float.value) else LowerText(c, r)
  }

  function OpenBracket<V, F>(r: VersionRange<V, F>): char
  {
    if r.HasLowerBound() && r.isMinInclusive then '[' else '('
  }

  function CloseBracket<V, F>(r: VersionRange<V, F>): char
  {
    if r.HasUpperBound() && r.isMaxInclusive then ']' else ')'
  }

  /** Interval notation: `open lower, upper close`. */
  function Interval(open: char, lower: string, upper: string, close: char): string
  {
    [open] + lower + ", " + upper + [close]
  }

  /** Specifier `N`. */
  function NormalizedForm<V, F>(c: Collaborators<V, F>, r: VersionRange<V, F>): string
  {
    Interval(OpenBracket(r), FloatAwareLowerText(c, r), UpperText(c, r), CloseBracket(r))
  }

  /** Specifier `D`, the bracket form of NuGet 2.8.3, which knows no floating. */
  function LegacyForm<V, F>(c: Collaborators<V, F>, r: VersionRange<V, F>): string
  {
    Interval(OpenBracket(r), LowerText(c, r), UpperText(c, r), CloseBracket(r))
  }

  /** A single version in brackets, `[v]`. */
  function PinnedText<V, F>(c: Collaborators<V, F>, v: V): string
  {
    "[" + c.versionText(v) + "]"
  }

  /** Specifier `A`. */
  function ShortForm<V, F>(c: Collaborators<V, F>, r: VersionRange<V, F>): string
  {
    if IsAtLeast(r) then FloatAwareLowerText(c, r)
    else if IsExactly(c, r) then PinnedText(c, r.minVersion.value)
    else NormalizedForm(c, r)
  }

  /** Specifier `S`. */
  function ToStringForm<V, F>(c: Collaborators<V, F>, r: VersionRange<V, F>): string
  {
    if IsAtLeast(r) then LowerText(c, r)
    else if IsExactly(c, r) then PinnedText(c, r.minVersion.value)
    else NormalizedForm(c, r)
  }

  /** Specifier `T`. */
  function LegacyShortForm<V, F>(c: Collaborators<V, F>, r: VersionRange<V, F>): string
  {
    if IsAtLeast(r) then LowerText(c, r)
    else if IsExactly(c, r) then PinnedText(c, r.minVersion.value)
    else LegacyForm(c, r)
  }

  /** One comparison of the pretty form: `>`/`<`, then `=` when inclusive,
      a space and the version. */
  function BoundClause<V, F>(c: Collaborators<V, F>, v: V, inclusive: bool, boundChar: string): string
  {
    boundChar + (if inclusive then "=" else "") + " " + c.versionText(v)
  }

  /** The comparisons the pretty form makes, lower bound first. */
  function PrettyClauses<V, F>(c: Collaborators<V, F>, r: VersionRange<V, F>): seq<string>
  {
    (if r.HasLowerBound() then [BoundClause(c, r.minVersion.value, r.isMinInclusive, ">")] else [])
    + (if r.HasUpperBound() then [BoundClause(c, r.maxVersion.value, r.isMaxInclusive, "<")] else [])
  }

  /** The parts, in order, with the separator between neighbours. */
  function Join(parts: seq<string>, separator: string): string
  {
    if |parts| == 0 then ""
    else if |parts| == 1 then parts[0]
    else parts[0] + separator + Join(parts[1..], separator)
  }

  /** Specifier `P`: the conjunction of the comparisons in parentheses. */
  function PrettyForm<V, F>(c: Collaborators<V, F>, r: VersionRange<V, F>): string
  {
    if !r.HasLowerBound() && !r.HasUpperBound() then ""
    else if IsPinned(c, r) then "(= " + c.versionText(r.minVersion.value) + ")"
    else "(" + Join(PrettyClauses(c, r), " && ") + ")"
  }

  /** The text of one format specifier; None (the source's null) for a
      character that is not a specifier. */
  function Render<V, F>(c: Collaborators<V, F>, r: VersionRange<V, F>, specifier: char): Option<string>
  {
    match specifier
    case 'P' => Some(PrettyForm(c, r))
    case 'L' => Some(LowerText(c, r))
    case 'U' => Some(UpperText(c, r))
    case 'S' => Some(ToStringForm(c, r))
    case 'N' => Some(NormalizedForm(c, r))
    case 'D' => Some(LegacyForm(c, r))
    case 'T' => Some(LegacyShortForm(c, r))
    case 'A' => Some(ShortForm(c, r))
    case _ => None
  }

  /** What one character of a longer format string contributes: its render,
      or the character itself when it is not a specifier. */
  function Piece<V, F>(c: Collaborators<V, F>, r: VersionRange<V, F>, ch: char): string
  {
    match Render(c, r, ch)
    case Some(s) => s
    case None => [ch]
  }

  /** A format string rendered character by character. */
  function RenderAll<V, F>(c: Collaborators<V, F>, r: VersionRange<V, F>, format: string): string
  {
    if format == [] then "" else Piece(c, r, format[0]) + RenderAll(c, r, format[1..])
  }

  /** Rendering a format string distributes over concatenation of formats. */
  lemma {:induction false} RenderAllAppend<V, F>(c: Collaborators<V, F>, r: VersionRange<V, F>, a: string, b: string)
    ensures RenderAll(c, r, a + b) == RenderAll(c, r, a) + RenderAll(c, r, b)
  {
    if a != [] {
      calc {
        RenderAll(c, r, a + b);
        { assert (a + b)[0] == a[0]; assert (a + b)[1..] == a[1..] + b; }
        Piece(c, r, a[0]) + RenderAll(c, r, a[1..] + b);
        { RenderAllAppend(c, r, a[1..], b); }
        Piece(c, r, a[0]) + (RenderAll(c, r, a[1..]) + RenderAll(c, r, b));
      }
    } else {
      assert a + b == b;
    }
  }

  /** Rendering one more character appends that character's piece. */
  lemma RenderAllSnoc<V, F>(c: Collaborators<V, F>, r: VersionRange<V, F>, prefix: string, ch: char)
    ensures RenderAll(c, r, prefix + [ch]) == RenderAll(c, r, prefix) + Piece(c, r, ch)
  {
    RenderAllAppend(c, r, prefix, [ch]);
    assert RenderAll(c, r, [ch]) == Piece(c, r, ch) + RenderAll(c, r, []);
  }

  /** The length of a string as .NET counts it: a character outside the Basic
      Multilingual Plane takes two UTF-16 code units (a surrogate pair). */
  function Utf16Length(s: string): nat
  {
    if s == [] then 0 else (if s[0] as int < 0x1_0000 then 1 else 2) + Utf16Length(s[1..])
  }

  /** A string is never shorter in UTF-16 code units than in characters, and it
      is one code unit long exactly when it is one character of the Basic
      Multilingual Plane. */
  lemma {:induction false} Utf16LengthBounds(s: string)
    ensures |s| <= Utf16Length(s) <= 2 * |s|
    ensures Utf16Length(s) == 1 <==> |s| == 1 && s[0] as int < 0x1_0000
  {
    if s != [] {
      Utf16LengthBounds(s[1..]);
    }
  }
}
