# NuGet VersionRangeFormatter, modelled in Dafny

NuGet's `VersionRangeFormatter` turns a version range into text. A range has an
optional minimum version and an optional maximum version. Each bound is inclusive
or exclusive. The range may also be floating: its lower bound is then a wildcard
such as `1.*`. A one-character format specifier picks the dialect:

- `L` and `U` print one bound.
- `N` prints normalized bracket notation.
- `D` prints the legacy bracket notation of NuGet 2.8.3.
- `A`, `S` and `T` print shorthand forms.
- `P` prints a readable boolean form.

A longer format string renders each character in turn. A character that is not a
specifier is copied as it is.

The project has five modules:

- `Wrappers` holds `Option`, which stands for the .NET references that may be null.
- `Text` holds a small `StringBuilder` class. Its `contents` only grow at the end.
- `RangeForms` is the specification. It defines the range and the collaborators,
  and gives the text of every specifier as a function of the range (`NormalizedForm`,
  `LegacyForm`, `ShortForm`, `ToStringForm`, `LegacyShortForm`, `PrettyForm`, `Render`,
  `RenderAll`).
- `VersionRangeFormatter` is the formatter, written the way the source writes it.
  `Format` loops over the format string. `FormatSpecifier` dispatches on one
  character. The builders append to a `StringBuilder` step by step. Each method is
  proved to return the text that `RangeForms` specifies.
- `RangeFormProperties` proves what the forms promise, for every range and every
  set of collaborators. `RangeFormExamples` works out the forms on concrete ranges.

Code outside the file is passed in as a `Collaborators` value with three parts:

- `versionText`: a version's own normalized (`{0:N}`) rendering.
- `floatText`: `FloatRange.ToString()`.
- `versionEquals`: `Version.Equals`, called with the receiver first.

The model keeps the argument order of each call. The shorthands call
`MinVersion.Equals(MaxVersion)`. The pretty form calls `MaxVersion.Equals(MinVersion)`.
`PinnedIffExactlyWhenEqualsSymmetric` shows that the two tests pick out the same
ranges whenever equality is symmetric on the pair.

`VersionRange` is a subset type. A floating range always carries its floating
value. This is the one thing the code relies on when it dereferences `Float`.

Two points of the code are easy to misread, and the model follows the code:

- `N` prints `Float.ToString()` as the lower bound of a floating range
  (VersionRangeFormatter.cs:169-178). The comment `TODO: write out the float version`
  at :164 is stale.
- `A` (`GetShortString`) is floating-aware in its "at least" case: it prints
  `Float.ToString()` (:138-140). `S` (`GetToString`) is not: it prints the minimum
  version (:204).

`format.Length` in .NET counts UTF-16 code units. The model counts the same way
with `Utf16Length`, so a format made of one character outside the Basic Multilingual
Plane is two units long and is copied through, as in .NET.

## Model

| member | source | states |
|---|---|---|
| `VersionRangeFormatter.Format` | NuGet.Versioning.NetNative/VersionRangeFormatter.cs:30-79 | Throws ArgumentNullException exactly when `arg` is null. Returns null for a null or empty format string or an argument that is not a range. A format one UTF-16 code unit long gives exactly that specifier's render, so an unrecognized character gives null. A format two or more code units long gives the in-order concatenation of each character's render, or of the character itself when it has none. The loop is proved against `RenderAll`. |
| `VersionRangeFormatter.FormatSpecifier` | NuGet.Versioning.NetNative/VersionRangeFormatter.cs:95-128 | Returns a text exactly for `P`, `L`, `U`, `S`, `N`, `D`, `T` and `A`, and null for every other character. The text is that specifier's form. |
| `VersionRangeFormatter.GetShortString` | NuGet.Versioning.NetNative/VersionRangeFormatter.cs:130-157 | Returns the `A` form: the floating-aware "at least" shorthand, else the `[v]` "exactly" shorthand, else `N`. |
| `VersionRangeFormatter.GetNormalizedString` | NuGet.Versioning.NetNative/VersionRangeFormatter.cs:162-191 | Returns the `N` interval text built by appending the bracket, lower text (floating text when floating), `", "`, upper text and bracket. |
| `VersionRangeFormatter.GetToString` | NuGet.Versioning.NetNative/VersionRangeFormatter.cs:196-222 | Returns the `S` form: the minimum version for "at least", else `[v]` for "exactly", else `N`. |
| `VersionRangeFormatter.GetLegacyShortString` | NuGet.Versioning.NetNative/VersionRangeFormatter.cs:227-251 | Returns the `T` form: the same two shorthands as `S`, else `D`. |
| `VersionRangeFormatter.GetLegacyString` | NuGet.Versioning.NetNative/VersionRangeFormatter.cs:256-277 | Returns the `D` interval text, which never uses the floating value. |
| `VersionRangeFormatter.PrettyPrint` | NuGet.Versioning.NetNative/VersionRangeFormatter.cs:282-321 | Builds the `P` text step by step and is proved equal to the comparisons joined by `" && "` in parentheses, with the empty and single-version cases first. |
| `VersionRangeFormatter.PrettyPrintBound` | NuGet.Versioning.NetNative/VersionRangeFormatter.cs:323-334 | Appends to the caller's builder, and nothing else: the bound character, `=` when inclusive, a space and the version text. |
| `RangeFormProperties.RenderDefinedIffSpecifier` | NuGet.Versioning.NetNative/VersionRangeFormatter.cs:99-127 | A character has a render if and only if it is one of the eight specifiers. |
| `RangeForms.RenderAllAppend` | NuGet.Versioning.NetNative/VersionRangeFormatter.cs:57-73 | Rendering the concatenation of two format strings is the concatenation of their renderings. |
| `RangeForms.RenderAllSnoc` | NuGet.Versioning.NetNative/VersionRangeFormatter.cs:59-71 | One more format character appends exactly its own piece: its render, or the character when it has none. |
| `RangeForms.Utf16LengthBounds` | NuGet.Versioning.NetNative/VersionRangeFormatter.cs:51 | A string has at least as many UTF-16 code units as characters and at most twice as many. It is one code unit long if and only if it is one character of the Basic Multilingual Plane. |
| `RangeFormProperties.RenderAllCopiesNonSpecifiers` | NuGet.Versioning.NetNative/VersionRangeFormatter.cs:59-71 | A format string with no specifier renders as itself. |
| `RangeFormProperties.NonSpecifierAloneVersusInFormat` | NuGet.Versioning.NetNative/VersionRangeFormatter.cs:51-73 | A non-specifier alone has no render (null), but inside a longer format it contributes itself. |
| `RangeFormProperties.BoundTextsIgnoreInclusivityAndFloating` | NuGet.Versioning.NetNative/VersionRangeFormatter.cs:104-109 | `L` and `U` are the bound's version text when the bound exists, else empty. Changing inclusivity or floating does not change them. |
| `RangeFormProperties.IntervalParts` | NuGet.Versioning.NetNative/VersionRangeFormatter.cs:167-188 | The opening bracket, the closing bracket and the `lower, upper` middle can be read back from interval text, which has four characters more than its two bound texts. |
| `RangeFormProperties.NormalizedBracketShape` | NuGet.Versioning.NetNative/VersionRangeFormatter.cs:162-191 | `N` opens with `[` if and only if there is an inclusive lower bound, else `(`. It closes with `]` if and only if there is an inclusive upper bound, else `)`. Between them is the floating-aware lower text, `", "` and the upper text. |
| `RangeFormProperties.LegacyBracketShape` | NuGet.Versioning.NetNative/VersionRangeFormatter.cs:256-277 | `D` has the same bracket rules, with the plain `L` and `U` texts inside. |
| `RangeFormProperties.UnboundedBracketForms` | NuGet.Versioning.NetNative/VersionRangeFormatter.cs:162-191 | A range with no bounds is `(, )` under both `N` and `D`. |
| `RangeFormProperties.LegacyIsNormalizedWithoutFloating` | NuGet.Versioning.NetNative/VersionRangeFormatter.cs:169-178 | `D` equals `N` on every range whose lower bound is not floating. |
| `RangeFormProperties.FloatingNormalizedVersusLegacy` | NuGet.Versioning.NetNative/VersionRangeFormatter.cs:169-178 | On a floating lower bound, `N` has the floating text where `D` has the minimum version's text. The two texts are identical after it. |
| `RangeFormProperties.AtLeastShorthand` | NuGet.Versioning.NetNative/VersionRangeFormatter.cs:130-251 | For an inclusive lower bound with no upper bound, `S` and `T` give the minimum version. `A` gives the floating text when floating, else the minimum version. |
| `RangeFormProperties.ExactlyShorthand` | NuGet.Versioning.NetNative/VersionRangeFormatter.cs:130-251 | When both bounds are inclusive and `MinVersion.Equals(MaxVersion)`, `A`, `S` and `T` all give `[v]`, whether floating or not. |
| `RangeFormProperties.ShorthandFallbacks` | NuGet.Versioning.NetNative/VersionRangeFormatter.cs:130-251 | Outside those two shapes, `A` and `S` equal `N`, and `T` equals `D`. |
| `RangeFormProperties.ShortVersusToString` | NuGet.Versioning.NetNative/VersionRangeFormatter.cs:130-222 | `A` and `S` can differ only on a floating "at least" range. |
| `RangeFormProperties.ToStringIsLegacyShortWithoutFloating` | NuGet.Versioning.NetNative/VersionRangeFormatter.cs:196-251 | `S` equals `T` on every range whose lower bound is not floating. |
| `RangeFormProperties.ShorthandCases` | NuGet.Versioning.NetNative/VersionRangeFormatter.cs:130-251 | Every `A` or `T` text is its fallback bracket form, the bare lower text of an "at least" range, or `[v]` of an "exactly" range. |
| `RangeFormProperties.PrettyEmptyIffUnbounded` | NuGet.Versioning.NetNative/VersionRangeFormatter.cs:284-289 | `P` gives the empty string if and only if the range has no bounds. |
| `RangeFormProperties.PrettyPinned` | NuGet.Versioning.NetNative/VersionRangeFormatter.cs:291-298 | Inclusive on both sides with `MaxVersion.Equals(MinVersion)`, `P` gives `(= v)`. |
| `RangeFormProperties.PrettyLayout` | NuGet.Versioning.NetNative/VersionRangeFormatter.cs:300-334 | Otherwise `P` is `(`, then `>` or `>=`, a space and the minimum if there is a lower bound, then `" && "` only when both bounds exist, then `<` or `<=`, a space and the maximum if there is an upper bound, then `)`. |
| `RangeFormProperties.PrettyIgnoresFloating` | NuGet.Versioning.NetNative/VersionRangeFormatter.cs:282-334 | Changing the floating flag or value does not change `P`. |
| `RangeFormProperties.PinnedIffExactlyWhenEqualsSymmetric` | NuGet.Versioning.NetNative/VersionRangeFormatter.cs:291-298 | When equality gives the same answer in both argument orders, the pretty form's single-version test holds exactly when the shorthand "exactly" test holds. Such a range is then `(= v)` under `P` and `[v]` under `A`. |
| `RangeFormExamples.HalfOpenRange` | NuGet.Versioning.NetNative/VersionRangeFormatter.cs:162-191 | `[1.0.0, 2.0.0)` is `[1.0.0, 2.0.0)` under `N` and `A`, and `(>= 1.0.0 && < 2.0.0)` under `P`. |
| `RangeFormExamples.AtLeastRange` | NuGet.Versioning.NetNative/VersionRangeFormatter.cs:130-251 | `[1.0.0, )` is `1.0.0` under `A`, `S` and `T`, and `(>= 1.0.0)` under `P`. |
| `RangeFormExamples.PinnedRange` | NuGet.Versioning.NetNative/VersionRangeFormatter.cs:142-150 | `[1.0.0, 1.0.0]` is `[1.0.0]` under `A` and `(= 1.0.0)` under `P`. |
| `RangeFormExamples.FloatingAtLeastRange` | NuGet.Versioning.NetNative/VersionRangeFormatter.cs:134-141 | A floating `1.*` at-least range is `1.*` under `A` and `1.0.0` under `S`. It is `[1.*, )` under `N` and `[1.0.0, )` under `D`. |
| `RangeFormExamples.UnboundedRangeAndFormatString` | NuGet.Versioning.NetNative/VersionRangeFormatter.cs:51-73 | `(, )` is `(, )` under `N` and empty under `P`. `X` alone has no render. The format `XNP` gives `X(, )`. |
| `RangeFormExamples.AstralCharacterFormat` | NuGet.Versioning.NetNative/VersionRangeFormatter.cs:51-73 | The format U+1F600 is two code units long, so it goes through the loop and comes back as itself. |

## Left out

- `GetFormat` (VersionRangeFormatter.cs:84-93) is left out. It only compares runtime `Type` objects to hand back the formatter.
- The `IFormatProvider` argument of `Format` is left out. The method never reads it.
- The constructor and the `_versionFormatter` field are left out. They fix the version renderer, which is the `versionText` part of `Collaborators`.
- A version's own `N` rendering, `FloatRange.ToString` and `Version.Equals` are left out. They live outside this file and are parameters here. No property assumes anything about them, except the symmetric-equality premise named above.
- The `StringBuilder` capacity hint and the empty `if (false)` branch are left out. Neither changes the result.
- The `VersionRange` and `VersionRangeBase` classes are not part of this model. One datatype holds the fields they expose. The legacy builders, which take a `VersionRangeBase`, read only its base fields.
- The NullReferenceException for a floating range without a floating value is left out. The range type excludes such a range, which the range's producer never builds.
- `VersionRangeFormatter.Format` does not model a format string holding a lone surrogate code unit. Dafny strings hold Unicode scalar values only, so such a string cannot be written. The loop also steps over characters, where .NET steps over code units. A surrogate pair is not a specifier, and appending its two halves in turn appends the same character, so the result is the same.
