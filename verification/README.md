# HTML edit control: page templating, stylesheet resolution and body read-back

A Dafny model of the text logic in ZetaHtmlEditControl's
`CoreHtmlEditControl`. The control holds a page template and a stylesheet.
When a document is set, it puts the document's body into the template's
`##BODY##` slot. It then puts the stylesheet into the `##CSS##` slot, with
the font tokens resolved. When the document is read back, the control
returns the browser's body with the `<![^>]*>` matches of one left-to-right pass removed.

Modules, in dependency order:

- `Results` (`results.dfy`): the three argument exceptions the control throws, plus `Result` and `Option`.
- `Text` (`text.dfy`): ordinal .NET `String.Contains` and `String.Replace`. It also defines a reference `Split`/`Join` pair that `Replace` is proved equal to.
- `Declarations` (`declarations.dfy`): the one-pass deletion of `<![^>]*>` matches.
- `FontSize` (`font_size.dfy`): the CSS font size taken from the font's unit, or from an override.
- `Stylesheet` (`stylesheet.dfy`): `replaceCss`. Each `{font-style}` becomes the fixed font declaration, and each `{font-size}` then becomes the font size.
- `Template` (`template.dfy`): `doBuildCompleteHtml`.
- `Defaults` (`defaults.dfy`): the initial default template and stylesheet, and the page they produce.
- `EditControl` (`edit_control.dfy`): the control's configuration, its setters, and the `DocumentText` get/set composition.

The control's mutable fields are modelled as immutable values:

- A `Control` value holds the instance fields.
- A `Statics` value holds the class-wide defaults.
- A setter returns the new value.
- The validating `HtmlTemplate` setter returns an `Update`, which pairs the configuration afterwards with the exception it threw, if any.

A null string is modelled as the empty string. `string.IsNullOrEmpty` treats the two alike, and .NET's `Replace` treats a null replacement as empty.

Exceptions are `Failure` values. The getter `CssFontSize` can throw `ArgumentOutOfRangeException`. That exception propagates through `replaceCss`, so the page builders return `Result<string>`. The model follows the code's order of evaluation: the font size is asked for only when the stylesheet contains `{font-style}`.

The embedded browser and three unseen helpers are not modelled by their code. They enter the `DocumentText` functions as function parameters:

- `GetBodyFromHtmlCode` is `bodyOf`.
- The two `MsHtmlLegacy` translators are `toBrowser` and `fromBrowser`.

## Model

| member | source | states |
|---|---|---|
| Text.IndexOf | Source/Control/UI/EditControlBases/CoreHtmlEditControl.TextAndImage.cs:90 | The ordinal search behind `String.Contains`. When it finds something, it returns an occurrence of the pattern with no earlier occurrence. When it finds nothing, the pattern occurs nowhere. |
| Text.ContainsOccurrence | Source/Control/UI/EditControlBases/CoreHtmlEditControl.TextAndImage.cs:235 | `Contains(s, pat)` holds exactly when `pat` occurs at some position of `s`, in both directions. |
| Text.Replace | Source/Control/UI/EditControlBases/CoreHtmlEditControl.TextAndImage.cs:225-238 | Ordinal `String.Replace`, as used for `##BODY##` (line 225), `##CSS##` (line 228) and the two font tokens (lines 237-238). The function itself only computes; its behaviour is stated by `ReplaceAbsent`, `ReplaceLeftmost` and `ReplaceViaSplit` below. |
| Text.ReplaceAbsent | Source/Control/UI/EditControlBases/CoreHtmlEditControl.TextAndImage.cs:225 | Ordinal `String.Replace` returns a string without the pattern unchanged. |
| Text.ReplaceSelf | Source/Control/UI/EditControlBases/CoreHtmlEditControl.TextAndImage.cs:225 | Replacing a pattern by itself changes nothing, wherever the pattern occurs. |
| Text.ReplaceShrinks | Source/Control/UI/EditControlBases/CoreHtmlEditControl.TextAndImage.cs:225 | A replacement no longer than the pattern never lengthens the string. |
| Text.ReplaceLeftmost | Source/Control/UI/EditControlBases/CoreHtmlEditControl.TextAndImage.cs:228 | The text before the leftmost occurrence is kept, the occurrence becomes the replacement, and the scan resumes after the occurrence, so inserted text is never rescanned. |
| Text.ReplaceAppend | Source/Control/UI/EditControlBases/CoreHtmlEditControl.TextAndImage.cs:237 | `Replace` distributes over concatenation when no occurrence straddles the seam. |
| Text.SplitJoin | Source/Control/UI/EditControlBases/CoreHtmlEditControl.TextAndImage.cs:237-238 | Splitting at every occurrence of a pattern and joining the parts with the pattern gives back the original string. |
| Text.ReplaceViaSplit | Source/Control/UI/EditControlBases/CoreHtmlEditControl.TextAndImage.cs:237-238 | `Replace(s, pat, rep)` equals the parts of `s` between occurrences of `pat`, joined by `rep`. This is a reference definition independent of the scan. |
| Text.JoinNone | Source/Control/UI/EditControlBases/CoreHtmlEditControl.TextAndImage.cs:237-238 | Pieces free of a pattern, none but the last ending inside one, joined by a separator that is free of it and ends clear of it, hold no occurrence of the pattern. |
| Text.ReplaceJoin | Source/Control/UI/EditControlBases/CoreHtmlEditControl.TextAndImage.cs:237-238 | Pattern-free pieces joined by a separator that contains the pattern once: replacing the pattern changes exactly each separator and nothing in the pieces. |
| Declarations.StripDeclarations | Source/Control/UI/EditControlBases/CoreHtmlEditControl.TextAndImage.cs:313 | One pass of `<![^>]*>` deletion. The output is never longer than the input. A text without `<!` is returned unchanged. |
| Declarations.StripRemovesDeclaration | Source/Control/UI/EditControlBases/CoreHtmlEditControl.TextAndImage.cs:313 | A match is deleted from its `<!` to the first `>` after it. The text before the match is kept, and the pass continues after the `>`. |
| Declarations.StripKeepsUnclosed | Source/Control/UI/EditControlBases/CoreHtmlEditControl.TextAndImage.cs:313 | A `<!` with no `>` after it is kept, together with everything that follows it. |
| Declarations.StripIsSinglePass | Source/Control/UI/EditControlBases/CoreHtmlEditControl.TextAndImage.cs:313 | The pass is not idempotent: deleting `<!x>` from `<<!x>!>` leaves the new declaration `<!>`, which only a second pass removes. |
| FontSize.CssFontSizeWithUnit | Source/Control/UI/EditControlBases/CoreHtmlEditControl.TextAndImage.cs:247-268 | A pixel font gives its size with `px`. A point font gives its size with `pt`. The World, Display, Inch, Document and Millimeter units give the size in points with `pt`. Any other unit value throws ArgumentOutOfRange. Every result ends in `pt` or `px`, and in `px` exactly for pixel fonts. |
| FontSize.CssFontSize | Source/Control/UI/EditControlBases/CoreHtmlEditControl.TextAndImage.cs:146 | A non-empty override wins; otherwise the size is derived from the font. The getter fails exactly when there is no override and the unit is unnamed. |
| Stylesheet.ReplaceCss | Source/Control/UI/EditControlBases/CoreHtmlEditControl.TextAndImage.cs:233-245 | A stylesheet without `{font-style}`, the empty one included, is returned unchanged, and the font size is not consulted. Otherwise the result fails exactly when the font size fails, and with the font size's exception. |
| Stylesheet.FontStyleExpands | Source/Control/UI/EditControlBases/CoreHtmlEditControl.TextAndImage.cs:13-14 | A lone `{font-style}` becomes the full font declaration with the size filled in: the `{font-size}` that the expansion introduces is replaced too. |
| Stylesheet.ResolveJoined | Source/Control/UI/EditControlBases/CoreHtmlEditControl.TextAndImage.cs:235-239 | A stylesheet whose `{font-style}` tokens sit between token-free pieces resolves to the same pieces, joined by the font declaration with the given size. Every piece but the last must also end with a character outside both tokens, so that no token straddles a seam. |
| Stylesheet.ResolvedHasNoTokens | Source/Control/UI/EditControlBases/CoreHtmlEditControl.TextAndImage.cs:235-239 | Such a stylesheet, resolved with a font size that holds no `{`, holds neither `{font-style}` nor `{font-size}` afterwards. |
| Stylesheet.SizeTokenInOverrideSurvives | Source/Control/UI/EditControlBases/CoreHtmlEditControl.TextAndImage.cs:146-147 | The size override is stored unchecked, so a size that is itself `{font-size}` leaves that token in the resolved stylesheet. |
| Template.SpliceBody | Source/Control/UI/EditControlBases/CoreHtmlEditControl.TextAndImage.cs:217-226 | The body-splicing branch: an empty template gives the body itself, any other template has each `##BODY##` replaced by the body. It only computes; `EmptyTemplateIsBareMarker`, `BodyDroppedWithoutMarker`, `BodyAtMarker` and `SplicedBodyPresent` state its behaviour. |
| Template.BuildPage | Source/Control/UI/EditControlBases/CoreHtmlEditControl.TextAndImage.cs:212-231 | The page fails exactly when the stylesheet uses `{font-style}` and the font size fails. Without `{font-style}`, the page is the template with the body spliced in and `##CSS##` replaced by the stylesheet as it is. With `{font-style}` and a font size, `##CSS##` is replaced instead by the stylesheet with each `{font-style}` expanded and then each `{font-size}` filled in. |
| Template.EmptyTemplateIsBareMarker | Source/Control/UI/EditControlBases/CoreHtmlEditControl.TextAndImage.cs:218-221 | An empty template gives the same page as the template `##BODY##`. |
| Template.BodyDroppedWithoutMarker | Source/Control/UI/EditControlBases/CoreHtmlEditControl.TextAndImage.cs:222-226 | A non-empty template without `##BODY##` gives the same page whatever the body. |
| Template.CssMarkerInBodyReplaced | Source/Control/UI/EditControlBases/CoreHtmlEditControl.TextAndImage.cs:225-228 | The body goes in before the stylesheet, so for every body, every `##CSS##` written in it is replaced by the stylesheet as well. |
| Template.BodyMarkerInBodySurvives | Source/Control/UI/EditControlBases/CoreHtmlEditControl.TextAndImage.cs:225 | `##BODY##` is replaced once, without rescanning what it inserted, so a body that is itself `##BODY##` leaves that marker in the page. |
| Template.BodyAtMarker | Source/Control/UI/EditControlBases/CoreHtmlEditControl.TextAndImage.cs:225 | A template with exactly one `##BODY##` is the text before it, the marker, and the text after it. The body lands between those two texts. |
| Template.TwoSlotTemplate | Source/Control/UI/EditControlBases/CoreHtmlEditControl.TextAndImage.cs:222-228 | Consider a template of markup, `##CSS##`, markup, `##BODY##`, markup, where the markup holds no `#`. The page is that markup with the stylesheet and the body in the slots. Only the body's own `##CSS##` markers are replaced besides. |
| Template.TwoSlotPageHasNoMarkers | Source/Control/UI/EditControlBases/CoreHtmlEditControl.TextAndImage.cs:222-228 | In the two-slot template of `TwoSlotTemplate`, with a body and a stylesheet that hold no `#`, the page holds neither `##BODY##` nor `##CSS##`. |
| Template.SplicedBodyPresent | Source/Control/UI/EditControlBases/CoreHtmlEditControl.TextAndImage.cs:225 | A template that contains `##BODY##` yields a page that contains the body verbatim. |
| Defaults.DefaultCssResolved | Source/Control/UI/EditControlBases/CoreHtmlEditControl.TextAndImage.cs:13-20 | The default stylesheet resolves, for any size, to its five fixed pieces joined by the font declaration with that size. |
| Defaults.DefaultCssInAnyTemplate | Source/Control/UI/EditControlBases/CoreHtmlEditControl.TextAndImage.cs:13-20 | With a font size, the default stylesheet gives any template and body the spliced page with its resolved text in place of every `##CSS##`. |
| Defaults.DefaultCssHasNoTokens | Source/Control/UI/EditControlBases/CoreHtmlEditControl.TextAndImage.cs:13-20 | With a font size that holds no `{`, the resolved default stylesheet holds neither `{font-style}` nor `{font-size}`. |
| Defaults.DefaultCssNeedsFontSize | Source/Control/UI/EditControlBases/CoreHtmlEditControl.TextAndImage.cs:16-20 | The default stylesheet uses `{font-style}`, so a page built from it fails exactly when the font size fails, whatever the template. |
| Defaults.DefaultTemplateHasBodyMarker | Source/Control/UI/EditControlBases/CoreHtmlEditControl.TextAndImage.cs:22-30 | The default template contains `##BODY##`. |
| Defaults.DefaultPage | Source/Control/UI/EditControlBases/CoreHtmlEditControl.TextAndImage.cs:16-30 | The default template and stylesheet give the XHTML page with the resolved stylesheet in its style element. The body, with its own `##CSS##` markers replaced, sits in the body element. |
| EditControl.NewControl | Source/Control/UI/EditControlBases/CoreHtmlEditControl.TextAndImage.cs:34-36 | A new control copies the static stylesheet and template as they are at construction. With no override set, its font size is the one derived from its font. |
| EditControl.SetDefaultCssText | Source/Control/UI/EditControlBases/CoreHtmlEditControl.TextAndImage.cs:41-45 | The static stylesheet setter stores any value and leaves the static template alone. |
| EditControl.SetDefaultHtmlTemplate | Source/Control/UI/EditControlBases/CoreHtmlEditControl.TextAndImage.cs:50-54 | The static template setter stores any value, even one without `##BODY##`, and leaves the static stylesheet alone. |
| EditControl.SetCssText | Source/Control/UI/EditControlBases/CoreHtmlEditControl.TextAndImage.cs:63-69 | The stylesheet setter stores any value and leaves the template and the font size alone. |
| EditControl.SetHtmlTemplate | Source/Control/UI/EditControlBases/CoreHtmlEditControl.TextAndImage.cs:80-101 | An empty value throws ArgumentNull. A non-empty value without `##BODY##` throws Argument. A throw leaves the control unchanged. The setter succeeds exactly when the value contains `##BODY##`, and then stores the value verbatim and changes nothing else. |
| EditControl.SetCssFontSize | Source/Control/UI/EditControlBases/CoreHtmlEditControl.TextAndImage.cs:144-148 | The setter stores any value. A non-empty value is what the getter then returns. An empty value makes the getter derive the size from the font again. |
| EditControl.GetCssFontSize | Source/Control/UI/EditControlBases/CoreHtmlEditControl.TextAndImage.cs:146 | The getter fails exactly when no override is set and the font's unit is unnamed. A size it returns is never empty. |
| EditControl.MakeFullHtmlFromBody | Source/Control/UI/EditControlBases/CoreHtmlEditControl.TextAndImage.cs:155-159 | The page from the static defaults fails exactly when the static stylesheet uses `{font-style}` and the control's font size fails, and then with ArgumentOutOfRange. Otherwise the page is the static template with the body spliced in and `##CSS##` replaced by the static stylesheet as the control's font size resolves it. |
| EditControl.BuildCompleteHtml | Source/Control/UI/EditControlBases/CoreHtmlEditControl.TextAndImage.cs:207-210 | The page from the control's own template and stylesheet has the same failure condition. On success the page is the template with the body spliced in and `##CSS##` replaced by the resolved stylesheet, with or without `{font-style}`. For a valid control the splice is the template with each `##BODY##` replaced, and a stylesheet without `{font-style}` goes in as it is. |
| EditControl.PrepareDocumentTextSet | Source/Control/UI/EditControlBases/CoreHtmlEditControl.TextAndImage.cs:202-205 | The extracted body of the given HTML goes into the control's page, with the same failure condition, and on success the page is the one `BuildCompleteHtml` states for that body. |
| EditControl.PrepareDocumentTextGet | Source/Control/UI/EditControlBases/CoreHtmlEditControl.TextAndImage.cs:310-315 | The result is never longer than the extracted body. It equals the extracted body when that body has no `<!`. |
| EditControl.DocumentTextSet | Source/Control/UI/EditControlBases/CoreHtmlEditControl.TextAndImage.cs:124-127 | Setting the document fails exactly when the control's stylesheet uses `{font-style}` and its font size fails. Otherwise the browser receives the control's page around the extracted body of the translated value, with the resolved stylesheet in every `##CSS##`. |
| EditControl.DocumentTextGet | Source/Control/UI/EditControlBases/CoreHtmlEditControl.TextAndImage.cs:120-123 | Reading the document returns at most the extracted body of the translated browser text, and exactly that body when it has no `<!`. |
| EditControl.NewControlValid | Source/Control/UI/EditControlBases/CoreHtmlEditControl.TextAndImage.cs:22-36 | A control built from the initial defaults has `##BODY##` in its template. |
| EditControl.SettersPreserveValid | Source/Control/UI/EditControlBases/CoreHtmlEditControl.TextAndImage.cs:63-101 | Every instance setter keeps `##BODY##` in the template, whatever value it is given and whether or not it throws. |
| EditControl.ValidControlKeepsBody | Source/Control/UI/EditControlBases/CoreHtmlEditControl.TextAndImage.cs:207-226 | For a control with `##BODY##` in its template, the spliced page contains the body verbatim. |
| EditControl.MakeFullIgnoresInstance | Source/Control/UI/EditControlBases/CoreHtmlEditControl.TextAndImage.cs:155-159 | `MakeFullHtmlFromBody` depends on the control only through its font size, never through its template or stylesheet. |
| EditControl.ControlSnapshotsDefaults | Source/Control/UI/EditControlBases/CoreHtmlEditControl.TextAndImage.cs:34-54 | A new control's own page agrees with `MakeFullHtmlFromBody` at construction. After the static defaults change, only `MakeFullHtmlFromBody` follows the new defaults. |
| EditControl.DocumentTextRoundTrip | Source/Control/UI/EditControlBases/CoreHtmlEditControl.TextAndImage.cs:118-128 | Take a new default control with a named font unit and any body. Setting the document yields the default page around the body. There each `##CSS##` the body holds has become the resolved stylesheet, because the body goes in before the stylesheet. Reading that page back gives this body element with one pass of `<![^>]*>` matches removed. That is the stripped body when the body has no `##CSS##`, and the body itself when it has neither `##CSS##` nor `<!`. This holds provided the translators give back what they were given and the extraction returns the body element. |
| EditControl.CssMarkerBodyReadsBackStylesheet | Source/Control/UI/EditControlBases/CoreHtmlEditControl.TextAndImage.cs:118-128 | The round trip does not give back every body. The body `##CSS##` reads back as the stripped default stylesheet, which starts with `b`, not as `##CSS##`. |

## Left out

- Formatting of the font size as a number: `font.Size` and `font.SizeInPoints` are formatted floats. The model takes the formatted strings as inputs and keeps only the choice of number and unit suffix.
- `getFontScaleFactor`, `getSizeInPixel`, `getDpi` (lines 271-308): float arithmetic and a graphics context; the first is never called.
- `base.DocumentText`, `CompleteDocumentText` and `Document.Url`: state of the embedded browser, which the model passes around as plain strings.
- `TextOnlyFromDocumentBody`, `SetDocumentText` and `GetDocumentText` (lines 130-200): thin wrappers around `GetOnlyTextFromHtmlCode` and `HtmlConversionHelper`, which are not part of this model.
- `GetBodyFromHtmlCode` and the `MsHtmlLegacy` translators are not part of this model. They are function parameters with no assumed behaviour except where a lemma states one as a precondition.
- Dispose, the designer attributes and the resource message strings.
- The constructor's creation of the conversion helper: it has no effect on the modelled text.
- A null body with an empty template: .NET throws NullReferenceException there. Null is modelled as the empty string, so the model returns the resolved empty page instead.
- `Results.Error` does not model the message text or parameter name of the exceptions.
- EditControl.DocumentTextGet: states only the length bound and the identity case of the strip, because the extraction and translation helpers it composes are unknown.
- EditControl.DocumentTextRoundTrip: holds only under the stated behaviour of the helpers, because their code is not part of this model. The extraction is assumed to return the page's body element, whose `##CSS##` markers the page builder has already replaced.
- Strings are sequences of Unicode scalar values, not the UTF-16 code units of .NET. A .NET string with an unpaired surrogate has no counterpart, and lengths count scalars, not `String.Length` units. The modelled behaviour does not depend on this, because every marker and token is ASCII and all matching is ordinal.
