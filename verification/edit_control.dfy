/** The text-related configuration of the HTML edit control and the page
    text it hands to, and reads back from, the embedded browser.

    The control's fields are a `Control` value and the class-wide defaults a
    `Statics` value; a setter returns the configuration afterwards instead
    of updating it in place.  The browser and the helpers that extract the
    body of a page or translate between editor and browser markup are not
    part of this model: they are passed in as functions. */
module EditControl {
  import opened Results
  import opened Text
  import opened FontSize
  import opened Stylesheet
  import opened Template
  import opened Declarations
  import opened Defaults

  /** The static DefaultCssText and DefaultHtmlTemplate. */
  datatype Statics = Statics(defaultCssText: string, defaultHtmlTemplate: string)

  /** The static defaults before anything has set them. */
  const InitialStatics := Statics(DefaultCssText, DefaultHtmlTemplate)

  /** One control's configuration.  `cssFontSize` is the override; the empty
      string stands for an override that was never set or was set to null. */
  datatype Control = Control(cssText: string, htmlTemplate: string, cssFontSize: string, font: Font)

  /** The outcome of a validating setter: the configuration afterwards and
      the exception the setter threw, if any. */
  datatype Update = Update(control: Control, thrown: Option<Error>)

  /** The template of a control holds `##BODY##`. */
  predicate Valid(c: Control) {
    Contains(c.htmlTemplate, BodyMarker)
  }

  /** A new control: its stylesheet and template are copied from the static
      defaults as they are at construction, and no font size is set. */
  function NewControl(statics: Statics, font: Font): (c: Control)
    ensures c.cssText == statics.defaultCssText && c.htmlTemplate == statics.defaultHtmlTemplate
    ensures GetCssFontSize(c) == CssFontSizeWithUnit(font)
  {
    Control(statics.defaultCssText, statics.defaultHtmlTemplate, "", font)
  }

  /** The static DefaultCssText setter: any value is accepted. */
  function SetDefaultCssText(statics: Statics, value: string): (r: Statics)
    ensures r.defaultCssText == value && r.defaultHtmlTemplate == statics.defaultHtmlTemplate
  {
    statics.(defaultCssText := value)
  }

  /** The static DefaultHtmlTemplate setter: any value is accepted, even one
      without `##BODY##`. */
  function SetDefaultHtmlTemplate(statics: Statics, value: string): (r: Statics)
    ensures r.defaultHtmlTemplate == value && r.defaultCssText == statics.defaultCssText
  {
    statics.(defaultHtmlTemplate := value)
  }

  /** The CssText setter: any value is accepted. */
  function SetCssText(c: Control, value: string): (r: Control)
    ensures r.cssText == value
    ensures r.htmlTemplate == c.htmlTemplate && GetCssFontSize(r) == GetCssFontSize(c)
  {
    c.(cssText := value)
  }

  /** The HtmlTemplate setter: an empty (or null) value throws
      ArgumentNullException, a value without `##BODY##` throws
      ArgumentException, and in both cases nothing changes; any other value
      is stored as it is. */
  function SetHtmlTemplate(c: Control, value: string): (r: Update)
    ensures value == "" ==> r.thrown == Some(ArgumentNull)
    ensures value != "" && !Contains(value, BodyMarker) ==> r.thrown == Some(Argument)
    ensures r.thrown.None? <==> Contains(value, BodyMarker)
    ensures r.thrown.Some? ==> r.control == c
    ensures r.thrown.None? ==> r.control == c.(htmlTemplate := value)
  {
    if value == "" then
      Update(c, Some(ArgumentNull))
    else if !Contains(value, BodyMarker) then
      Update(c, Some(Argument))
    else
      Update(c.(htmlTemplate := value), None)
  }

  /** The CssFontSize setter: any value is accepted. */
  function SetCssFontSize(c: Control, value: string): (r: Control)
    ensures r.cssText == c.cssText && r.htmlTemplate == c.htmlTemplate && r.font == c.font
    ensures value != "" ==> GetCssFontSize(r) == Success(value)
    ensures value == "" ==> GetCssFontSize(r) == CssFontSizeWithUnit(c.font)
  {
    c.(cssFontSize := value)
  }

  /** The CssFontSize getter. */
  function GetCssFontSize(c: Control): (r: Result<string>)
    ensures r.Failure? <==> c.cssFontSize == "" && c.font.unit.Unnamed?
    ensures r.Success? ==> r.value != ""
  {
    CssFontSize(c.cssFontSize, c.font)
  }

  /** MakeFullHtmlFromBody: the page from the static defaults, with this
      control's font size. */
  function MakeFullHtmlFromBody(statics: Statics, c: Control, body: string): (r: Result<string>)
    ensures r.Failure? <==> Contains(statics.defaultCssText, FontStyleToken) && GetCssFontSize(c).Failure?
    ensures r.Failure? ==> r.error == ArgumentOutOfRange
    ensures r.Success? ==>
      r.value == Replace(SpliceBody(body, statics.defaultHtmlTemplate), CssMarker,
                         ReplaceCss(statics.defaultCssText, GetCssFontSize(c)).value)
  {
    BuildPage(body, statics.defaultHtmlTemplate, statics.defaultCssText, GetCssFontSize(c))
  }

  /** buildCompleteHtml: the page from this control's own template and
      stylesheet. */
  function BuildCompleteHtml(c: Control, body: string): (r: Result<string>)
    ensures r.Failure? <==> Contains(c.cssText, FontStyleToken) && GetCssFontSize(c).Failure?
    ensures r.Failure? ==> r.error == ArgumentOutOfRange
    ensures Valid(c) && r.Success? && !Contains(c.cssText, FontStyleToken) ==>
      r.value == Replace(Replace(c.htmlTemplate, BodyMarker, body), CssMarker, c.cssText)
    ensures r.Success? ==>
      r.value == Replace(SpliceBody(body, c.htmlTemplate), CssMarker,
                         ReplaceCss(c.cssText, GetCssFontSize(c)).value)
    ensures Valid(c) && r.Success? ==>
      r.value == Replace(Replace(c.htmlTemplate, BodyMarker, body), CssMarker,
                         ReplaceCss(c.cssText, GetCssFontSize(c)).value)
  {
    BuildPage(body, c.htmlTemplate, c.cssText, GetCssFontSize(c))
  }

  /** prepareDocumentTextSet: the body of the given HTML, put into this
      control's page.  `bodyOf` extracts the body of an HTML text. */
  function PrepareDocumentTextSet(c: Control, html: string, bodyOf: string -> string)
    : (r: Result<string>)
    ensures r.Failure? <==> Contains(c.cssText, FontStyleToken) && GetCssFontSize(c).Failure?
    ensures Valid(c) && !Contains(c.cssText, FontStyleToken) ==>
      r == Success(Replace(Replace(c.htmlTemplate, BodyMarker, bodyOf(html)), CssMarker, c.cssText))
    ensures r.Success? ==>
      r.value == Replace(SpliceBody(bodyOf(html), c.htmlTemplate), CssMarker,
                         ReplaceCss(c.cssText, GetCssFontSize(c)).value)
    ensures Valid(c) && r.Success? ==>
      r.value == Replace(Replace(c.htmlTemplate, BodyMarker, bodyOf(html)), CssMarker,
                         ReplaceCss(c.cssText, GetCssFontSize(c)).value)
  {
    BuildCompleteHtml(c, bodyOf(html))
  }

  /** prepareDocumentTextGet: the body of the browser's HTML with the
      `<![^>]*>` matches of one left-to-right pass removed. */
  function PrepareDocumentTextGet(html: string, bodyOf: string -> string): (r: string)
    ensures |r| <= |bodyOf(html)|
    ensures !Contains(bodyOf(html), DeclOpen) ==> r == bodyOf(html)
  {
    StripDeclarations(bodyOf(html))
  }

  /** The DocumentText setter: the value, translated to browser markup by
      `toBrowser`, becomes the browser's document through
      prepareDocumentTextSet. */
  function DocumentTextSet(c: Control, value: string, toBrowser: string -> string,
                           bodyOf: string -> string): (r: Result<string>)
    ensures r.Failure? <==> Contains(c.cssText, FontStyleToken) && GetCssFontSize(c).Failure?
    ensures r.Success? ==>
      r.value == Replace(SpliceBody(bodyOf(toBrowser(value)), c.htmlTemplate), CssMarker,
                         ReplaceCss(c.cssText, GetCssFontSize(c)).value)
    ensures Valid(c) && r.Success? ==>
      r.value == Replace(Replace(c.htmlTemplate, BodyMarker, bodyOf(toBrowser(value))), CssMarker,
                         ReplaceCss(c.cssText, GetCssFontSize(c)).value)
  {
    PrepareDocumentTextSet(c, toBrowser(value), bodyOf)
  }

  /** The DocumentText getter: the browser's document, translated back by
      `fromBrowser`, through prepareDocumentTextGet. */
  function DocumentTextGet(document: string, fromBrowser: string -> string,
                           bodyOf: string -> string): (r: string)
    ensures |r| <= |bodyOf(fromBrowser(document))|
    ensures !Contains(bodyOf(fromBrowser(document)), DeclOpen) ==> r == bodyOf(fromBrowser(document))
  {
    PrepareDocumentTextGet(fromBrowser(document), bodyOf)
  }

  /** A control built from the initial defaults is valid. */
  lemma NewControlValid(font: Font)
    ensures Valid(NewControl(InitialStatics, font))
  {
    DefaultTemplateHasBodyMarker();
  }

  /** Every instance setter keeps a valid control valid, whatever the value,
      and whether or not the template setter throws. */
  lemma SettersPreserveValid(c: Control, value: string)
    requires Valid(c)
    ensures Valid(SetCssText(c, value))
    ensures Valid(SetHtmlTemplate(c, value).control)
    ensures Valid(SetCssFontSize(c, value))
  {
  }

  /** A valid control never loses the body: before the stylesheet goes in,
      the page contains the body verbatim. */
  lemma ValidControlKeepsBody(c: Control, body: string)
    requires Valid(c)
    ensures Contains(SpliceBody(body, c.htmlTemplate), body)
  {
    SplicedBodyPresent(body, c.htmlTemplate);
  }

  /** MakeFullHtmlFromBody reads only the font size of the control, never
      its template or stylesheet. */
  lemma MakeFullIgnoresInstance(statics: Statics, c1: Control, c2: Control, body: string)
    requires GetCssFontSize(c1) == GetCssFontSize(c2)
    ensures MakeFullHtmlFromBody(statics, c1, body) == MakeFullHtmlFromBody(statics, c2, body)
  {
  }

  /** A control keeps the defaults it was built with: changing the static
      defaults afterwards changes MakeFullHtmlFromBody but not the control's
      own pages. */
  lemma ControlSnapshotsDefaults(statics: Statics, font: Font, css: string, template: string,
                                 body: string)
    ensures var c := NewControl(statics, font);
      var later := SetDefaultHtmlTemplate(SetDefaultCssText(statics, css), template);
      && BuildCompleteHtml(c, body) == MakeFullHtmlFromBody(statics, c, body)
      && MakeFullHtmlFromBody(later, c, body) == BuildPage(body, template, css, GetCssFontSize(c))
  {
  }

  /** The page a new control built from the initial defaults makes of
      `body` when the font size is `size`. */
  function DefaultPageText(body: string, size: string): string {
    PageHead + DefaultCss(size) + PageMiddle + Replace(body, CssMarker, DefaultCss(size)) + PageTail
  }

  /** Setting DocumentText on a new control puts the body into the default
      page, where each `##CSS##` the body holds has become the resolved
      stylesheet.  Reading the page back returns that body element with its
      declarations stripped: the body itself, stripped, when it has no
      `##CSS##`, and the body itself when it has neither `##CSS##` nor `<!`.
      This holds provided the translations and the body extraction give back
      what they were given. */
  lemma DocumentTextRoundTrip(font: Font, body: string, toBrowser: string -> string,
                              fromBrowser: string -> string, bodyOf: string -> string)
    requires !font.unit.Unnamed?
    requires bodyOf(toBrowser(body)) == body
    requires var size := CssFontSizeWithUnit(font).value;
      bodyOf(fromBrowser(DefaultPageText(body, size))) == Replace(body, CssMarker, DefaultCss(size))
    ensures var c := NewControl(InitialStatics, font);
      var size := CssFontSizeWithUnit(font).value;
      var page := DefaultPageText(body, size);
      && DocumentTextSet(c, body, toBrowser, bodyOf) == Success(page)
      && DocumentTextGet(page, fromBrowser, bodyOf)
         == StripDeclarations(Replace(body, CssMarker, DefaultCss(size)))
      && (!Contains(body, CssMarker) ==> DocumentTextGet(page, fromBrowser, bodyOf) == StripDeclarations(body))
      && (!Contains(body, CssMarker) && !Contains(body, DeclOpen) ==>
            DocumentTextGet(page, fromBrowser, bodyOf) == body)
  {
    var size := CssFontSizeWithUnit(font).value;
    DefaultPage(body, size);
    if !Contains(body, CssMarker) {
      ReplaceAbsent(body, CssMarker, DefaultCss(size));
    }
  }

  /** A body that is just `##CSS##` does not come back: with extraction
      that returns the body element, reading back gives the stripped
      stylesheet, which starts with the body rule, not `##CSS##`. */
  lemma CssMarkerBodyReadsBackStylesheet(font: Font, fromBrowser: string -> string,
                                         bodyOf: string -> string)
    requires !font.unit.Unnamed?
    requires var size := CssFontSizeWithUnit(font).value;
      bodyOf(fromBrowser(DefaultPageText(CssMarker, size))) == Replace(CssMarker, CssMarker, DefaultCss(size))
    ensures var size := CssFontSizeWithUnit(font).value;
      var back := DocumentTextGet(DefaultPageText(CssMarker, size), fromBrowser, bodyOf);
      back == StripDeclarations(DefaultCss(size)) && back != CssMarker
  {
    var size := CssFontSizeWithUnit(font).value;
    ReplaceWhole(CssMarker, DefaultCss(size));
    DefaultCssStartsWithBodyRule(size);
    StripKeepsPlainHead(DefaultCss(size));
  }
}
