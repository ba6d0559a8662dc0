/** Assembly of a complete HTML page from a body fragment, a page template
    and a stylesheet.

    The body is put in place of every `##BODY##` of the template first; then
    every `##CSS##` of the result, including any that came in with the body,
    is replaced by the resolved stylesheet.  An empty template stands for the
    bare body. */
module Template {
  import opened Results
  import opened Text
  import opened Stylesheet

  const BodyMarker := "##BODY##"
  const CssMarker := "##CSS##"

  /** The page before the stylesheet goes in. */
  function SpliceBody(body: string, template: string): string {
    if template == "" then body else Replace(template, BodyMarker, body)
  }

  /** The control's doBuildCompleteHtml.  `fontSize` is what the CssFontSize
      getter would return or throw. */
  function BuildPage(body: string, template: string, css: string, fontSize: Result<string>)
    : (r: Result<string>)
    ensures r.Failure? <==> Contains(css, FontStyleToken) && fontSize.Failure?
    ensures r.Failure? ==> r == Failure(fontSize.error)
    ensures !Contains(css, FontStyleToken) ==>
      r == Success(Replace(SpliceBody(body, template), CssMarker, css))
    ensures Contains(css, FontStyleToken) && fontSize.Success? ==>
      r == Success(Replace(SpliceBody(body, template), CssMarker,
                           Replace(Replace(css, FontStyleToken, FontStyleDeclaration),
                                   FontSizeToken, fontSize.value)))
  {
    var page := SpliceBody(body, template);
    match ReplaceCss(css, fontSize)
    case Failure(e) => Failure(e)
    case Success(resolved) => Success(Replace(page, CssMarker, resolved))
  }

  /** An empty template behaves exactly like the template `##BODY##`. */
  lemma EmptyTemplateIsBareMarker(body: string, css: string, fontSize: Result<string>)
    ensures BuildPage(body, "", css, fontSize) == BuildPage(body, BodyMarker, css, fontSize)
  {
    ReplaceWhole(BodyMarker, body);
  }

  /** A non-empty template without `##BODY##` drops the body altogether. */
  lemma BodyDroppedWithoutMarker(body1: string, body2: string, template: string, css: string,
                                 fontSize: Result<string>)
    requires template != "" && !Contains(template, BodyMarker)
    ensures BuildPage(body1, template, css, fontSize) == BuildPage(body2, template, css, fontSize)
  {
    ReplaceAbsent(template, BodyMarker, body1);
    ReplaceAbsent(template, BodyMarker, body2);
  }

  /** Because the body goes in first, every `##CSS##` written in the body
      is replaced by the stylesheet as well. */
  lemma CssMarkerInBodyReplaced(body: string, css: string, fontSize: Result<string>)
    requires !Contains(css, FontStyleToken)
    ensures BuildPage(body, BodyMarker, css, fontSize) == Success(Replace(body, CssMarker, css))
  {
    ReplaceWhole(BodyMarker, body);
  }

  /** A `##BODY##` written in the body is not replaced: it survives into the
      page. */
  lemma BodyMarkerInBodySurvives(css: string, fontSize: Result<string>)
    requires !Contains(css, FontStyleToken)
    ensures BuildPage(BodyMarker, BodyMarker, css, fontSize) == Success(BodyMarker)
    ensures Contains(BuildPage(BodyMarker, BodyMarker, css, fontSize).value, BodyMarker)
  {
    CssMarkerInBodyReplaced(BodyMarker, css, fontSize);
    MissingChar(BodyMarker, CssMarker, 'C');
    ReplaceAbsent(BodyMarker, CssMarker, css);
    assert BodyMarker == "" + BodyMarker + "";
    ContainsMiddle("", BodyMarker, "");
  }

  /** With exactly one `##BODY##`, the template is the text before the
      marker, the marker, and the text after it, and the body lands between
      those two texts. */
  lemma BodyAtMarker(body: string, template: string)
    requires |Split(template, BodyMarker)| == 2
    ensures var parts := Split(template, BodyMarker);
      && template == parts[0] + BodyMarker + parts[1]
      && SpliceBody(body, template) == parts[0] + body + parts[1]
  {
    var parts := Split(template, BodyMarker);
    SplitJoin(template, BodyMarker);
    ReplaceViaSplit(template, BodyMarker, body);
    assert parts[1..] == [parts[1]];
  }

  /** Markup around a marker: it begins with `<`, ends with `>` and holds no
      `#`, so no marker can start in it, end in it or straddle its edges. */
  predicate IsMarkup(s: string) {
    |s| > 0 && s[0] == '<' && s[|s| - 1] == '>' && '#' !in s
  }

  /** A template made of markup, `##CSS##`, markup, `##BODY##`, markup: the
      page is the markup with the stylesheet and the body in the two slots,
      and only the body's own `##CSS##` markers are replaced as well. */
  lemma TwoSlotTemplate(head: string, middle: string, tail: string, body: string, css: string)
    requires IsMarkup(head) && IsMarkup(middle) && IsMarkup(tail)
    ensures Replace(SpliceBody(body, head + CssMarker + middle + BodyMarker + tail), CssMarker, css)
         == head + css + middle + Replace(body, CssMarker, css) + tail
  {
    var top := head + CssMarker + middle;
    assert SpliceBody(body, head + CssMarker + middle + BodyMarker + tail) == top + body + tail by {
      BodySlot(head, middle, tail, body);
    }
    assert Replace(top, CssMarker, css) == head + css + middle by {
      FillSlot(head, CssMarker, middle, css, '#');
    }
    assert Replace(top + body + tail, CssMarker, css)
        == Replace(top, CssMarker, css) + Replace(body, CssMarker, css) + tail by {
      MissingChar(tail, CssMarker, '#');
      ReplaceAbsent(tail, CssMarker, css);
      assert tail[0] !in CssMarker;
      ReplaceAppendAt(top + body, tail, CssMarker, css);
      assert top[|top| - 1] == middle[|middle| - 1];
      ReplaceAppendAt(top, body, CssMarker, css);
    }
  }

  /** In such a template, a body and a stylesheet without `#` leave no
      `##BODY##` and no `##CSS##` in the page. */
  lemma TwoSlotPageHasNoMarkers(head: string, middle: string, tail: string, body: string,
                                css: string)
    requires IsMarkup(head) && IsMarkup(middle) && IsMarkup(tail)
    requires '#' !in body && '#' !in css
    ensures var page := Replace(SpliceBody(body, head + CssMarker + middle + BodyMarker + tail),
                                CssMarker, css);
      !Contains(page, BodyMarker) && !Contains(page, CssMarker)
  {
    TwoSlotTemplate(head, middle, tail, body, css);
    MissingChar(body, CssMarker, '#');
    ReplaceAbsent(body, CssMarker, css);
    var page := head + css + middle + body + tail;
    assert '#' !in page;
    MissingChar(page, BodyMarker, '#');
    MissingChar(page, CssMarker, '#');
  }

  /** Helper: the body slot of `TwoSlotTemplate`. */
  lemma BodySlot(head: string, middle: string, tail: string, body: string)
    requires IsMarkup(head) && IsMarkup(middle) && IsMarkup(tail)
    ensures SpliceBody(body, head + CssMarker + middle + BodyMarker + tail)
         == head + CssMarker + middle + body + tail
  {
    var top := head + CssMarker + middle;
    assert head + CssMarker + middle + BodyMarker + tail == top + (BodyMarker + tail);
    assert Replace(top + (BodyMarker + tail), BodyMarker, body)
        == top + Replace(BodyMarker + tail, BodyMarker, body) by {
      NoBodyMarkerInTop(head, middle);
      ClearAppend(top, BodyMarker + tail, BodyMarker, body);
    }
    assert Replace(BodyMarker + tail, BodyMarker, body) == body + tail by {
      ReplaceAtFront(BodyMarker, tail, body);
      MissingChar(tail, BodyMarker, '#');
      ReplaceAbsent(tail, BodyMarker, body);
    }
  }

  /** Helper: markup, `##CSS##` and markup hold no `##BODY##`, and do not
      end inside one. */
  lemma NoBodyMarkerInTop(head: string, middle: string)
    requires IsMarkup(head) && IsMarkup(middle)
    ensures !Contains(head + CssMarker + middle, BodyMarker)
    ensures EndsClear(head + CssMarker + middle, BodyMarker)
  {
    assert !Contains(head + CssMarker, BodyMarker) by {
      MissingChar(head, BodyMarker, '#');
      MissingChar(CssMarker, BodyMarker, 'B');
      SeparatedByChar(head, CssMarker, BodyMarker);
      NoneInAppend(head, CssMarker, BodyMarker);
    }
    assert !Contains(head + CssMarker + middle, BodyMarker) by {
      MissingChar(middle, BodyMarker, '#');
      SeparatedByChar(head + CssMarker, middle, BodyMarker);
      NoneInAppend(head + CssMarker, middle, BodyMarker);
    }
    var top := head + CssMarker + middle;
    assert top[|top| - 1] == middle[|middle| - 1];
  }

  /** A template that has its `##BODY##` keeps the body: the spliced page
      contains it. */
  lemma SplicedBodyPresent(body: string, template: string)
    requires Contains(template, BodyMarker)
    ensures Contains(SpliceBody(body, template), body)
  {
    var i := IndexOf(template, BodyMarker).value;
    ReplaceLeftmost(template, BodyMarker, body, i);
    ContainsMiddle(template[..i], body, Replace(template[i + |BodyMarker|..], BodyMarker, body));
  }
}
