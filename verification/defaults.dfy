/** The page template and stylesheet every control starts with, and what
    they assemble into.

    The texts are written as concatenations of short literals, and the facts
    about their characters are proved literal by literal.  Line
    breaks are single line feeds and indentation is tabs, as in the verbatim
    strings of the control. */
module Defaults {
  import opened Results
  import opened Text
  import opened Stylesheet
  import opened Template

  /** The parts of the default template before the stylesheet slot. */
  const DoctypeName := "<!DOCTYPE html PUBLIC \"-//W3C//DTD "
  const DoctypeVersion := "XHTML 1.0 Transitional//EN\" "
  const DoctypeStart := DoctypeName + DoctypeVersion
  const DtdDirectory := "\"http://www.w3.org/TR/xhtml1/DTD/"
  const DtdFile := "xhtml1-transitional.dtd\">\n\t\t\t"
  const DoctypeUri := DtdDirectory + DtdFile
  const HtmlOpen := "<html xmlns=\"http://www.w3.org/"
  const HeadOpen := "1999/xhtml\">\n\t\t\t\t<head>\n\t\t\t\t\t"
  const HtmlHeadOpen := HtmlOpen + HeadOpen
  const MetaHttpEquiv := "<meta http-equiv=\"Content-Type\" "
  const MetaContent := "content=\"text/html; charset=utf-8\" "
  const MetaContentType := MetaHttpEquiv + MetaContent
  const StyleOpen := "/>\n\t\t\t\t\t<style type=\"text/css\">"

  /** The default template up to the stylesheet slot. */
  const PageHead := DoctypeStart + DoctypeUri + HtmlHeadOpen + MetaContentType + StyleOpen

  /** The default template between the stylesheet slot and the body slot. */
  const HeadClose := "</style>\n\t\t\t\t</head>\n\t\t\t\t"
  const BodyOpen := "<body spellcheck=\"true\">"
  const PageMiddle := HeadClose + BodyOpen

  /** The default template after the body slot. */
  const PageTail := "</body>\n\t\t\t</html>"

  /** The control's initial DefaultHtmlTemplate: an XHTML 1.0 Transitional
      page with `##CSS##` inside its style element and `##BODY##` inside
      its body element. */
  const DefaultHtmlTemplate := PageHead + CssMarker + PageMiddle + BodyMarker + PageTail

  /** The default stylesheet between its four `{font-style}` tokens. */
  const CssBody := "body { "
  const CssBodyMargin := "; margin: 4px; }\n\t\t\t"
  const CssListItem := "li { margin-bottom: 5pt; }\n\t\t\t"
  const CssTableOpen := "table { "
  const CssListAndTable := CssBodyMargin + CssListItem + CssTableOpen
  const CssHeaderOpen := "; }\n\t\t\tth { padding:1px; "
  const CssHeaderTop := "border-top: 2px inset #777; "
  const CssHeaderRight := "border-right: 2px inset #fff; "
  const CssHeaderBottom := "border-bottom: 2px inset #aaa; "
  const CssHeaderLeft := "border-left: 2px inset #fff; "
  const CssHeaderWeight := "font-weight: bold; "
  const CssHeaderCell :=
    CssHeaderOpen + CssHeaderTop + CssHeaderRight + CssHeaderBottom + CssHeaderLeft + CssHeaderWeight
  const CssDataOpen := "; }\n\t\t\ttd { padding: 1px; "
  const CssDataBorder := "border: 2px inset #fff; "
  const CssDataCell := CssDataOpen + CssDataBorder
  const CssEnd := "; }"

  const CssPieces := [CssBody, CssListAndTable, CssHeaderCell, CssDataCell, CssEnd]

  /** The control's initial DefaultCssText: the body, table, header cell and
      data cell rules take the editor's font. */
  const DefaultCssText :=
    CssBody + FontStyleToken + CssListAndTable + FontStyleToken + CssHeaderCell
    + FontStyleToken + CssDataCell + FontStyleToken + CssEnd

  /** The default stylesheet with font size `fontSize`: the fixed font
      declaration, with that size, in each of the four rules. */
  function DefaultCss(fontSize: string): string {
    Join(CssPieces, FontDeclaration(fontSize))
  }

  /** The default stylesheet resolves to `DefaultCss`, whatever the size. */
  lemma DefaultCssResolved(fontSize: string)
    ensures ReplaceCss(DefaultCssText, Success(fontSize)) == Success(DefaultCss(fontSize))
  {
    DefaultCssIsJoined();
    CssPiecesClear();
    ResolveJoined(CssPieces, fontSize);
  }

  /** The default stylesheet uses `{font-style}`, so building a page from it
      fails exactly when the font size cannot be had. */
  lemma DefaultCssNeedsFontSize(body: string, template: string, fontSize: Result<string>)
    ensures BuildPage(body, template, DefaultCssText, fontSize).Failure? <==> fontSize.Failure?
  {
    DefaultCssIsJoined();
    JoinContainsSeparator(CssPieces, FontStyleToken);
  }

  /** With a font size, the default stylesheet gives any template its
      resolved text in place of every `##CSS##`. */
  lemma DefaultCssInAnyTemplate(body: string, template: string, fontSize: string)
    ensures BuildPage(body, template, DefaultCssText, Success(fontSize))
         == Success(Replace(SpliceBody(body, template), CssMarker, DefaultCss(fontSize)))
  {
    DefaultCssResolved(fontSize);
  }

  /** With a font size that has no `{`, the resolved default stylesheet has
      no font token left. */
  lemma DefaultCssHasNoTokens(fontSize: string)
    requires '{' !in fontSize
    ensures !Contains(DefaultCss(fontSize), FontStyleToken) && !Contains(DefaultCss(fontSize), FontSizeToken)
  {
    DefaultCssIsJoined();
    CssPiecesClear();
    DefaultCssResolved(fontSize);
    ResolvedHasNoTokens(CssPieces, fontSize);
  }

  /** The default template has its body slot. */
  lemma DefaultTemplateHasBodyMarker()
    ensures Contains(DefaultHtmlTemplate, BodyMarker)
  {
    ContainsMiddle(PageHead + CssMarker + PageMiddle, BodyMarker, PageTail);
  }

  /** The page built from the default template and stylesheet: the resolved
      stylesheet in the style element and the body, with its own `##CSS##`
      markers replaced, in the body element. */
  lemma DefaultPage(body: string, fontSize: string)
    ensures BuildPage(body, DefaultHtmlTemplate, DefaultCssText, Success(fontSize))
         == Success(PageHead + DefaultCss(fontSize) + PageMiddle
                    + Replace(body, CssMarker, DefaultCss(fontSize)) + PageTail)
  {
    DefaultCssResolved(fontSize);
    PageIsMarkup();
    TwoSlotTemplate(PageHead, PageMiddle, PageTail, body, DefaultCss(fontSize));
  }

  /** The resolved default stylesheet starts with the body rule. */
  lemma DefaultCssStartsWithBodyRule(fontSize: string)
    ensures |DefaultCss(fontSize)| > 0 && DefaultCss(fontSize)[0] == 'b'
  {
    var rest := FontDeclaration(fontSize) + Join(CssPieces[1..], FontDeclaration(fontSize));
    assert DefaultCss(fontSize) == CssBody + rest;
    assert (CssBody + rest)[0] == CssBody[0];
  }

  /** Helper: the default stylesheet is its pieces joined by the token. */
  lemma DefaultCssIsJoined()
    ensures DefaultCssText == Join(CssPieces, FontStyleToken)
  {
    JoinFive(CssBody, CssListAndTable, CssHeaderCell, CssDataCell, CssEnd, FontStyleToken);
  }

  /** Helper: five parts joined, written out. */
  lemma JoinFive(a: string, b: string, c: string, d: string, e: string, sep: string)
    ensures Join([a, b, c, d, e], sep) == a + sep + b + sep + c + sep + d + sep + e
  {
    assert [d, e][1..] == [e];
    assert Join([d, e], sep) == d + sep + e;
    assert [c, d, e][1..] == [d, e];
    assert Join([c, d, e], sep) == c + sep + (d + sep + e);
    assert [b, c, d, e][1..] == [c, d, e];
    assert Join([b, c, d, e], sep) == b + sep + (c + sep + (d + sep + e));
    assert [a, b, c, d, e][1..] == [b, c, d, e];
    assert Join([a, b, c, d, e], sep) == a + sep + (b + sep + (c + sep + (d + sep + e)));
  }

  /** Helper: no piece of the default stylesheet holds or ends inside a
      font token. */
  lemma CssPiecesClear()
    ensures PiecesClear(CssPieces, FontStyleToken) && PiecesClear(CssPieces, FontSizeToken)
  {
    assert TokenFree(CssBody) by {
      assert 'f' !in CssBody && CssBody[|CssBody| - 1] == ' ';
      ClearOfTokens(CssBody, 'f', 'f');
    }
    assert TokenFree(CssListAndTable) by {
      ListAndTableLacks();
      ClearOfTokens(CssListAndTable, 'y', 'z');
    }
    assert TokenFree(CssHeaderCell) by {
      HeaderCellLacksTokenChars();
      ClearOfTokens(CssHeaderCell, 'y', 'z');
    }
    assert TokenFree(CssDataCell) by {
      DataCellLacks();
      ClearOfTokens(CssDataCell, 'y', 'z');
    }
    assert !Contains(CssEnd, FontStyleToken) && !Contains(CssEnd, FontSizeToken) by {
      MissingChar(CssEnd, FontStyleToken, 'y');
      MissingChar(CssEnd, FontSizeToken, 'z');
    }
    FivePiecesClear(CssBody, CssListAndTable, CssHeaderCell, CssDataCell, CssEnd);
  }

  /** Helper: a piece that holds neither token and does not end inside one. */
  predicate TokenFree(p: string) {
    && !Contains(p, FontStyleToken) && !Contains(p, FontSizeToken)
    && EndsClear(p, FontStyleToken) && EndsClear(p, FontSizeToken)
  }

  /** Helper: five pieces, the first four token-free and the last without
      either token, meet the requirements of `ResolveJoined`. */
  lemma FivePiecesClear(a: string, b: string, c: string, d: string, e: string)
    requires TokenFree(a) && TokenFree(b) && TokenFree(c) && TokenFree(d)
    requires !Contains(e, FontStyleToken) && !Contains(e, FontSizeToken)
    ensures PiecesClear([a, b, c, d, e], FontStyleToken) && PiecesClear([a, b, c, d, e], FontSizeToken)
  {
    FivePiecesClearOf(a, b, c, d, e, FontStyleToken);
    FivePiecesClearOf(a, b, c, d, e, FontSizeToken);
  }

  /** Helper: `FivePiecesClear` for one pattern. */
  lemma FivePiecesClearOf(a: string, b: string, c: string, d: string, e: string, pat: string)
    requires !Contains(a, pat) && !Contains(b, pat) && !Contains(c, pat) && !Contains(d, pat)
    requires !Contains(e, pat)
    requires EndsClear(a, pat) && EndsClear(b, pat) && EndsClear(c, pat) && EndsClear(d, pat)
    ensures PiecesClear([a, b, c, d, e], pat)
  {
  }

  /** Helper: text lacking a character of each token, and ending in a space,
      holds neither token and does not end inside one. */
  lemma ClearOfTokens(p: string, c: char, d: char)
    requires c in FontStyleToken && d in FontSizeToken && c !in p && d !in p
    requires |p| > 0 && p[|p| - 1] == ' '
    ensures TokenFree(p)
  {
    MissingChar(p, FontStyleToken, c);
    MissingChar(p, FontSizeToken, d);
  }

  /** Helper: the table rule lacks `y` and `z` and ends in a space. */
  lemma ListAndTableLacks()
    ensures 'y' !in CssListAndTable && 'z' !in CssListAndTable
    ensures CssListAndTable[|CssListAndTable| - 1] == ' '
  {
    CssBodyMarginLacks();
    CssListItemLacks();
    CssTableOpenLacks();
    assert CssListAndTable[|CssListAndTable| - 1] == CssTableOpen[|CssTableOpen| - 1];
  }

  /** Helper: the data cell rule lacks `y` and `z` and ends in a space. */
  lemma DataCellLacks()
    ensures 'y' !in CssDataCell && 'z' !in CssDataCell && CssDataCell[|CssDataCell| - 1] == ' '
  {
    CssDataOpenLacks();
    CssDataBorderLacks();
    assert CssDataCell[|CssDataCell| - 1] == CssDataBorder[|CssDataBorder| - 1];
  }

  /** Helper: the header cell rule lacks `y` and `z` and ends in a space. */
  lemma HeaderCellLacksTokenChars()
    ensures 'y' !in CssHeaderCell && 'z' !in CssHeaderCell
    ensures CssHeaderCell[|CssHeaderCell| - 1] == ' '
  {
    CssHeaderOpenLacks();
    CssHeaderTopLacks();
    CssHeaderRightLacks();
    CssHeaderBottomLacks();
    CssHeaderLeftLacks();
    CssHeaderWeightLacks();
    assert CssHeaderCell[|CssHeaderCell| - 1] == CssHeaderWeight[|CssHeaderWeight| - 1];
  }

  /** Helper: no chunk of the default stylesheet has a `y` or a `z`. */
  lemma CssBodyMarginLacks() ensures 'y' !in CssBodyMargin && 'z' !in CssBodyMargin {}
  lemma CssListItemLacks() ensures 'y' !in CssListItem && 'z' !in CssListItem {}
  lemma CssTableOpenLacks() ensures 'y' !in CssTableOpen && 'z' !in CssTableOpen {}
  lemma CssDataOpenLacks() ensures 'y' !in CssDataOpen && 'z' !in CssDataOpen {}
  lemma CssDataBorderLacks() ensures 'y' !in CssDataBorder && 'z' !in CssDataBorder {}
  lemma CssHeaderOpenLacks() ensures 'y' !in CssHeaderOpen && 'z' !in CssHeaderOpen {}
  lemma CssHeaderTopLacks() ensures 'y' !in CssHeaderTop && 'z' !in CssHeaderTop {}
  lemma CssHeaderRightLacks() ensures 'y' !in CssHeaderRight && 'z' !in CssHeaderRight {}
  lemma CssHeaderBottomLacks() ensures 'y' !in CssHeaderBottom && 'z' !in CssHeaderBottom {}
  lemma CssHeaderLeftLacks() ensures 'y' !in CssHeaderLeft && 'z' !in CssHeaderLeft {}
  lemma CssHeaderWeightLacks() ensures 'y' !in CssHeaderWeight && 'z' !in CssHeaderWeight {}

  /** Helper: the three template parts around the slots are markup. */
  lemma PageIsMarkup()
    ensures IsMarkup(PageHead) && IsMarkup(PageMiddle) && IsMarkup(PageTail)
  {
    DoctypeNamePlain();
    DoctypeVersionPlain();
    DtdDirectoryPlain();
    DtdFilePlain();
    HtmlOpenPlain();
    HeadOpenPlain();
    MetaHttpEquivPlain();
    MetaContentPlain();
    StyleOpenPlain();
    HeadClosePlain();
    BodyOpenPlain();
    assert PageHead[0] == DoctypeName[0];
    assert PageHead[|PageHead| - 1] == StyleOpen[|StyleOpen| - 1];
    assert PageMiddle[|PageMiddle| - 1] == BodyOpen[|BodyOpen| - 1];
  }

  /** Helper: no part of the default template has a `#`. */
  lemma DoctypeNamePlain() ensures '#' !in DoctypeName {}
  lemma DoctypeVersionPlain() ensures '#' !in DoctypeVersion {}
  lemma DtdDirectoryPlain() ensures '#' !in DtdDirectory {}
  lemma DtdFilePlain() ensures '#' !in DtdFile {}
  lemma HtmlOpenPlain() ensures '#' !in HtmlOpen {}
  lemma HeadOpenPlain() ensures '#' !in HeadOpen {}
  lemma MetaHttpEquivPlain() ensures '#' !in MetaHttpEquiv {}
  lemma MetaContentPlain() ensures '#' !in MetaContent {}
  lemma StyleOpenPlain() ensures '#' !in StyleOpen {}
  lemma HeadClosePlain() ensures '#' !in HeadClose {}
  lemma BodyOpenPlain() ensures '#' !in BodyOpen {}
}
