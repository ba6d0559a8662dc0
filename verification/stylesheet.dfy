/** Resolution of the font tokens in the editor's stylesheet.

    A stylesheet may use `{font-style}` wherever the editor's font should
    apply.  Each such token becomes a fixed font declaration, which itself
    carries a `{font-size}` token; every `{font-size}` is then replaced by the
    control's CSS font size.  A stylesheet without `{font-style}` is used as
    it is, and the font size is then never asked for. */
module Stylesheet {
  import opened Results
  import opened Text

  const FontStyleToken := "{font-style}"
  const FontSizeToken := "{font-size}"

  /** The text of the font declaration before and after its size. */
  const FontFamilyLead := "font-family: Segoe UI, Tahoma, "
  const FontFamilyFallback := "Verdana, Arial; "
  const FontSizeLabel := "font-size: "
  const FontStylePrefix := FontFamilyLead + FontFamilyFallback + FontSizeLabel
  const FontStyleSuffix := "; "

  /** The declaration every `{font-style}` expands to. */
  const FontStyleDeclaration := FontStylePrefix + FontSizeToken + FontStyleSuffix

  /** The font declaration with its size filled in. */
  function FontDeclaration(fontSize: string): string {
    FontStylePrefix + fontSize + FontStyleSuffix
  }

  /** The control's replaceCss.  `fontSize` is what the CssFontSize getter
      would return or throw; it is consulted only when `{font-style}` occurs. */
  function ReplaceCss(css: string, fontSize: Result<string>): (r: Result<string>)
    ensures !Contains(css, FontStyleToken) ==> r == Success(css)
    ensures Contains(css, FontStyleToken) ==> (r.Failure? <==> fontSize.Failure?)
    ensures r.Failure? ==> r == Failure(fontSize.error)
  {
    if css != "" && Contains(css, FontStyleToken) then
      var styled := Replace(css, FontStyleToken, FontStyleDeclaration);
      match fontSize
      case Failure(e) => Failure(e)
      case Success(size) => Success(Replace(styled, FontSizeToken, size))
    else
      Success(css)
  }

  /** Helper: the size token of the declaration is the only one in it. */
  lemma FontSizeFilledIn(fontSize: string)
    ensures Replace(FontStyleDeclaration, FontSizeToken, fontSize) == FontDeclaration(fontSize)
  {
    PrefixLacksBrace();
    FillSlot(FontStylePrefix, FontSizeToken, FontStyleSuffix, fontSize, '{');
  }

  /** A lone `{font-style}` becomes the font declaration with the size
      filled in: the `{font-size}` the expansion brings in is replaced too. */
  lemma FontStyleExpands(fontSize: string)
    ensures ReplaceCss(FontStyleToken, Success(fontSize)) == Success(FontDeclaration(fontSize))
  {
    assert Contains(FontStyleToken, FontStyleToken) by {
      assert FontStyleToken[..|FontStyleToken|] == FontStyleToken;
    }
    assert Replace(FontStyleToken, FontStyleToken, FontStyleDeclaration) == FontStyleDeclaration by {
      ReplaceWhole(FontStyleToken, FontStyleDeclaration);
    }
    assert Replace(FontStyleDeclaration, FontSizeToken, fontSize) == FontDeclaration(fontSize) by {
      FontSizeFilledIn(fontSize);
    }
  }

  /** A stylesheet whose `{font-style}` tokens sit between pieces free of
      both tokens resolves to the same pieces joined by the font declaration
      with the size filled in. */
  lemma ResolveJoined(pieces: seq<string>, fontSize: string)
    requires |pieces| >= 2
    requires PiecesClear(pieces, FontStyleToken) && PiecesClear(pieces, FontSizeToken)
    ensures ReplaceCss(Join(pieces, FontStyleToken), Success(fontSize))
         == Success(Join(pieces, FontDeclaration(fontSize)))
  {
    var css := Join(pieces, FontStyleToken);
    assert ReplaceCss(css, Success(fontSize))
        == Success(Replace(Replace(css, FontStyleToken, FontStyleDeclaration), FontSizeToken, fontSize)) by {
      JoinContainsSeparator(pieces, FontStyleToken);
      StyledWhenPresent(css, fontSize);
    }
    ExpandJoined(pieces, fontSize);
  }

  /** Helper: a stylesheet with `{font-style}` and a font size is expanded
      and then filled in. */
  lemma StyledWhenPresent(css: string, fontSize: string)
    requires Contains(css, FontStyleToken)
    ensures ReplaceCss(css, Success(fontSize))
         == Success(Replace(Replace(css, FontStyleToken, FontStyleDeclaration), FontSizeToken, fontSize))
  {
  }

  /** With a font size that has no `{`, such a stylesheet resolves to text
      with no `{font-style}` and no `{font-size}` left. */
  lemma ResolvedHasNoTokens(pieces: seq<string>, fontSize: string)
    requires |pieces| >= 2
    requires PiecesClear(pieces, FontStyleToken) && PiecesClear(pieces, FontSizeToken)
    requires '{' !in fontSize
    ensures ReplaceCss(Join(pieces, FontStyleToken), Success(fontSize)).Success?
    ensures var resolved := ReplaceCss(Join(pieces, FontStyleToken), Success(fontSize)).value;
      !Contains(resolved, FontStyleToken) && !Contains(resolved, FontSizeToken)
  {
    ResolveJoined(pieces, fontSize);
    DeclarationsJoinedHaveNoTokens(pieces, fontSize);
  }

  /** Helper: token-free pieces joined by the filled-in declaration hold
      neither token. */
  lemma DeclarationsJoinedHaveNoTokens(pieces: seq<string>, fontSize: string)
    requires PiecesClear(pieces, FontStyleToken) && PiecesClear(pieces, FontSizeToken)
    requires '{' !in fontSize
    ensures !Contains(Join(pieces, FontDeclaration(fontSize)), FontStyleToken)
    ensures !Contains(Join(pieces, FontDeclaration(fontSize)), FontSizeToken)
  {
    TokensAreBraced();
    DeclarationsJoinedLack(pieces, fontSize, FontStyleToken);
    DeclarationsJoinedLack(pieces, fontSize, FontSizeToken);
  }

  /** A token that holds a `{` but no space and no `;`. */
  predicate BraceToken(token: string) {
    '{' in token && ' ' !in token && ';' !in token
  }

  /** Helper: `DeclarationsJoinedHaveNoTokens` for one token. */
  lemma DeclarationsJoinedLack(pieces: seq<string>, fontSize: string, token: string)
    requires PiecesClear(pieces, token) && '{' !in fontSize && BraceToken(token)
    ensures !Contains(Join(pieces, FontDeclaration(fontSize)), token)
  {
    DeclarationSlotLacks(pieces, fontSize, token);
  }

  /** Helper: `DeclarationsJoinedLack` with the declaration spelled out. */
  lemma DeclarationSlotLacks(pieces: seq<string>, fontSize: string, token: string)
    requires PiecesClear(pieces, token) && '{' !in fontSize && BraceToken(token)
    ensures !Contains(Join(pieces, FontStylePrefix + fontSize + FontStyleSuffix), token)
  {
    DeclarationEdges();
    SlotJoinLacks(pieces, FontStylePrefix, fontSize, FontStyleSuffix, '{', token);
  }

  /** The CssFontSize override is not checked, so a size that is itself
      `{font-size}` survives resolution. */
  lemma SizeTokenInOverrideSurvives()
    ensures ReplaceCss(FontStyleToken, Success(FontSizeToken)).Success?
    ensures Contains(ReplaceCss(FontStyleToken, Success(FontSizeToken)).value, FontSizeToken)
  {
    FontStyleExpands(FontSizeToken);
    ContainsMiddle(FontStylePrefix, FontSizeToken, FontStyleSuffix);
  }

  /** Helper: the text around the size has no `{`, the prefix ends with a
      space and the suffix is `; `. */
  lemma DeclarationEdges()
    ensures '{' !in FontStylePrefix && '{' !in FontStyleSuffix
    ensures |FontStylePrefix| > 0 && FontStylePrefix[|FontStylePrefix| - 1] == ' '
    ensures FontStyleSuffix == "; "
  {
    PrefixLacksBrace();
    assert FontStylePrefix[|FontStylePrefix| - 1] == FontSizeLabel[|FontSizeLabel| - 1];
  }

  /** Helper: the two replacements of `ReplaceCss` on joined pieces. */
  lemma ExpandJoined(pieces: seq<string>, fontSize: string)
    requires PiecesClear(pieces, FontStyleToken) && PiecesClear(pieces, FontSizeToken)
    ensures Replace(Replace(Join(pieces, FontStyleToken), FontStyleToken, FontStyleDeclaration),
                    FontSizeToken, fontSize)
         == Join(pieces, FontDeclaration(fontSize))
  {
    assert Replace(Join(pieces, FontStyleToken), FontStyleToken, FontStyleDeclaration)
        == Join(pieces, FontStyleDeclaration) by {
      ReplaceJoinBare(pieces, FontStyleToken, FontStyleDeclaration);
    }
    assert Replace(Join(pieces, FontStyleDeclaration), FontSizeToken, fontSize)
        == Join(pieces, FontDeclaration(fontSize)) by {
      DeclarationPartsClear();
      ReplaceJoin(pieces, FontStylePrefix, FontSizeToken, FontStyleSuffix, fontSize);
    }
  }

  /** Helper: the text around the size token holds no size token and does
      not end inside one. */
  lemma DeclarationPartsClear()
    ensures !Contains(FontStylePrefix, FontSizeToken) && EndsClear(FontStylePrefix, FontSizeToken)
    ensures !Contains(FontStyleSuffix, FontSizeToken) && EndsClear(FontStyleSuffix, FontSizeToken)
  {
    PrefixLacksBrace();
    MissingChar(FontStylePrefix, FontSizeToken, '{');
    MissingChar(FontStyleSuffix, FontSizeToken, '{');
  }

  /** Helper: the text before the size has no `{`. */
  lemma PrefixLacksBrace()
    ensures '{' !in FontStylePrefix
  {
    FontFamilyLeadLacks();
    FontFamilyFallbackLacks();
    FontSizeLabelLacks();
  }

  lemma FontFamilyLeadLacks() ensures '{' !in FontFamilyLead {}
  lemma FontFamilyFallbackLacks() ensures '{' !in FontFamilyFallback {}
  lemma FontSizeLabelLacks() ensures '{' !in FontSizeLabel {}

  /** Helper: each token starts with `{` and has no space and no `;`. */
  lemma TokensAreBraced()
    ensures BraceToken(FontStyleToken) && BraceToken(FontSizeToken)
  {
  }
}
