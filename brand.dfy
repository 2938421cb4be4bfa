/**
 * The storefront's branding settings: a frozen record of display strings and
 * the two helpers that format a page title and a copyright line from it.
 */
module Brand {
  import opened Wrappers
  import opened JsString

  /** Social media handles; None disables the link. */
  datatype Social = Social(twitter: Option<string>, instagram: Option<string>, facebook: Option<string>)

  datatype BrandConfig = BrandConfig(
    siteName: string,
    copyrightHolder: string,
    organizationName: string,
    defaultBrand: string,
    tagline: string,
    description: string,
    logoAriaLabel: string,
    titleTemplate: string,
    social: Social)

  /** The legal entity named in copyright notices. */
  const CopyrightHolder: string := "Heff.industries"

  /** The placeholder the title template carries, and the text it puts after the title. */
  const Placeholder: string := "%s"
  const TitleSuffix: string := " | Heff.industries"

  /** The page title template, "%s | Heff.industries". */
  const TitleTemplate: string := Placeholder + TitleSuffix

  /** The configuration; a Dafny constant, as the `as const` object is frozen. */
  const brandConfig: BrandConfig := BrandConfig(
    "Heff.industries Store",
    CopyrightHolder,
    "Heff.industries",
    "Heff.industries",
    "Heff.industries supplies several brands with products their consumers adore. Our Engineering, Your Brand.",
    "Heff.industries home page for building performant e-commerce experiences with Saleor.",
    "Store",
    TitleTemplate,
    Social(None, None, None))

  /** The configuration names one brand throughout: the holder, the organization, the default brand, the site name and the title suffix agree. */
  lemma BrandNamesAgree()
    ensures brandConfig.organizationName == brandConfig.copyrightHolder
    ensures brandConfig.defaultBrand == brandConfig.copyrightHolder
    ensures brandConfig.siteName == brandConfig.copyrightHolder + " Store"
    ensures brandConfig.titleTemplate == Placeholder + " | " + brandConfig.copyrightHolder
  {
  }

  /** All social handles are disabled. */
  lemma SocialHandlesDisabled()
    ensures brandConfig.social.twitter.None?
    ensures brandConfig.social.instagram.None?
    ensures brandConfig.social.facebook.None?
  {
  }

  /** The first occurrence of the placeholder is at the start of the template. */
  lemma PlaceholderAtStart()
    ensures IndexOf(TitleTemplate, Placeholder) == Some(0)
    ensures TitleTemplate[..0] == [] && TitleTemplate[|Placeholder|..] == TitleSuffix
  {
    assert TitleTemplate[0..2] == Placeholder;
  }

  /** It is also the only one: the template holds exactly one `%s`. */
  lemma PlaceholderOnlyOnce()
    ensures forall j :: 0 < j <= |TitleTemplate| ==> !OccursAt(TitleTemplate, Placeholder, j)
  {
    var t := TitleTemplate;
    assert '%' !in TitleSuffix;
    forall j | 0 < j <= |t| ensures !OccursAt(t, Placeholder, j) {
      if j + 2 <= |t| {
        assert t[j] == if j == 1 then 's' else TitleSuffix[j - 2];
        assert t[j..j + 2][0] == t[j];
      }
    }
  }

  /**
   * `formatPageTitle(title)`: the template with its `%s` replaced by
   * `String.prototype.replace`. Whatever the title holds, the page title ends
   * with the brand suffix.
   */
  function FormatPageTitle(title: string): (r: string)
    ensures |r| >= |TitleSuffix| && r[|r| - |TitleSuffix|..] == TitleSuffix
  {
    PlaceholderAtStart();
    Replace(brandConfig.titleTemplate, Placeholder, title)
  }

  /**
   * A title without `$` is put in front of " | Heff.industries"; since only the
   * template's one `%s` is replaced, the result is |template| - 2 + |title| long.
   */
  lemma FormatPageTitleVerbatim(title: string)
    requires '$' !in title
    ensures FormatPageTitle(title) == title + TitleSuffix
    ensures |FormatPageTitle(title)| == |TitleTemplate| - |Placeholder| + |title|
  {
    PlaceholderAtStart();
    ReplaceVerbatim(TitleTemplate, Placeholder, title, 0);
    calc {
      FormatPageTitle(title);
      TitleTemplate[..0] + title + TitleTemplate[|Placeholder|..];
      [] + title + TitleSuffix;
      { assert [] + title == title; }
      title + TitleSuffix;
    }
  }

  lemma FormatPageTitleShoes()
    ensures FormatPageTitle("Shoes") == "Shoes | Heff.industries"
  {
    assert '$' !in "Shoes";
    FormatPageTitleVerbatim("Shoes");
    ShoesTitleText();
  }

  /** The literal comparison on its own, away from the facts about `replace` that make it costly. */
  lemma ShoesTitleText()
    ensures "Shoes" + TitleSuffix == "Shoes | Heff.industries"
  {
    assert "Shoes" + TitleSuffix == "Shoes | Heff.industries";
  }

  /** A title of `$&` is replaced by the matched placeholder: the template comes back unchanged. */
  lemma FormatPageTitleMatchPattern()
    ensures FormatPageTitle("$&") == TitleTemplate
    ensures FormatPageTitle("$&") != "$&" + TitleSuffix
  {
    PlaceholderAtStart();
    assert Substitution(Placeholder, [], TitleSuffix, "$&"[2..]) == [];
    assert TitleTemplate[1] != "$&"[1];
  }

  /** A title ending in `$$` loses one of the two dollar signs. */
  lemma FormatPageTitleDollarPattern(x: string)
    requires '$' !in x
    ensures FormatPageTitle(x + "$$") == x + "$" + TitleSuffix
  {
    PlaceholderAtStart();
    SubstitutionLiteralPrefix(Placeholder, [], TitleSuffix, x, "$$");
    assert Substitution(Placeholder, [], TitleSuffix, "$$") == "$" + Substitution(Placeholder, [], TitleSuffix, []);
    assert [] + (x + "$") + TitleSuffix == x + "$" + TitleSuffix;
  }

  /** The title placed in the template as written, whatever characters it holds. */
  function FormatPageTitleLiteral(title: string): (r: string)
    ensures r == title + TitleSuffix
  {
    PlaceholderAtStart();
    ReplaceWith(brandConfig.titleTemplate, Placeholder, title)
  }

  /** The sentence that follows the year. */
  const CopyrightTail: string := " " + brandConfig.copyrightHolder + ". All rights reserved."
  const CopyrightHead: string := "© "

  /** `getCopyrightText(year)` for an explicit integral year; the year can be read back from it. */
  function GetCopyrightText(year: int): (r: string)
    ensures ParseCopyrightYear(r) == Some(year)
  {
    var text := CopyrightHead + IntToDecimal(year) + CopyrightTail;
    assert text[..|CopyrightHead|] == CopyrightHead;
    assert text[|text| - |CopyrightTail|..] == CopyrightTail;
    assert text[|CopyrightHead|..|text| - |CopyrightTail|] == IntToDecimal(year);
    IntegerRoundTrip(year);
    text
  }

  /** The copyright line starts with "© " and the year, and ends with the holder's sentence. */
  lemma CopyrightTextShape(year: int)
    ensures var text := GetCopyrightText(year);
            var n := |IntToDecimal(year)|;
            && |text| == 2 + n + |CopyrightTail|
            && text[..2] == "© "
            && text[2..2 + n] == IntToDecimal(year)
            && text[2 + n..] == " " + brandConfig.copyrightHolder + ". All rights reserved."
  {
    var text := GetCopyrightText(year);
    var n := |IntToDecimal(year)|;
    assert text[2 + n..] == CopyrightTail;
  }

  /** Recovers the year from a copyright line, or None if the text is not one. */
  function ParseCopyrightYear(text: string): Option<int> {
    var h, t := |CopyrightHead|, |CopyrightTail|;
    if |text| >= h + t && text[..h] == CopyrightHead && text[|text| - t..] == CopyrightTail
    then ParseInteger(text[h..|text| - t])
    else None
  }

  /** Different years give different copyright lines. */
  lemma CopyrightTextInjective(y1: int, y2: int)
    requires GetCopyrightText(y1) == GetCopyrightText(y2)
    ensures y1 == y2
  {
  }
}
