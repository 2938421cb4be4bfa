# Storefront variant attributes and brand helpers, in Dafny

This project models two small pure parts of a Saleor-based storefront:

- **Variant attribute extraction and badges**
  (`src/ui/components/pdp/variant-selection/optional-attributes.tsx`).
  `extractOptionalAttributes` first picks a product variant. With a truthy
  `selectedVariantId` it takes the first variant carrying that id. Otherwise it
  takes the first variant. It then turns that variant's optional "non-selection"
  attributes into display records through a filter, map, filter chain.
  `VariantAttributeBadges` renders those records as badges. For an empty list
  it renders nothing.
- **Brand configuration** (`src/config/brand.ts`). This is a frozen record of
  display strings and two helpers. `formatPageTitle` substitutes a title for
  the `%s` of the title template with `String.prototype.replace`. The template
  is `%s` followed by `TitleSuffix`: a space, a bar, a space and
  "Heff.industries". `getCopyrightText` builds `"© <year> Heff.industries. All rights reserved."`.

Files:

- `wrappers.dfy`: `Option`. It stands for TypeScript's `T | null | undefined`.
- `js_array.dfy` (module `JsArray`): `find`, `filter`, `map` and `join` as
  functions on sequences. It also proves that a filter keeps exactly the
  elements at the positions where the predicate holds, in order.
- `js_string.dfy` (module `JsString`): `replace` with a string search value,
  including the ECMAScript GetSubstitution `$` patterns, and the
  first-occurrence search it performs; the decimal form a template literal
  gives an integer of magnitude at most 2^53. It also holds two inverses the
  storefront never calls: a parser for decimal forms and `split(", ")`. The
  round-trip lemmas use them.
- `brand.dfy` (module `Brand`): the configuration and the two helpers.
- `optional_attributes.dfy` (module `OptionalAttributes`): the input and output
  shapes, the extractor, the badge renderer and their properties.

The entry points `ExtractOptionalAttributes`, `SelectVariant`,
`VariantAttributeBadges`, `FormatPageTitle` and `GetCopyrightText` have no
precondition. This matches the source, which never throws: malformed
attributes are dropped silently. Some inner steps do carry a precondition,
for example `ToVariantAttribute`, `Narrow`, `JsArray.Map` and
`JsArray.FindFrom`. Each such precondition is met at every call.
JavaScript truthiness is modelled by `Truthy`: a string is truthy when it is
present and not empty.

- `selectedVariantId` is tested for truthiness (optional-attributes.tsx:56).
  An empty-string id therefore acts like no id and falls back to the first
  variant (`EmptyIdActsAsNoId`).
- Names, slugs and value names that are empty strings are dropped, like
  absent ones (optional-attributes.tsx:63 and 67).

## Model

| member | source | states |
|---|---|---|
| `JsArray.FindFrom` | src/ui/components/pdp/variant-selection/optional-attributes.tsx:56 | `find` returns undefined exactly when no element matches; otherwise it returns the first matching element |
| `OptionalAttributes.SelectVariant` | src/ui/components/pdp/variant-selection/optional-attributes.tsx:56 | the chosen variant is one of the inputs; no variant is chosen exactly when the list is empty, or when the id is truthy and matches no variant |
| `OptionalAttributes.NoIdSelectsFirstVariant` | src/ui/components/pdp/variant-selection/optional-attributes.tsx:56 | with an absent or empty id, the first variant's attributes are shown |
| `OptionalAttributes.EmptyIdActsAsNoId` | src/ui/components/pdp/variant-selection/optional-attributes.tsx:56 | an empty-string id gives the same result as no id |
| `OptionalAttributes.IdSelectsFirstMatch` | src/ui/components/pdp/variant-selection/optional-attributes.tsx:56 | a non-empty id shows the attributes of the first variant carrying it |
| `OptionalAttributes.UnmatchedIdGivesNothing` | src/ui/components/pdp/variant-selection/optional-attributes.tsx:56-59 | a non-empty id that no variant carries gives an empty result, with no fallback to the first variant |
| `OptionalAttributes.AbsentListGivesNothing` | src/ui/components/pdp/variant-selection/optional-attributes.tsx:58-59 | a chosen variant without `nonSelectionAttributes` gives an empty result |
| `OptionalAttributes.ExtractOptionalAttributes` | src/ui/components/pdp/variant-selection/optional-attributes.tsx:51-70 | the result is empty when there are no variants, whatever the id; every output attribute has a non-empty name and slug and at least one value, and no value is empty |
| `JsArray.Filter` | src/ui/components/pdp/variant-selection/optional-attributes.tsx:63 | `filter` returns no more elements than it is given, and each one comes from the input and satisfies the predicate |
| `JsArray.Map` | src/ui/components/pdp/variant-selection/optional-attributes.tsx:64-68 | `map` keeps the length and applies the function at every index |
| `JsArray.FilterAtPositions` | src/ui/components/pdp/variant-selection/optional-attributes.tsx:62-69 | a filter's output is the input read at the increasing list of positions where the predicate holds, so it is an order-preserving subsequence |
| `OptionalAttributes.ToVariantAttribute` | src/ui/components/pdp/variant-selection/optional-attributes.tsx:64-68 | the record built for an attribute with a truthy name and slug carries that name and slug, both non-empty, and no more value names than the attribute has values, none of them empty |
| `OptionalAttributes.ValueNames` | src/ui/components/pdp/variant-selection/optional-attributes.tsx:67 | the value names are no more than the values, and none is empty |
| `OptionalAttributes.ValueNamesInOrder` | src/ui/components/pdp/variant-selection/optional-attributes.tsx:67 | the value names are exactly the truthy names of the values, in input order |
| `OptionalAttributes.DisplayableAttributes` | src/ui/components/pdp/variant-selection/optional-attributes.tsx:62-69 | the chain yields at most one record per input attribute, and each record is displayable |
| `OptionalAttributes.AttributesOf` | src/ui/components/pdp/variant-selection/optional-attributes.tsx:58-69 | a variant without an attribute list shows nothing; otherwise it shows at most one displayable record per attribute |
| `OptionalAttributes.ShownIffHasValues` | src/ui/components/pdp/variant-selection/optional-attributes.tsx:67-69 | a named attribute survives the last filter if and only if one of its values has a truthy name |
| `OptionalAttributes.ChainKeepsShown` | src/ui/components/pdp/variant-selection/optional-attributes.tsx:62-69 | the three-step chain equals the reference "keep the attributes with a truthy name, slug and value name, then convert them" |
| `OptionalAttributes.DisplayableAttributesInOrder` | src/ui/components/pdp/variant-selection/optional-attributes.tsx:62-69 | the k-th output is built from the k-th shown input attribute: its name, its slug and its value names; nothing is reordered and no shown attribute is lost |
| `OptionalAttributes.ScenarioSelectedById` | src/ui/components/pdp/variant-selection/optional-attributes.tsx:51-70 | variant "v1" with Material: Cotton, Linen, selected by id, gives that one record with both values |
| `OptionalAttributes.ScenarioNoValueNames` | src/ui/components/pdp/variant-selection/optional-attributes.tsx:67-69 | an attribute whose only value has a null name is dropped |
| `OptionalAttributes.ScenarioSecondVariant` | src/ui/components/pdp/variant-selection/optional-attributes.tsx:56 | with two variants and the second one's id, only the second variant's attributes are shown |
| `OptionalAttributes.VariantAttributeBadges` | src/ui/components/pdp/variant-selection/optional-attributes.tsx:16-34 | the renderer gives nothing exactly when the list is empty; otherwise it gives one badge per attribute, in order, keyed by the slug, showing the name followed by ":" and the values joined with ", " |
| `OptionalAttributes.BadgeFor` | src/ui/components/pdp/variant-selection/optional-attributes.tsx:23-30 | a badge is keyed by the slug, its name text is the name and a colon, and its value text starts with the first value, so a displayable attribute never renders an empty value text |
| `OptionalAttributes.BadgeShowsAttribute` | src/ui/components/pdp/variant-selection/optional-attributes.tsx:28-29 | a badge shows the name followed by ":"; when no value holds a comma, splitting its value text on ", " gives the values back in order |
| `JsArray.Join` | src/ui/components/pdp/variant-selection/optional-attributes.tsx:29 | a join of one or more parts starts with the first part |
| `JsArray.JoinCons` | src/ui/components/pdp/variant-selection/optional-attributes.tsx:29 | `join` read left to right equals the first part, the separator, then the rest joined |
| `JsArray.JoinLength` | src/ui/components/pdp/variant-selection/optional-attributes.tsx:29 | a join of n parts is as long as the parts plus n - 1 separators |
| `JsString.SplitJoinRoundTrip` | src/ui/components/pdp/variant-selection/optional-attributes.tsx:29 | splitting a ", " join gives the parts back when no part holds a comma |
| `Brand.BrandNamesAgree` | src/config/brand.ts:16-50 | the configuration names one brand throughout: the organization, the default brand and the title template's suffix use the copyright holder, and the site name is the holder followed by " Store" |
| `Brand.SocialHandlesDisabled` | src/config/brand.ts:42-50 | all three social handles are null |
| `Brand.PlaceholderAtStart` | src/config/brand.ts:38 | the first `%s` of the title template is at its start, followed by `TitleSuffix` (a space, the bar, a space and the brand name) |
| `Brand.PlaceholderOnlyOnce` | src/config/brand.ts:38 | the title template holds no other `%s` |
| `JsString.IndexOfFrom` | src/config/brand.ts:56 | the search inside `replace` returns the first occurrence at or after the start index, and none when there is no occurrence |
| `JsString.Replace` | src/config/brand.ts:56 | `replace` with a string search value leaves the text unchanged when there is no match; otherwise it keeps everything before the first match and everything after it |
| `JsString.Substitution` | src/config/brand.ts:56 | the `$`-expansion step of `replace` passes a replacement string without `$` through unchanged |
| `JsString.ReplaceVerbatim` | src/config/brand.ts:56 | with a `$`-free replacement, the first occurrence is swapped for it literally |
| `Brand.FormatPageTitle` | src/config/brand.ts:55-57 | every page title, whatever the title holds, ends with `TitleSuffix` |
| `Brand.FormatPageTitleVerbatim` | src/config/brand.ts:55-57 | a title without `$` gives the title followed by `TitleSuffix`, and the result's length is the template's length minus 2 plus the title's length |
| `Brand.FormatPageTitleShoes` | src/config/brand.ts:56 | `formatPageTitle("Shoes")` is "Shoes", then a space, a bar, a space and "Heff.industries" |
| `Brand.FormatPageTitleMatchPattern` | src/config/brand.ts:56 | the title "$&" gives back the template itself, with `%s`, rather than "$&" followed by `TitleSuffix` |
| `Brand.FormatPageTitleDollarPattern` | src/config/brand.ts:56 | a `$`-free title followed by "$$" loses one dollar sign |
| `Brand.FormatPageTitleLiteral` | src/config/brand.ts:55-57 | the corrected helper puts any title, `$` included, in front of `TitleSuffix` |
| `JsString.NatToDecimal` | src/config/brand.ts:64 | the decimal form of a natural number is a non-empty string of digits with no leading zero; only 0 is printed with a leading "0", and then as "0" alone |
| `JsString.IntToDecimal` | src/config/brand.ts:64 | `${year}` begins with "-" exactly when the year is negative, and the rest is decimal digits |
| `JsString.IntegerRoundTrip` | src/config/brand.ts:64 | reading back the decimal form of an integer gives the integer |
| `Brand.GetCopyrightText` | src/config/brand.ts:63-64 | the year can be parsed back out of every copyright line |
| `Brand.CopyrightTextShape` | src/config/brand.ts:63-64 | the copyright line is "© ", then the decimal year, then " " + `copyrightHolder` + ". All rights reserved." |
| `Brand.CopyrightTextInjective` | src/config/brand.ts:63-64 | different years give different copyright lines |

## Left out

- JSX markup, CSS class names and React rendering in `VariantAttributeBadges`. A badge is modelled by its text content: the slug key, the name text `name:` and the values joined with ", ".
- The `OptionalAttributes` alias (optional-attributes.tsx:37). It is the same function under a second name.
- The `new Date().getFullYear()` default of `getCopyrightText`. It reads the system clock, so the model takes the year as an explicit parameter.
- Brand.GetCopyrightText: the year is an unbounded Dafny `int`, and the model matches `${year}` only for integers of magnitude at most 2^53. Above 2^53 a Number cannot hold every integer, and JavaScript prints the shortest digits that identify the double followed by zeros (`2**64` prints "18446744073709552000"). From 10^21 up it uses exponent form, and non-integral years print fraction digits. These cases are floating-point behaviour and are not modelled.
- The descriptive brand strings `tagline`, `description` and `logoAriaLabel`. They are kept as fields of the configuration record, but nothing is proved about them alone because they have no behaviour. `BrandNamesAgree` relates `siteName`, `organizationName` and `defaultBrand` to the copyright holder.
- `undefined` and `null` are both modelled as `None`. The code treats them the same way.
- Strings are sequences of Dafny characters, not UTF-16 code units. No code path here depends on the difference.
- OptionalAttributes.BadgeShowsAttribute: it recovers the values from the value text only when no value contains a comma. Values such as care instructions often do contain commas, and then splitting on ", " does not give the values back. For every list, `VariantAttributeBadges` still states the value text exactly as the ", " join of the values.

## Findings

| source | as written | input that shows it | evidently intended | confidence | as-written member | corrected member |
|---|---|---|---|---|---|---|
| src/config/brand.ts:56 | `titleTemplate.replace("%s", title)` passes the title as a replacement pattern, so `$&`, `$$`, `` $` `` and `$'` in the title are expanded | the title "$&" gives the template itself, `%s` included; "Deals $$" gives "Deals $" followed by `TitleSuffix` | the title is inserted as written, followed by `TitleSuffix` | medium; not executed | `Brand.FormatPageTitleMatchPattern` | `Brand.FormatPageTitleLiteral` |
