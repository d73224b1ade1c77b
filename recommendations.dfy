/**
 * The recommendation lists of the Tax Optimizer page, the CIBIL Advisor page
 * and the PDF report: one `<li>` item per recommendation, in order, or a
 * single fallback item when the list is missing or empty.
 */
module Recommendations {
  import opened Optional

  /** The shared tail of both fallback messages. */
  const Unavailable: string := " recommendations" + " available at" + " this time."

  /** "No specific tax recommendations available at this time." */
  const TaxFallback: string := "No specific tax" + Unavailable

  /** "No specific CIBIL recommendations available at this time." */
  const CibilFallback: string := "No specific CIBIL" + Unavailable

  /** `<li>${text}</li>` */
  function ListItem(text: string): string
  {
    "<li>" + text + "</li>"
  }

  /** `recs.map(rec => `<li>${rec}</li>`)`: one item per recommendation, in order. */
  function ItemsOf(recs: seq<string>): (items: seq<string>)
    ensures |items| == |recs|
    ensures forall i :: 0 <= i < |recs| ==> items[i] == ListItem(recs[i])
  {
    if recs == [] then [] else [ListItem(recs[0])] + ItemsOf(recs[1..])
  }

  /** `items.join('')` */
  function Join(items: seq<string>): string
  {
    if items == [] then "" else items[0] + Join(items[1..])
  }

  /** The texts that make up the list: the recommendations, or the fallback alone. */
  function ListedTexts(recs: Option<seq<string>>, fallback: string): seq<string>
  {
    if recs.Some? && |recs.value| > 0 then recs.value else [fallback]
  }

  /** `recs && recs.length > 0 ? recs.map(...).join('') : '<li>fallback</li>'` */
  function RecommendationsHtml(recs: Option<seq<string>>, fallback: string): string
  {
    if recs.Some? && |recs.value| > 0 then Join(ItemsOf(recs.value)) else ListItem(fallback)
  }

  /** The list on the Tax Optimizer page and in the report's tax section. */
  function TaxRecommendationsHtml(recs: Option<seq<string>>): string
  {
    RecommendationsHtml(recs, TaxFallback)
  }

  /** The list on the CIBIL Advisor page and in the report's CIBIL section. */
  function CibilRecommendationsHtml(recs: Option<seq<string>>): string
  {
    RecommendationsHtml(recs, CibilFallback)
  }

  // ---------------------------------------------------------------------------
  // Reading the list back
  // ---------------------------------------------------------------------------

  /** Text that holds no tag. */
  predicate Plain(text: string)
  {
    '<' !in text
  }

  /** The end of the text that starts at `i`: the next '<', or the end of `s`. */
  function TextEnd(s: string, i: nat): (k: nat)
    requires i <= |s|
    ensures i <= k <= |s|
    ensures forall j :: i <= j < k ==> s[j] != '<'
    ensures k < |s| ==> s[k] == '<'
    decreases |s| - i
  {
    if i == |s| || s[i] == '<' then i else TextEnd(s, i + 1)
  }

  /** Splits `<li>a</li><li>b</li>...` into the texts of its items. */
  function ParseItems(html: string): Option<seq<string>>
    decreases |html|
  {
    if html == [] then Some([])
    else if |html| < 4 || html[..4] != "<li>" then None
    else
      var k := TextEnd(html, 4);
      if k + 5 <= |html| && html[k..k + 5] == "</li>" then
        match ParseItems(html[k + 5..])
        case Some(rest) => Some([html[4..k]] + rest)
        case None => None
      else None
  }

  /** An item of plain text followed by anything parses back to its text. */
  lemma ParseItemThen(text: string, tail: string)
    requires Plain(text)
    ensures ParseItems(ListItem(text) + tail) ==
              match ParseItems(tail)
              case Some(rest) => Some([text] + rest)
              case None => None
  {
    var html := ListItem(text) + tail;
    var k := 4 + |text|;
    assert html[..4] == "<li>";
    assert html[4..k] == text;
    assert html[k..k + 5] == "</li>";
    assert html[k + 5..] == tail;
    forall j | 4 <= j < k
      ensures html[j] != '<'
    {
      assert html[j] == text[j - 4] && text[j - 4] in text;
    }
    assert html[k] == '<';
    assert TextEnd(html, 4) == k;
  }

  /** Rendering plain texts as items and joining them can be read back exactly. */
  lemma {:induction false} ItemsRoundTrip(texts: seq<string>)
    requires forall i :: 0 <= i < |texts| ==> Plain(texts[i])
    ensures ParseItems(Join(ItemsOf(texts))) == Some(texts)
  {
    if texts != [] {
      ItemsRoundTrip(texts[1..]);
      assert ItemsOf(texts)[1..] == ItemsOf(texts[1..]);
      ParseItemThen(texts[0], Join(ItemsOf(texts[1..])));
      assert [texts[0]] + texts[1..] == texts;
    }
  }

  /**
   * The rendered list holds exactly one item per recommendation, in order,
   * when there are any, and exactly one fallback item when the list is
   * missing or empty.
   */
  lemma RenderedItems(recs: Option<seq<string>>, fallback: string)
    requires recs.Some? ==> forall i :: 0 <= i < |recs.value| ==> Plain(recs.value[i])
    requires Plain(fallback)
    ensures ParseItems(RecommendationsHtml(recs, fallback)) == Some(ListedTexts(recs, fallback))
  {
    if recs.Some? && |recs.value| > 0 {
      ItemsRoundTrip(recs.value);
    } else {
      ParseItemThen(fallback, "");
      assert ListItem(fallback) + "" == ListItem(fallback);
      assert [fallback] + [] == [fallback];
    }
  }

  /** The rendered list is never empty: it always starts with an item. */
  lemma NeverEmpty(recs: Option<seq<string>>, fallback: string)
    ensures |RecommendationsHtml(recs, fallback)| >= 9
    ensures RecommendationsHtml(recs, fallback)[..4] == "<li>"
  {
    if recs.Some? && |recs.value| > 0 {
      var items := ItemsOf(recs.value);
      assert Join(items) == items[0] + Join(items[1..]);
      assert items[0] == ListItem(recs.value[0]);
    }
  }

  /** Neither fallback message holds a tag. */
  lemma FallbacksPlain()
    ensures Plain(TaxFallback) && Plain(CibilFallback)
  {
    assert Plain(" recommendations") && Plain(" available at") && Plain(" this time.");
    assert Plain(Unavailable);
    assert Plain("No specific tax") && Plain("No specific CIBIL");
  }

  /**
   * The tax list reads back as the tax recommendations, in order, or as the
   * single tax fallback message when they are missing or empty.
   */
  lemma TaxListRendered(recs: Option<seq<string>>)
    requires recs.Some? ==> forall i :: 0 <= i < |recs.value| ==> Plain(recs.value[i])
    ensures ParseItems(TaxRecommendationsHtml(recs)) ==
              Some(if recs.Some? && |recs.value| > 0 then recs.value else [TaxFallback])
  {
    FallbacksPlain();
    RenderedItems(recs, TaxFallback);
  }

  /**
   * The CIBIL list reads back as the CIBIL recommendations, in order, or as
   * the single CIBIL fallback message when they are missing or empty.
   */
  lemma CibilListRendered(recs: Option<seq<string>>)
    requires recs.Some? ==> forall i :: 0 <= i < |recs.value| ==> Plain(recs.value[i])
    ensures ParseItems(CibilRecommendationsHtml(recs)) ==
              Some(if recs.Some? && |recs.value| > 0 then recs.value else [CibilFallback])
  {
    FallbacksPlain();
    RenderedItems(recs, CibilFallback);
  }
}
