/**
 * Page parsing (code.py, parse_card and parse_url). The HTML lookup is not
 * modelled: a card arrives already extracted, and a fetched page arrives as
 * its status code and the cards found on it, in document order.
 */
module Cards {
  import opened Wrappers
  import opened TagCodec

  /** One extracted card: the title, the ordered tag texts, the tips and the prompt. */
  datatype Card = Card(title: string, tags: seq<string>, tips: string, prompt: string)

  /** One row of a page table, columns [title, class, tips, prompt]; `classes` is the `class` column. */
  datatype Row = Row(title: string, classes: string, tips: string, prompt: string)

  /** The response to one GET: its status code and the cards its body holds. */
  datatype Page = Page(status: int, cards: seq<Card>)

  const StatusOk: int := 200

  /** parse_card: the tags are joined into the `class` string; splitting it gives them back. */
  function ParseCard(card: Card): (r: Row)
    ensures r.title == card.title && r.tips == card.tips && r.prompt == card.prompt
    ensures |card.tags| >= 1 && NoSep(card.tags) ==> Split(r.classes) == card.tags
    ensures |card.tags| == 0 ==> r.classes == "" && Split(r.classes) == [""]
  {
    var classes := Join(card.tags);
    assert |card.tags| >= 1 && NoSep(card.tags) ==> Split(classes) == card.tags by {
      if |card.tags| >= 1 && NoSep(card.tags) { SplitJoin(card.tags); }
    }
    Row(card.title, classes, card.tips, card.prompt)
  }

  /** parse_url: no table unless the status is 200; otherwise one row per card, in order. */
  function ParseUrl(page: Page): (r: Option<seq<Row>>)
    ensures r.None? <==> page.status != StatusOk
    ensures r.Some? ==> |r.value| == |page.cards|
    ensures r.Some? ==> forall i :: 0 <= i < |page.cards| ==>
      && r.value[i].title == page.cards[i].title
      && r.value[i].tips == page.cards[i].tips
      && r.value[i].prompt == page.cards[i].prompt
      && (|page.cards[i].tags| >= 1 && NoSep(page.cards[i].tags) ==> Split(r.value[i].classes) == page.cards[i].tags)
      && (|page.cards[i].tags| == 0 ==> r.value[i].classes == "")
  {
    if page.status != StatusOk then None
    else Some(seq(|page.cards|, i requires 0 <= i < |page.cards| => ParseCard(page.cards[i])))
  }
}
