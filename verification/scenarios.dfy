/** Small catalogs run through the model: one card on both pages, and a tag that over-matches. */
module Scenarios {
  import opened Wrappers
  import opened Text
  import opened TagCodec
  import opened Cards
  import opened Aggregate

  /** A one-row table puts that row, as row 0, under each of its tags. */
  lemma SingleRowPartition(row: MergedRow)
    ensures Partition([row]) == Ok(map c | c in Split(row.classes) :: [DropClass(row)])
  {
    var table := [row];
    SingleRowCategories(row);
    var want := map c | c in Split(row.classes) :: [DropClass(row)];
    var groups := Partition(table).value;
    assert groups.Keys == want.Keys;
    forall t | t in groups ensures groups[t] == want[t] {
      SingleRowGroup(row, t);
    }
    assert groups == want;
  }

  lemma SingleRowCategories(row: MergedRow)
    ensures Categories([row]) == set c | c in Split(row.classes)
  {
    assert [row][..0] == [];
    assert AllTags([row]) == Split(row.classes);
  }

  /** Each tag of a lone row selects that row. */
  lemma SingleRowGroup(row: MergedRow, t: string)
    requires t in Split(row.classes)
    ensures DropGroup(Group([row], t)) == [DropClass(row)]
  {
    SplitPiecesOccur(row.classes);
    var g := Group([row], t);
    assert g == [row] by {
      assert Contains(row.classes, t);
      assert [row][..0] == [];
    }
    DropOne(row);
  }

  lemma DropOne(row: MergedRow)
    ensures DropGroup([row]) == [DropClass(row)]
  {
    var d := DropGroup([row]);
    assert |d| == 1 && d[0] == DropClass(row);
  }

  /** Two one-card pages merge into one row carrying the Chinese prompt. */
  lemma OneCardTable(en: Card, cn: Card)
    ensures Merge(ParseUrl(Page(StatusOk, [en])).value, ParseUrl(Page(StatusOk, [cn])).value)
         == Aligned([MergedRow(en.title, Join(en.tags), en.tips, en.prompt, Some(cn.prompt))])
  {
  }

  lemma OneCardRun(en: Card, cn: Card)
    ensures Run(Page(StatusOk, [en]), Page(StatusOk, [cn]))
         == Partition([MergedRow(en.title, Join(en.tags), en.tips, en.prompt, Some(cn.prompt))])
  {
    OneCardTable(en, cn);
  }

  /** A card with two tags, on both pages, appears once under each tag with its Chinese prompt. */
  lemma OneCardTwoTags(en: Card, cn: Card)
    requires |en.tags| == 2 && NoSep(en.tags)
    ensures Run(Page(StatusOk, [en]), Page(StatusOk, [cn]))
         == Ok(map[en.tags[0] := [OutRow(en.title, en.tips, en.prompt, Some(cn.prompt))],
                   en.tags[1] := [OutRow(en.title, en.tips, en.prompt, Some(cn.prompt))]])
  {
    var row := MergedRow(en.title, Join(en.tags), en.tips, en.prompt, Some(cn.prompt));
    OneCardRun(en, cn);
    SplitJoin(en.tags);
    SingleRowPartition(row);
    TwoKeys(en.tags, [DropClass(row)]);
  }

  lemma TwoKeys<V>(keys: seq<string>, v: V)
    requires |keys| == 2
    ensures (map c | c in keys :: v) == map[keys[0] := v, keys[1] := v]
  {
    assert keys == [keys[0], keys[1]];
  }

  const BrainstormEn: Card := Card("Brainstorm", ["Writing", "Ideation"], "Generate ideas", "List 10 ideas about {topic}")
  const BrainstormCn: Card := Card("头脑风暴", ["写作", "创意"], "产生想法", "列出10个关于{topic}的想法")
  const BrainstormOut: OutRow := OutRow("Brainstorm", "Generate ideas", "List 10 ideas about {topic}", Some("列出10个关于{topic}的想法"))

  const BrainstormGroups: map<string, seq<OutRow>> := map["Writing" := [BrainstormOut], "Ideation" := [BrainstormOut]]

  /** The "Brainstorm" card lands under "Writing" and under "Ideation", each time with its Chinese prompt. */
  lemma BrainstormScenario()
    ensures Run(Page(200, [BrainstormEn]), Page(200, [BrainstormCn])) == Ok(BrainstormGroups)
  {
    OneCardTwoTags(BrainstormEn, BrainstormCn);
  }

  /**
   * The Brainstorm groups of `BrainstormScenario` written out: two rows, one
   * per tag, each numbered 0 within its category, in whichever order the
   * category set yields.
   */
  lemma BrainstormSheet()
    ensures Concat(BrainstormGroups, ["Writing", "Ideation"])
         == [KeyedRow("Writing", 0, BrainstormOut), KeyedRow("Ideation", 0, BrainstormOut)]
    ensures Concat(BrainstormGroups, ["Ideation", "Writing"])
         == [KeyedRow("Ideation", 0, BrainstormOut), KeyedRow("Writing", 0, BrainstormOut)]
  {
    ConcatOfSingletons(BrainstormGroups, "Writing", "Ideation", BrainstormOut);
    ConcatOfSingletons(BrainstormGroups, "Ideation", "Writing", BrainstormOut);
  }

  /** Two one-row groups concatenate to two rows, each numbered 0. */
  lemma ConcatOfSingletons(groups: map<string, seq<OutRow>>, a: string, b: string, x: OutRow)
    requires a in groups && b in groups && groups[a] == [x] && groups[b] == [x]
    ensures Concat(groups, [a, b]) == [KeyedRow(a, 0, x), KeyedRow(b, 0, x)]
  {
    assert [a, b][1..] == [b];
    assert [b][1..] == [];
    KeyedOne(a, x);
    KeyedOne(b, x);
    assert Concat(groups, [b]) == Keyed(b, [x]) + Concat(groups, []);
    assert Concat(groups, [a, b]) == Keyed(a, [x]) + Concat(groups, [b]);
  }

  lemma KeyedOne(c: string, x: OutRow)
    ensures Keyed(c, [x]) == [KeyedRow(c, 0, x)]
  {
    var k := Keyed(c, [x]);
    assert |k| == 1 && k[0] == KeyedRow(c, 0, x);
  }
}
