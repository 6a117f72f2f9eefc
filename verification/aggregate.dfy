/**
 * The module-level aggregation of code.py: the positional merge of the two
 * page tables (lines 77-78), the category set (lines 81-82), the per-category
 * groups (line 83) and their concatenation without the `class` column (line 84).
 */
module Aggregate {
  import opened Wrappers
  import opened Text
  import opened TagCodec
  import opened Cards

  /** A row of the merged table; `promptCn` is None where pandas would hold NaN. */
  datatype MergedRow = MergedRow(title: string, classes: string, tips: string, prompt: string, promptCn: Option<string>)

  /** A row of the result table: the merged row without its `class` column. */
  datatype OutRow = OutRow(title: string, tips: string, prompt: string, promptCn: Option<string>)

  /** A result row with its two index levels, the category and the row number within it. */
  datatype KeyedRow = KeyedRow(category: string, no: nat, row: OutRow)

  /**
   * The ways the script stops before writing: a page that was not fetched,
   * a `class` cell holding NaN (which has no `split`), or nothing to concatenate.
   */
  datatype Failure = EnglishPageMissing | ChinesePageMissing | ClassIsNaN | NoObjectsToConcatenate

  /**
   * The frame after line 78. Normally the English rows with their `prompt_cn`;
   * but a frame with no rows takes the index of the Series assigned to it, so
   * an empty English table merged with a non-empty Chinese one becomes `n`
   * rows whose English columns are all NaN.
   */
  datatype MergedTable = Aligned(rows: seq<MergedRow>) | AdoptedIndex(n: nat)

  function EnglishRow(m: MergedRow): Row {
    Row(m.title, m.classes, m.tips, m.prompt)
  }

  function DropClass(m: MergedRow): OutRow {
    OutRow(m.title, m.tips, m.prompt, m.promptCn)
  }

  /**
   * `df = df_en.copy(); df['prompt_cn'] = df_cn['prompt']`: the assignment
   * aligns on the row index, so English row i takes Chinese row i when there
   * is one; an English frame without rows adopts the Chinese index instead.
   */
  function Merge(en: seq<Row>, cn: seq<Row>): (r: MergedTable)
    ensures r.AdoptedIndex? <==> |en| == 0 && |cn| > 0
    ensures r.AdoptedIndex? ==> r.n == |cn|
    ensures r.Aligned? ==> |r.rows| == |en|
    // the English table is kept as it was: dropping `prompt_cn` gives it back
    ensures r.Aligned? ==> forall i :: 0 <= i < |en| ==> EnglishRow(r.rows[i]) == en[i]
    // `prompt_cn[i]` is the Chinese prompt of row i, missing only past the end of the Chinese table
    ensures r.Aligned? ==> forall i :: 0 <= i < |en| ==> (r.rows[i].promptCn.Some? <==> i < |cn|)
    ensures r.Aligned? ==> forall i :: 0 <= i < |en| && i < |cn| ==> r.rows[i].promptCn == Some(cn[i].prompt)
  {
    if |en| == 0 && |cn| > 0 then AdoptedIndex(|cn|)
    else
      Aligned(seq(|en|, i requires 0 <= i < |en| =>
        MergedRow(en[i].title, en[i].classes, en[i].tips, en[i].prompt,
                  if i < |cn| then Some(cn[i].prompt) else None)))
  }

  /** The flattened list of line 82: each row's split `class` string, row after row. */
  function AllTags(table: seq<MergedRow>): (r: seq<string>)
    ensures |r| >= |table|
  {
    if |table| == 0 then []
    else AllTags(table[..|table| - 1]) + Split(table[|table| - 1].classes)
  }

  /** The category set of line 82; every `class` string splits into at least one piece, so it is empty only for an empty table. */
  function Categories(table: seq<MergedRow>): (cats: set<string>)
    ensures cats == {} <==> |table| == 0
  {
    var cats := set c | c in AllTags(table);
    assert |table| > 0 ==> AllTags(table)[0] in cats;
    cats
  }

  /** The categories are exactly the tags of the rows: each row's tags are in it, and nothing else is. */
  lemma CategoriesExact(table: seq<MergedRow>)
    ensures forall c :: c in Categories(table) <==> exists i :: 0 <= i < |table| && c in Split(table[i].classes)
  {
    forall c | c in AllTags(table) ensures exists i :: 0 <= i < |table| && c in Split(table[i].classes) {
      var i := AllTagsSource(table, c);
    }
    forall i, c | 0 <= i < |table| && c in Split(table[i].classes) ensures c in AllTags(table) {
      AllTagsOf(table, i, c);
    }
  }

  /** A tag of row i is in the flattened list. */
  lemma {:induction false} AllTagsOf(table: seq<MergedRow>, i: nat, c: string)
    requires i < |table| && c in Split(table[i].classes)
    ensures c in AllTags(table)
  {
    var last := |table| - 1;
    if i < last {
      var init := table[..last];
      assert init[i] == table[i];
      AllTagsOf(init, i, c);
    }
  }

  /** Every entry of the flattened list comes from some row. */
  lemma {:induction false} AllTagsSource(table: seq<MergedRow>, c: string) returns (i: nat)
    requires c in AllTags(table)
    ensures i < |table| && c in Split(table[i].classes)
  {
    var last := |table| - 1;
    if c in Split(table[last].classes) {
      i := last;
    } else {
      var init := table[..last];
      i := AllTagsSource(init, c);
      assert init[i] == table[i];
    }
  }

  /** The original indices, in increasing order, of the rows whose `class` string contains `c`. */
  function Positions(table: seq<MergedRow>, c: string): (ps: seq<nat>)
    ensures forall j :: 0 <= j < |ps| ==> ps[j] < |table|
    ensures forall j, k :: 0 <= j < k < |ps| ==> ps[j] < ps[k]
    ensures forall i :: 0 <= i < |table| ==> (i in ps <==> Contains(table[i].classes, c))
  {
    if |table| == 0 then []
    else
      var last := |table| - 1;
      var ps := Positions(table[..last], c);
      if Contains(table[last].classes, c) then ps + [last] else ps
  }

  /**
   * `df[df['class'].str.contains(c)].reset_index(drop=True)`: the selected rows
   * in table order, renumbered from 0; row j of the group is the j-th selected row.
   */
  function Group(table: seq<MergedRow>, c: string): (g: seq<MergedRow>)
    ensures |g| == |Positions(table, c)|
    ensures forall j :: 0 <= j < |g| ==> g[j] == table[Positions(table, c)[j]]
  {
    if |table| == 0 then []
    else
      var last := |table| - 1;
      var init := table[..last];
      var g := Group(init, c);
      assert forall j :: 0 <= j < |g| ==> g[j] == table[Positions(init, c)[j]] by {
        forall j | 0 <= j < |g| ensures g[j] == table[Positions(init, c)[j]] {
          assert table[Positions(init, c)[j]] == init[Positions(init, c)[j]];
        }
      }
      g + (if Contains(table[last].classes, c) then [table[last]] else [])
  }

  /** Every row lies in the group of each of its own tags. */
  lemma OwnTagsMatch(table: seq<MergedRow>, i: nat, t: string)
    requires i < |table| && t in Split(table[i].classes)
    ensures t in Categories(table)
    ensures i in Positions(table, t)
    ensures table[i] in Group(table, t)
  {
    CategoriesExact(table);
    SplitPiecesOccur(table[i].classes);
    var ps := Positions(table, t);
    var j :| 0 <= j < |ps| && ps[j] == i;
    assert Group(table, t)[j] == table[i];
  }

  /** A row without tags has the empty category, which every row contains, so its group is the whole table. */
  lemma EmptyTagMatchesAll(table: seq<MergedRow>, i: nat)
    requires i < |table| && table[i].classes == ""
    ensures "" in Categories(table)
    ensures Group(table, "") == table
  {
    OwnTagsMatch(table, i, "");
    forall k | 0 <= k < |table| ensures Contains(table[k].classes, "") { ContainsEmpty(table[k].classes); }
    GroupOfCommon(table, "");
  }

  /** A category that every row contains selects the whole table, in order. */
  lemma {:induction false} GroupOfCommon(table: seq<MergedRow>, c: string)
    requires forall k :: 0 <= k < |table| ==> Contains(table[k].classes, c)
    ensures Group(table, c) == table
  {
    if |table| > 0 {
      var last := |table| - 1;
      var init := table[..last];
      assert Contains(table[last].classes, c);
      assert forall k :: 0 <= k < |init| ==> Contains(init[k].classes, c) by {
        forall k | 0 <= k < |init| ensures Contains(init[k].classes, c) { assert init[k] == table[k]; }
      }
      GroupOfCommon(init, c);
      GroupSnoc(table, c);
      InitLast(table);
    }
  }

  lemma InitLast<T>(s: seq<T>)
    requires |s| > 0
    ensures s[..|s| - 1] + [s[|s| - 1]] == s
  {
  }

  /** Selecting from a table is selecting from all but its last row, then the last row if it matches. */
  lemma GroupSnoc(table: seq<MergedRow>, c: string)
    requires |table| > 0
    ensures Group(table, c) == Group(table[..|table| - 1], c)
      + (if Contains(table[|table| - 1].classes, c) then [table[|table| - 1]] else [])
  {
  }

  function DropGroup(g: seq<MergedRow>): (r: seq<OutRow>)
    ensures |r| == |g|
  {
    seq(|g|, j requires 0 <= j < |g| => DropClass(g[j]))
  }

  /**
   * Lines 83-84 with the concatenation order left open: each category is
   * mapped to its re-indexed group with the `class` column dropped. An empty
   * table has no category, and pandas refuses to concatenate nothing.
   */
  function Partition(table: seq<MergedRow>): (r: Result<map<string, seq<OutRow>>, Failure>)
    ensures r.Err? <==> |table| == 0
    ensures r.Err? ==> r.error == NoObjectsToConcatenate
  {
    var cats := Categories(table);
    if cats == {} then Err(NoObjectsToConcatenate)
    else Ok(map c | c in cats :: DropGroup(Group(table, c)))
  }

  /**
   * The partition has one group per category; each group is non-empty, and
   * its row j is the j-th selected row of the table without its `class`.
   */
  lemma PartitionGroups(table: seq<MergedRow>)
    requires |table| > 0
    ensures Partition(table).Ok?
    ensures Partition(table).value.Keys == Categories(table)
    ensures forall c :: c in Partition(table).value ==>
      && 1 <= |Partition(table).value[c]| == |Positions(table, c)|
      && forall j :: 0 <= j < |Positions(table, c)| ==> Partition(table).value[c][j] == DropClass(table[Positions(table, c)[j]])
  {
    forall c | c in Partition(table).value
      ensures 1 <= |Partition(table).value[c]| == |Positions(table, c)|
      ensures forall j :: 0 <= j < |Positions(table, c)| ==> Partition(table).value[c][j] == DropClass(table[Positions(table, c)[j]])
    {
      GroupNonEmpty(table, c);
      DropGroupSelects(table, c);
    }
  }

  /** The group of `c` without `class`: row j is the j-th selected row without its `class`. */
  lemma DropGroupSelects(table: seq<MergedRow>, c: string)
    ensures |DropGroup(Group(table, c))| == |Positions(table, c)|
    ensures forall j :: 0 <= j < |Positions(table, c)| ==> DropGroup(Group(table, c))[j] == DropClass(table[Positions(table, c)[j]])
  {
  }

  /** The group of a category is never empty: the row the category came from is in it. */
  lemma GroupNonEmpty(table: seq<MergedRow>, c: string)
    requires c in Categories(table)
    ensures |Positions(table, c)| >= 1
  {
    CategoriesExact(table);
    var i :| 0 <= i < |table| && c in Split(table[i].classes);
    OwnTagsMatch(table, i, c);
  }

  function Keyed(c: string, g: seq<OutRow>): (r: seq<KeyedRow>)
    ensures |r| == |g|
  {
    seq(|g|, j requires 0 <= j < |g| => KeyedRow(c, j, g[j]))
  }

  /**
   * `pd.concat(..., keys=category)`: the groups one after the other in the
   * set's iteration order `order`, each row keyed by (category, local index).
   */
  function Concat(groups: map<string, seq<OutRow>>, order: seq<string>): (r: seq<KeyedRow>)
    requires forall c :: c in order ==> c in groups
    ensures forall k :: 0 <= k < |r| ==>
      && r[k].category in order
      && r[k].no < |groups[r[k].category]|
      && r[k].row == groups[r[k].category][r[k].no]
    ensures forall c, j :: c in order && 0 <= j < |groups[c]| ==> KeyedRow(c, j, groups[c][j]) in r
  {
    if |order| == 0 then []
    else
      var head := Keyed(order[0], groups[order[0]]);
      var tail := Concat(groups, order[1..]);
      assert forall c, j :: c in order && 0 <= j < |groups[c]| ==> KeyedRow(c, j, groups[c][j]) in head + tail by {
        forall c, j | c in order && 0 <= j < |groups[c]| ensures KeyedRow(c, j, groups[c][j]) in head + tail {
          if c == order[0] {
            assert (head + tail)[j] == head[j];
          } else {
            assert c in order[1..];
          }
        }
      }
      head + tail
  }

  /** With each category listed once, no two rows of the concatenation share a (category, No) key. */
  lemma {:induction false} ConcatKeysUnique(groups: map<string, seq<OutRow>>, order: seq<string>)
    requires forall c :: c in order ==> c in groups
    requires forall j, k :: 0 <= j < k < |order| ==> order[j] != order[k]
    ensures forall k1, k2 :: 0 <= k1 < k2 < |Concat(groups, order)| ==>
      (Concat(groups, order)[k1].category, Concat(groups, order)[k1].no) != (Concat(groups, order)[k2].category, Concat(groups, order)[k2].no)
  {
    if |order| > 0 {
      var rest := order[1..];
      assert forall c :: c in rest ==> c in order;
      assert forall j, k :: 0 <= j < k < |rest| ==> rest[j] != rest[k] by {
        forall j, k | 0 <= j < k < |rest| ensures rest[j] != rest[k] {
          assert rest[j] == order[j + 1] && rest[k] == order[k + 1];
        }
      }
      ConcatKeysUnique(groups, rest);
      assert order[0] !in rest by {
        forall k | 0 <= k < |rest| ensures rest[k] != order[0] { assert rest[k] == order[k + 1]; }
      }
      var head := Keyed(order[0], groups[order[0]]);
      var tail := Concat(groups, rest);
      var r := Concat(groups, order);
      assert r == head + tail;
      forall k1, k2 | 0 <= k1 < k2 < |r| ensures (r[k1].category, r[k1].no) != (r[k2].category, r[k2].no) {
        if k2 < |head| {
          assert r[k1].no == k1 && r[k2].no == k2;
        } else if k1 < |head| {
          assert r[k1].category == order[0];
          assert r[k2] == tail[k2 - |head|];
          assert r[k2].category in rest;
        } else {
          assert r[k1] == tail[k1 - |head|] && r[k2] == tail[k2 - |head|];
        }
      }
    }
  }

  /**
   * Rows of a concatenation come category block by category block in the
   * order `order` lists them, and in increasing No within a block.
   */
  predicate BlockOrdered(r: seq<KeyedRow>, order: seq<string>) {
    forall k1, k2, a, b ::
      0 <= k1 < k2 < |r| && 0 <= a < |order| && 0 <= b < |order| &&
      r[k1].category == order[a] && r[k2].category == order[b] ==>
      a < b || (a == b && r[k1].no < r[k2].no)
  }

  /** With each category listed once, the concatenation is block ordered: one block per category, rows in group order. */
  lemma {:induction false} ConcatOrdered(groups: map<string, seq<OutRow>>, order: seq<string>)
    requires forall c :: c in order ==> c in groups
    requires forall j, k :: 0 <= j < k < |order| ==> order[j] != order[k]
    ensures BlockOrdered(Concat(groups, order), order)
  {
    if |order| > 0 {
      var rest := order[1..];
      assert forall c :: c in rest ==> c in order;
      assert forall j, k :: 0 <= j < k < |rest| ==> rest[j] != rest[k] by {
        forall j, k | 0 <= j < k < |rest| ensures rest[j] != rest[k] {
          assert rest[j] == order[j + 1] && rest[k] == order[k + 1];
        }
      }
      ConcatOrdered(groups, rest);
      var head := Keyed(order[0], groups[order[0]]);
      var tail := Concat(groups, rest);
      BlockOrderedCons(head, tail, order);
      assert Concat(groups, order) == head + tail;
    }
  }

  /** A block for the first listed category followed by a block-ordered concatenation of the rest is block ordered. */
  lemma BlockOrderedCons(head: seq<KeyedRow>, tail: seq<KeyedRow>, order: seq<string>)
    requires |order| > 0
    requires forall j, k :: 0 <= j < k < |order| ==> order[j] != order[k]
    requires forall k :: 0 <= k < |head| ==> head[k].category == order[0] && head[k].no == k
    requires forall k :: 0 <= k < |tail| ==> tail[k].category in order[1..]
    requires BlockOrdered(tail, order[1..])
    ensures BlockOrdered(head + tail, order)
  {
    var r := head + tail;
    var rest := order[1..];
    forall k1, k2, a, b |
      0 <= k1 < k2 < |r| && 0 <= a < |order| && 0 <= b < |order| &&
      r[k1].category == order[a] && r[k2].category == order[b]
      ensures a < b || (a == b && r[k1].no < r[k2].no)
    {
      if k2 < |head| {
        assert r[k1] == head[k1] && r[k2] == head[k2];
        assert a == 0 && b == 0;
      } else if k1 < |head| {
        assert r[k1] == head[k1] && r[k2] == tail[k2 - |head|];
        NotFirst(order, b, r[k2].category);
      } else {
        assert r[k1] == tail[k1 - |head|] && r[k2] == tail[k2 - |head|];
        NotFirst(order, a, r[k1].category);
        NotFirst(order, b, r[k2].category);
        assert rest[a - 1] == order[a] && rest[b - 1] == order[b];
      }
    }
  }

  /** In a duplicate-free listing, an entry found again after the head is not at position 0. */
  lemma NotFirst(order: seq<string>, a: nat, c: string)
    requires forall j, k :: 0 <= j < k < |order| ==> order[j] != order[k]
    requires 0 <= a < |order| && order[a] == c && c in order[1..]
    ensures a >= 1
  {
    var i :| 0 <= i < |order[1..]| && order[1..][i] == c;
    assert order[i + 1] == c;
  }

  /**
   * The module-level script up to the spreadsheet: a page that was not
   * fetched stops it (English first), then the merge and the partition.
   */
  function Aggregate(en: Option<seq<Row>>, cn: Option<seq<Row>>): (r: Result<map<string, seq<OutRow>>, Failure>)
    ensures en.None? ==> r == Err(EnglishPageMissing)
    ensures en.Some? && cn.None? ==> r == Err(ChinesePageMissing)
    ensures en.Some? && cn.Some? && |en.value| == 0 && |cn.value| > 0 ==> r == Err(ClassIsNaN)
    ensures en.Some? && cn.Some? && |en.value| == 0 && |cn.value| == 0 ==> r == Err(NoObjectsToConcatenate)
    ensures r.Ok? <==> en.Some? && cn.Some? && |en.value| > 0
  {
    if en.None? then Err(EnglishPageMissing)
    else if cn.None? then Err(ChinesePageMissing)
    else
      match Merge(en.value, cn.value)
      case AdoptedIndex(_) => Err(ClassIsNaN)
      case Aligned(rows) => Partition(rows)
  }

  /** The categories of a successful run are the tags of the English rows, whatever the Chinese table holds. */
  lemma AggregateCategories(en: seq<Row>, cn: seq<Row>)
    requires |en| > 0
    ensures Aggregate(Some(en), Some(cn)).Ok?
    ensures forall c :: c in Aggregate(Some(en), Some(cn)).value <==> exists i :: 0 <= i < |en| && c in Split(en[i].classes)
  {
    MergeCategories(en, cn);
    PartitionGroups(Merge(en, cn).rows);
  }

  /** The merged table has the categories of the English table. */
  lemma MergeCategories(en: seq<Row>, cn: seq<Row>)
    ensures Merge(en, cn).Aligned? ==>
      forall c :: c in Categories(Merge(en, cn).rows) <==> exists i :: 0 <= i < |en| && c in Split(en[i].classes)
  {
    if Merge(en, cn).AdoptedIndex? { return; }
    var table := Merge(en, cn).rows;
    CategoriesExact(table);
    forall c | exists i :: 0 <= i < |en| && c in Split(en[i].classes) ensures c in Categories(table) {
      var i :| 0 <= i < |en| && c in Split(en[i].classes);
      assert table[i].classes == en[i].classes;
      assert c in Split(table[i].classes);
    }
    forall c | c in Categories(table) ensures exists i :: 0 <= i < |en| && c in Split(en[i].classes) {
      var i :| 0 <= i < |table| && c in Split(table[i].classes);
      assert table[i].classes == en[i].classes;
      assert c in Split(en[i].classes);
    }
  }

  /** The whole run on the two fetched pages. */
  function Run(enPage: Page, cnPage: Page): (r: Result<map<string, seq<OutRow>>, Failure>)
    ensures r.Ok? <==> enPage.status == StatusOk && cnPage.status == StatusOk && |enPage.cards| > 0
  {
    Aggregate(ParseUrl(enPage), ParseUrl(cnPage))
  }

  /** When every English card has separator-free tags, the categories of the run are exactly those tags. */
  lemma RunCategories(enPage: Page, cnPage: Page)
    requires enPage.status == StatusOk && cnPage.status == StatusOk && |enPage.cards| > 0
    requires forall i :: 0 <= i < |enPage.cards| ==> |enPage.cards[i].tags| >= 1 && NoSep(enPage.cards[i].tags)
    ensures Run(enPage, cnPage).Ok?
    ensures forall c :: c in Run(enPage, cnPage).value <==> exists i :: 0 <= i < |enPage.cards| && c in enPage.cards[i].tags
  {
    var en := ParseUrl(enPage).value;
    AggregateCategories(en, ParseUrl(cnPage).value);
    forall i | 0 <= i < |en| ensures Split(en[i].classes) == enPage.cards[i].tags { }
  }
}
