/**
 * How many rows the concatenated result has (code.py lines 83-84). A row is
 * copied into the group of every category its `class` string contains: at
 * least its own distinct tags, and more when some category is a substring
 * of it without being one of its tags.
 */
module RowCount {
  import opened Wrappers
  import opened Text
  import opened TagCodec
  import opened Aggregate

  /** `order` lists each category of `cats` exactly once: one possible iteration order of the set. */
  predicate Enumerates(order: seq<string>, cats: set<string>) {
    && (forall c :: c in order ==> c in cats)
    && (forall c :: c in cats ==> c in order)
    && (forall j, k :: 0 <= j < k < |order| ==> order[j] != order[k])
  }

  /** The distinct tags of one `class` string. */
  function DistinctTags(s: string): set<string> {
    set t | t in Split(s)
  }

  /** The sum over the rows of their numbers of distinct tags. */
  function TagTotal(table: seq<MergedRow>): nat {
    if |table| == 0 then 0
    else TagTotal(table[..|table| - 1]) + |DistinctTags(table[|table| - 1].classes)|
  }

  /** How many categories of `order` occur in the string `s`. */
  function HitCount(order: seq<string>, s: string): nat {
    if |order| == 0 then 0
    else (if Contains(s, order[0]) then 1 else 0) + HitCount(order[1..], s)
  }

  /** The sum over the rows of how many categories of `order` each row's `class` string contains. */
  function HitTotal(table: seq<MergedRow>, order: seq<string>): nat {
    if |table| == 0 then 0
    else HitTotal(table[..|table| - 1], order) + HitCount(order, table[|table| - 1].classes)
  }

  /** The sum over the categories of `order` of the sizes of their groups. */
  function GroupTotal(table: seq<MergedRow>, order: seq<string>): nat {
    if |order| == 0 then 0
    else |Positions(table, order[0])| + GroupTotal(table, order[1..])
  }

  /** No row's `class` string contains a category other than the row's own tags. */
  predicate NoOverMatch(table: seq<MergedRow>) {
    forall i, c :: 0 <= i < |table| && c in Categories(table) && Contains(table[i].classes, c) ==> c in Split(table[i].classes)
  }

  /** The concatenation holds, category by category, exactly the rows of the groups. */
  lemma {:induction false} ConcatLength(table: seq<MergedRow>, groups: map<string, seq<OutRow>>, order: seq<string>)
    requires forall c :: c in order ==> c in groups && |groups[c]| == |Positions(table, c)|
    ensures |Concat(groups, order)| == GroupTotal(table, order)
  {
    if |order| > 0 {
      assert forall c :: c in order[1..] ==> c in order;
      ConcatLength(table, groups, order[1..]);
    }
  }

  lemma {:induction false} GroupTotalOfEmpty(order: seq<string>)
    ensures GroupTotal([], order) == 0
  {
    if |order| > 0 {
      GroupTotalOfEmpty(order[1..]);
    }
  }

  /** Adding a row to the table adds to the group total the number of categories that row contains. */
  lemma {:induction false} GroupTotalStep(table: seq<MergedRow>, order: seq<string>)
    requires |table| > 0
    ensures GroupTotal(table, order) == GroupTotal(table[..|table| - 1], order) + HitCount(order, table[|table| - 1].classes)
  {
    if |order| > 0 {
      GroupTotalStep(table, order[1..]);
    }
  }

  /** Counting by category and counting by row give the same total. */
  lemma {:induction false} GroupTotalByRows(table: seq<MergedRow>, order: seq<string>)
    ensures GroupTotal(table, order) == HitTotal(table, order)
  {
    if |table| == 0 {
      GroupTotalOfEmpty(order);
    } else {
      GroupTotalStep(table, order);
      GroupTotalByRows(table[..|table| - 1], order);
    }
  }

  /** The categories of `order` that occur in `s`, as a set. */
  function HitSet(order: seq<string>, s: string): set<string> {
    if |order| == 0 then {}
    else (if Contains(s, order[0]) then {order[0]} else {}) + HitSet(order[1..], s)
  }

  lemma {:induction false} HitSetMembers(order: seq<string>, s: string, c: string)
    ensures c in HitSet(order, s) <==> c in order && Contains(s, c)
  {
    if |order| > 0 {
      HitSetMembers(order[1..], s, c);
      assert c in order <==> c == order[0] || c in order[1..] by {
        assert order == [order[0]] + order[1..];
      }
    }
  }

  /** For a duplicate-free `order`, HitCount is the number of distinct categories that occur in `s`. */
  lemma {:induction false} HitCountIsSize(order: seq<string>, s: string)
    requires forall j, k :: 0 <= j < k < |order| ==> order[j] != order[k]
    ensures HitCount(order, s) == |HitSet(order, s)|
  {
    if |order| > 0 {
      var rest := order[1..];
      assert forall j, k :: 0 <= j < k < |rest| ==> rest[j] != rest[k] by {
        forall j, k | 0 <= j < k < |rest| ensures rest[j] != rest[k] {
          assert rest[j] == order[j + 1] && rest[k] == order[k + 1];
        }
      }
      HitCountIsSize(rest, s);
      assert order[0] !in rest by {
        forall k | 0 <= k < |rest| ensures rest[k] != order[0] { assert rest[k] == order[k + 1]; }
      }
      HitSetMembers(rest, s, order[0]);
    }
  }

  lemma SubsetSize<T>(a: set<T>, b: set<T>)
    requires a <= b
    ensures |a| <= |b|
    ensures |a| == |b| ==> a == b
  {
    assert b == a + (b - a);
    assert |b| == |a| + |b - a|;
    if |a| == |b| {
      assert |b - a| == 0;
    }
  }

  /** A row contains at least its own tags among the categories, and exactly those when it over-matches nothing. */
  lemma RowHits(table: seq<MergedRow>, order: seq<string>, i: nat)
    requires Enumerates(order, Categories(table)) && i < |table|
    ensures HitCount(order, table[i].classes) >= |DistinctTags(table[i].classes)|
    ensures HitCount(order, table[i].classes) == |DistinctTags(table[i].classes)|
      <==> forall c :: c in Categories(table) && Contains(table[i].classes, c) ==> c in Split(table[i].classes)
  {
    var s := table[i].classes;
    HitCountIsSize(order, s);
    var hits := HitSet(order, s);
    var own := DistinctTags(s);
    SplitPiecesOccur(s);
    forall c ensures c in hits <==> c in order && Contains(s, c) {
      HitSetMembers(order, s, c);
    }
    forall t | t in own ensures t in hits {
      OwnTagsMatch(table, i, t);
    }
    SubsetSize(own, hits);
    if forall c :: c in Categories(table) && Contains(s, c) ==> c in Split(s) {
      forall c | c in hits ensures c in own { assert c in Categories(table); }
      assert hits == own;
    }
    if HitCount(order, s) == |own| {
      forall c | c in Categories(table) && Contains(s, c) ensures c in Split(s) { assert c in hits; }
    }
  }

  /** Term by term domination of two sums, and when the sums are equal. */
  lemma {:induction false} SumDominates(table: seq<MergedRow>, order: seq<string>)
    requires forall i :: 0 <= i < |table| ==> HitCount(order, table[i].classes) >= |DistinctTags(table[i].classes)|
    ensures HitTotal(table, order) >= TagTotal(table)
    ensures HitTotal(table, order) == TagTotal(table)
      <==> forall i :: 0 <= i < |table| ==> HitCount(order, table[i].classes) == |DistinctTags(table[i].classes)|
  {
    if |table| > 0 {
      var init := table[..|table| - 1];
      forall i | 0 <= i < |init| ensures HitCount(order, init[i].classes) >= |DistinctTags(init[i].classes)| {
        assert init[i] == table[i];
      }
      SumDominates(init, order);
      if HitTotal(table, order) == TagTotal(table) {
        forall i | 0 <= i < |table| ensures HitCount(order, table[i].classes) == |DistinctTags(table[i].classes)| {
          if i < |init| { assert init[i] == table[i]; }
        }
      }
      if forall i :: 0 <= i < |table| ==> HitCount(order, table[i].classes) == |DistinctTags(table[i].classes)| {
        forall i | 0 <= i < |init| ensures HitCount(order, init[i].classes) == |DistinctTags(init[i].classes)| {
          assert init[i] == table[i];
        }
      }
    }
  }

  /**
   * The duplication law: whatever the iteration order of the categories, the
   * result has at least as many rows as the rows' distinct tags add up to, and
   * exactly that many precisely when no category over-matches a row.
   */
  lemma RowCountLaw(table: seq<MergedRow>, order: seq<string>)
    requires |table| > 0 && Enumerates(order, Categories(table))
    ensures Partition(table).Ok?
    ensures forall c :: c in order ==> c in Partition(table).value
    ensures |Concat(Partition(table).value, order)| >= TagTotal(table)
    ensures |Concat(Partition(table).value, order)| == TagTotal(table) <==> NoOverMatch(table)
  {
    PartitionGroups(table);
    var groups := Partition(table).value;
    ConcatLength(table, groups, order);
    GroupTotalByRows(table, order);
    forall i | 0 <= i < |table| ensures HitCount(order, table[i].classes) >= |DistinctTags(table[i].classes)| {
      RowHits(table, order, i);
    }
    SumDominates(table, order);
    if NoOverMatch(table) {
      forall i | 0 <= i < |table| ensures HitCount(order, table[i].classes) == |DistinctTags(table[i].classes)| {
        RowHits(table, order, i);
      }
    }
    if |Concat(groups, order)| == TagTotal(table) {
      forall i, c | 0 <= i < |table| && c in Categories(table) && Contains(table[i].classes, c)
        ensures c in Split(table[i].classes)
      {
        RowHits(table, order, i);
      }
    }
  }

  /** A tag of row i that occurs in row j's `class` string without being one of row j's tags over-matches row j. */
  lemma OverMatchWitness(table: seq<MergedRow>, i: nat, j: nat, c: string)
    requires i < |table| && j < |table|
    requires c in Split(table[i].classes) && Contains(table[j].classes, c) && c !in Split(table[j].classes)
    ensures c in Categories(table) && j in Positions(table, c)
    ensures !NoOverMatch(table)
  {
    OwnTagsMatch(table, i, c);
  }

  /**
   * The quirk of substring selection: when a tag of one row occurs inside
   * another row's `class` string without being one of its tags, the result
   * has strictly more rows than the rows' tags add up to.
   */
  lemma OverMatchGrows(table: seq<MergedRow>, order: seq<string>, i: nat, j: nat, c: string)
    requires Enumerates(order, Categories(table))
    requires i < |table| && j < |table|
    requires c in Split(table[i].classes) && Contains(table[j].classes, c) && c !in Split(table[j].classes)
    ensures |Concat(Partition(table).value, order)| > TagTotal(table)
  {
    OverMatchWitness(table, i, j, c);
    RowCountLaw(table, order);
  }

  const CodeRow: MergedRow := MergedRow("Explain", "Code", "t", "p", None)
  const ReviewRow: MergedRow := MergedRow("Review", "Code Review", "t", "p", None)

  /** The tag "Code" occurs in "Code Review": the "Code" group takes the "Code Review" row as well. */
  lemma OverMatchScenario()
    ensures "Code" in Categories([CodeRow, ReviewRow])
    ensures 1 in Positions([CodeRow, ReviewRow], "Code")
    ensures !NoOverMatch([CodeRow, ReviewRow])
  {
    CodeInReview();
    OverMatchWitness([CodeRow, ReviewRow], 0, 1, "Code");
  }

  lemma CodeInReview()
    ensures Split(CodeRow.classes) == ["Code"] && Split(ReviewRow.classes) == ["Code Review"]
    ensures Contains(ReviewRow.classes, "Code")
  {
    SplitNoSep("Code");
    SplitNoSep("Code Review");
    assert "Code" <= "Code Review"[0..];
  }
}
