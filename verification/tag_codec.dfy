/**
 * The `class` column: a card's tag texts joined with `|` (code.py, parse_card)
 * and split again on `|` (the category extraction), with Python's `str.join`
 * and `str.split(sep)` semantics.
 */
module TagCodec {
  import opened Text

  const Sep: char := '|'

  /** No tag contains the separator. */
  predicate NoSep(tags: seq<string>) {
    forall t :: t in tags ==> Sep !in t
  }

  /** `'|'.join(tags)`. */
  function Join(tags: seq<string>): (r: string)
    ensures |tags| == 0 ==> r == ""
    ensures |tags| > 0 ==> tags[0] <= r
  {
    if |tags| == 0 then ""
    else if |tags| == 1 then tags[0]
    else tags[0] + [Sep] + Join(tags[1..])
  }

  /** `s.split('|')`: never empty, and no piece holds the separator. */
  function Split(s: string): (r: seq<string>)
    ensures |r| >= 1
    ensures NoSep(r)
    ensures |r| == 1 <==> Sep !in s
    decreases |s|
  {
    if |s| == 0 then [""]
    else if s[0] == Sep then [""] + Split(s[1..])
    else
      var rest := Split(s[1..]);
      [[s[0]] + rest[0]] + rest[1..]
  }

  /** A string without the separator splits into itself. */
  lemma {:induction false} SplitNoSep(t: string)
    requires Sep !in t
    ensures Split(t) == [t]
  {
    if |t| > 0 {
      SplitNoSep(t[1..]);
      assert [t[0]] + t[1..] == t;
    }
  }

  /** Splitting stops at the first separator. */
  lemma {:induction false} SplitAtFirstSep(t: string, rest: string)
    requires Sep !in t
    ensures Split(t + [Sep] + rest) == [t] + Split(rest)
    decreases |t|
  {
    var s := t + [Sep] + rest;
    if |t| == 0 {
      assert s[1..] == rest;
    } else {
      assert s[0] == t[0];
      assert s[1..] == t[1..] + [Sep] + rest;
      SplitAtFirstSep(t[1..], rest);
      assert [t[0]] + t[1..] == t;
    }
  }

  /** Round trip: splitting a joined, non-empty, separator-free tag list gives it back. */
  lemma {:induction false} SplitJoin(tags: seq<string>)
    requires |tags| >= 1 && NoSep(tags)
    ensures Split(Join(tags)) == tags
  {
    if |tags| == 1 {
      SplitNoSep(tags[0]);
    } else {
      assert tags[0] in tags;
      assert NoSep(tags[1..]) by {
        forall t | t in tags[1..] ensures Sep !in t { assert t in tags; }
      }
      SplitJoin(tags[1..]);
      SplitAtFirstSep(tags[0], Join(tags[1..]));
      assert [tags[0]] + tags[1..] == tags;
    }
  }

  /** Round trip the other way: joining the pieces of any string rebuilds it. */
  lemma {:induction false} JoinSplit(s: string)
    ensures Join(Split(s)) == s
    decreases |s|
  {
    if |s| > 0 {
      var rest := Split(s[1..]);
      JoinSplit(s[1..]);
      if s[0] == Sep {
        assert ([""] + rest)[1..] == rest;
        assert s == [Sep] + s[1..];
      } else {
        var r := [[s[0]] + rest[0]] + rest[1..];
        assert r[1..] == rest[1..];
        assert s == [s[0]] + s[1..];
      }
    }
  }

  /** An empty tag list and a list holding one empty tag join to the same string. */
  lemma EmptyTagsCollide()
    ensures Join([]) == Join([""]) == ""
    ensures Split(Join([])) == [""]
  {
  }

  /** Every tag occurs as a substring of the joined string. */
  lemma {:induction false} TagsOccurInJoin(tags: seq<string>)
    ensures forall t :: t in tags ==> Contains(Join(tags), t)
  {
    if |tags| == 1 {
      ContainsPrefix(tags[0], "");
      assert tags[0] + "" == tags[0];
    } else if |tags| > 1 {
      TagsOccurInJoin(tags[1..]);
      forall t | t in tags ensures Contains(Join(tags), t) {
        if t == tags[0] {
          ContainsPrefix(tags[0], [Sep] + Join(tags[1..]));
          assert Join(tags) == tags[0] + ([Sep] + Join(tags[1..]));
        } else {
          assert t in tags[1..];
          ContainsInSuffix(tags[0] + [Sep], Join(tags[1..]), t);
          assert Join(tags) == (tags[0] + [Sep]) + Join(tags[1..]);
        }
      }
    }
  }

  /** Every piece of a split occurs in the string that was split. */
  lemma SplitPiecesOccur(s: string)
    ensures forall t :: t in Split(s) ==> Contains(s, t)
  {
    TagsOccurInJoin(Split(s));
    JoinSplit(s);
  }
}
