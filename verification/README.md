# Prompt-card crawler: a Dafny model of its transformation core

The crawler (`code.py`) fetches the English and the Chinese rendition of a
prompt catalogue and turns each card on each page into a row with the columns
`title`, `class`, `tips` and `prompt`. The `class` column holds the card's tags
joined with `|`. The crawler then copies the English table and adds a
`prompt_cn` column, taken row by row from the Chinese table. It splits every
`class` string back on `|` and collects the distinct tags as categories. For
each category it selects the rows whose `class` string contains that category
and numbers them 0, 1, 2, and so on. Finally it concatenates these groups,
keyed by (category, No), without the `class` column, and writes them to a
spreadsheet. Each data column is as wide as its longest cell, rounded down to
a multiple of 15 and kept between 15 and 60.

This project models that path on already-extracted cards:

- `wrappers.dfy` (`Wrappers`): `Option` and `Result`.
- `text.dfy` (`Text`): literal substring containment, `Contains(hay, needle)`.
- `tag_codec.dfy` (`TagCodec`): `'|'.join` and `str.split('|')` with Python's
  semantics, and their round trips.
- `cards.dfy` (`Cards`): `parse_card` on an extracted card, and `parse_url` on
  a fetched page given as a status code and the cards in its body.
- `aggregate.dfy` (`Aggregate`): the positional merge, the category set, the
  groups, the partition and the concatenation, and the whole run on two pages.
- `row_count.dfy` (`RowCount`): how many rows the result has (the duplication
  law) and the over-matching that substring selection causes.
- `sheet.dfy` (`Sheet`): the column-width bucket and the column-sizing loop of
  `save_excel`.
- `scenarios.dfy` (`Scenarios`): one card on both pages, end to end.

Behaviour kept as the script has it:

- Selection is by substring, not by tag membership. A tag such as `Code` pulls
  in a row tagged `Code Review` (`RowCount.OverMatchScenario`). The result then
  has more rows than the rows' tags add up to (`RowCount.OverMatchGrows`).
- A card without tags gets the `class` string `""`, which splits to `[""]`. The
  category `""` then matches every row (`Aggregate.EmptyTagMatchesAll`).
- The script does not check that the two pages have the same number of cards.
  `df['prompt_cn'] = df_cn['prompt']` aligns on the row index. English rows
  past the end of the Chinese table get a missing value, and extra Chinese rows
  are ignored. The model keeps this silent padding and truncation instead of
  rejecting the input: `prompt_cn` is an `Option<string>`, and `None` stands
  for pandas' NaN. The workbook shows such a cell empty. The text `nan` appears
  only inside the width computation (`astype(str)`), where its three
  characters can never widen a column (`Sheet.MissingNeverWidens`).
- An English frame without rows takes the index of the Chinese `prompt`
  column when line 78 assigns it. An empty English page with a non-empty
  Chinese page therefore yields rows whose `class` is NaN.
- Where the script would crash, the model returns an error. This covers four
  cases:
  - an unfetched English page (`None.copy()`);
  - an unfetched Chinese page (`None['prompt']`);
  - an empty English table next to a non-empty Chinese one (NaN has no
    `split`, line 81);
  - both tables empty (`pd.concat` of no groups).
- The iteration order of the category set is unspecified. The partition is
  therefore a map from category to group. The concatenation takes the
  iteration order as a parameter `order`, which may be any duplicate-free
  listing of the categories.

## Model

| member | source | states |
|---|---|---|
| `TagCodec.Join` | code.py:20 | joining no tags gives `""`; otherwise the first tag is a prefix of the joined string |
| `TagCodec.Split` | code.py:81 | a split is never empty, no piece contains `\|`, and there is one piece exactly when the string has no `\|` |
| `TagCodec.SplitJoin` | code.py:20 | splitting the join of a non-empty, `\|`-free tag list gives the list back in order |
| `TagCodec.JoinSplit` | code.py:81 | joining the pieces of any string rebuilds the string |
| `TagCodec.EmptyTagsCollide` | code.py:19-20 | no tags and one empty tag both join to `""`, which splits to `[""]` |
| `TagCodec.TagsOccurInJoin` | code.py:20 | every tag occurs as a substring of the joined `class` string |
| `TagCodec.SplitPiecesOccur` | code.py:81 | every piece of a split occurs as a substring of the split string |
| `Cards.ParseCard` | code.py:8-21 | title, tips and prompt are copied unchanged; the `class` string splits back into the card's tags, or into `[""]` for a card without tags |
| `Cards.ParseUrl` | code.py:23-40 | no table exactly when the status is not 200; otherwise one row per card in page order, with the card's fields and its tags recoverable, and `class` empty for a card without tags |
| `Aggregate.Merge` | code.py:77-78 | the frame adopts the Chinese index (all English columns NaN) exactly when the English table is empty and the Chinese one is not; otherwise it has the English row count and, dropping `prompt_cn`, the English rows unchanged, and `prompt_cn[i]` is the Chinese `prompt[i]`, missing exactly past the end of the Chinese table |
| `Aggregate.AllTags` | code.py:82 | the flattened tag list is at least as long as the table |
| `Aggregate.Categories` | code.py:81-82 | there are no categories exactly when the table is empty |
| `Aggregate.CategoriesExact` | code.py:81-82 | a string is a category exactly when it is a split tag of some row |
| `Aggregate.MergeCategories` | code.py:77-82 | when the frame keeps the English index, its categories are the tags of the English rows |
| `Aggregate.Positions` | code.py:83 | the selected indices are in range and strictly increasing, and index i is selected exactly when row i's `class` contains the category |
| `Aggregate.Group` | code.py:83 | the re-indexed group has one row per selected index, and its row j is the j-th selected row of the table |
| `Aggregate.OwnTagsMatch` | code.py:83 | every row lies in the group of each of its own tags |
| `Aggregate.GroupOfCommon` | code.py:83 | a category contained in every row's `class` selects the whole table in order |
| `Aggregate.EmptyTagMatchesAll` | code.py:83 | when a row has no tags, `""` is a category and its group is the whole table |
| `Aggregate.GroupNonEmpty` | code.py:83 | the group of every category holds at least one row |
| `Aggregate.Partition` | code.py:83-84 | the partition fails (nothing to concatenate) exactly when the table is empty |
| `Aggregate.PartitionGroups` | code.py:83-84 | one group per category; each group is non-empty, and its row j is the j-th selected row without `class` |
| `Aggregate.Concat` | code.py:84 | every result row is keyed by its category and its position in that group, and every group row appears under its key |
| `Aggregate.ConcatKeysUnique` | code.py:84 | no two result rows share a (category, No) key |
| `Aggregate.ConcatOrdered` | code.py:84 | the result holds one block per category, the blocks follow the iteration order, and No increases within a block |
| `Aggregate.Aggregate` | code.py:74-84 | a missing English page fails first, then a missing Chinese page; an empty English table fails on a NaN `class` if the Chinese one has rows and with nothing to concatenate if not; the run succeeds exactly when both tables exist and the English one has rows |
| `Aggregate.AggregateCategories` | code.py:77-84 | the categories of a successful run are the tags of the English rows, whatever the Chinese table holds |
| `Aggregate.Run` | code.py:74-84 | the run succeeds exactly when both pages return 200 and the English page has cards |
| `Aggregate.RunCategories` | code.py:74-84 | with `\|`-free, non-empty tag lists, the result's categories are exactly the English cards' tags |
| `RowCount.ConcatLength` | code.py:84 | the concatenation has as many rows as the groups together |
| `RowCount.GroupTotalByRows` | code.py:83 | counting group members by category gives the same total as counting, row by row, the categories each row contains |
| `RowCount.RowHits` | code.py:83 | each row is selected by at least as many categories as it has distinct tags, and by exactly that many precisely when no other category occurs in its `class` |
| `RowCount.RowCountLaw` | code.py:83-84 | for any iteration order, the result has at least as many rows as the rows' distinct tags add up to, and exactly that many precisely when no category over-matches a row |
| `RowCount.OverMatchWitness` | code.py:83 | a tag of one row that occurs in another row's `class` without being its tag selects that other row and breaks the no-over-match condition |
| `RowCount.OverMatchGrows` | code.py:83-84 | such a tag makes the result strictly longer than the tag total |
| `RowCount.OverMatchScenario` | code.py:83 | the tag `Code` selects the row tagged `Code Review` |
| `Sheet.ColumnWidth` | code.py:57 | the width is a multiple of 15 between 15 and 60; it is 15 below 30 and 60 from 60 on; it never exceeds the longest cell except at 15, and is within 15 of it except at the cap |
| `Sheet.ColumnWidthMonotone` | code.py:57 | a longer longest cell never gives a narrower column |
| `Sheet.AsText` | code.py:56 | `astype(str)` keeps a string and turns a missing value into `nan` |
| `Sheet.MissingNeverWidens` | code.py:56-57 | adding a missing value to a column never changes the column's width |
| `Sheet.MaxLen` | code.py:56 | the result is the length of some cell and no cell is longer |
| `Sheet.ColumnWidths` | code.py:53-58 | data column d goes to sheet column d + 3, after the two index columns, and gets the width bucket of its longest cell, so every cell is within 15 of its column's width unless the width is capped at 60 |
| `Scenarios.SingleRowPartition` | code.py:81-84 | a one-row table puts that row, as row 0, under each of its tags |
| `Scenarios.OneCardTwoTags` | code.py:74-84 | a card with two tags on both pages appears once under each tag, with its Chinese prompt |
| `Scenarios.BrainstormSheet` | code.py:84 | the concatenated "Brainstorm" groups are exactly two rows, ("Writing", 0) and ("Ideation", 0), in either iteration order |
| `Scenarios.BrainstormScenario` | code.py:74-84 | the "Brainstorm" card appears under "Writing" and under "Ideation", each time with the prompt "List 10 ideas about {topic}" and its Chinese prompt |

## Left out

- HTTP fetching (code.py:29-33): network I/O. A fetched page is given as its status code and the cards in its body.
- The HTML lookups (code.py:14-19, 35-36): these are foreign-library calls that depend on the page markup. Cards arrive already extracted, so the model has no IndexError for a card whose markup lacks a title or two paragraphs.
- Regular-expression matching: `str.contains` treats the category as a regular expression by default. The model treats it as a literal substring, so tags with regex metacharacters are not modelled.
- The iteration order of the category set: the model leaves it open as the `order` parameter of `Aggregate.Concat`.
- Writing the workbook (code.py:49-52, 58, 60-69): creating the sheet, setting the column dimensions, aligning cells, saving and closing are file I/O and foreign calls. Only the widths those lines set are modelled, by `Sheet.ColumnWidths`.
- Sheet.ColumnWidths: requires a non-empty result, because `df.index[0]` fails on an empty table. An empty table never reaches it, since the concatenation fails first.
- NaN as a float: the model represents a missing `prompt_cn` as `None`. An adopted-index frame is represented only by its row count (`Aggregate.AdoptedIndex`), because line 81 fails on it before any of its NaN cells are used.
- The unused imports of `joblib` and `DataValidation` (code.py:4, code.py:6).
