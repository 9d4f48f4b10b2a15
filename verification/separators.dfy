/**
 The separator rule both accumulators of the SELECT visitor use: before an item
 is appended, the separator is inserted if, and only if, the accumulator is not
 empty at that moment. The rule is a left fold, and the lemmas below relate it
 to an ordinary `Join` that puts the separator strictly between items.
 */
module Separators {

  /** One step of the rule: `if (!acc.isEmpty()) acc += sep; acc += item;` */
  function AppendSep(acc: string, sep: string, item: string): (r: string)
    ensures acc == "" ==> r == item
    ensures acc != "" ==> r == acc + sep + item
    ensures |r| >= |acc| + |item|
  {
    (if acc != "" then acc + sep else acc) + item
  }

  /** The rule applied to each item in turn, from left to right. */
  function FoldSep(acc: string, sep: string, items: seq<string>): string
    decreases |items|
  {
    if items == [] then acc
    else FoldSep(AppendSep(acc, sep, items[0]), sep, items[1..])
  }

  /** Reference definition: the items with `sep` between neighbours, never before the first or after the last. */
  function Join(sep: string, items: seq<string>): string
    decreases |items|
  {
    if |items| == 0 then ""
    else if |items| == 1 then items[0]
    else items[0] + sep + Join(sep, items[1..])
  }

  /** The items from the first non-empty one on. */
  function DropLeadingEmpty(items: seq<string>): (r: seq<string>)
    ensures |r| <= |items| && r == items[|items| - |r|..]
    ensures |r| > 0 ==> r[0] != ""
    ensures forall i :: 0 <= i < |items| - |r| ==> items[i] == ""
    decreases |items|
  {
    if |items| > 0 && items[0] == "" then DropLeadingEmpty(items[1..]) else items
  }

  /**
   The isEmpty-guarded fold is a join once the seed is counted as the first
   item and the empty strings in front are dropped: empty items before the first
   non-empty one leave no separator behind, every later item gets one.
   */
  lemma {:induction false} FoldSepIsJoin(acc: string, sep: string, items: seq<string>)
    ensures FoldSep(acc, sep, items) == Join(sep, DropLeadingEmpty([acc] + items))
    decreases |items|
  {
    if items == [] {
      assert [acc] + items == [acc];
      if acc == "" {
        assert DropLeadingEmpty([acc]) == DropLeadingEmpty([]);
      }
    } else {
      var rest := items[1..];
      var acc' := AppendSep(acc, sep, items[0]);
      FoldSepIsJoin(acc', sep, rest);
      assert items == [items[0]] + rest;
      if acc == "" {
        assert ([acc] + items)[1..] == items;
        assert DropLeadingEmpty([acc] + items) == DropLeadingEmpty(items);
        if items[0] == "" {
          assert DropLeadingEmpty(items) == DropLeadingEmpty(rest);
          assert [acc'] + rest == [""] + rest;
          assert ([""] + rest)[1..] == rest;
        } else {
          assert [acc'] + rest == items;
        }
      } else {
        assert acc' != "";
        assert DropLeadingEmpty([acc'] + rest) == [acc'] + rest;
        assert DropLeadingEmpty([acc] + items) == [acc] + items;
        assert ([acc] + items)[1..] == items;
        assert Join(sep, [acc] + items) == acc + sep + Join(sep, items);
        if rest == [] {
          assert Join(sep, items) == items[0];
          assert [acc'] + rest == [acc'];
        } else {
          assert ([acc'] + rest)[1..] == rest;
          assert Join(sep, [acc'] + rest) == acc' + sep + Join(sep, rest);
          assert Join(sep, items) == items[0] + sep + Join(sep, rest);
        }
      }
    }
  }

  /** A join of at least one item starts with the first item and ends with the last. */
  lemma {:induction false} JoinEnds(sep: string, items: seq<string>)
    ensures |items| > 0 ==> |Join(sep, items)| >= |items[0]| && |Join(sep, items)| >= |items[|items| - 1]|
    ensures |items| > 0 ==> Join(sep, items)[..|items[0]|] == items[0]
    ensures |items| > 0 ==> Join(sep, items)[|Join(sep, items)| - |items[|items| - 1]|..] == items[|items| - 1]
    decreases |items|
  {
    if |items| > 1 {
      var rest := items[1..];
      JoinEnds(sep, rest);
      var j := Join(sep, rest);
      assert Join(sep, items) == (items[0] + sep) + j;
      assert rest[|rest| - 1] == items[|items| - 1];
    }
  }

  /** A join is empty exactly when it has no non-empty item to show. */
  lemma {:induction false} JoinEmptyIff(sep: string, items: seq<string>)
    requires forall i :: 0 <= i < |items| ==> items[i] != ""
    ensures Join(sep, items) == "" <==> |items| == 0
  {
  }
}
