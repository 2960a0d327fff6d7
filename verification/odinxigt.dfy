/**
 * Helpers shared by the cleaning and normalizing tools (odinxigt.py): the
 * primary and secondary tag inventories, item copying, tag splitting, blank
 * item removal, and the left shift of indented source/gloss lines.
 */
module OdinXigt {
  import opened Py
  import opened Xigt

  /** Primary tags (line roles), `PRITAGS`. */
  const PriTags: set<string> := {"L", "G", "T", "L-G", "L-T", "G-T", "L-G-T", "M", "B", "C"}

  /** Secondary tags (line flags), `SECTAGS`. */
  const SecTags: set<string> := {"AC", "AL", "CN", "CR", "DB", "EX", "LN", "LT", "SY"}

  /** `copy_items`: new items with the same id, type, attributes and text;
      alignment, content and segmentation are not carried over. */
  function CopyItems(items: seq<Item>): (r: seq<Item>)
    ensures |r| == |items|
    ensures forall i :: 0 <= i < |r| ==>
      && r[i].id == items[i].id && r[i].itemType == items[i].itemType
      && r[i].attributes == items[i].attributes && r[i].text == items[i].text
      && r[i].alignment.None? && r[i].content.None? && r[i].segmentation.None?
  {
    seq(|items|, i requires 0 <= i < |items| =>
      Item(items[i].id, items[i].itemType, None, None, None, items[i].attributes, items[i].text))
  }

  /** `get_tags`: the `tag` attribute split on `+`; element 0 is the primary tag. */
  function GetTags(item: Item): (r: seq<string>)
    ensures |r| >= 1
    ensures forall i :: 0 <= i < |r| ==> '+' !in r[i]
    ensures JoinChar(r, '+') == AttrGet(item.attributes, "tag", "")
    ensures "tag" !in item.attributes ==> r == [""]
  {
    SplitChar(AttrGet(item.attributes, "tag", ""), '+')
  }

  /** The primary tag of an item: the part of its `tag` attribute before the
      first `+`. */
  function PrimaryTag(item: Item): string
  {
    var t := AttrGet(item.attributes, "tag", "");
    if '+' in t then t[..IndexOf(t, '+')] else t
  }

  /** The primary tag is element 0 of `get_tags`. */
  lemma PrimaryTagIsFirst(item: Item)
    ensures PrimaryTag(item) == GetTags(item)[0]
  {
  }

  predicate HasText(item: Item)
  {
    !IsBlank(TextOr(item))
  }

  /** `remove_blank_items`: the items whose text is not empty or all whitespace. */
  function RemoveBlankItems(items: seq<Item>): (r: seq<Item>)
    ensures forall x :: x in r ==> HasText(x)
    ensures forall x :: x in items && HasText(x) ==> x in r
    ensures forall x :: multiset(r)[x] == if HasText(x) then multiset(items)[x] else 0
    ensures Subsequence(r, items)
  {
    if items == [] then []
    else
      var rest := RemoveBlankItems(items[1..]);
      assert items == [items[0]] + items[1..];
      if HasText(items[0]) then [items[0]] + rest else rest
  }

  /** Removing blank items twice removes nothing more. */
  lemma {:induction false} RemoveBlankItemsIdempotent(items: seq<Item>)
    ensures RemoveBlankItems(RemoveBlankItems(items)) == RemoveBlankItems(items)
  {
    if items != [] {
      RemoveBlankItemsIdempotent(items[1..]);
    }
  }

  // ---------------------------------------------------------------------
  // Indentation

  /** The tags that `min_indent` and `shift_left` act on: the given ones (all
      primary tags by default) except `M` and `B`. */
  function EligibleTags(tags: Option<set<string>>): (r: set<string>)
    ensures "M" !in r && "B" !in r
  {
    (if tags.None? then PriTags else tags.value) - {"M", "B"}
  }

  predicate Eligible(item: Item, elig: set<string>)
  {
    PrimaryTag(item) in elig
  }

  /** Every item whose indent is measured has text (otherwise the source raises TypeError). */
  predicate IndentsDefined(items: seq<Item>, elig: set<string>)
  {
    forall i :: 0 <= i < |items| && Eligible(items[i], elig) ==> items[i].text.Some?
  }

  function Indent(item: Item): nat
    requires item.text.Some?
  {
    LeadingSpaces(item.text.value)
  }

  /** The indents of the eligible items, in order. */
  function IndentsOf(items: seq<Item>, elig: set<string>): (r: seq<nat>)
    requires IndentsDefined(items, elig)
    ensures forall i :: 0 <= i < |items| && Eligible(items[i], elig) ==> Indent(items[i]) in r
    ensures forall x :: x in r ==> exists i :: 0 <= i < |items| && Eligible(items[i], elig) && Indent(items[i]) == x
  {
    if items == [] then []
    else
      var init := items[..|items| - 1];
      assert forall i :: 0 <= i < |init| ==> init[i] == items[i];
      IndentsOf(init, elig) + (if Eligible(items[|items| - 1], elig) then [Indent(items[|items| - 1])] else [])
  }

  /** The least element of a non-empty sequence (Python's `min`). */
  function SeqMin(s: seq<nat>): (r: nat)
    requires s != []
    ensures r in s && forall x :: x in s ==> r <= x
  {
    if |s| == 1 then s[0]
    else
      var m := SeqMin(s[1..]);
      assert forall x :: x in s ==> x == s[0] || x in s[1..];
      if s[0] < m then s[0] else m
  }

  /** The least indent of an eligible item, or 0 when no item is eligible. */
  function MinIndentOf(items: seq<Item>, elig: set<string>): (r: nat)
    requires IndentsDefined(items, elig)
    ensures forall i :: 0 <= i < |items| && Eligible(items[i], elig) ==> r <= Indent(items[i])
    ensures (exists i :: 0 <= i < |items| && Eligible(items[i], elig))
            ==> exists i :: 0 <= i < |items| && Eligible(items[i], elig) && Indent(items[i]) == r
    ensures (forall i :: 0 <= i < |items| ==> !Eligible(items[i], elig)) ==> r == 0
  {
    var indents := IndentsOf(items, elig);
    if indents == [] then 0 else SeqMin(indents)
  }

  /** `min_indent`: collects the indents of eligible items, then takes their
      minimum (0 if there are none). */
  method MinIndent(items: seq<Item>, tags: Option<set<string>>) returns (r: nat)
    requires IndentsDefined(items, EligibleTags(tags))
    ensures r == MinIndentOf(items, EligibleTags(tags))
  {
    var elig := EligibleTags(tags);
    var indents: seq<nat> := [];
    for k := 0 to |items|
      invariant IndentsDefined(items[..k], elig)
      invariant indents == IndentsOf(items[..k], elig)
    {
      assert items[..k + 1][..k] == items[..k];
      assert IndentsDefined(items[..k + 1], elig);
      if PrimaryTag(items[k]) in elig {
        indents := indents + [LeadingSpaces(items[k].text.value)];
      }
    }
    assert items[..|items|] == items;
    if indents == [] {
      r := 0;
    } else {
      r := SeqMin(indents);
    }
  }

  /** Items that `shift_left` rewrites have text (otherwise the source raises). */
  predicate ShiftDefined(items: seq<Item>, elig: set<string>)
  {
    forall i :: 0 <= i < |items| && (PrimaryTag(items[i]) == "M" || Eligible(items[i], elig))
      ==> items[i].text.Some?
  }

  /** One item after `shift_left` with the given shift: `M` items are stripped,
      eligible items lose their first `shift` characters (all of them if the
      text is shorter, as a Python slice does), other items are unchanged. */
  function ShiftItem(item: Item, elig: set<string>, shift: nat): Item
    requires (PrimaryTag(item) == "M" || Eligible(item, elig)) ==> item.text.Some?
  {
    if PrimaryTag(item) == "M" then item.(text := Some(Strip(item.text.value)))
    else if Eligible(item, elig) then
      var t := item.text.value;
      item.(text := Some(if shift <= |t| then t[shift..] else ""))
    else item
  }

  /** The items after `shift_left` with eligible tags `elig`. */
  function ShiftedItems(items: seq<Item>, elig: set<string>): (r: seq<Item>)
    requires ShiftDefined(items, elig)
    ensures |r| == |items|
  {
    ShiftedBy(items, elig, MinIndentOf(items, elig))
  }

  /** Every item shifted by `shift`. */
  function ShiftedBy(items: seq<Item>, elig: set<string>, shift: nat): (r: seq<Item>)
    requires ShiftDefined(items, elig)
    ensures |r| == |items|
  {
    seq(|items|, i requires 0 <= i < |items| => ShiftItem(items[i], elig, shift))
  }

  /** `shift_left`: strips `M` items and removes the common indentation of the
      eligible items, in place. */
  method ShiftLeft(a: array<Item>, tags: Option<set<string>>)
    requires ShiftDefined(a[..], EligibleTags(tags))
    modifies a
    ensures a[..] == ShiftedItems(old(a[..]), EligibleTags(tags))
  {
    var elig := EligibleTags(tags);
    assert EligibleTags(Some(elig)) == elig;
    var maxshift := MinIndent(a[..], Some(elig));
    ShiftAll(a, elig, maxshift);
  }

  /** The loop of `shift_left`: every item is shifted by `shift`, in place. */
  method ShiftAll(a: array<Item>, elig: set<string>, shift: nat)
    requires ShiftDefined(a[..], elig)
    modifies a
    ensures a[..] == ShiftedBy(old(a[..]), elig, shift)
  {
    ghost var want := ShiftedBy(a[..], elig, shift);
    for i := 0 to a.Length
      invariant forall j :: 0 <= j < i ==> a[j] == want[j]
      invariant forall j :: i <= j < a.Length ==> a[j] == old(a[j])
    {
      a[i] := ShiftItem(a[i], elig, shift);
    }
    assert a[..] == want;
  }

  /** `shift_left` keeps the number and order of items and changes only text. */
  lemma ShiftLeftKeepsItems(items: seq<Item>, elig: set<string>, i: nat)
    requires ShiftDefined(items, elig) && i < |items|
    ensures var r := ShiftedItems(items, elig)[i];
      r.id == items[i].id && r.attributes == items[i].attributes
      && r.alignment == items[i].alignment && r.itemType == items[i].itemType
  {
  }

  /** `M` items are stripped on both sides, whatever tags were given. */
  lemma ShiftLeftStripsM(items: seq<Item>, tags: Option<set<string>>, i: nat)
    requires ShiftDefined(items, EligibleTags(tags)) && i < |items|
    requires PrimaryTag(items[i]) == "M"
    ensures ShiftedItems(items, EligibleTags(tags))[i].text == Some(Strip(items[i].text.value))
  {
  }

  /** An eligible item loses exactly the common indent, and what it loses is whitespace. */
  lemma ShiftLeftRemovesIndent(items: seq<Item>, elig: set<string>, i: nat)
    requires ShiftDefined(items, elig) && i < |items|
    requires Eligible(items[i], elig) && "M" !in elig
    ensures var m := MinIndentOf(items, elig);
      var t := items[i].text.value;
      m <= |t| && IsBlank(t[..m]) && ShiftedItems(items, elig)[i].text == Some(t[m..])
  {
  }

  /** Items that are neither `M` nor eligible are left as they were. */
  lemma ShiftLeftKeepsOthers(items: seq<Item>, elig: set<string>, i: nat)
    requires ShiftDefined(items, elig) && i < |items|
    requires PrimaryTag(items[i]) != "M" && !Eligible(items[i], elig)
    ensures ShiftedItems(items, elig)[i] == items[i]
  {
  }

  lemma LeadingSpacesDrop(s: string, m: nat)
    requires m <= LeadingSpaces(s)
    ensures LeadingSpaces(s[m..]) == LeadingSpaces(s) - m
    decreases m
  {
    if m > 0 {
      assert s[m..] == s[1..][m - 1..];
      LeadingSpacesDrop(s[1..], m - 1);
    }
  }

  lemma ShiftedTags(items: seq<Item>, elig: set<string>)
    requires ShiftDefined(items, elig)
    requires "M" !in elig
    ensures var r := ShiftedItems(items, elig);
      && (forall i :: 0 <= i < |r| ==> GetTags(r[i]) == GetTags(items[i]) && Eligible(r[i], elig) == Eligible(items[i], elig))
      && ShiftDefined(r, elig) && IndentsDefined(r, elig)
  {
    var r := ShiftedItems(items, elig);
    forall i | 0 <= i < |r| ensures r[i].attributes == items[i].attributes {
    }
  }

  /** After `shift_left`, no indentation is left in common. */
  lemma {:induction false} ShiftLeftMinIndentZero(items: seq<Item>, elig: set<string>)
    requires ShiftDefined(items, elig)
    requires "M" !in elig
    ensures IndentsDefined(ShiftedItems(items, elig), elig)
    ensures MinIndentOf(ShiftedItems(items, elig), elig) == 0
  {
    var r := ShiftedItems(items, elig);
    ShiftedTags(items, elig);
    if exists i :: 0 <= i < |items| && Eligible(items[i], elig) {
      var m := MinIndentOf(items, elig);
      var i :| 0 <= i < |items| && Eligible(items[i], elig) && Indent(items[i]) == m;
      assert Indent(r[i]) == 0 by {
        ShiftLeftRemovesIndent(items, elig, i);
        LeadingSpacesDrop(items[i].text.value, m);
      }
      MinIndentZeroAt(r, elig, i);
    }
  }

  /** An eligible item with no indent makes the common indent 0. */
  lemma MinIndentZeroAt(items: seq<Item>, elig: set<string>, i: nat)
    requires IndentsDefined(items, elig) && i < |items| && Eligible(items[i], elig)
    requires Indent(items[i]) == 0
    ensures MinIndentOf(items, elig) == 0
  {
  }

  /** Shifting twice is the same as shifting once. */
  lemma ShiftLeftIdempotent(items: seq<Item>, elig: set<string>)
    requires ShiftDefined(items, elig)
    requires "M" !in elig
    ensures ShiftDefined(ShiftedItems(items, elig), elig)
    ensures ShiftedItems(ShiftedItems(items, elig), elig) == ShiftedItems(items, elig)
  {
    var r := ShiftedItems(items, elig);
    ShiftedTags(items, elig);
    ShiftLeftMinIndentZero(items, elig);
    var r2 := ShiftedItems(r, elig);
    forall i | 0 <= i < |r| ensures r2[i] == r[i] {
      if PrimaryTag(items[i]) == "M" {
        StripIdempotent(items[i].text.value);
      }
    }
  }
}
