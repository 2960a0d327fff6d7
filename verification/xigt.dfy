/**
 * The parts of the xigt data model that the ODIN tools touch, as plain
 * records: an item is one line of an ODIN tier, a tier an ordered list of
 * items, an IGT an ordered list of tiers.
 */
module Xigt {
  import opened Py

  /** An xigt Item.  `attributes` holds the ODIN attributes `tag`, `line` and
      `judgment`; `text` is `None` for an item without text. */
  datatype Item = Item(
    id: string,
    itemType: Option<string>,
    alignment: Option<string>,
    content: Option<string>,
    segmentation: Option<string>,
    attributes: map<string, string>,
    text: Option<string>)

  /** An xigt Tier; ODIN tiers have type `odin` and an attribute `state`
      (`raw`, `cleaned` or `normalized`). */
  datatype Tier = Tier(
    id: string,
    tierType: Option<string>,
    alignment: Option<string>,
    attributes: map<string, string>,
    items: seq<Item>)

  /** An xigt Igt: an id, attributes such as `doc-id`, and its tiers in order. */
  datatype Igt = Igt(id: Option<string>, attributes: map<string, string>, tiers: seq<Tier>)

  /** `d.get(key, default)`. */
  function AttrGet(m: map<string, string>, key: string, default: string): string
  {
    if key in m then m[key] else default
  }

  /** `item.text or ''`. */
  function TextOr(item: Item): string
  {
    if item.text.Some? then item.text.value else ""
  }

  /** `igt.get(id) is not None`: some tier of the IGT has this id. */
  predicate HasTier(igt: Igt, id: string)
  {
    exists t :: t in igt.tiers && t.id == id
  }

  /** An ODIN tier in the given processing state. */
  predicate IsOdinState(t: Tier, state: string)
  {
    t.tierType == Some("odin") && "state" in t.attributes && t.attributes["state"] == state
  }

  /** The first candidate id that no tier of the IGT uses, if any. */
  function FirstFree(igt: Igt, candidates: seq<string>): (r: Option<string>)
    ensures r.None? <==> forall i :: 0 <= i < |candidates| ==> HasTier(igt, candidates[i])
    ensures r.Some? ==> exists i :: 0 <= i < |candidates| && candidates[i] == r.value
                                    && !HasTier(igt, r.value)
                                    && forall j :: 0 <= j < i ==> HasTier(igt, candidates[j])
  {
    if candidates == [] then None
    else if !HasTier(igt, candidates[0]) then Some(candidates[0])
    else
      var r := FirstFree(igt, candidates[1..]);
      if r.Some? then
        var i :| 0 <= i < |candidates[1..]| && candidates[1..][i] == r.value
                 && !HasTier(igt, r.value)
                 && forall j :: 0 <= j < i ==> HasTier(igt, candidates[1..][j]);
        assert candidates[i + 1] == r.value;
        assert forall j :: 0 <= j < i + 1 ==> HasTier(igt, candidates[j]) by {
          forall j | 0 <= j < i + 1 ensures HasTier(igt, candidates[j]) {
            if j > 0 { assert candidates[j] == candidates[1..][j - 1]; }
          }
        }
        r
      else
        assert forall i :: 0 <= i < |candidates| ==> HasTier(igt, candidates[i]) by {
          forall i | 0 <= i < |candidates| ensures HasTier(igt, candidates[i]) {
            if i > 0 { assert candidates[i] == candidates[1..][i - 1]; }
          }
        }
        r
  }

  /** The loop `for x_id in (...): if igt.get(x_id) is None: ...; break` of
      both odinclean.py and odinnormalize.py. */
  method FirstFreeTierId(igt: Igt, candidates: seq<string>) returns (r: Option<string>)
    ensures r == FirstFree(igt, candidates)
  {
    r := None;
    var i := 0;
    while i < |candidates|
      invariant 0 <= i <= |candidates|
      invariant FirstFree(igt, candidates) == FirstFree(igt, candidates[i..])
    {
      assert candidates[i..][1..] == candidates[i + 1..];
      if !(exists t :: t in igt.tiers && t.id == candidates[i]) {
        r := Some(candidates[i]);
        return;
      }
      i := i + 1;
    }
  }

  /** `copy_items` of odinnormalize.py and odinclean.py (the two are the
      same): new items with every field of the old ones, so as values they
      equal the originals.  (The copies share their attribute dicts with the
      originals; attributes are values here.) */
  function CopyItemsKeep(items: seq<Item>): (r: seq<Item>)
    ensures r == items
  {
    seq(|items|, i requires 0 <= i < |items| =>
      Item(items[i].id, items[i].itemType, items[i].alignment, items[i].content,
           items[i].segmentation, items[i].attributes, items[i].text))
  }

  /** The position of the last tier in the given ODIN state, if any. */
  function LastInState(tiers: seq<Tier>, state: string): (r: Option<nat>)
    ensures r.Some? ==> r.value < |tiers| && IsOdinState(tiers[r.value], state)
    ensures r.Some? ==> forall j :: r.value < j < |tiers| ==> !IsOdinState(tiers[j], state)
    ensures r.None? ==> forall j :: 0 <= j < |tiers| ==> !IsOdinState(tiers[j], state)
  {
    if tiers == [] then None
    else if IsOdinState(tiers[|tiers| - 1], state) then Some(|tiers| - 1)
    else LastInState(tiers[..|tiers| - 1], state)
  }

  /** The position of the first tier in the given ODIN state, if any. */
  function FirstInState(tiers: seq<Tier>, state: string): (r: Option<nat>)
    ensures r.Some? ==> r.value < |tiers| && IsOdinState(tiers[r.value], state)
    ensures r.Some? ==> forall j :: 0 <= j < r.value ==> !IsOdinState(tiers[j], state)
    ensures r.None? ==> forall j :: 0 <= j < |tiers| ==> !IsOdinState(tiers[j], state)
  {
    if tiers == [] then None
    else if IsOdinState(tiers[0], state) then Some(0)
    else
      var r := FirstInState(tiers[1..], state);
      if r.Some? then Some(r.value + 1) else None
  }

  /** `'{}{}'.format(tier_id, i + 1)`: the id of the item at position `i`
      (from 0) of a new tier. */
  function ItemId(tierId: string, i: nat): string
  {
    tierId + NatToString(i + 1)
  }

  /** Different positions get different item ids. */
  lemma ItemIdsDistinct(tierId: string, i: nat, j: nat)
    requires i != j
    ensures ItemId(tierId, i) != ItemId(tierId, j)
  {
    assert NatToString(i + 1) != NatToString(j + 1);
    assert ItemId(tierId, i)[|tierId|..] == NatToString(i + 1);
    assert ItemId(tierId, j)[|tierId|..] == NatToString(j + 1);
  }
}
