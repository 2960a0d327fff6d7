/**
 * odinnormalize.py: adds a `normalized` ODIN tier to each IGT, made from its
 * cleaned tier (or its raw tier when there is no cleaned one) by running
 * the six text steps of `NormalizeText` on every item.
 */
module OdinNormalize {
  import opened Py
  import opened Xigt
  import opened NormalizeText

  const BlankTag: string := "B"

  /** The ids tried, in order, for the new tier. */
  const NormIds: seq<string> := ["n", "on", "normalized", "odin-normalized"]

  // ---------------------------------------------------------------------
  // Items

  /** An item that `remove_blank_items` of odinnormalize.py drops: its tag is
      exactly `B` and its text is missing or blank. */
  predicate BlankItem(item: Item)
  {
    "tag" in item.attributes && item.attributes["tag"] == BlankTag && IsBlank(TextOr(item))
  }

  /** `remove_blank_items` of odinnormalize.py. */
  function RemoveBlankItems(items: seq<Item>): (r: seq<Item>)
    ensures forall x :: x in r ==> !BlankItem(x)
    ensures forall x :: x in items && !BlankItem(x) ==> x in r
    ensures forall x :: multiset(r)[x] == if BlankItem(x) then 0 else multiset(items)[x]
    ensures Subsequence(r, items)
  {
    if items == [] then []
    else
      var rest := RemoveBlankItems(items[1..]);
      assert items == [items[0]] + items[1..];
      if !BlankItem(items[0]) then [items[0]] + rest else rest
  }

  /** The `+`-separated tags of an item, as `extract_judgment` reads them. */
  function Tags(item: Item): seq<string>
  {
    SplitChar(AttrGet(item.attributes, "tag", ""), '+')
  }

  /** `extract_judgment`: for an item not tagged `CR`, record the judgment
      (if the pattern matches) and strip the judgment marks from the text. */
  function ExtractJudgment(item: Item): (r: Item)
    requires item.text.Some?
    ensures "CR" in Tags(item) ==> r == item
    ensures r.id == item.id && r.itemType == item.itemType && r.alignment == item.alignment
    ensures r.content == item.content && r.segmentation == item.segmentation
    ensures "CR" !in Tags(item) ==> r.text == Some(StripJudgment(item.text.value))
    ensures forall k :: k != "judgment" ==>
      (k in r.attributes <==> k in item.attributes) && (k in r.attributes ==> r.attributes[k] == item.attributes[k])
    ensures "CR" !in Tags(item) && JudgmentMatch(item.text.value).Some? ==>
      "judgment" in r.attributes && r.attributes["judgment"] == JudgmentMatch(item.text.value).value
    ensures ("CR" in Tags(item) || JudgmentMatch(item.text.value).None?) ==> r.attributes == item.attributes
  {
    if "CR" in Tags(item) then item
    else
      var t := item.text.value;
      var m := JudgmentMatch(t);
      var attrs := if m.Some? then item.attributes["judgment" := m.value] else item.attributes;
      item.(attributes := attrs, text := Some(StripJudgment(t)))
  }

  /** The five text steps before `extract_judgment`, in their fixed order. */
  function CleanText(t: string): string
  {
    RejoinHyphenatedGrams(RemovePrecontentTags(RemoveExampleNumbers(
      RemoveSurroundingParens(RemoveQuotes(t)))))
  }

  /** One pass of the first loop of `normalize_items` over one item. */
  function NormalizeItem(item: Item): (r: Item)
  {
    var item := item.(alignment := Some(item.id));
    if item.text.None? || IsBlank(item.text.value) then item.(text := Some(""))
    else ExtractJudgment(item.(text := Some(CleanText(item.text.value))))
  }

  /** What `normalize_items` returns for the items of the base tier. */
  function NormalizedItems(items: seq<Item>, normId: string): (r: seq<Item>)
    ensures |r| == |items|
  {
    seq(|items|, i requires 0 <= i < |items| => NormalizeItem(items[i]).(id := ItemId(normId, i)))
  }

  /** `normalize_items`: copy the items, normalize each in turn, then number
      them.  The result of `remove_blank_items` is not used, so no item is
      dropped. */
  method NormalizeItems(baseTier: Tier, normId: string) returns (items: seq<Item>)
    ensures items == NormalizedItems(baseTier.items, normId)
  {
    items := CopyItemsKeep(baseTier.items);
    var unused := RemoveBlankItems(items);
    for i := 0 to |items|
      invariant |items| == |baseTier.items|
      invariant forall j :: 0 <= j < i ==> items[j] == NormalizeItem(baseTier.items[j])
      invariant forall j :: i <= j < |items| ==> items[j] == baseTier.items[j]
    {
      var item := items[i].(alignment := Some(items[i].id));
      if item.text.None? || IsBlank(item.text.value) {
        item := item.(text := Some(""));
      } else {
        var t := RemoveQuotes(item.text.value);
        t := RemoveSurroundingParens(t);
        t := RemoveExampleNumbers(t);
        t := RemovePrecontentTags(t);
        t := RejoinHyphenatedGrams(t);
        item := ExtractJudgment(item.(text := Some(t)));
      }
      items := items[i := item];
    }
    for i := 0 to |items|
      invariant |items| == |baseTier.items|
      invariant forall j :: 0 <= j < i ==> items[j] == NormalizeItem(baseTier.items[j]).(id := ItemId(normId, j))
      invariant forall j :: i <= j < |items| ==> items[j] == NormalizeItem(baseTier.items[j])
    {
      items := items[i := items[i].(id := ItemId(normId, i))];
    }
  }

  /** Every base item gives one normalized item, at the same position: it is
      numbered from 1 after the tier id and aligned to the base item's id. */
  lemma NormalizedItemsShape(items: seq<Item>, normId: string, i: nat)
    requires i < |items|
    ensures var r := NormalizedItems(items, normId)[i];
      && r.id == ItemId(normId, i)
      && r.alignment == Some(items[i].id)
      && r.itemType == items[i].itemType
      && r.content == items[i].content && r.segmentation == items[i].segmentation
      && r.text.Some?
  {
  }

  /** The items of the new tier have pairwise different ids. */
  lemma NormalizedIdsDistinct(items: seq<Item>, normId: string)
    ensures var r := NormalizedItems(items, normId);
      forall i, j :: 0 <= i < j < |r| ==> r[i].id != r[j].id
  {
    forall i, j | 0 <= i < j < |items| {
      ItemIdsDistinct(normId, i, j);
    }
  }

  /** An item without text, or with blank text, gets the empty text and no
      other change (the six steps are skipped, blank `B` items included). */
  lemma NormalizeBlankItem(item: Item)
    requires item.text.None? || IsBlank(item.text.value)
    ensures NormalizeItem(item) == item.(alignment := Some(item.id), text := Some(""))
  {
  }

  /** Any other item goes through the six steps in order; its attributes
      change only by a recorded judgment. */
  lemma NormalizeTextItem(item: Item)
    requires item.text.Some? && !IsBlank(item.text.value)
    ensures var t := CleanText(item.text.value);
      && NormalizeItem(item).text == Some(if "CR" in Tags(item) then t else StripJudgment(t))
      && (JudgmentMatch(t).None? ==> NormalizeItem(item).attributes == item.attributes)
  {
  }

  // ---------------------------------------------------------------------
  // Tiers

  predicate IsOdin(t: Tier)
  {
    t.tierType == Some("odin")
  }

  /** `base_tier` after the loop of `normalize_corpus` has seen `tiers`: a
      cleaned tier replaces whatever was chosen, a raw one is taken only while
      nothing is chosen. */
  function ChosenBase(tiers: seq<Tier>): Option<Tier>
  {
    if tiers == [] then None
    else
      var prev := ChosenBase(tiers[..|tiers| - 1]);
      var t := tiers[|tiers| - 1];
      if IsOdin(t) && prev.None? && IsOdinState(t, "raw") then Some(t)
      else if IsOdin(t) && IsOdinState(t, "cleaned") then Some(t)
      else prev
  }

  /** `norm_tier` after the loop has seen `tiers`. */
  function ChosenNorm(tiers: seq<Tier>): Option<Tier>
  {
    if tiers == [] then None
    else
      var prev := ChosenNorm(tiers[..|tiers| - 1]);
      var t := tiers[|tiers| - 1];
      if IsOdin(t) && IsOdinState(t, "normalized") then Some(t) else prev
  }

  /** A cleaned tier is preferred over a raw one whatever their order: the
      base is the last cleaned tier, or else the first raw tier. */
  lemma {:induction false} ChosenBaseSpec(tiers: seq<Tier>)
    ensures var c := LastInState(tiers, "cleaned");
      var w := FirstInState(tiers, "raw");
      ChosenBase(tiers) ==
        if c.Some? then Some(tiers[c.value])
        else if w.Some? then Some(tiers[w.value])
        else None
  {
    if tiers != [] {
      var init := tiers[..|tiers| - 1];
      ChosenBaseSpec(init);
      assert forall j :: 0 <= j < |init| ==> init[j] == tiers[j];
      var w0 := FirstInState(init, "raw");
      var w := FirstInState(tiers, "raw");
      if w0.Some? {
        assert w == w0 by { FirstInStatePrefix(tiers, "raw", w0.value); }
      }
    }
  }

  lemma FirstInStatePrefix(tiers: seq<Tier>, state: string, k: nat)
    requires k < |tiers| && IsOdinState(tiers[k], state)
    requires forall j :: 0 <= j < k ==> !IsOdinState(tiers[j], state)
    ensures FirstInState(tiers, state) == Some(k)
  {
    var r := FirstInState(tiers, state);
  }

  /** `norm_tier` is set exactly when some tier is normalized. */
  lemma {:induction false} ChosenNormSpec(tiers: seq<Tier>)
    ensures ChosenNorm(tiers).Some? <==> exists j :: 0 <= j < |tiers| && IsOdinState(tiers[j], "normalized")
  {
    if tiers != [] {
      var init := tiers[..|tiers| - 1];
      ChosenNormSpec(init);
      assert forall j :: 0 <= j < |init| ==> init[j] == tiers[j];
    }
  }

  /** The tier-selection loop of `normalize_corpus`. */
  method SelectTiers(igt: Igt) returns (baseTier: Option<Tier>, normTier: Option<Tier>)
    ensures baseTier == ChosenBase(igt.tiers) && normTier == ChosenNorm(igt.tiers)
  {
    baseTier := None;
    normTier := None;
    for k := 0 to |igt.tiers|
      invariant baseTier == ChosenBase(igt.tiers[..k])
      invariant normTier == ChosenNorm(igt.tiers[..k])
    {
      var tier := igt.tiers[k];
      assert igt.tiers[..k + 1][..k] == igt.tiers[..k];
      if tier.tierType == Some("odin") {
        var state := if "state" in tier.attributes then Some(tier.attributes["state"]) else None;
        if baseTier.None? && state == Some("raw") {
          baseTier := Some(tier);
        } else if state == Some("cleaned") {
          baseTier := Some(tier);
        } else if state == Some("normalized") {
          normTier := Some(tier);
        }
      }
    }
    assert igt.tiers[..|igt.tiers|] == igt.tiers;
  }

  /** The tier `add_normalized_tier` appends. */
  function NormalizedTier(baseTier: Tier, normId: string): Tier
  {
    Tier(normId, Some("odin"), Some(baseTier.id), map["state" := "normalized"],
         NormalizedItems(baseTier.items, normId))
  }

  /** What `add_normalized_tier` makes of an IGT. */
  function AddedNormalizedTier(igt: Igt, baseTier: Tier): Igt
  {
    var normId := FirstFree(igt, NormIds);
    if normId.None? then igt
    else igt.(tiers := igt.tiers + [NormalizedTier(baseTier, normId.value)])
  }

  /** `add_normalized_tier`: append a normalized tier under the first free
      id; with no free id, leave the IGT as it is. */
  method AddNormalizedTier(igt: Igt, baseTier: Tier) returns (r: Igt)
    ensures r == AddedNormalizedTier(igt, baseTier)
  {
    var normId := FirstFreeTierId(igt, NormIds);
    if normId.None? {
      r := igt;
    } else {
      var normItems := NormalizeItems(baseTier, normId.value);
      var tier := Tier(normId.value, Some("odin"), Some(baseTier.id), map["state" := "normalized"], normItems);
      r := igt.(tiers := igt.tiers + [tier]);
    }
  }

  /** What `normalize_corpus` makes of one IGT. */
  function NormalizeIgt(igt: Igt): Igt
  {
    var b := ChosenBase(igt.tiers);
    var n := ChosenNorm(igt.tiers);
    if b.None? || n.Some? then igt else AddedNormalizedTier(igt, b.value)
  }

  /** `normalize_corpus`. */
  method NormalizeCorpus(corpus: seq<Igt>) returns (r: seq<Igt>)
    ensures |r| == |corpus|
    ensures forall i :: 0 <= i < |r| ==> r[i] == NormalizeIgt(corpus[i])
  {
    r := [];
    for i := 0 to |corpus|
      invariant |r| == i
      invariant forall j :: 0 <= j < i ==> r[j] == NormalizeIgt(corpus[j])
    {
      var igt := corpus[i];
      var baseTier, normTier := SelectTiers(igt);
      if baseTier.None? {
        // logged: no tier to normalize
      } else if normTier.Some? {
        // logged: already normalized
      } else {
        igt := AddNormalizedTier(igt, baseTier.value);
      }
      r := r + [igt];
    }
  }

  /** An IGT that already has a normalized tier is left alone. */
  lemma NormalizeSkipsNormalized(igt: Igt, j: nat)
    requires j < |igt.tiers| && IsOdinState(igt.tiers[j], "normalized")
    ensures NormalizeIgt(igt) == igt
  {
    ChosenNormSpec(igt.tiers);
  }

  /** When a tier is added, it comes last, under the first free id, aligned
      to the chosen base tier, and nothing else changes. */
  lemma NormalizeAdds(igt: Igt)
    requires ChosenBase(igt.tiers).Some? && ChosenNorm(igt.tiers).None?
    requires FirstFree(igt, NormIds).Some?
    ensures var id := FirstFree(igt, NormIds).value;
      var b := ChosenBase(igt.tiers).value;
      && NormalizeIgt(igt).tiers == igt.tiers + [NormalizedTier(b, id)]
      && NormalizeIgt(igt).id == igt.id && NormalizeIgt(igt).attributes == igt.attributes
      && id in NormIds && !HasTier(igt, id)
      && NormalizedTier(b, id).alignment == Some(b.id)
  {
  }

  /** Normalizing twice is the same as normalizing once: the second run finds
      the normalized tier and skips the IGT. */
  lemma NormalizeIdempotent(igt: Igt)
    ensures NormalizeIgt(NormalizeIgt(igt)) == NormalizeIgt(igt)
  {
    var r := NormalizeIgt(igt);
    if r != igt {
      var t := r.tiers[|r.tiers| - 1];
      assert IsOdinState(t, "normalized");
      NormalizeSkipsNormalized(r, |r.tiers| - 1);
    }
  }
}
