/**
 * odinclean.py: adds a `cleaned` ODIN tier to each IGT, made from its raw
 * tier by merging corrupted (`+CR`) lines into the line before them, then
 * numbering the items afresh.
 */
module OdinClean {
  import opened Py
  import opened Xigt
  import opened Utf8

  /** The ids tried, in order, for the new tier. */
  const CleanIds: seq<string> := ["c", "oc", "cleaned", "odin-cleaned"]

  // ---------------------------------------------------------------------
  // bit_merge

  /** `s.replace(' ', '\0').encode('utf-8')`: spaces become zero bytes. */
  function Holes(s: string): seq<byte>
  {
    Encode(ReplaceChar(s, ' ', '\0'))
  }

  /** `bs.ljust(n, b'\0')`. */
  function PadTo(bs: seq<byte>, n: nat): (r: seq<byte>)
  {
    if |bs| < n then bs + seq(n - |bs|, _ => 0) else bs
  }

  /** Padding keeps the bytes and adds zero bytes up to length `n`. */
  lemma PadToSpec(bs: seq<byte>, n: nat)
    ensures |PadTo(bs, n)| == if |bs| < n then n else |bs|
    ensures forall i :: 0 <= i < |bs| ==> PadTo(bs, n)[i] == bs[i]
    ensures forall i :: |bs| <= i < |PadTo(bs, n)| ==> PadTo(bs, n)[i] == 0
  {
  }

  /** Bitwise or of two bytes (`c1|c2`). */
  function ByteOr(x: byte, y: byte): (r: byte)
    ensures x == 0 ==> r == y
    ensures y == 0 ==> r == x
  {
    if x == 0 then y else if y == 0 then x else (((x as bv8) | (y as bv8)) as int) as byte
  }

  /** The loop over `zip(a, b)`: the bytes or'ed pairwise, or `None` when
      some position has a non-zero byte on both sides. */
  function Overlay(x: seq<byte>, y: seq<byte>): (r: Option<seq<byte>>)
    requires |x| == |y|
  {
    if x == [] then Some([])
    else
      var n := |x| - 1;
      var prev := Overlay(x[..n], y[..n]);
      if prev.None? || (x[n] != 0 && y[n] != 0) then None
      else Some(prev.value + [ByteOr(x[n], y[n])])
  }

  /** The overlay fails exactly at a collision; otherwise each byte comes
      from whichever side is non-zero. */
  lemma {:induction false} OverlaySpec(x: seq<byte>, y: seq<byte>)
    requires |x| == |y|
    ensures Overlay(x, y).None? <==> exists i :: 0 <= i < |x| && x[i] != 0 && y[i] != 0
    ensures Overlay(x, y).Some? ==> |Overlay(x, y).value| == |x|
    ensures Overlay(x, y).Some? ==> forall i :: 0 <= i < |x| ==>
      Overlay(x, y).value[i] == if x[i] != 0 then x[i] else y[i]
  {
    if x != [] {
      var n := |x| - 1;
      OverlaySpec(x[..n], y[..n]);
      if Overlay(x[..n], y[..n]).None? {
        var i :| 0 <= i < n && x[..n][i] != 0 && y[..n][i] != 0;
        assert x[i] != 0 && y[i] != 0;
      } else if Overlay(x, y).None? {
        assert x[n] != 0 && y[n] != 0;
      } else {
        forall i | 0 <= i < n ensures x[..n][i] == x[i] && y[..n][i] == y[i] { }
      }
    }
  }

  /** The two byte strings `bit_merge` zips once `a` is the longer
      argument: spaces turned into zero bytes, `b` padded with zero bytes to
      the byte length of `a`. */
  function Operands(a: string, b: string): (seq<byte>, seq<byte>)
  {
    var x := Holes(a);
    (x, PadTo(Holes(b), |x|))
  }

  /** The body of `bit_merge` after the swap. */
  function MergeOrdered(a: string, b: string): Option<string>
  {
    var (x, y) := Operands(a, b);
    var n := if |x| < |y| then |x| else |y|;
    match Overlay(x[..n], y[..n])
    case None => None
    case Some(c) =>
      match Decode(c)
      case None => None
      case Some(t) => Some(RStripSet(ReplaceChar(t, '\0', ' '), {' '}))
  }

  /** `bit_merge(a, b)`: `None` on a collision or when the merged bytes are
      not UTF-8; otherwise the merged text with zero bytes back to spaces and
      trailing spaces removed.  The swap compares lengths in characters. */
  function BitMerged(a: string, b: string): Option<string>
    decreases if |b| > |a| then 1 else 0
  {
    if |b| > |a| then BitMerged(b, a) else MergeOrdered(a, b)
  }

  /** The loop of `bit_merge` over `zip(a, b)`, with its early return on a
      collision. */
  method ZipMerge(x: seq<byte>, y: seq<byte>) returns (r: Option<seq<byte>>)
    ensures var n := if |x| < |y| then |x| else |y|; r == Overlay(x[..n], y[..n])
  {
    var n := if |x| < |y| then |x| else |y|;
    var c: seq<byte> := [];
    for i := 0 to n
      invariant Overlay(x[..i], y[..i]) == Some(c)
    {
      assert x[..i + 1][..i] == x[..i] && y[..i + 1][..i] == y[..i];
      if x[i] != 0 && y[i] != 0 {
        assert x[..n][i] != 0 && y[..n][i] != 0;
        OverlaySpec(x[..n], y[..n]);
        return None;
      }
      c := c + [ByteOr(x[i], y[i])];
    }
    assert x[..n] == x[..n][..n] && y[..n] == y[..n][..n];
    r := Some(c);
  }

  /** `bit_merge`. */
  method BitMerge(a: string, b: string) returns (r: Option<string>)
    ensures r == BitMerged(a, b)
    decreases if |b| > |a| then 1 else 0
  {
    if |b| > |a| {
      r := BitMerge(b, a);
      return;
    }
    var x := Holes(a);
    var y := PadTo(Holes(b), |x|);
    assert (x, y) == Operands(a, b);
    var c := ZipMerge(x, y);
    if c.None? {
      return None;
    }
    var t := Decode(c.value);
    if t.None? {
      return None;
    }
    r := Some(RStripSet(ReplaceChar(t.value, '\0', ' '), {' '}));
  }

  /** A position of the zipped bytes where both sides are filled makes the
      merge fail. */
  lemma BitMergeCollision(a: string, b: string, i: nat)
    requires |b| <= |a|
    requires var (x, y) := Operands(a, b); i < |x| && i < |y| && x[i] != 0 && y[i] != 0
    ensures BitMerged(a, b).None?
  {
    var (x, y) := Operands(a, b);
    var n := if |x| < |y| then |x| else |y|;
    assert x[..n][i] != 0 && y[..n][i] != 0;
    OverlaySpec(x[..n], y[..n]);
  }

  /** A hole: a space or NUL, both of which become a zero byte. */
  predicate IsHole(c: char) { c == ' ' || c == '\0' }

  /** Two strings collide when some position is filled in both. */
  predicate Collide(a: string, b: string)
  {
    exists i :: 0 <= i < |a| && i < |b| && !IsHole(a[i]) && !IsHole(b[i])
  }

  /** The character-level meaning of the overlay: each position takes the
      character of whichever string fills it, or a space. */
  function OverlayChars(a: string, b: string): (r: string)
    ensures |r| == if |a| < |b| then |b| else |a|
  {
    var n := if |a| < |b| then |b| else |a|;
    seq(n, i requires 0 <= i < n =>
      if i < |a| && !IsHole(a[i]) then a[i]
      else if i < |b| && !IsHole(b[i]) then b[i]
      else ' ')
  }

  /** The byte an ASCII character becomes in `bit_merge`. */
  function HoleCode(c: char): int
  {
    if IsHole(c) then 0 else c as int
  }

  /** Holes of ASCII text, byte by byte. */
  lemma HolesAscii(s: string)
    requires IsAscii(s)
    ensures |Holes(s)| == |s|
    ensures forall i :: 0 <= i < |s| ==> Holes(s)[i] as int == HoleCode(s[i])
  {
    var t := ReplaceChar(s, ' ', '\0');
    assert IsAscii(t);
    EncodeAscii(t);
  }

  /** For ASCII text the zipped operands are one byte per character, the
      shorter side padded with zero bytes. */
  lemma OperandsAscii(a: string, b: string)
    requires IsAscii(a) && IsAscii(b) && |b| <= |a|
    ensures var (x, y) := Operands(a, b);
      && |x| == |a| && |y| == |a|
      && (forall i :: 0 <= i < |a| ==> x[i] as int == HoleCode(a[i]))
      && (forall i :: 0 <= i < |a| ==> y[i] as int == if i < |b| then HoleCode(b[i]) else 0)
  {
    HolesAscii(a);
    HolesAscii(b);
    PadToSpec(Holes(b), |a|);
  }

  /** For ASCII strings, `bit_merge` fails exactly on a collision and
      otherwise returns the overlay of the two, right-stripped of spaces. */
  lemma BitMergeAscii(a: string, b: string)
    requires IsAscii(a) && IsAscii(b)
    ensures BitMerged(a, b) == if Collide(a, b) then None else Some(RStripSet(OverlayChars(a, b), {' '}))
  {
    if |b| > |a| {
      BitMergeAsciiOrdered(b, a);
      OverlaySymmetric(a, b);
    } else {
      BitMergeAsciiOrdered(a, b);
    }
  }

  lemma BitMergeAsciiOrdered(a: string, b: string)
    requires IsAscii(a) && IsAscii(b) && |b| <= |a|
    ensures MergeOrdered(a, b) == if Collide(a, b) then None else Some(RStripSet(OverlayChars(a, b), {' '}))
  {
    OperandsAscii(a, b);
    var (x, y) := Operands(a, b);
    assert x[..|a|] == x && y[..|a|] == y;
    OverlaySpec(x, y);
    if Collide(a, b) {
      var i :| 0 <= i < |a| && i < |b| && !IsHole(a[i]) && !IsHole(b[i]);
      assert x[i] != 0 && y[i] != 0;
    } else {
      var c := Overlay(x, y).value;
      OverlayAscii(a, b, x, y, c);
      DecodeAscii(c);
      MergedTextAscii(a, b, c, Decode(c).value);
    }
  }

  /** Without a collision the merged bytes are the overlay's characters,
      with a zero byte where neither side has one. */
  lemma OverlayAscii(a: string, b: string, x: seq<byte>, y: seq<byte>, c: seq<byte>)
    requires IsAscii(a) && IsAscii(b) && |b| <= |a| && !Collide(a, b)
    requires |x| == |a| && |y| == |a| && |c| == |a|
    requires forall i :: 0 <= i < |a| ==> x[i] as int == HoleCode(a[i])
    requires forall i :: 0 <= i < |a| ==> y[i] as int == if i < |b| then HoleCode(b[i]) else 0
    requires forall i :: 0 <= i < |a| ==> c[i] == if x[i] != 0 then x[i] else y[i]
    ensures forall i :: 0 <= i < |c| ==> c[i] < 0x80
    ensures forall i :: 0 <= i < |c| ==> c[i] as int == if OverlayChars(a, b)[i] == ' ' then 0 else OverlayChars(a, b)[i] as int
  {
  }

  /** Decoding the merged ASCII bytes and turning zero bytes into spaces
      gives the overlay. */
  lemma MergedTextAscii(a: string, b: string, c: seq<byte>, t: string)
    requires |b| <= |a| && |c| == |a| && |t| == |c|
    requires forall i :: 0 <= i < |c| ==> c[i] as int == if OverlayChars(a, b)[i] == ' ' then 0 else OverlayChars(a, b)[i] as int
    requires forall i :: 0 <= i < |c| ==> t[i] as int == c[i] as int
    ensures ReplaceChar(t, '\0', ' ') == OverlayChars(a, b)
  {
    var o := OverlayChars(a, b);
    forall i | 0 <= i < |t| ensures ReplaceChar(t, '\0', ' ')[i] == o[i] {
      if o[i] == ' ' {
        assert t[i] as int == 0;
      } else {
        assert t[i] as int == o[i] as int;
      }
    }
  }

  /** With ASCII arguments the order does not matter. */
  lemma {:induction false} BitMergeSymmetric(a: string, b: string)
    requires IsAscii(a) && IsAscii(b)
    ensures BitMerged(a, b) == BitMerged(b, a)
  {
    BitMergeAscii(a, b);
    BitMergeAscii(b, a);
    OverlaySymmetric(a, b);
  }

  /** Two strings collide whichever comes first, and when they do not,
      their overlay does not depend on the order. */
  lemma OverlaySymmetric(a: string, b: string)
    ensures Collide(a, b) <==> Collide(b, a)
    ensures !Collide(a, b) ==> OverlayChars(a, b) == OverlayChars(b, a)
  {
    if !Collide(a, b) {
      assert OverlayChars(a, b) == OverlayChars(b, a);
    }
  }

  /** Merging ASCII text with nothing turns NULs into spaces and strips
      trailing spaces. */
  lemma {:induction false} BitMergeEmpty(s: string)
    requires IsAscii(s)
    ensures BitMerged(s, "") == Some(RStripSet(ReplaceChar(s, '\0', ' '), {' '}))
  {
    BitMergeAscii(s, "");
    assert OverlayChars(s, "") == ReplaceChar(s, '\0', ' ');
  }

  // ---------------------------------------------------------------------
  // merge_lines

  /** The `+`-separated tags of an item (`''` when it has none). */
  function Tags(item: Item): seq<string>
  {
    SplitChar(AttrGet(item.attributes, "tag", ""), '+')
  }

  /** `set(p).intersection(c).difference(['CR'])` is not empty. */
  predicate SharesTag(p: seq<string>, c: seq<string>)
  {
    p != [] && ((p[0] != "CR" && p[0] in c) || SharesTag(p[1..], c))
  }

  /** The two tag lists have a tag other than `CR` in common. */
  lemma {:induction false} SharesTagSpec(p: seq<string>, c: seq<string>)
    ensures SharesTag(p, c) <==> exists t :: t in p && t in c && t != "CR"
  {
    if p != [] {
      SharesTagSpec(p[1..], c);
      assert p == [p[0]] + p[1..];
    }
  }

  /** `cur` is merged into `prev` only when it is tagged `CR` and the two
      share some tag other than `CR`. */
  predicate Mergeable(prev: Item, cur: Item)
  {
    "CR" in Tags(cur) && SharesTag(Tags(prev), Tags(cur))
  }

  predicate Distinct<T(==)>(s: seq<T>)
  {
    forall i, j :: 0 <= i < j < |s| ==> s[i] != s[j]
  }

  /** The keys of `OrderedDict((t, 1) for t in s)`: each element once, at its
      first occurrence. */
  function Dedup(s: seq<string>): seq<string>
  {
    if s == [] then []
    else
      var d := Dedup(s[..|s| - 1]);
      if s[|s| - 1] in d then d else d + [s[|s| - 1]]
  }

  /** Deduplication keeps every element, once. */
  lemma {:induction false} DedupSpec(s: seq<string>)
    ensures forall x :: x in Dedup(s) <==> x in s
    ensures Distinct(Dedup(s))
  {
    if s != [] {
      var init := s[..|s| - 1];
      DedupSpec(init);
      assert s == init + [s[|s| - 1]];
    }
  }

  /** Deduplicating a longer list only adds at the end: elements keep the
      order of their first occurrences. */
  lemma {:induction false} DedupPrefix(s: seq<string>, k: nat)
    requires k <= |s|
    ensures Dedup(s[..k]) <= Dedup(s)
    decreases |s|
  {
    if k < |s| {
      DedupPrefix(s[..|s| - 1], k);
      assert s[..|s| - 1][..k] == s[..k];
    } else {
      assert s[..k] == s;
    }
  }

  /** A list without repeats is its own deduplication. */
  lemma {:induction false} DedupDistinct(s: seq<string>)
    requires Distinct(s)
    ensures Dedup(s) == s
  {
    if s != [] {
      DedupDistinct(s[..|s| - 1]);
    }
  }

  /** The merged tag list starts with the kept line's own tags, in order. */
  lemma MergedTagsStartWithPrev(p: seq<string>, c: seq<string>)
    requires Distinct(p)
    ensures p <= Dedup(p + c)
  {
    DedupPrefix(p + c, |p|);
    assert (p + c)[..|p|] == p;
    DedupDistinct(p);
  }

  /** The kept line after `cur` has been merged into it. */
  function MergedItem(prev: Item, cur: Item, merged: string): Outcome<Item>
  {
    if "line" !in prev.attributes || "line" !in cur.attributes then Raised(TypeError)
    else
      var tags := JoinChar(Dedup(Tags(prev) + Tags(cur)), '+');
      var lines := prev.attributes["line"] + " " + cur.attributes["line"];
      Ok(prev.(attributes := prev.attributes["tag" := tags]["line" := lines], text := Some(merged)))
  }

  /** A way of merging two texts; `merge_lines` uses `bit_merge`.  The fold
      below is stated for any such function, so that what it does to the
      list of lines is proved apart from how texts are merged. */
  type Merger = (string, string) -> Option<string>

  /** One pass of the loop of `merge_lines` over `cur`. */
  function MergeStep(kept: seq<Item>, cur: Item, merge: Merger): (r: Outcome<seq<Item>>)
    requires kept != []
    ensures r.Ok? ==> |kept| <= |r.value| <= |kept| + 1
  {
    var prev := kept[|kept| - 1];
    if !Mergeable(prev, cur) then Ok(kept + [cur])
    else match merge(TextOr(prev), TextOr(cur))
      case None => Ok(kept)
      case Some(m) =>
        match MergedItem(prev, cur, m)
        case Raised(e) => Raised(e)
        case Ok(item) => Ok(kept[..|kept| - 1] + [item])
  }

  /** `newitems` after the loop has seen `items[1..k]`. */
  function MergeFold(items: seq<Item>, k: nat, merge: Merger): (r: Outcome<seq<Item>>)
    requires 1 <= k <= |items|
  {
    if k == 1 then Ok([items[0]])
    else match MergeFold(items, k - 1, merge)
      case Raised(e) => Raised(e)
      case Ok(kept) => if kept == [] then Ok(kept) else MergeStep(kept, items[k - 1], merge)
  }

  /** The fold up to `k`, named so that the loop of `merge_lines` can state
      its invariant without unfolding the recursion. */
  function Folded(items: seq<Item>, k: nat, merge: Merger): Outcome<seq<Item>>
    requires 1 <= k <= |items|
  {
    MergeFold(items, k, merge)
  }

  /** What `merge_lines` returns when texts are merged with `merge`. */
  function MergedLinesWith(items: seq<Item>, merge: Merger): Outcome<seq<Item>>
  {
    if |items| < 2 then Ok(items) else MergeFold(items, |items|, merge)
  }

  /** What `merge_lines` returns. */
  function MergedLines(items: seq<Item>): Outcome<seq<Item>>
  {
    MergedLinesWith(items, BitMerged)
  }


  /** The body of the loop of `merge_lines` for the line `cur`: append it,
      fold it into the last kept line, or drop it.  `merge` is the function
      that merges two texts (`bit_merge`). */
  method MergeLine(newitems: seq<Item>, cur: Item, merge: Merger) returns (r: Outcome<seq<Item>>)
    requires newitems != []
    ensures r == MergeStep(newitems, cur, merge)
    ensures r.Ok? ==> r.value != []
  {
    var prev := newitems[|newitems| - 1];
    if !Mergeable(prev, cur) {
      return Ok(newitems + [cur]);
    }
    var merged := merge(TextOr(prev), TextOr(cur));
    if merged.None? {
      return Ok(newitems);
    }
    if "line" !in prev.attributes || "line" !in cur.attributes {
      return Raised(TypeError);
    }
    var tags := Dedup(Tags(prev) + Tags(cur));
    var lineNums := prev.attributes["line"] + " " + cur.attributes["line"];
    prev := prev.(attributes := prev.attributes["tag" := JoinChar(tags, '+')]);
    prev := prev.(attributes := prev.attributes["line" := lineNums]);
    prev := prev.(text := Some(merged.value));
    r := Ok(newitems[..|newitems| - 1] + [prev]);
  }

  /** What the loop of `merge_lines` holds before line `i`: `newitems` is
      the fold of the lines before it, and never empty. */
  predicate LoopHolds(items: seq<Item>, i: nat, newitems: seq<Item>, merge: Merger)
  {
    1 <= i <= |items| && Folded(items, i, merge) == Ok(newitems) && newitems != []
  }

  /** The loop body of `merge_lines` at position `i`: the fold one line
      further. */
  method MergeNext(items: seq<Item>, i: nat, kept: seq<Item>, merge: Merger) returns (r: Outcome<seq<Item>>)
    requires LoopHolds(items, i, kept, merge) && i < |items|
    ensures r == Folded(items, i + 1, merge)
    ensures r.Ok? ==> LoopHolds(items, i + 1, r.value, merge)
  {
    r := MergeLine(kept, items[i], merge);
    FoldedNext(items, i, kept, merge);
  }

  /** The loop of `merge_lines` over two or more lines: it runs to the end,
      or stops after line `k - 1` when merging it raised. */
  method MergeLoop(items: seq<Item>, merge: Merger) returns (r: Outcome<seq<Item>>, ghost k: nat)
    requires |items| >= 2
    ensures 1 <= k <= |items| && r == Folded(items, k, merge)
    ensures r.Ok? ==> k == |items|
  {
    var newitems := [items[0]];
    for i := 1 to |items|
      invariant LoopHolds(items, i, newitems, merge)
    {
      var step := MergeNext(items, i, newitems, merge);
      if step.Raised? {
        return step, i + 1;
      }
      newitems := step.value;
    }
    return Ok(newitems), |items|;
  }

  /** `merge_lines` with a given merge function: an exception from a merge
      propagates. */
  method MergeLinesWith(items: seq<Item>, merge: Merger) returns (r: Outcome<seq<Item>>)
    ensures r == MergedLinesWith(items, merge)
  {
    if |items| < 2 {
      return Ok(items);
    }
    ghost var k;
    r, k := MergeLoop(items, merge);
    if r.Raised? {
      FoldedRaised(items, k, merge);
    }
  }

  /** `merge_lines`, which merges texts with `bit_merge` (the function
      `BitMerged`, which the method `BitMerge` computes). */
  method MergeLines(items: seq<Item>) returns (r: Outcome<seq<Item>>)
    ensures r == MergedLines(items)
  {
    r := MergeLinesWith(items, BitMerged);
  }

  function Ids(items: seq<Item>): (r: seq<string>)
    ensures |r| == |items|
  {
    seq(|items|, i requires 0 <= i < |items| => items[i].id)
  }

  /** One step keeps the ids of the kept lines and adds at most the id of
      the current line. */
  lemma MergeStepIds(kept: seq<Item>, cur: Item, merge: Merger)
    requires kept != [] && MergeStep(kept, cur, merge).Ok?
    ensures var r := MergeStep(kept, cur, merge).value;
      Ids(r) == Ids(kept) + [cur.id] || Ids(r) == Ids(kept)
  {
    var r := MergeStep(kept, cur, merge).value;
    if !Mergeable(kept[|kept| - 1], cur) {
      assert Ids(r) == Ids(kept) + [cur.id];
    } else if merge(TextOr(kept[|kept| - 1]), TextOr(cur)).Some? {
      assert Ids(r) == Ids(kept);
    }
  }

  /** Merging never adds lines: the result keeps the first line and is the
      input with some lines left out (the kept lines in order). */
  lemma {:induction false} MergeFoldShape(items: seq<Item>, k: nat, merge: Merger)
    requires 1 <= k <= |items|
    ensures MergeFold(items, k, merge).Ok? ==>
      var r := MergeFold(items, k, merge).value;
      && 1 <= |r| <= k && r[0].id == items[0].id
      && Subsequence(Ids(r), Ids(items[..k]))
  {
    if k == 1 {
      assert Ids([items[0]]) == Ids(items[..1]);
      SubsequenceRefl(Ids(items[..1]));
    } else if MergeFold(items, k, merge).Ok? {
      MergeFoldShape(items, k - 1, merge);
      var kept := MergeFold(items, k - 1, merge).value;
      var cur := items[k - 1];
      var r := MergeFold(items, k, merge).value;
      assert r == MergeStep(kept, cur, merge).value;
      MergeStepIds(kept, cur, merge);
      assert Ids(items[..k]) == Ids(items[..k - 1]) + [cur.id];
      SubsequenceSnoc(Ids(kept), Ids(items[..k - 1]), cur.id);
      assert r[0].id == Ids(r)[0] == Ids(kept)[0];
    }
  }

  /** The fold one line further is one more step. */
  lemma {:induction false} FoldedNext(items: seq<Item>, i: nat, kept: seq<Item>, merge: Merger)
    requires LoopHolds(items, i, kept, merge) && i < |items|
    ensures Folded(items, i + 1, merge) == MergeStep(kept, items[i], merge)
  {
  }

  /** Once a merge has raised, the loop ends with the same exception. */
  lemma {:induction false} FoldedRaised(items: seq<Item>, k: nat, merge: Merger)
    requires 1 <= k <= |items| && Folded(items, k, merge).Raised?
    ensures Folded(items, |items|, merge) == Folded(items, k, merge)
  {
    MergeFoldRaised(items, k, |items|, merge);
  }

  /** Once a merge has raised, the fold carries the exception to the end. */
  lemma {:induction false} MergeFoldRaised(items: seq<Item>, k: nat, n: nat, merge: Merger)
    requires 1 <= k <= n <= |items| && MergeFold(items, k, merge).Raised?
    ensures MergeFold(items, n, merge) == MergeFold(items, k, merge)
    decreases n
  {
    if n > k {
      MergeFoldRaised(items, k, n - 1, merge);
    }
  }

  lemma SubsequenceRefl<T>(s: seq<T>)
    ensures Subsequence(s, s)
  {
    if s != [] {
      SubsequenceRefl(s[1..]);
    }
  }

  /** Adding an element to the longer list keeps a subsequence, and adding
      it to both does too. */
  lemma {:induction false} SubsequenceSnoc<T>(r: seq<T>, s: seq<T>, x: T)
    requires Subsequence(r, s)
    ensures Subsequence(r, s + [x]) && Subsequence(r + [x], s + [x])
    decreases |s|
  {
    assert [] + [x] == [x] && [x][1..] == [];
    if s == [] {
      assert r == [];
    } else {
      assert (s + [x])[0] == s[0] && (s + [x])[1..] == s[1..] + [x];
      if r == [] {
        SubsequenceSnoc(r, s[1..], x);
      } else {
        assert (r + [x])[0] == r[0] && (r + [x])[1..] == r[1..] + [x];
        if r[0] == s[0] {
          SubsequenceSnoc(r[1..], s[1..], x);
        } else {
          SubsequenceSnoc(r, s[1..], x);
        }
      }
    }
  }

  /** Inputs of fewer than two lines come back as they are. */
  lemma MergeLinesShort(items: seq<Item>)
    requires |items| < 2
    ensures MergedLines(items) == Ok(items)
  {
  }

  /** A line that is not a corrupted continuation of the last kept line is
      kept unchanged; a merge that fails drops the line. */
  lemma MergeStepKeeps(kept: seq<Item>, cur: Item, merge: Merger)
    requires kept != []
    ensures !Mergeable(kept[|kept| - 1], cur) ==> MergeStep(kept, cur, merge) == Ok(kept + [cur])
    ensures Mergeable(kept[|kept| - 1], cur) && merge(TextOr(kept[|kept| - 1]), TextOr(cur)).None?
      ==> MergeStep(kept, cur, merge) == Ok(kept)
  {
  }

  /** A successful merge rewrites only the last kept line: its tags become
      the union of both tag lists (its own first), its `line` the two line
      numbers, and its text the merged text. */
  lemma MergeStepMerges(kept: seq<Item>, cur: Item, merge: Merger)
    requires kept != [] && Mergeable(kept[|kept| - 1], cur)
    requires merge(TextOr(kept[|kept| - 1]), TextOr(cur)).Some?
    requires "line" in kept[|kept| - 1].attributes && "line" in cur.attributes
    ensures var prev := kept[|kept| - 1];
      var r := MergeStep(kept, cur, merge);
      && r.Ok? && |r.value| == |kept| && r.value[..|kept| - 1] == kept[..|kept| - 1]
      && var m := r.value[|kept| - 1];
      && m.id == prev.id
      && m.text == merge(TextOr(prev), TextOr(cur))
      && "tag" in m.attributes
      && SplitChar(m.attributes["tag"], '+') == Dedup(Tags(prev) + Tags(cur))
      && (forall t :: t in SplitChar(m.attributes["tag"], '+') <==> t in Tags(prev) || t in Tags(cur))
      && m.attributes["line"] == prev.attributes["line"] + " " + cur.attributes["line"]
  {
    var prev := kept[|kept| - 1];
    var all := Tags(prev) + Tags(cur);
    var tags := Dedup(all);
    DedupSpec(all);
    assert all[0] in tags;
    assert forall i :: 0 <= i < |tags| ==> '+' !in tags[i] by {
      forall i | 0 <= i < |tags| ensures '+' !in tags[i] {
        assert tags[i] in all;
      }
    }
    SplitJoinChar(tags, '+');
  }

  /** A merge fails with TypeError exactly when a line number is missing. */
  lemma MergeStepRaises(kept: seq<Item>, cur: Item, merge: Merger)
    requires kept != []
    ensures MergeStep(kept, cur, merge).Raised? <==>
      var prev := kept[|kept| - 1];
      && Mergeable(prev, cur) && merge(TextOr(prev), TextOr(cur)).Some?
      && ("line" !in prev.attributes || "line" !in cur.attributes)
  {
  }

  // ---------------------------------------------------------------------
  // clean_items, clean_corpus

  /** Each item is aligned to its id so far, then numbered after the tier. */
  function Renumbered(items: seq<Item>, cleanId: string): (r: seq<Item>)
    ensures |r| == |items|
  {
    seq(|items|, i requires 0 <= i < |items| =>
      items[i].(alignment := Some(items[i].id), id := ItemId(cleanId, i)))
  }

  /** What `clean_items` returns. */
  function CleanedItems(items: seq<Item>, cleanId: string): Outcome<seq<Item>>
  {
    match MergedLines(items)
    case Raised(e) => Raised(e)
    case Ok(m) => Ok(Renumbered(m, cleanId))
  }

  /** `clean_items`. */
  method CleanItems(rawTier: Tier, cleanId: string) returns (r: Outcome<seq<Item>>)
    ensures r == CleanedItems(rawTier.items, cleanId)
  {
    var items := CopyItemsKeep(rawTier.items);
    var merged := MergeLines(items);
    if merged.Raised? {
      return Raised(merged.error);
    }
    var cln := merged.value;
    for i := 0 to |cln|
      invariant |cln| == |merged.value|
      invariant forall j :: 0 <= j < i ==>
        cln[j] == merged.value[j].(alignment := Some(merged.value[j].id), id := ItemId(cleanId, j))
      invariant forall j :: i <= j < |cln| ==> cln[j] == merged.value[j]
    {
      cln := cln[i := cln[i].(alignment := Some(cln[i].id))];
      cln := cln[i := cln[i].(id := ItemId(cleanId, i))];
    }
    assert cln == Renumbered(merged.value, cleanId);
    r := Ok(cln);
  }

  /** Every cleaned item is aligned to the merged line it was made from,
      whose ids are raw ids in raw order, the first to the first raw item,
      and the cleaned ids are pairwise different. */
  lemma CleanedItemsShape(items: seq<Item>, cleanId: string)
    requires items != [] && CleanedItems(items, cleanId).Ok?
    ensures var r := CleanedItems(items, cleanId).value;
      var merged := MergedLines(items).value;
      && 1 <= |r| == |merged| <= |items|
      && r[0].alignment == Some(items[0].id)
      && (forall i :: 0 <= i < |r| ==> r[i].id == ItemId(cleanId, i) && r[i].alignment == Some(merged[i].id))
      && Subsequence(Ids(merged), Ids(items))
      && (forall i, j :: 0 <= i < j < |r| ==> r[i].id != r[j].id)
  {
    var r := CleanedItems(items, cleanId).value;
    if |items| >= 2 {
      MergeFoldShape(items, |items|, BitMerged);
      assert items[..|items|] == items;
    } else {
      SubsequenceRefl(Ids(items));
    }
    forall i, j | 0 <= i < j < |r| ensures r[i].id != r[j].id {
      ItemIdsDistinct(cleanId, i, j);
    }
  }

  /** What `add_cleaned_tier` makes of an IGT. */
  function AddedCleanedTier(igt: Igt, rawTier: Tier): Outcome<Igt>
  {
    var cleanId := FirstFree(igt, CleanIds);
    if cleanId.None? then Ok(igt)
    else match CleanedItems(rawTier.items, cleanId.value)
      case Raised(e) => Raised(e)
      case Ok(items) =>
        Ok(igt.(tiers := igt.tiers + [Tier(cleanId.value, Some("odin"), Some(rawTier.id),
                                           map["state" := "cleaned"], items)]))
  }

  /** `add_cleaned_tier`. */
  method AddCleanedTier(igt: Igt, rawTier: Tier) returns (r: Outcome<Igt>)
    ensures r == AddedCleanedTier(igt, rawTier)
  {
    var cleanId := FirstFreeTierId(igt, CleanIds);
    if cleanId.None? {
      return Ok(igt);
    }
    var cleaned := CleanItems(rawTier, cleanId.value);
    if cleaned.Raised? {
      return Raised(cleaned.error);
    }
    var tier := Tier(cleanId.value, Some("odin"), Some(rawTier.id), map["state" := "cleaned"], cleaned.value);
    r := Ok(igt.(tiers := igt.tiers + [tier]));
  }

  /** What `clean_corpus` makes of one IGT: the last raw tier is cleaned,
      unless there is none or a cleaned tier exists already. */
  function CleanIgt(igt: Igt): Outcome<Igt>
  {
    var raw := LastInState(igt.tiers, "raw");
    var cleaned := LastInState(igt.tiers, "cleaned");
    if raw.None? || cleaned.Some? then Ok(igt) else AddedCleanedTier(igt, igt.tiers[raw.value])
  }

  /** The tier-selection loop of `clean_corpus`. */
  method SelectTiers(igt: Igt) returns (rawTier: Option<Tier>, cleanTier: Option<Tier>)
    ensures rawTier.None? <==> LastInState(igt.tiers, "raw").None?
    ensures rawTier.Some? ==> rawTier.value == igt.tiers[LastInState(igt.tiers, "raw").value]
    ensures cleanTier.None? <==> LastInState(igt.tiers, "cleaned").None?
  {
    rawTier := None;
    cleanTier := None;
    ghost var ri: int := -1;
    ghost var ci: int := -1;
    for k := 0 to |igt.tiers|
      invariant -1 <= ri < k && -1 <= ci < k
      invariant rawTier.None? <==> ri == -1
      invariant cleanTier.None? <==> ci == -1
      invariant ri >= 0 ==> IsOdinState(igt.tiers[ri], "raw") && rawTier == Some(igt.tiers[ri])
      invariant ci >= 0 ==> IsOdinState(igt.tiers[ci], "cleaned")
      invariant forall j :: ri < j < k ==> !IsOdinState(igt.tiers[j], "raw")
      invariant forall j :: ci < j < k ==> !IsOdinState(igt.tiers[j], "cleaned")
    {
      var tier := igt.tiers[k];
      if tier.tierType == Some("odin") {
        var state := if "state" in tier.attributes then Some(tier.attributes["state"]) else None;
        if state == Some("raw") {
          rawTier := Some(tier);
          ri := k;
        } else if state == Some("cleaned") {
          cleanTier := Some(tier);
          ci := k;
        }
      }
    }
  }

  /** The result of `clean_corpus`: every IGT cleaned in order, or the first
      exception. */
  function CleanedCorpus(corpus: seq<Igt>): Outcome<seq<Igt>>
  {
    if corpus == [] then Ok([])
    else match CleanedCorpus(corpus[..|corpus| - 1])
      case Raised(e) => Raised(e)
      case Ok(done) =>
        match CleanIgt(corpus[|corpus| - 1])
        case Raised(e) => Raised(e)
        case Ok(igt) => Ok(done + [igt])
  }

  /** An exception ends the run: later IGTs are not looked at. */
  lemma {:induction false} CleanedCorpusRaised(corpus: seq<Igt>, k: nat)
    requires k <= |corpus| && CleanedCorpus(corpus[..k]).Raised?
    ensures CleanedCorpus(corpus) == CleanedCorpus(corpus[..k])
    decreases |corpus|
  {
    if k < |corpus| {
      assert corpus[..|corpus| - 1][..k] == corpus[..k];
      CleanedCorpusRaised(corpus[..|corpus| - 1], k);
    } else {
      assert corpus[..k] == corpus;
    }
  }

  /** The body of the loop of `clean_corpus`, for one IGT. */
  method CleanOne(igt: Igt) returns (r: Outcome<Igt>)
    ensures r == CleanIgt(igt)
  {
    var rawTier, cleanTier := SelectTiers(igt);
    r := Ok(igt);
    if rawTier.Some? && cleanTier.None? {
      r := AddCleanedTier(igt, rawTier.value);
    }
  }

  /** `clean_corpus`. */
  method CleanCorpus(corpus: seq<Igt>) returns (r: Outcome<seq<Igt>>)
    ensures r == CleanedCorpus(corpus)
  {
    var done: seq<Igt> := [];
    for i := 0 to |corpus|
      invariant CleanedCorpus(corpus[..i]) == Ok(done)
    {
      assert corpus[..i + 1][..i] == corpus[..i];
      var cleaned := CleanOne(corpus[i]);
      if cleaned.Raised? {
        CleanedCorpusRaised(corpus, i + 1);
        return Raised(cleaned.error);
      }
      done := done + [cleaned.value];
    }
    assert corpus[..|corpus|] == corpus;
    r := Ok(done);
  }

  /** An IGT with no raw tier, or with a cleaned tier, is left alone. */
  lemma CleanSkips(igt: Igt)
    requires LastInState(igt.tiers, "raw").None? || LastInState(igt.tiers, "cleaned").Some?
    ensures CleanIgt(igt) == Ok(igt)
  {
  }

  /** Cleaning twice is the same as cleaning once. */
  lemma CleanIdempotent(igt: Igt)
    requires CleanIgt(igt).Ok?
    ensures CleanIgt(CleanIgt(igt).value) == CleanIgt(igt)
  {
    var r := CleanIgt(igt).value;
    if r != igt {
      var n := |r.tiers| - 1;
      assert IsOdinState(r.tiers[n], "cleaned");
    }
  }
}
