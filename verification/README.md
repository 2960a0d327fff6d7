# ODIN tools: a Dafny model

This project models the record and text logic of the ODIN command-line tools
(odin-utils). These tools read, clean, normalize, regroup and print
interlinear glossed text (IGT). Each tool is a thin argparse and I/O shell
around sequential logic, and this project models that logic and proves what it
does.

- **odinnormalize.py** (modules `NormalizeText` and `OdinNormalize`). It
  chooses the tier to normalize and the id of the new tier. Each copied item
  then passes through six text steps in a fixed order: strip quotes, strip a
  surrounding pair of parentheses, remove an example number, remove a label
  before a colon, rejoin hyphenated morphemes, extract a judgment. Last, the
  items are renumbered.
  - Each anchored regular expression is a scan that follows the backtracking
    order of Python's engine: which alternative is tried first, how a greedy
    run gives characters back.
  - The step functions change `item.text` in place. They become functions
    from item to item, and `normalize_items` is a method with a loop over
    the copied items.
- **odinclean.py** (module `OdinClean`).
  - `bit_merge` overlays two strings with spaces as holes. It is a method
    over the UTF-8 bytes (module `Utf8`), and its loop returns early on a
    collision.
  - `merge_lines` folds a `+CR` line into the last kept line, and it is a
    loop method over a list that grows.
  - `clean_items` renumbers the items, and `clean_corpus` chooses the raw
    tier.
  - Python exceptions are values: `Outcome.Raised(e)`.
- **odinxigt.py** (module `OdinXigt`).
  - The tag and blank-item helpers are functions.
  - `min_indent` is a loop method.
  - `shift_left` is a method that rewrites an `array` of items in place.
- **odintxt.py** (modules `OdinTxt`, `OdinTxtOut`, `OdinTxtWriter` and
  `OdinTxtRun`).
  - The line parser `odin_line` and its formatter.
  - The block reader `odin_blocks`, as a loop method over the input lines.
  - The language chooser `get_best_lang_match` and `format_odin_igt`.
  - The buffered writer `_BufferedIGTWriter`, as the class `BufferedWriter`
    whose `write` and `flush` update its cache in place. An output directory
    is a map from file name to contents.
  - `process` and `run`.
- **citations.py** (module `Citations`).
  - `load_citations` and `load_update_tsv`, each over the lines of its file.
  - `update` and `print_citations`.
  - The insertion-ordered dictionaries of the source are the value type
    `ODict` (module `Dicts`), which keeps its keys in insertion order.
- **odingroup.py** (module `OdinGroup`).
  - The sort key `igt_sort_key`.
  - The index `index`, built into a nested ordered dictionary.
  - The selection and stable sort of `write`, with `sorted(key=...)` as a
    verified stable insertion sort (module `Sorting`).
  - `run`.

Some helpers stand for what the tools get from Python itself (module `Py`):
`strip`, `split`, `join`, `int`, `title`, `lower`. The items, tiers and IGTs
of the xigt library become records (module `Xigt`).

Behaviour worth noting:

- `normalize_items` discards the list that `remove_blank_items` returns.
  Blank items are therefore kept, and they only get the empty text
  (`OdinNormalize.NormalizedItems`).
- The cleaning step merges a corrupted line by overlaying it with
  `bit_merge`. It does not join the texts with spaces.
- Example numbers are removed from each item on its own, with no check
  across items.
- No step sorts or canonicalises a tag.
- odintxt.py has four defects, listed under "## Findings". The members
  named after its functions (`OdinBlocks`, `FormatOdinIgt`, `Process`,
  `Run`) model it as written. The reader, the formatter and the run also
  take a flag `asWritten`: with the flag false they model the program with
  the defects corrected. The read-back and grouping lemmas are proved for
  both.

## Model

| member | source | states |
|---|---|---|
| `NormalizeText.RemoveQuotes` | odinnormalize.py:115-117 | after `remove_quotes` neither end of the text is a quote character |
| `NormalizeText.RemoveSurroundingParens` | odinnormalize.py:120-128 | after `remove_surrounding_parens` neither end is a quote character |
| `NormalizeText.RemoveSurroundingParensKeeps` | odinnormalize.py:121-125 | text that is stripped and not both opened and closed by a parenthesis comes back unchanged |
| `NormalizeText.ParensKeptInside` | odinnormalize.py:121-124 | `abc (def)` keeps its parentheses |
| `NormalizeText.NumberThen` | odinnormalize.py:133-134 | a match of the number alternatives followed by a tail ends inside the text and meets what the tail demands |
| `NormalizeText.ParenNumEnd` | odinnormalize.py:131-135 | a match of `paren_num_re` starts with `(` and passes a `)` |
| `NormalizeText.NumEnd` | odinnormalize.py:136-139 | a match of `num_re` ends with a whitespace character |
| `NormalizeText.CutPrefix` | odinnormalize.py:145-146 | an anchored substitution removes exactly the matched prefix, or nothing when there is no match |
| `NormalizeText.RemoveExampleNumbers` | odinnormalize.py:142-147 | the result of `remove_example_numbers` is always stripped |
| `NormalizeText.RemoveByNum` | odinnormalize.py:146 | when `num_re` removes a prefix of a stripped text, the rest (stripped) is the result |
| `NormalizeText.RemoveByParen` | odinnormalize.py:145 | when `paren_num_re` removes a prefix and `num_re` finds nothing, the stripped rest is the result |
| `NormalizeText.RemoveByNone` | odinnormalize.py:144-147 | a stripped text that neither pattern matches is unchanged |
| `NormalizeText.ParenNumEndNeedsParen` | odinnormalize.py:132 | `paren_num_re` does not match without an opening parenthesis |
| `NormalizeText.NumEndNeedsSpace` | odinnormalize.py:138 | `num_re` does not match text without whitespace |
| `NormalizeText.RemoveNumPrefix` | odinnormalize.py:142-147 | a number prefix that `num_re` removes in full leaves the stripped text after it |
| `NormalizeText.RemoveParenPrefix` | odinnormalize.py:142-147 | a parenthesised prefix, a space and a stripped text that `num_re` leaves alone give that text |
| `NormalizeText.NumEndDigitDot` | odinnormalize.py:136-139 | `num_re` matches digits, a dot and a space |
| `NormalizeText.NumEndDigitLetterDot` | odinnormalize.py:136-139 | `num_re` matches digits, a letter, a dot and a space |
| `NormalizeText.ParenNumEndDigits` | odinnormalize.py:131-135 | `paren_num_re` matches `(`, digits and `)` |
| `NormalizeText.ParenNumEndRoman` | odinnormalize.py:131-135 | `paren_num_re` matches `(`, a roman numeral and `)` |
| `NormalizeText.NumberDotRemoved` | odinnormalize.py:142-147 | `1. x` becomes `x` |
| `NormalizeText.NumberLetterDotRemoved` | odinnormalize.py:142-147 | `5a. x` becomes `x` |
| `NormalizeText.ParenNumberRemoved` | odinnormalize.py:142-147 | `(1) x` becomes `x` |
| `NormalizeText.ParenRomanRemoved` | odinnormalize.py:142-147 | `(ii) x` becomes `x` |
| `NormalizeText.BareNumberKept` | odinnormalize.py:136-147 | a bare `1.` is kept, because `num_re` needs whitespace after the punctuation |
| `NormalizeText.ColonEnd` | odinnormalize.py:153 | `\s*:\s` ends at a colon followed by one whitespace character, with only whitespace before the colon |
| `NormalizeText.PrecontentEnd` | odinnormalize.py:153 | a label match ends with a colon and one whitespace character |
| `NormalizeText.RemovePrecontentTags` | odinnormalize.py:150-153 | the result is a suffix of the text; when something was removed, it ended with `:` and one whitespace character |
| `NormalizeText.PrecontentOneWord` | odinnormalize.py:150-153 | a one-word label, its colon and exactly one whitespace character are removed |
| `NormalizeText.PrecontentTwoWords` | odinnormalize.py:150-153 | a two-word label, its colon and one whitespace character are removed |
| `NormalizeText.PrecontentThreeWordsKept` | odinnormalize.py:150-153 | a three-word label such as `a b c: x` is left unchanged |
| `NormalizeText.Rejoin` | odinnormalize.py:159 | after the substitution no whitespace is next to a hyphen, and the text does not grow |
| `NormalizeText.RejoinHyphenatedGrams` | odinnormalize.py:156-159 | `rejoin_hyphenated_grams` leaves no whitespace before or after any hyphen |
| `NormalizeText.RejoinKeepsNonSpace` | odinnormalize.py:159 | only whitespace is removed: the other characters, hyphens included, are kept in order |
| `NormalizeText.RejoinKeepsHyphens` | odinnormalize.py:159 | the number of hyphens is kept |
| `NormalizeText.RejoinFixed` | odinnormalize.py:159 | text with no whitespace next to a hyphen is unchanged |
| `NormalizeText.RejoinIdempotent` | odinnormalize.py:156-159 | rejoining twice is the same as rejoining once |
| `NormalizeText.JudgmentMatch` | odinnormalize.py:167-169 | a recorded judgment is a nonempty run of `*?#`, and only for text without `/` |
| `NormalizeText.JudgmentMatchParts` | odinnormalize.py:167-169 | the judgment is recorded exactly when the rest has no `/`: the whole run, or the run without its last mark when nothing follows it |
| `NormalizeText.JudgmentMatchNone` | odinnormalize.py:167 | text that does not start, after whitespace, with a judgment mark records none |
| `NormalizeText.StripJudgment` | odinnormalize.py:170 | the text does not grow, and text without a leading judgment run is unchanged |
| `NormalizeText.StripJudgmentParts` | odinnormalize.py:170 | the judgment run and the whitespace after it are removed, and the whitespace before it is kept, even when a `/` prevented recording |
| `OdinNormalize.RemoveBlankItems` | odinnormalize.py:104-109 | the result keeps, in order, exactly the items that are not blank `B` items, each as many times as the input has it |
| `OdinNormalize.ExtractJudgment` | odinnormalize.py:164-170 | a `CR` item is untouched; otherwise the text loses its judgment run and only the `judgment` attribute may change, set to the matched run |
| `OdinNormalize.NormalizedItems` | odinnormalize.py:69-92 | there are exactly as many normalized items as base items, because the filtered list is discarded |
| `OdinNormalize.NormalizeItems` | odinnormalize.py:69-92 | the loop over the copied items computes the normalized items |
| `OdinNormalize.NormalizedItemsShape` | odinnormalize.py:74-90 | item i gets id `norm_id` + (i+1), is aligned to base item i, and keeps type, content and segmentation |
| `OdinNormalize.NormalizedIdsDistinct` | odinnormalize.py:89-90 | the new item ids are pairwise different |
| `OdinNormalize.NormalizeBlankItem` | odinnormalize.py:78-80 | an item with no text or blank text gets the empty text and skips every step |
| `OdinNormalize.NormalizeTextItem` | odinnormalize.py:82-87 | any other item goes through the six steps in order, and its attributes change only by a recorded judgment |
| `OdinNormalize.ChosenBaseSpec` | odinnormalize.py:20-27 | the base is the last cleaned tier, or else the first raw tier, whatever their order |
| `OdinNormalize.ChosenNormSpec` | odinnormalize.py:28-29 | a normalized tier is found exactly when there is one |
| `OdinNormalize.SelectTiers` | odinnormalize.py:17-29 | the selection loop finds the base tier and the normalized tier |
| `OdinNormalize.AddNormalizedTier` | odinnormalize.py:44-66 | `add_normalized_tier` appends the normalized tier under the first free id, or leaves the IGT alone |
| `OdinNormalize.NormalizeCorpus` | odinnormalize.py:16-41 | every IGT of the corpus is normalized in turn, and nothing else is changed |
| `OdinNormalize.NormalizeSkipsNormalized` | odinnormalize.py:35-39 | an IGT that already has a normalized tier is left alone |
| `OdinNormalize.NormalizeAdds` | odinnormalize.py:40-66 | the added tier comes last, under an id from `n`, `on`, `normalized`, `odin-normalized` that no tier uses, aligned to the base tier; nothing else changes |
| `OdinNormalize.NormalizeIdempotent` | odinnormalize.py:16-66 | normalizing twice is the same as normalizing once |
| `Xigt.FirstFree` | odinclean.py:39-44 | no id is chosen exactly when every candidate is taken; a chosen id is a candidate |
| `Xigt.FirstFreeTierId` | odinnormalize.py:45-50 | the id loop returns the first candidate that no tier uses |
| `Xigt.CopyItemsKeep` | odinnormalize.py:95-101 | the copies equal the originals as values |
| `Xigt.LastInState` | odinclean.py:18-23 | the position found is that of the last tier in the state, and none is found only when no tier is in it |
| `Xigt.FirstInState` | odinnormalize.py:24-25 | the position found is that of the first tier in the state, and none is found only when no tier is in it |
| `Xigt.ItemIdsDistinct` | odinclean.py:71 | different positions get different item ids |
| `Utf8.DecodeEncode` | odinclean.py:215 | decoding undoes encoding |
| `Utf8.EncodeCharSpec` | odinclean.py:202 | an ASCII character is one byte; any other character is written only with bytes of 0x80 and above |
| `Utf8.EncodeZero` | odinclean.py:202-203 | only the NUL character encodes to a zero byte |
| `Utf8.EncodeAscii` | odinclean.py:202-203 | ASCII text encodes byte for byte |
| `Utf8.DecodeAscii` | odinclean.py:215 | bytes below 0x80 decode one character each |
| `OdinClean.PadToSpec` | odinclean.py:203 | padding keeps the bytes and adds zero bytes up to the length |
| `OdinClean.ByteOr` | odinclean.py:213 | or-ing with a zero byte gives the other byte |
| `OdinClean.OverlaySpec` | odinclean.py:207-213 | the overlay fails exactly at a collision; otherwise each byte comes from whichever side is non-zero |
| `OdinClean.ZipMerge` | odinclean.py:204-213 | the loop over `zip(a, b)` with its early return computes the overlay of the zipped prefix |
| `OdinClean.BitMerge` | odinclean.py:192-217 | `bit_merge` returns what the overlay and decode define |
| `OdinClean.BitMergeCollision` | odinclean.py:208-211 | a position filled on both sides makes the merge fail |
| `OdinClean.OverlayChars` | odinclean.py:207-215 | the character overlay is as long as the longer string |
| `OdinClean.HolesAscii` | odinclean.py:202 | in ASCII text spaces become zero bytes, one byte per character |
| `OdinClean.OperandsAscii` | odinclean.py:202-204 | for ASCII text the zipped operands are one byte per character, the shorter one padded with zero bytes |
| `OdinClean.BitMergeAscii` | odinclean.py:192-217 | for ASCII strings the merge fails exactly on a collision; otherwise it returns the overlay with trailing spaces removed (`'a a'` with `' b'` gives `'aba'`) |
| `OdinClean.BitMergeAsciiOrdered` | odinclean.py:199-217 | the same after the swap, with the longer string first |
| `OdinClean.OverlayAscii` | odinclean.py:207-213 | without a collision the merged bytes are the overlay's characters, with a zero byte where neither side has one |
| `OdinClean.MergedTextAscii` | odinclean.py:215 | decoding the merged bytes and turning zero bytes into spaces gives the overlay |
| `OdinClean.BitMergeSymmetric` | odinclean.py:198 | the order of the arguments does not matter |
| `OdinClean.OverlaySymmetric` | odinclean.py:198-213 | collisions and the overlay do not depend on the order |
| `OdinClean.BitMergeEmpty` | odinclean.py:192-217 | merging with the empty string turns NULs into spaces and strips trailing spaces |
| `OdinClean.SharesTagSpec` | odinclean.py:161-162 | the test on the intersection holds exactly when the lists share a tag other than `CR` |
| `OdinClean.DedupSpec` | odinclean.py:168 | the `OrderedDict` keys hold every tag of either list, each once |
| `OdinClean.DedupPrefix` | odinclean.py:168 | tags keep the order of their first occurrence |
| `OdinClean.DedupDistinct` | odinclean.py:168 | a list without repeats is its own de-duplication |
| `OdinClean.MergedTagsStartWithPrev` | odinclean.py:168-171 | the merged tag list starts with the kept line's own tags |
| `OdinClean.MergeStep` | odinclean.py:156-173 | one step adds at most one line |
| `OdinClean.MergeLine` | odinclean.py:156-173 | the loop body appends the line, folds it into the last kept line, or drops it, and the list stays nonempty |
| `OdinClean.MergeNext` | odinclean.py:154-173 | the loop one line further is the fold one line further |
| `OdinClean.MergeLoop` | odinclean.py:154-173 | the loop runs to the end, or stops where a merge raised |
| `OdinClean.MergeLinesWith` | odinclean.py:133-174 | `merge_lines` with a given merge function, with exceptions passed on |
| `OdinClean.MergeLines` | odinclean.py:133-174 | `merge_lines` with `bit_merge` |
| `OdinClean.MergeStepIds` | odinclean.py:163-173 | a step keeps the ids of the kept lines and adds at most the current line's id |
| `OdinClean.MergeFoldShape` | odinclean.py:153-174 | the output is never longer than the input, begins with the first line, and its ids are a subsequence of the input's |
| `OdinClean.FoldedNext` | odinclean.py:154-156 | the fold one line further is one more step |
| `OdinClean.FoldedRaised` | odinclean.py:165-172 | once a merge has raised, the loop ends with that exception |
| `OdinClean.MergeFoldRaised` | odinclean.py:154-173 | the fold carries a raised exception to the end |
| `OdinClean.MergeLinesShort` | odinclean.py:149-152 | fewer than two lines come back unchanged |
| `OdinClean.MergeStepKeeps` | odinclean.py:161-166 | a line that is not a corrupted continuation is appended unchanged, and a line whose merge fails is dropped |
| `OdinClean.MergeStepMerges` | odinclean.py:165-173 | a successful merge rewrites only the last kept line: the de-duplicated union of both tag lists, `line` as `'<prev> <cur>'`, and the merged text |
| `OdinClean.MergeStepRaises` | odinclean.py:169-170 | a merge raises exactly when a line number is missing |
| `OdinClean.Renumbered` | odinclean.py:69-71 | renumbering keeps the number of items |
| `OdinClean.CleanItems` | odinclean.py:62-73 | `clean_items` merges and renumbers the items |
| `OdinClean.CleanedItemsShape` | odinclean.py:62-73 | cleaned item i gets id `clean_id` + (i+1) and is aligned to the id of merged line i; the merged ids are raw ids in raw order, the first the first raw id; cleaned ids are pairwise different |
| `OdinClean.AddCleanedTier` | odinclean.py:38-59 | `add_cleaned_tier` appends the cleaned tier under the first free id of `c`, `oc`, `cleaned`, `odin-cleaned`, or leaves the IGT alone |
| `OdinClean.SelectTiers` | odinclean.py:15-23 | the loop finds the last raw tier and whether a cleaned tier exists |
| `OdinClean.CleanedCorpusRaised` | odinclean.py:14-35 | an exception ends the run, and later IGTs are not looked at |
| `OdinClean.CleanOne` | odinclean.py:15-35 | the loop body cleans one IGT |
| `OdinClean.CleanCorpus` | odinclean.py:14-35 | `clean_corpus` cleans every IGT in order, or stops with the first exception |
| `OdinClean.CleanSkips` | odinclean.py:24-33 | an IGT with no raw tier, or with a cleaned tier, is left alone |
| `OdinClean.CleanIdempotent` | odinclean.py:14-59 | cleaning twice is the same as cleaning once |
| `OdinXigt.CopyItems` | odinxigt.py:11-16 | copies keep id, type, attributes and text, and drop alignment, content and segmentation |
| `OdinXigt.GetTags` | odinxigt.py:18-19 | the tags are the `+`-separated parts of the tag attribute, and a missing tag gives `['']` |
| `OdinXigt.PrimaryTagIsFirst` | odinxigt.py:33 | the primary tag is element 0 of `get_tags` |
| `OdinXigt.RemoveBlankItems` | odinxigt.py:21-25 | exactly the items with non-blank text are kept, each as often as before and in order |
| `OdinXigt.RemoveBlankItemsIdempotent` | odinxigt.py:21-25 | removing blank items twice removes nothing more |
| `OdinXigt.EligibleTags` | odinxigt.py:29-30 | `M` and `B` are never eligible |
| `OdinXigt.IndentsOf` | odinxigt.py:31-35 | the collected indents are exactly those of the eligible items |
| `OdinXigt.SeqMin` | odinxigt.py:36 | `min` returns the least element |
| `OdinXigt.MinIndentOf` | odinxigt.py:27-36 | the result is the least indent of an eligible item, or 0 when no item is eligible |
| `OdinXigt.MinIndent` | odinxigt.py:27-36 | the loop of `min_indent` computes that minimum |
| `OdinXigt.ShiftedBy` | odinxigt.py:43-48 | every item is shifted, and the count is kept |
| `OdinXigt.ShiftLeft` | odinxigt.py:38-49 | `shift_left` rewrites the array in place into the shifted items |
| `OdinXigt.ShiftAll` | odinxigt.py:43-48 | the loop shifts every item of the array in place |
| `OdinXigt.ShiftLeftKeepsItems` | odinxigt.py:43-49 | item count and order are kept, and only text changes |
| `OdinXigt.ShiftLeftStripsM` | odinxigt.py:45-46 | `M` items are stripped on both sides, whatever tags were given |
| `OdinXigt.ShiftLeftRemovesIndent` | odinxigt.py:41-48 | an eligible item loses exactly the common indent, and what it loses is whitespace |
| `OdinXigt.ShiftLeftKeepsOthers` | odinxigt.py:43-48 | items that are neither `M` nor eligible are unchanged |
| `OdinXigt.ShiftLeftMinIndentZero` | odinxigt.py:38-49 | after `shift_left` the common indent is 0 |
| `OdinXigt.MinIndentZeroAt` | odinxigt.py:27-36 | an eligible item without indent makes the common indent 0 |
| `OdinXigt.ShiftLeftIdempotent` | odinxigt.py:38-49 | shifting twice is the same as shifting once |
| `OdinTxt.RunSpaceSpec` | odintxt.py:17-19 | `\S+ ` and `\d+ ` read a nonempty run of the class, a space, and the rest |
| `OdinTxt.RunSpaceIs` | odintxt.py:17-19 | a run followed by a space is read back whole |
| `OdinTxt.DocRestIs` | odintxt.py:19-20 | the line range and line types of a doc line are read back |
| `OdinTxt.ParseOdinLineWellFormed` | odintxt.py:128-142 | a parsed line has digits for `line`, a tag that ends at the first colon, and content up to the end of the line |
| `OdinTxt.ParseOdinLineShape` | odintxt.py:128-138 | a parsed line is its own formatting followed by nothing or by a newline |
| `OdinTxt.TagContentSpec` | odintxt.py:128 | the tag has no colon and is followed by a colon and the content |
| `OdinTxt.FormatOdinLineRoundTrip` | odintxt.py:128-138 | parsing a formatted well-formed line gives its three fields back |
| `OdinTxt.HeaderFieldsLast` | odintxt.py:87 | a key's value comes from the last header line with that key |
| `OdinTxt.HeaderFieldsAbsent` | odintxt.py:87 | a key that no line has is not in the dict |
| `OdinTxt.HeaderFieldsOne` | odintxt.py:87 | one header line is the dict of its key and value |
| `OdinTxt.ChosenTail` | odintxt.py:79-80 | a match of the code part ends inside the text |
| `OdinTxt.Stage2Tail` | odintxt.py:81-82 | a match of the stage-2 tail has its code inside the text |
| `OdinTxt.PyIndex` | odintxt.py:105 | an index gives an entry exactly in Python's range, negative indices included |
| `OdinTxt.ChosenAtDown` | odintxt.py:79-80 | the greedy name gives back characters past positions where the tail fails |
| `OdinTxt.LangTailOnlyAt` | odintxt.py:226 | in a written language value ` (` occurs only where the code starts |
| `OdinTxt.LangTailAt` | odintxt.py:79-80 | the tail of a written language value matches where the code starts |
| `OdinTxt.LangValueChosen` | odintxt.py:92 | `lang_chosen_re` finds the name and code of a written language value |
| `OdinTxt.LanguageLineRead` | odintxt.py:86-111 | a language line as `format_odin_igt` writes it is chosen, the name title-cased and the code lower-cased, each stripped, as written and corrected alike |
| `OdinTxt.Stage2AsWrittenUndetermined` | odintxt.py:96-98 | as written, a header whose only language line is a `stage2_LN_lang_code` line is always undetermined |
| `OdinTxt.Stage2Fields` | odintxt.py:90-97 | for such a header no key is tried before the fallback, and its first entry is the whole value |
| `OdinTxt.Stage2Read` | odintxt.py:81-98 | matched against the whole header line, the name and code of the first entry are chosen |
| `OdinTxt.Stage2LineMatch` | odintxt.py:81-82 | `stage2_LN_re` reads the name and the code of a whole header line |
| `OdinTxt.HeaderEnd` | odintxt.py:38-40 | the header ends at or after its first line and within the input |
| `OdinTxt.BodyEnd` | odintxt.py:59-61 | the body ends at or after its first line and within the input |
| `OdinTxt.RStripAll` | odintxt.py:39 | every header line is right-stripped |
| `OdinTxt.ParseAll` | odintxt.py:60 | every body line is parsed by `odin_line` |
| `OdinTxt.StepAt` | odintxt.py:24-76 | a round of the outer loop that goes on resumes after the blank line that ended the block (the language chosen as written, or corrected) |
| `OdinTxt.StepSkip` | odintxt.py:25-30 | a line that is not a doc line is skipped |
| `OdinTxt.StepNoBody` | odintxt.py:37-40 | input that ends in the header yields the block with no language, code or lines |
| `OdinTxt.StepRaised` | odintxt.py:42-76 | when choosing the language raises, the block read so far is still yielded, then the exception ends the loop |
| `OdinTxt.StepBlock` | odintxt.py:37-76 | a full block has the doc line as its first header line, the header up to a blank or `line=` line, the language the chooser (as written, or corrected) gives, and the body up to a blank line |
| `OdinTxt.ReadHeader` | odintxt.py:38-40 | the header loop collects the right-stripped lines up to the header's end |
| `OdinTxt.ReadBody` | odintxt.py:59-61 | the body loop parses the lines up to the next blank line |
| `OdinTxt.ReadStep` | odintxt.py:24-76 | one round of the outer loop, with `get_best_lang_match` as written |
| `OdinTxt.OdinBlocks` | odintxt.py:22-76 | `odin_blocks` as written yields the blocks and the final exception that the block definition gives |
| `OdinTxtOut.KeptHeader` | odintxt.py:229-231 | no header line starting with `language:` is written again, and every kept line is a header line |
| `OdinTxtOut.KeptHeaderKeeps` | odintxt.py:229-231 | a header without language lines is kept whole |
| `OdinTxtOut.FormatLines` | odintxt.py:232-233 | every body line is formatted once, in order, when all of them parsed |
| `OdinTxtOut.FormatOdinIgtWith` | odintxt.py:220-234 | formatting, with either top line, raises KeyError exactly when some body line did not parse |
| `OdinTxtOut.FormatNoHeader` | odintxt.py:220-234 | a block without header lines of its own is its top line, its language line and its body lines, joined by newlines |
| `OdinTxtOut.FormatOdinIgt` | odintxt.py:220-234 | formatting (the top line as written, always with `igt_id=`) raises KeyError exactly when some body line did not parse |
| `OdinTxtOut.NoIgtField` | odintxt.py:18-19 | text that starts with a digit has no `igt_id=` segment |
| `OdinTxtOut.MatchDocWithout` | odintxt.py:17-20 | a top line without `igt_id=` reads back without an IGT id |
| `OdinTxtOut.MatchDocWith` | odintxt.py:17-20 | a top line with `igt_id=` reads back with that IGT id |
| `OdinTxtOut.TopLineRoundTrip` | odintxt.py:222-225 | `doc_re` reads the corrected top line back as the block's own fields |
| `OdinTxtOut.ReadIgtId` | odintxt.py:222-225 | the IGT id a top line gives back: as written, the field's text (`None` for a block without one); corrected, the block's own |
| `OdinTxtOut.TopLineRead` | odintxt.py:17-20 | either top line reads back as the block's doc fields, with the IGT id the line shows |
| `OdinTxtOut.TopLineAsWrittenMisread` | odintxt.py:222-223 | the top line as written gives a block without IGT id the id `None` when read back |
| `OdinTxtOut.HeaderLangRead` | odintxt.py:226-228 | the language line written second is the language chosen on reading, as written and corrected alike |
| `OdinTxtOut.SplitParts` | odintxt.py:234 | lines without newlines, joined and split again, come back |
| `OdinTxtOut.FormattedSplit` | odintxt.py:220-234 | the text of a writable block splits into the top line (as written, or corrected), the language line and the body lines |
| `OdinTxtOut.BodyEndAll` | odintxt.py:59-61 | a body with no blank line runs to the end of the input |
| `OdinTxtOut.HeaderOfTwo` | odintxt.py:38-40 | a doc line followed by another header line and an IGT line gives a two-line header |
| `OdinTxtOut.TopTwoRead` | odintxt.py:17-20 | the two top lines read back as the block's doc fields and language; as written, the IGT id read is the shown text of the field, `None` included |
| `OdinTxtOut.ReadTwoHeader` | odintxt.py:22-76 | `odin_blocks` (as written, or corrected) on a doc line, one header line and a body to the end yields that one block |
| `OdinTxtOut.ReadParts` | odintxt.py:22-76 | `odin_blocks` on the lines of a formatted writable block yields that block, with the IGT id its top line shows |
| `OdinTxtOut.FormatReadBack` | odintxt.py:220-234 | formatting a writable block and reading it back gives the block, with the two top lines as its header lines; as written, a block without IGT id comes back with id `None`, and a block with one comes back whole; corrected, every block comes back whole |
| `OdinTxtWriter.Formatted` | odintxt.py:216 | one `format_odin_igt` (as written) per IGT |
| `OdinTxtWriter.RenderOk` | odintxt.py:215-216 | printing stops exactly when an IGT fails to format, with that IGT's exception |
| `OdinTxtWriter.RenderBlocks` | odintxt.py:214-216 | a list is written, or raises KeyError at the first IGT with an unparsed line |
| `OdinTxtWriter.RenderAppend` | odintxt.py:215-216 | writing two lists writes their texts one after the other |
| `OdinTxtWriter.RenderStep` | odintxt.py:215-216 | the print loop one IGT further appends its text or ends with its exception |
| `OdinTxtWriter.Path` | odintxt.py:213 | the file name is the key with no colon, followed by `.txt` |
| `OdinTxtWriter.PathApart` | odintxt.py:213 | keys without a colon never share a file |
| `OdinTxtWriter.Remove` | odintxt.py:217 | `del self.cache[key]` removes exactly that key |
| `OdinTxtWriter.RemoveDistinct` | odintxt.py:217 | the key order stays without repeats |
| `OdinTxtWriter.FlushKeysStep` | odintxt.py:212-217 | the flush loop one key further is one key flush, stopping at an exception |
| `OdinTxtWriter.BufferedWriter.constructor` | odintxt.py:200-202 | a new writer has an empty cache over the given directory |
| `OdinTxtWriter.BufferedWriter.Write` | odintxt.py:203-206 | `write` appends to the key's list in place and flushes it when full |
| `OdinTxtWriter.BufferedWriter.Flush` | odintxt.py:207-217 | `flush` writes every key when called without one, else just the key |
| `OdinTxtWriter.BufferedWriter.FlushKey` | odintxt.py:212-217 | one key's list is appended to its file and the key deleted, or a `None` key raises AttributeError |
| `OdinTxtWriter.FlushKeyValid` | odintxt.py:212-217 | flushing a key keeps the writer's shape, whether or not it raises |
| `OdinTxtWriter.FlushKeysValid` | odintxt.py:207-217 | so does flushing a list of keys |
| `OdinTxtWriter.FlushNoneRaises` | odintxt.py:207-213 | a flush over keys that include `None` raises |
| `OdinTxtWriter.WriteValid` | odintxt.py:203-206 | after a write that raises nothing, every list is nonempty and shorter than `buffer_size` |
| `OdinTxtWriter.WriteBuffers` | odintxt.py:203-206 | a write below `buffer_size` touches no file and only appends to its key's list |
| `OdinTxtWriter.RenderAll` | odintxt.py:214-216 | a list whose IGTs all format is written without exception |
| `OdinTxtWriter.RenderSnoc` | odintxt.py:215-216 | a list one IGT longer prints one text more |
| `OdinTxtWriter.FlushKeyPendingAt` | odintxt.py:212-217 | flushing moves a key's text from the list to its file: the file and the list together hold the same text |
| `OdinTxtWriter.FlushKeyDrops` | odintxt.py:212-217 | flushing a formattable key raises nothing and drops it |
| `OdinTxtWriter.FlushKeyPending` | odintxt.py:212-217 | flushing a key changes no key's file-plus-list text |
| `OdinTxtWriter.FlushKeysDrop` | odintxt.py:212-217 | flushing distinct formattable keys raises nothing and drops them |
| `OdinTxtWriter.FlushKeysPending` | odintxt.py:212-217 | and changes no key's file-plus-list text |
| `OdinTxtWriter.FlushAllEmpties` | odintxt.py:207-217 | `flush()` raises nothing and empties the cache |
| `OdinTxtWriter.FlushAllPending` | odintxt.py:207-217 | after `flush()` every file holds what was flushed before followed by what was cached |
| `OdinTxtWriter.AppendedPendingAt` | odintxt.py:204 | appending adds the IGT's text to its key only |
| `OdinTxtWriter.AppendedFormattable` | odintxt.py:204 | appending a formattable IGT keeps every list formattable |
| `OdinTxtWriter.WriteFormattable` | odintxt.py:203-206 | writing a formattable IGT raises nothing and keeps the writer's shape |
| `OdinTxtWriter.AppendedPending` | odintxt.py:204 | appending adds the IGT's text to its key's text only |
| `OdinTxtWriter.WriteFlushPending` | odintxt.py:205-206 | the flush made by a full list changes no key's text |
| `OdinTxtWriter.WritePending` | odintxt.py:203-206 | a write adds the IGT's text to its key's flushed-plus-cached text only: what was written is what was flushed followed by what is cached, in order |
| `OdinTxtRun.IgtIdInjective` | odintxt.py:254-257 | ids with numbers of zero and above give back their doc id and number |
| `OdinTxtRun.IgtIdNegativeClash` | odintxt.py:254-257 | with a negative first id, IGTs of different documents can share an id |
| `OdinTxtRun.Prepare` | odintxt.py:253-259 | `process` sets the id `igt<doc_id>-<first_id+i>` with `--assign-igt-ids`, empties the header lines when discarding, and changes nothing else |
| `OdinTxtRun.Prepared` | odintxt.py:252-259 | one prepared block per block |
| `OdinTxtRun.PreparedIdsDistinct` | odintxt.py:252-257 | ids assigned from a first id of zero or above are pairwise different within one input |
| `OdinTxtRun.PreparedId` | odintxt.py:252-257 | block i of an input gets the number first id + i |
| `OdinTxtRun.SplitKeyAsWritten` | odintxt.py:260 | as written, the key is `None` exactly for a block without a language code when splitting by language, and is otherwise the corrected key |
| `OdinTxtRun.WriteKey` | odintxt.py:260 | the key a block is written under has no value exactly when, as written, a block without a language code is split by language; otherwise it is the doc id or the language code, `_ungrouped_` when there is none |
| `OdinTxtRun.NoneKeyRaises` | odintxt.py:260-261 | a block without a language code makes the run raise, at the write or at the final `flush()` |
| `OdinTxtRun.WriteBlocks` | odintxt.py:252-261 | the loop of `process` as written writes every block under the key `igt.get` gives, stopping at the first exception |
| `OdinTxtRun.Process` | odintxt.py:251-261 | `process` as written reads the blocks and writes them |
| `OdinTxtRun.Sources` | odintxt.py:242-247 | the sources are the named files in order, or standard input when there are none |
| `OdinTxtRun.ReadAll` | odintxt.py:243-245 | one read per source |
| `OdinTxtRun.NoInfilesAsWritten` | odintxt.py:246-247 | as written, a run without input files raises NameError at `sys.stdin` and writes nothing; corrected, reading an empty standard input writes nothing and raises nothing |
| `OdinTxtRun.ProcessSource` | odintxt.py:243-247 | one pass of the loop of `run` as written: a named file is opened and processed, standard input raises NameError |
| `OdinTxtRun.Run` | odintxt.py:237-248 | `run` as written processes every source, then flushes |
| `OdinTxtRun.KeyTextAppend` | odintxt.py:252-261 | a key's text from two lists is the text of the first followed by that of the second |
| `OdinTxtRun.GrewTrans` | odintxt.py:252-261 | growing by one list and then another is growing by both |
| `OdinTxtRun.WriteOne` | odintxt.py:260-261 | one write of a formattable block that has a key of the set (as written, or corrected) raises nothing and keeps the writer in good shape |
| `OdinTxtRun.WriteOneGrew` | odintxt.py:260-261 | it adds the block's text to its key's text |
| `OdinTxtRun.KeyTextOne` | odintxt.py:260-261 | a one-block list prints its text under its own key only, and under no key when it has none |
| `OdinTxtRun.WritableTail` | odintxt.py:252 | what is left of a writable list is writable |
| `OdinTxtRun.WriteAllHealthy` | odintxt.py:252-261 | writing a writable list raises nothing |
| `OdinTxtRun.WriteAllPending` | odintxt.py:252-261 | and adds each block's text to its key's text, in order |
| `OdinTxtRun.PreparedWritable` | odintxt.py:253-259 | preparing keeps every block's lines and key |
| `OdinTxtRun.ProcessedPending` | odintxt.py:251-261 | processing a clean input raises nothing and adds the text of each prepared block to its key |
| `OdinTxtRun.ProcessedAllPending` | odintxt.py:242-247 | processing clean sources one after the other adds all their blocks, in order |
| `OdinTxtRun.RunGroups` | odintxt.py:237-248 | a run over clean inputs raises nothing and leaves each key's file holding its old text followed by that key's IGTs, formatted, in reading order; as written, clean means named files whose blocks all have a key; corrected, standard input is read when no file is named and blocks of unknown language go to `_ungrouped_` |
| `OdinTxtRun.CleanAsWrittenNamesFiles` | odintxt.py:242-247 | as written, a run whose inputs are clean names input files, and all of them exist |
| `OdinTxtRun.ColonFreeApart` | odintxt.py:213 | keys without a colon each have a file of their own |
| `Dicts.Put` | citations.py:21 | setting a key gives it the value; a new key goes last and an old one keeps its place |
| `Dicts.PutPut` | citations.py:21 | setting a key twice leaves the second value in the first one's place |
| `Dicts.PutAllSpec` | citations.py:46-47 | setting distinct keys gives each its new value, keeps the others, and appends the new keys in order |
| `Dicts.Rebuild` | citations.py:58-59 | a dictionary is rebuilt, order included, by putting its items in order into an empty one |
| `Dicts.Reorder` | citations.py:56-59 | putting the items in another order of the same keys gives the same mapping with the keys in that order |
| `Citations.Get` | citations.py:8 | the entry of a doc id, or the `defaultdict`'s new empty one, is a well-formed ordered dictionary |
| `Citations.Store` | citations.py:21 | storing a property keeps the database well formed |
| `Citations.StoreSpec` | citations.py:21 | storing a property changes only that doc id's entry, and that entry only at the key |
| `Citations.ReadLine` | citations.py:11-21 | reading a line raises only ValueError |
| `Citations.ReadLineSpec` | citations.py:11-21 | a blank line ends the block; a `doc_id` line sets the stripped doc id and raises unless exactly one `=`; a property line with no doc id is skipped; otherwise the line is split at its first `:` and stored stripped, raising when there is no `:` |
| `Citations.ReadLineTidy` | citations.py:11-21 | reading keeps every stored key and value stripped |
| `Citations.StoreTidy` | citations.py:21 | storing stripped values keeps the database tidy |
| `Citations.PutStripped` | citations.py:21 | an entry with a stored property is nonempty and stripped |
| `Citations.Read` | citations.py:10-21 | reading lines raises only ValueError |
| `Citations.ReadTidy` | citations.py:10-21 | reading many lines keeps the database tidy |
| `Citations.Start` | citations.py:8-9 | reading starts with an empty database and no doc id |
| `Citations.Loaded` | citations.py:7-22 | `load_citations` raises only ValueError, and the database it returns is well formed with stripped keys and values |
| `Citations.ReadRaisedPrefix` | citations.py:10-21 | a line that raises ends the loading |
| `Citations.ReadAppend` | citations.py:10 | reading two runs of lines is reading one and then the other |
| `Citations.LoadCitations` | citations.py:7-22 | the loop of `load_citations` computes the loaded database |
| `Citations.SplitTwo` | citations.py:15 | unpacking the split into two parts succeeds exactly when there is one `=` |
| `Citations.Keyed` | citations.py:56 | every doc id is paired with its `safe_int` key |
| `Citations.OrderSpec` | citations.py:51-56 | sorting raises TypeError exactly when numeric and non-numeric doc ids are mixed; otherwise it permutes the doc ids into ascending order |
| `Citations.OrderMembers` | citations.py:56-58 | every doc id in the printed order has an entry |
| `Citations.PropLines` | citations.py:58-59 | one `key: value` line per property, in insertion order |
| `Citations.Printed` | citations.py:50-60 | printing raises only TypeError |
| `Citations.PrintBlock` | citations.py:57-60 | one block is its `doc_id=` line, its property lines and a blank line |
| `Citations.PrintCitations` | citations.py:50-60 | the loop of `print_citations` produces the printed lines |
| `Citations.TextLines` | citations.py:10 | the lines of printed text are read back as they were printed |
| `Citations.DocLineRead` | citations.py:14-16 | a printed `doc_id=` line sets that doc id |
| `Citations.PropLineRead` | citations.py:20-21 | a printed property line stores that property |
| `Citations.EndLineRead` | citations.py:12-13 | the blank line after a block ends it |
| `Citations.PropLineStrip` | citations.py:11 | stripping a property line leaves its core |
| `Citations.StoreAllIs` | citations.py:21 | storing an entry's properties in order puts them all under the doc id |
| `Citations.StoreAllNew` | citations.py:8-21 | the properties of a new doc id become its entry |
| `Citations.BlockRead` | citations.py:10-21 | a printed block is read back as its entry |
| `Citations.BlocksRead` | citations.py:10-21 | printed blocks are read back as their entries, in printed order |
| `Citations.SortedIsKeyed` | citations.py:56 | the sorted pairs are the keyed sorted doc ids |
| `Citations.OrderTwice` | citations.py:56 | sorting sorted doc ids changes nothing |
| `Citations.OrderedMembers` | citations.py:56 | the sorted doc ids are doc ids of the database |
| `Citations.Reprint` | citations.py:50-60 | loading the printed text and printing it again prints the same |
| `Citations.PrintedLines` | citations.py:50-60 | the printed lines are the blocks in sorted order, each on one line |
| `Citations.ReadPrinted` | citations.py:7-22 | reading the printed blocks gives the database with its doc ids in sorted order |
| `Citations.LoadPrinted` | citations.py:7-22 | loading the printed text reproduces the database, keys and values and key order included, with the doc ids in sorted order |
| `Citations.BlocksOneLine` | citations.py:57-60 | no printed line holds a newline |
| `Citations.Merge` | citations.py:46-47 | merging new values into an entry keeps it well formed |
| `Citations.MergeSpec` | citations.py:46-47 | every new key takes its new value, other keys keep theirs, and new keys are appended in order |
| `Citations.MergeIdempotent` | citations.py:46-47 | merging the same values twice is merging once |
| `Citations.StoreAllMerge` | citations.py:46-47 | storing an entry's properties into a doc id merges them, and an empty entry adds nothing |
| `Citations.UpdateOne` | citations.py:43-47 | one doc id's update keeps the database well formed |
| `Citations.UpdateFirst` | citations.py:42-47 | the updates so far keep it well formed |
| `Citations.Updated` | citations.py:41-47 | `update` keeps the database well formed |
| `Citations.StoreEntry` | citations.py:46-47 | the inner loop stores an entry's properties in order |
| `Citations.StoreNext` | citations.py:47 | the inner loop one property further |
| `Citations.UpdateStep` | citations.py:43-47 | the outer loop body updates or skips one doc id |
| `Citations.Update` | citations.py:41-47 | the loop of `update` computes the updated database |
| `Citations.AtExt` | citations.py:41-47 | databases with the same doc-id order and the same entries are equal |
| `Citations.UpdateOneAt` | citations.py:43-47 | a doc id that is present, or added, gets the merged entry; every other doc id is unchanged |
| `Citations.UpdateFirstAt` | citations.py:42-47 | after the first n doc ids every entry is what the update prescribes |
| `Citations.Added` | citations.py:43 | a doc id is added only when adding is on and it is new with some property |
| `Citations.AddedNone` | citations.py:43-44 | with adding off, no doc id is added |
| `Citations.UpdateFirstKeys` | citations.py:42-47 | added doc ids are appended after the existing ones |
| `Citations.UpdateOneKeys` | citations.py:43-47 | one update appends its doc id only when it is added |
| `Citations.UpdatedSpec` | citations.py:41-47 | every entry and the doc-id order of the updated database are what the update prescribes |
| `Citations.UpdateNoAdd` | citations.py:43-44 | with adding off the set and order of doc ids are unchanged |
| `Citations.UpdatedEntry` | citations.py:41-47 | each doc id processed gets every new key's value, its other keys unchanged; other doc ids are unchanged |
| `Citations.UpdateIdempotent` | citations.py:41-47 | updating twice with the same values is updating once |
| `Citations.Drop1` | citations.py:36 | `xs[1:]` drops the first element |
| `Citations.Cells` | citations.py:30 | a row has at least one cell |
| `Citations.Pairs` | citations.py:36 | `zip` pairs as many cells as the shorter side has |
| `Citations.StripAll` | citations.py:37 | every key and value is stripped |
| `Citations.StoreZip` | citations.py:36-37 | storing the zipped pairs keeps the database well formed |
| `Citations.LastPaired` | citations.py:36-37 | a key is paired exactly when some header field before the end of the zip is that key |
| `Citations.LastPairedIs` | citations.py:36-37 | a key that occurs once takes its own cell |
| `Citations.StoreAt` | citations.py:37 | storing one property touches only that doc id and that key |
| `Citations.StoreZipDocs` | citations.py:36-37 | storing a row touches only its doc id, which is created when at least one pair is stored |
| `Citations.StoreZipProp` | citations.py:36-37 | after a row each key holds its last paired cell, or its old value |
| `Citations.UpdateRow` | citations.py:30-37 | reading one row keeps the database well formed |
| `Citations.UpdateRowAt` | citations.py:30-37 | a row changes only its own doc id, blank or not, which holds the row's paired cells; extra cells or fields are ignored |
| `Citations.UpdateRowDistinct` | citations.py:36-37 | with distinct header fields every paired field takes its cell |
| `Citations.RowNoPairs` | citations.py:36 | a row with nothing to pair changes nothing |
| `Citations.UpdateRows` | citations.py:29-37 | reading the rows keeps the database well formed |
| `Citations.LoadedUpdate` | citations.py:25-38 | `load_update_tsv` raises StopIteration exactly for an empty file, and otherwise returns a well-formed database |
| `Citations.RowsOneField` | citations.py:28-37 | with at most one header field the rows change nothing |
| `Citations.LoadedUpdateOneField` | citations.py:28-37 | such an update file loads as the empty database |
| `Citations.LoadUpdateTsv` | citations.py:25-38 | the loop of `load_update_tsv` computes the update database |
| `Citations.NextRow` | citations.py:29-37 | the row loop one row further |
| `Citations.UpdateRowsSnoc` | citations.py:29 | reading one more row is one more row update |
| `Citations.StoreRow` | citations.py:30-37 | the pair loop stores one row |
| `Citations.NextPair` | citations.py:36-37 | the pair loop one pair further |
| `Citations.CitationsRun` | citations.py:63-68 | `run` raises only ValueError, StopIteration or TypeError |
| `Citations.RunOwnOutput` | citations.py:63-68 | running without an update on the tool's own output prints it again unchanged |
| `Citations.RunEmptyUpdate` | citations.py:64-65 | an update file with at most one field changes nothing that is printed |
| `Sorting.Sort` | odingroup.py:60 | `sort(key=...)` is ascending by key, a permutation, and stable |
| `Sorting.SortElems` | odingroup.py:60 | sorting loses no element |
| `Sorting.SortSorted` | citations.py:56 | sorting what is sorted changes nothing |
| `Sorting.StrKeyLeq` | citations.py:56 | string keys compare as Python compares the strings |
| `OdinGroup.SegmentLength` | odingroup.py:69 | the optional `([^-]+-)` segment is a nonempty run without hyphens that ends at the first hyphen |
| `OdinGroup.IdPrefixLength` | odingroup.py:69 | a prefix is removed exactly when the id starts with `i` |
| `OdinGroup.StripIdPrefix` | odingroup.py:69 | what is left is a suffix of the id, and an id not starting with `i` is unchanged |
| `OdinGroup.StripIdPrefixRemoves` | odingroup.py:69 | the removed prefix is `igt` or `i`, with an optional segment up to the first hyphen |
| `OdinGroup.IdOr` | odingroup.py:69 | a missing or empty id is replaced by a nonempty one (`0-0`) |
| `OdinGroup.SortKey` | odingroup.py:66-72 | the key has two parts; any failed `int()` gives `(0, 0)`, otherwise the doc id and the id number |
| `OdinGroup.IdNumberDocPart` | odingroup.py:69 | `igt10-3` gives 3 |
| `OdinGroup.IdNumberShortPrefix` | odingroup.py:69 | `i3` gives 3 |
| `OdinGroup.SortKeyNoId` | odingroup.py:69-71 | a missing id gives `'0-0'`, which is no integer after the strip, so the key is `(0, 0)` |
| `OdinGroup.SortKeyNoDocId` | odingroup.py:68 | a missing `doc-id` gives first part 0 |
| `OdinGroup.SortKeyBadId` | odingroup.py:67-72 | `igt1-2-3` leaves `2-3`, which raises ValueError, so the key is `(0, 0)` |
| `OdinGroup.SortKeyOfAssignedId` | odingroup.py:66-72 | an IGT with an id assigned by odintxt.py sorts by its doc id and its number |
| `OdinGroup.Add` | odingroup.py:48 | after `idx[key][fn].add(i)` the position is recorded |
| `OdinGroup.AddIsPut` | odingroup.py:48 | adding is setting the inner entries of the nested dictionaries |
| `OdinGroup.AddValid` | odingroup.py:48 | adding keeps both levels of the index well formed |
| `OdinGroup.AddRecorded` | odingroup.py:48 | adding records the new position and keeps every recorded one |
| `OdinGroup.AddFilesIn` | odingroup.py:48 | the index names only positions of loaded files |
| `OdinGroup.IndexFileRecorded` | odingroup.py:44-48 | after indexing a file, a position is recorded under a key exactly when it was before or it is a position of the file with that key |
| `OdinGroup.IndexFileUnfold` | odingroup.py:46-48 | indexing one more IGT is one more add |
| `OdinGroup.RecordedStep` | odingroup.py:46-48 | what is recorded one IGT further |
| `OdinGroup.IndexFileFilesIn` | odingroup.py:44-48 | indexing a file names only its positions |
| `OdinGroup.IndexFileValid` | odingroup.py:44-48 | indexing a file keeps the index well formed |
| `OdinGroup.IndexFilesRecorded` | odingroup.py:22-24 | after indexing the input files, each position of each file is recorded under exactly its own key, and nothing else is |
| `OdinGroup.InputPositionStep` | odingroup.py:22-24 | the positions of one more file |
| `OdinGroup.IndexFilesIn` | odingroup.py:22-24 | the index names only positions of the input files |
| `OdinGroup.IndexFilesValid` | odingroup.py:22-24 | the index is well formed |
| `OdinGroup.Index` | odingroup.py:44-48 | the loop of `index` adds every position of the file in place |
| `OdinGroup.AddNext` | odingroup.py:46-48 | the loop one IGT further |
| `OdinGroup.IndexAll` | odingroup.py:22-24 | the loop of `run` indexes every input file |
| `OdinGroup.DocIdKey` | odingroup.py:15 | the `@doc-id` query finds the attribute exactly when there is one |
| `OdinGroup.KeyedIgts` | odingroup.py:60 | every IGT is paired with its sort key |
| `OdinGroup.Write` | odingroup.py:50-64 | the loops of `write` and the sort give the written corpus |
| `OdinGroup.ElemsKeyed` | odingroup.py:60 | pairing IGTs with keys and dropping the keys gives the IGTs back |
| `OdinGroup.SortKeepsKeys` | odingroup.py:60 | after sorting every IGT still has its own key |
| `OdinGroup.WrittenPermutes` | odingroup.py:52-60 | the written corpus is a permutation of the selected IGTs |
| `OdinGroup.WrittenSorted` | odingroup.py:60 | the written corpus is ascending by `igt_sort_key` |
| `OdinGroup.Tied` | odingroup.py:60 | the IGTs with one key are IGTs of the list with that key |
| `OdinGroup.TiedElems` | odingroup.py:60 | the IGTs with one key, before and after dropping the keys |
| `OdinGroup.ElemsAppend` | odingroup.py:60 | dropping keys distributes over concatenation |
| `OdinGroup.WrittenStable` | odingroup.py:52-60 | IGTs with equal keys keep their file-then-position order |
| `OdinGroup.FilePositions` | odingroup.py:55-57 | the kept positions of one file are indexed positions of that file, in ascending order |
| `OdinGroup.FilePositionsHas` | odingroup.py:55-57 | every indexed position of the file is kept |
| `OdinGroup.SelectedPositions` | odingroup.py:52-57 | every selected position exists in its file |
| `OdinGroup.Lookup` | odingroup.py:55-57 | looking positions up gives the IGTs at them |
| `OdinGroup.FileKeptAt` | odingroup.py:55-57 | the IGTs kept from a file are those at its kept positions |
| `OdinGroup.LookupOne` | odingroup.py:57 | one position gives one IGT |
| `OdinGroup.LookupAppend` | odingroup.py:52-57 | looking up two runs of positions gives two runs of IGTs |
| `OdinGroup.SelectedAt` | odingroup.py:52-57 | the selected IGTs are those at the selected positions |
| `OdinGroup.SelectedPositionsHas` | odingroup.py:52-57 | a position is selected exactly when its file is in the group, its index is recorded, and the file has it |
| `OdinGroup.Rank` | odingroup.py:52 | a file's rank is the place of its first occurrence |
| `OdinGroup.SelectedPositionsOrder` | odingroup.py:52-57 | selected positions come in file order, then position order |
| `OdinGroup.GroupOrderAppend` | odingroup.py:52-57 | the positions of a later file come after those of earlier files |
| `OdinGroup.RankDistinct` | odingroup.py:52 | in distinct keys a key's rank is its place |
| `OdinGroup.RankBefore` | odingroup.py:52 | a key among the first m has a rank below m |
| `OdinGroup.WrittenKeeps` | odingroup.py:52-60 | `write` keeps exactly the IGTs at indexed positions |
| `OdinGroup.OutName` | odingroup.py:28-30 | the output name ends with `.xml` |
| `OdinGroup.OutNameDistinct` | odingroup.py:28-30 | keys without `:` that are not `---` get distinct output names |
| `OdinGroup.OutNameShared` | odingroup.py:28-30 | a `None` key and the key `---` share a name, and so do `a:b` and `a-b` |
| `OdinGroup.ReplaceAbsent` | odingroup.py:30 | replacing an absent `:` changes nothing |
| `OdinGroup.GroupsLoadable` | odingroup.py:25-31 | every group names only loadable files |
| `OdinGroup.Run` | odingroup.py:18-31 | `run` indexes every file, then writes one corpus per key in the order the keys were found |
| `OdinGroup.GroupsPartition` | odingroup.py:22-31 | a position of an input file is selected for group j exactly when group j's key is that IGT's key |
| `OdinGroup.GroupsCover` | odingroup.py:22-31 | every position of every input file has a group |

## Left out

- Command-line parsing, logging, `main`, `create_outdir` (`os.mkdir`,
  `sys.exit`), `cProfile`, `os.path.join`, file opening and the lazy reading
  of files. Input files are given as their lines, without line terminators.
  Output directories are maps from file name to contents. odinnormalize.py
  and odinclean.py `run` (load, process, dump) are not modelled.
- The xigt library: `xigtxml.load`/`dump`, the `nsmap` copy in `write`, and
  the `xigtpath` query for languages. Grouping takes the key query as a
  function parameter. `DocIdKey` is the `@doc-id` query. A corpus is a map
  from file name to IGT list.
- `get_attribute` reading an attribute inherited from a parent element: the
  sort key reads the IGT's own attribute.
- The aliasing of attribute dictionaries: `copy_items` shares `attributes`
  with the originals, so the in-place tag and judgment writes also change the
  source tier. Items are values here.
- `merge_diacritics` (odinclean.py:85-130): it needs Unicode normalization,
  it does not import `unicodedata`, and it is never called.
- `merge_strings` (odinclean.py:177-189): it is a stub that returns `''`,
  and it is never called.
- `log_comments` and every logging warning: logging only.
- Character classes and case mapping are ASCII: `\s` is Python's ASCII
  whitespace, `\w` is ASCII letters, digits and `_`, and `title()`, `lower()`
  and `strip()` act on ASCII letters and whitespace. Unicode behaviour is not
  modelled.
- ParseInt (Py): accepts only an optional sign and decimal digits. Python's `int()`
  also accepts surrounding whitespace and `_` between digits, which is not
  modelled.
- BitMergeAscii, BitMergeSymmetric, BitMergeEmpty (OdinClean): proved for
  ASCII arguments only. For other text the swap compares lengths in
  characters while `zip` stops at the byte length. `BitMerge` itself models
  all text over UTF-8 bytes.
- Reprint, LoadPrinted, ReadPrinted, RunOwnOutput (Citations): the round trip
  is proved for a database whose doc ids have no `=` or surrounding
  whitespace, whose keys have no `:` and do not start with `doc_id`, whose
  values are stripped, and where all lines are single lines. Every entry must
  have a property, because an entry without one prints a block that loads
  as nothing. Doc ids must be all numeric or all not, otherwise printing
  raises TypeError.
- OrderSpec (Citations): mixed numeric and non-numeric doc ids raise
  TypeError, as in Python 3, so no order is stated for them.
- LoadedUpdate (Citations): repeated header fields are modelled, and the last
  paired cell wins, but only distinct fields are described key by key
  (`UpdateRowDistinct`).
- CitationsRun (Citations): an empty `--update` path counts as no update, as
  the truth test in `run` makes it.
- MinIndent (OdinXigt): its requires excludes an eligible item without text.
  On such an item `min_indent` raises TypeError (odinxigt.py:35).
- ShiftLeft (OdinXigt): its requires excludes an eligible item without text
  and an `M` item without text. An eligible item without text makes
  `min_indent` raise TypeError (odinxigt.py:35). An `M` item without text
  makes `shift_left` raise AttributeError (odinxigt.py:45-46).
- IgtIdInjective, PreparedIdsDistinct (OdinTxtRun): stated for a first id of
  zero or above. `IgtIdNegativeClash` shows that a negative one can repeat
  ids.
- FormatReadBack (OdinTxtOut): stated for blocks whose fields are in the
  form `doc_re` and `line_re` read, and whose language and code come back
  unchanged from `title()`, `lower()` and `strip()`. As written, a block
  without an IGT id is not given back whole: it returns with the IGT id
  `None`.
- FormattedSplit, TopTwoRead, ReadParts (OdinTxtOut): stated for the same
  writable blocks.
- RunGroups (OdinTxtRun): stated for inputs that raise nothing and whose
  keys have no colon. Keys that differ only in `:` and `-` share a file.
  As written, such inputs are named files whose blocks all have a key
  (`CleanAsWrittenNamesFiles`); the runs that raise are covered by
  `NoneKeyRaises` and `NoInfilesAsWritten` only.
- WriteOne, WriteOneGrew, WriteAllHealthy, WriteAllPending,
  ProcessedPending, ProcessedAllPending (OdinTxtRun): stated for blocks
  that parse and have a key of the given set. As written, a block without a
  language code split by language has no key; `NoneKeyRaises` covers it.
- Sources (OdinTxtRun): the list includes standard input when no file is
  named. As written, reading it raises NameError (`ReadSource`,
  `ProcessSource`).
- The writer (OdinTxtWriter) and `KeyText` format IGTs with the top line as
  written only. The corrected top line is modelled by `FormatOdinIgtWith`
  and its read-back lemmas, not by the writer.
- OutNameDistinct (OdinGroup): stated for keys without `:` and other than
  `---`. `OutNameShared` shows the collisions otherwise: those groups are
  written to the same file, and the later write replaces the earlier one.
- Run (OdinGroup): the replacement of an earlier output file by a later group
  with the same name is not modelled. The result lists every group's name
  and corpus.

## Findings

| source | as written | input that shows it | evidently intended | confidence | as-written member | corrected member |
|---|---|---|---|---|---|---|
| odintxt.py:96-98 | `stage2_LN_re` begins with `stage2_LN_lang_code: ` but is matched against the value after that key, so it never matches | a header whose only language line is `stage2_LN_lang_code: Foo (x, foo)` gives `(Undetermined)` | match the whole header line, or a pattern without the key, so the name and code of the first entry are chosen | not executed | `OdinTxt.Stage2AsWrittenUndetermined` | `OdinTxt.Stage2Read` |
| odintxt.py:222-223 | `'igt_id' in igt` always holds, because `odin_blocks` always sets the key, so the top line carries `igt_id=None` for a block without an IGT id | a block with no `igt_id=` on its doc line is written as `doc_id=1 igt_id=None 1 2 L G T` and read back with IGT id `None` | write the `igt_id=` segment only when the block has an IGT id | not executed | `OdinTxtOut.TopLineAsWrittenMisread` | `OdinTxtOut.TopLineRoundTrip` |
| odintxt.py:260 | `igt.get(args.split_by, default_split_key)` never falls back, because the key is always set, so a block without a language code gets the key `None` | `--split-by=iso-639-3` on a block whose input ends inside its header: `flush()` calls `None.replace` and raises AttributeError | file such blocks under `_ungrouped_` | not executed | `OdinTxtRun.NoneKeyRaises` | `OdinTxtRun.RunGroups` |
| odintxt.py:247 | `run` reads `sys.stdin`, but the module does not import `sys` | no input files: NameError, and nothing is written | import `sys` and read standard input | not executed | `OdinTxtRun.NoInfilesAsWritten` | `OdinTxtRun.RunGroups` |
