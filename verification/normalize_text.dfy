/**
 * The six text steps of odinnormalize.py, each a function on the text of one
 * item.  The regular expressions of the source are written out as scans over
 * the string: every pattern is anchored at the start (`re.match`, or `re.sub`
 * with `^`), so a substitution removes one prefix or none, except the
 * unanchored hyphen rejoin, which is a left-to-right rewrite.  Where a pattern
 * can backtrack, the scan tries the alternatives in the order Python's engine
 * does (greedy repetitions longest first, alternatives left to right).
 */
module NormalizeText {
  import opened Py

  // ---------------------------------------------------------------------
  // remove_quotes and remove_surrounding_parens

  /** The characters of `strip('"\'`')`. */
  const Quotes: set<char> := {'"', '\'', '`'}

  /** Neither end of the text is a quote character. */
  predicate NoQuoteEnds(r: string)
  {
    r == [] || (r[0] !in Quotes && r[|r| - 1] !in Quotes)
  }

  /** `remove_quotes`: `text.strip().strip('"\'`')`. */
  function RemoveQuotes(text: string): (r: string)
    ensures NoQuoteEnds(r)
  {
    RStripSet(LStripSet(Strip(text), Quotes), Quotes)
  }

  /** The text both starts with `(` and ends with `)` (then it has at least two
      characters, as one character cannot be both). */
  predicate Parenthesized(s: string)
  {
    StartsWith(s, "(") && EndsWith(s, ")")
  }

  lemma ParenthesizedLength(s: string)
    requires Parenthesized(s)
    ensures |s| >= 2
  {
    assert s[..1] == "(" && s[|s| - 1..] == ")";
    assert s[0] == '(' && s[|s| - 1] == ')';
  }

  /** `remove_surrounding_parens`: drop one enclosing pair of parentheses when
      there is one, then strip spaces and quotes again. */
  function RemoveSurroundingParens(text: string): (r: string)
    ensures NoQuoteEnds(r)
  {
    if Parenthesized(text) then
      ParenthesizedLength(text);
      RemoveQuotes(text[1..|text| - 1])
    else RemoveQuotes(text)
  }

  /** Text that has no enclosing pair and is already stripped of spaces and
      quotes (such as `abc (def)`) comes back unchanged. */
  lemma RemoveSurroundingParensKeeps(text: string)
    requires !Parenthesized(text)
    requires text == [] || (!IsSpace(text[0]) && !IsSpace(text[|text| - 1]))
    requires NoQuoteEnds(text)
    ensures RemoveSurroundingParens(text) == text
  {
    StripNoop(text);
  }

  lemma ParensKeptInside()
    ensures RemoveSurroundingParens("abc (def)") == "abc (def)"
  {
    var t := "abc (def)";
    assert t[0] == 'a';
    assert !Parenthesized(t);
    RemoveSurroundingParensKeeps(t);
  }

  // ---------------------------------------------------------------------
  // remove_example_numbers




  /** The two patterns share the alternatives `[\d.]+\w?|\w|[ivxlc]+` and
      differ in what must follow them. */
  datatype Tail =
    | ParenTail   // `['.:]*\s*\)[.:]*` of `paren_num_re`
    | NumTail     // `['.):]+\s` of `num_re`

  /** A closing parenthesis lies in `s[p..e]`. */
  predicate ClosesIn(s: string, p: nat, e: nat)
    requires e <= |s|
  {
    exists i :: p <= i < e && s[i] == ')'
  }

  /** What a match of the tail that starts at or after `p` and ends at `e`
      guarantees: `num_re` ends with whitespace, `paren_num_re` has passed a
      closing parenthesis. */
  predicate TailOk(s: string, p: nat, e: nat, t: Tail)
    requires e <= |s|
  {
    match t
    case NumTail => 0 < e && IsSpace(s[e - 1])
    case ParenTail => ClosesIn(s, p, e)
  }

  /** Where the tail ends when it matches at `p`.  Both tails are
      deterministic: each class they repeat is disjoint from what follows it. */
  function TailEnd(s: string, p: nat, t: Tail): (r: Option<nat>)
    requires p <= |s|
    ensures r.Some? ==> p < r.value <= |s|
    ensures r.Some? ==> TailOk(s, p, r.value, t)
    ensures r.Some? && t == NumTail ==> In(s[p], NumPunct)
  {
    match t
    case ParenTail =>
      var q := Span(s, Span(s, p, ParenPunct), Space);
      if q < |s| && s[q] == ')' then
        var e := Span(s, q + 1, DotColon);
        Some(e)
      else None
    case NumTail =>
      var q := Span(s, p, NumPunct);
      if p < q < |s| && IsSpace(s[q]) then Some(q + 1) else None
  }

  /** The alternative `[\d.]+\w?` followed by the tail, with the run of
      `[\d.]` ending at `j`: the engine tries `\w?` with one character first,
      then with none, and then gives back one character of the run. */
  function NumRunThen(s: string, p: nat, j: nat, t: Tail): (r: Option<nat>)
    requires p < j <= |s|
    ensures r.Some? ==> p < r.value <= |s|
    ensures r.Some? ==> TailOk(s, p, r.value, t)
    decreases j
  {
    var withWord := if j < |s| && IsWordChar(s[j]) then TailEnd(s, j + 1, t) else None;
    if withWord.Some? then withWord
    else
      var without := TailEnd(s, j, t);
      if without.Some? then without
      else if j - 1 > p then NumRunThen(s, p, j - 1, t)
      else None
  }

  /** The alternative `[ivxlc]+` followed by the tail, the run ending at `j`,
      given back one character at a time. */
  function RomanRunThen(s: string, p: nat, j: nat, t: Tail): (r: Option<nat>)
    requires p < j <= |s|
    ensures r.Some? ==> p < r.value <= |s|
    ensures r.Some? ==> TailOk(s, p, r.value, t)
    decreases j
  {
    var end := TailEnd(s, j, t);
    if end.Some? then end
    else if j - 1 > p then RomanRunThen(s, p, j - 1, t)
    else None
  }

  /** `([\d.]+\w?|\w|[ivxlc]+)` then the tail, at `p`: where the match ends. */
  function NumberThen(s: string, p: nat, t: Tail): (r: Option<nat>)
    requires p <= |s|
    ensures r.Some? ==> p < r.value <= |s|
    ensures r.Some? ==> TailOk(s, p, r.value, t)
  {
    var n := Span(s, p, NumChar);
    var alt1 := if n > p then NumRunThen(s, p, n, t) else None;
    if alt1.Some? then alt1
    else
      var alt2 := if p < |s| && IsWordChar(s[p]) then TailEnd(s, p + 1, t) else None;
      if alt2.Some? then alt2
      else
        var m := Span(s, p, Roman);
        if m > p then RomanRunThen(s, p, m, t) else None
  }

  /** Where `paren_num_re` = `^\(\s*(...)['.:]*\s*\)[.:]*` ends, if it matches. */
  function ParenNumEnd(s: string): (r: Option<nat>)
    ensures r.Some? ==> 0 < r.value <= |s| && s[0] == '(' && ClosesIn(s, 1, r.value)
  {
    if s == [] || s[0] != '(' then None
    else NumberThen(s, Span(s, 1, Space), ParenTail)
  }

  /** Where `num_re` = `^(...)['.):]+\s` ends, if it matches. */
  function NumEnd(s: string): (r: Option<nat>)
    ensures r.Some? ==> 0 < r.value <= |s| && IsSpace(s[r.value - 1])
  {
    NumberThen(s, 0, NumTail)
  }

  /** `pattern.sub('', s)` for a pattern anchored with `^`: the match, if any,
      is removed; `^` cannot match again later in the string. */
  function CutPrefix(s: string, end: Option<nat>): (r: string)
    requires end.Some? ==> end.value <= |s|
    ensures end.None? ==> r == s
    ensures end.Some? ==> s == s[..end.value] + r
  {
    if end.Some? then s[end.value..] else s
  }

  /** `remove_example_numbers`. */
  function RemoveExampleNumbers(text: string): (r: string)
    ensures r == Strip(r)
  {
    var line := Strip(CutPrefix(text, ParenNumEnd(text)));
    var r := Strip(CutPrefix(line, NumEnd(line)));
    StripIdempotent(CutPrefix(line, NumEnd(line)));
    r
  }

  /** Text with no whitespace at either end (what `strip()` leaves). */
  predicate Stripped(s: string)
  {
    s == [] || (!IsSpace(s[0]) && !IsSpace(s[|s| - 1]))
  }

  /** What `remove_example_numbers` does when `num_re` removes a prefix of
      an already stripped text. */
  lemma RemoveByNum(s: string, k: nat, x: string)
    requires Stripped(s) && ParenNumEnd(s) == None && NumEnd(s) == Some(k)
    requires s[k..] == x && Stripped(x)
    ensures RemoveExampleNumbers(s) == x
  {
    StripNoop(s);
    StripNoop(x);
  }

  /** What `remove_example_numbers` does when `paren_num_re` removes a prefix
      of an already stripped text and `num_re` then finds nothing. */
  lemma RemoveByParen(s: string, k: nat, x: string)
    requires Stripped(s) && ParenNumEnd(s) == Some(k)
    requires s[k..] == [' '] + x && x != [] && Stripped(x) && NumEnd(x) == None
    ensures RemoveExampleNumbers(s) == x
  {
    StripNoop(s);
    StripAround([' '], x, []);
    assert [' '] + x + [] == [' '] + x;
    StripNoop(x);
  }

  /** What `remove_example_numbers` does when neither pattern matches an
      already stripped text. */
  lemma RemoveByNone(s: string)
    requires Stripped(s) && ParenNumEnd(s) == None && NumEnd(s) == None
    ensures RemoveExampleNumbers(s) == s
  {
    StripNoop(s);
  }

  /** `paren_num_re` needs an opening parenthesis. */
  lemma ParenNumEndNeedsParen(s: string)
    requires s == [] || s[0] != '('
    ensures ParenNumEnd(s) == None
  {
  }

  /** Without whitespace there is nothing for `num_re` to remove. */
  lemma NumEndNeedsSpace(s: string)
    requires forall i :: 0 <= i < |s| ==> !IsSpace(s[i])
    ensures NumEnd(s) == None
  {
  }

  /** A number prefix `pre` that `num_re` removes in full, before a stripped `x`. */
  lemma {:induction false} RemoveNumPrefix(pre: string, x: string)
    requires pre != [] && !IsSpace(pre[0]) && pre[0] != '('
    requires x != [] && Stripped(x)
    requires NumEnd(pre + x) == Some(|pre|)
    ensures RemoveExampleNumbers(pre + x) == x
  {
    var s := pre + x;
    assert s[0] == pre[0] && s[|s| - 1] == x[|x| - 1];
    ParenNumEndNeedsParen(s);
    assert s[|pre|..] == x;
    RemoveByNum(s, |pre|, x);
  }

  /** A parenthesized prefix `pre` that `paren_num_re` removes in full, then
      one space, before a stripped `x` that `num_re` leaves alone. */
  lemma {:induction false} RemoveParenPrefix(pre: string, x: string)
    requires pre != [] && pre[0] == '('
    requires x != [] && Stripped(x) && NumEnd(x) == None
    requires ParenNumEnd(pre + " " + x) == Some(|pre|)
    ensures RemoveExampleNumbers(pre + " " + x) == x
  {
    ParenPrefixShape(pre, x);
    RemoveByParen(pre + " " + x, |pre|, x);
  }

  lemma ParenPrefixShape(pre: string, x: string)
    requires pre != [] && pre[0] == '('
    requires x != [] && Stripped(x)
    ensures Stripped(pre + " " + x) && (pre + " " + x)[|pre|..] == [' '] + x
  {
    var s := pre + " " + x;
    assert s[0] == '(' && s[|s| - 1] == x[|x| - 1];
    assert s[|pre|..] == [' '] + x;
  }

  /** `num_re` on digits `s[..n]`, a dot and a space. */
  lemma {:induction false} NumEndDigitDotAt(s: string, n: nat)
    requires 0 < n && n + 2 <= |s| && s[n] == '.' && s[n + 1] == ' '
    requires forall i :: 0 <= i < n ==> IsDigit(s[i])
    ensures NumEnd(s) == Some(n + 2)
  {
    SpanIs(s, 0, n + 1, NumChar);
    SpanStop(s, n + 1, NumPunct);
    assert TailEnd(s, n + 1, NumTail) == None;
    SpanIs(s, n, n + 1, NumPunct);
    assert TailEnd(s, n, NumTail) == Some(n + 2);
    assert NumRunThen(s, 0, n + 1, NumTail) == Some(n + 2);
  }

  lemma NumEndDigitDot(d: string, x: string)
    requires d != [] && AllDigits(d)
    ensures NumEnd(d + ". " + x) == Some(|d + ". "|)
  {
    var s := d + ". " + x;
    var n := |d|;
    assert s[n] == '.' && s[n + 1] == ' ';
    assert forall i :: 0 <= i < n ==> s[i] == d[i];
    NumEndDigitDotAt(s, n);
  }

  /** `num_re` on digits `s[..n]`, a letter, a dot and a space. */
  lemma {:induction false} NumEndDigitLetterDotAt(s: string, n: nat)
    requires 0 < n && n + 3 <= |s| && IsAlpha(s[n]) && s[n + 1] == '.' && s[n + 2] == ' '
    requires forall i :: 0 <= i < n ==> IsDigit(s[i])
    ensures NumEnd(s) == Some(n + 3)
  {
    SpanIs(s, 0, n, NumChar);
    SpanIs(s, n + 1, n + 2, NumPunct);
    assert TailEnd(s, n + 1, NumTail) == Some(n + 3);
    assert NumRunThen(s, 0, n, NumTail) == Some(n + 3);
  }

  lemma NumEndDigitLetterDot(d: string, a: char, x: string)
    requires d != [] && AllDigits(d) && IsAlpha(a)
    ensures NumEnd(d + [a] + ". " + x) == Some(|d + [a] + ". "|)
  {
    var s := d + [a] + ". " + x;
    var n := |d|;
    assert s[n] == a && s[n + 1] == '.' && s[n + 2] == ' ';
    assert forall i :: 0 <= i < n ==> s[i] == d[i];
    NumEndDigitLetterDotAt(s, n);
  }

  /** `paren_num_re` on `(`, digits `s[1..n + 1]`, `)` and a space. */
  lemma {:induction false} ParenNumEndDigitsAt(s: string, n: nat)
    requires 0 < n && n + 3 <= |s| && s[0] == '(' && s[n + 1] == ')' && s[n + 2] == ' '
    requires forall i :: 1 <= i < n + 1 ==> IsDigit(s[i])
    ensures ParenNumEnd(s) == Some(n + 2)
  {
    SpanStop(s, 1, Space);
    SpanIs(s, 1, n + 1, NumChar);
    SpanStop(s, n + 1, ParenPunct);
    SpanStop(s, n + 1, Space);
    SpanStop(s, n + 2, DotColon);
    assert TailEnd(s, n + 1, ParenTail) == Some(n + 2);
    assert NumRunThen(s, 1, n + 1, ParenTail) == Some(n + 2);
  }

  lemma ParenNumEndDigits(d: string, x: string)
    requires d != [] && AllDigits(d)
    ensures ParenNumEnd("(" + d + ")" + " " + x) == Some(|"(" + d + ")"|)
  {
    var s := "(" + d + ")" + " " + x;
    var n := |d|;
    assert s[0] == '(' && s[n + 1] == ')' && s[n + 2] == ' ';
    assert forall i :: 1 <= i < n + 1 ==> s[i] == d[i - 1];
    ParenNumEndDigitsAt(s, n);
  }

  /** `paren_num_re` on `(`, a roman numeral `s[1..n + 1]`, `)` and a space. */
  lemma {:induction false} ParenNumEndRomanAt(s: string, n: nat)
    requires 0 < n && n + 3 <= |s| && s[0] == '(' && s[n + 1] == ')' && s[n + 2] == ' '
    requires forall i :: 1 <= i < n + 1 ==> In(s[i], Roman)
    ensures ParenNumEnd(s) == Some(n + 2)
  {
    SpanStop(s, 1, Space);
    SpanStop(s, 1, NumChar);
    SpanStop(s, n + 1, ParenPunct);
    SpanStop(s, n + 1, Space);
    SpanStop(s, n + 2, DotColon);
    assert TailEnd(s, n + 1, ParenTail) == Some(n + 2);
    if n > 1 {
      SpanStop(s, 2, ParenPunct);
      SpanStop(s, 2, Space);
      assert TailEnd(s, 2, ParenTail) == None;
      SpanIs(s, 1, n + 1, Roman);
      assert RomanRunThen(s, 1, n + 1, ParenTail) == Some(n + 2);
    }
  }

  lemma ParenNumEndRoman(rn: string, x: string)
    requires rn != [] && forall i :: 0 <= i < |rn| ==> In(rn[i], Roman)
    ensures ParenNumEnd("(" + rn + ")" + " " + x) == Some(|"(" + rn + ")"|)
  {
    var s := "(" + rn + ")" + " " + x;
    var n := |rn|;
    assert s[0] == '(' && s[n + 1] == ')' && s[n + 2] == ' ';
    assert forall i :: 1 <= i < n + 1 ==> s[i] == rn[i - 1];
    ParenNumEndRomanAt(s, n);
  }

  /** `1. x` becomes `x`: digits, a dot and one space are removed. */
  lemma NumberDotRemoved(d: string, x: string)
    requires d != [] && AllDigits(d)
    requires x != [] && Stripped(x)
    ensures RemoveExampleNumbers(d + ". " + x) == x
  {
    NumEndDigitDot(d, x);
    RemoveNumPrefix(d + ". ", x);
  }

  /** `5a. x` becomes `x`: a letter may follow the digits. */
  lemma NumberLetterDotRemoved(d: string, a: char, x: string)
    requires d != [] && AllDigits(d) && IsAlpha(a)
    requires x != [] && Stripped(x)
    ensures RemoveExampleNumbers(d + [a] + ". " + x) == x
  {
    NumEndDigitLetterDot(d, a, x);
    RemoveNumPrefix(d + [a] + ". ", x);
  }

  /** `(1) x` becomes `x` (when `x` does not itself start with a number). */
  lemma ParenNumberRemoved(d: string, x: string)
    requires d != [] && AllDigits(d)
    requires x != [] && Stripped(x)
    requires NumEnd(x) == None
    ensures RemoveExampleNumbers("(" + d + ")" + " " + x) == x
  {
    ParenNumEndDigits(d, x);
    RemoveParenPrefix("(" + d + ")", x);
  }

  /** `(ii) x` becomes `x`: a parenthesized roman numeral is removed. */
  lemma ParenRomanRemoved(rn: string, x: string)
    requires rn != [] && forall i :: 0 <= i < |rn| ==> In(rn[i], Roman)
    requires x != [] && Stripped(x)
    requires NumEnd(x) == None
    ensures RemoveExampleNumbers("(" + rn + ")" + " " + x) == x
  {
    ParenNumEndRoman(rn, x);
    RemoveParenPrefix("(" + rn + ")", x);
  }

  lemma BareNumberStripped(d: string)
    requires d != [] && AllDigits(d)
    ensures Stripped(d + ".") && ParenNumEnd(d + ".") == None
  {
    var s := d + ".";
    assert s[0] == d[0] && s[|s| - 1] == '.';
    ParenNumEndNeedsParen(s);
  }

  lemma BareNumberNoSpace(d: string)
    requires d != [] && AllDigits(d)
    ensures NumEnd(d + ".") == None
  {
    var s := d + ".";
    forall i | 0 <= i < |s| ensures !IsSpace(s[i]) {
      if i < |d| { assert s[i] == d[i]; }
    }
    NumEndNeedsSpace(s);
  }

  /** A bare `1.` is kept: `num_re` needs whitespace after the punctuation. */
  lemma BareNumberKept(d: string)
    requires d != [] && AllDigits(d)
    ensures RemoveExampleNumbers(d + ".") == d + "."
  {
    BareNumberStripped(d);
    BareNumberNoSpace(d);
    RemoveByNone(d + ".");
  }

  // ---------------------------------------------------------------------
  // remove_precontent_tags: `^\s*\w+(\s\w+)?\s*:\s` removed
  //
  // The pattern cannot usefully backtrack: a shorter `\w+` leaves a word
  // character, which neither `\s` nor `:` accepts, and a shorter `\s*` leaves
  // a space where `\w` or `:` is needed.  The optional group is tried first.

  /** `\s*:\s` at `q`: where it ends. */
  function ColonEnd(s: string, q: nat): (r: Option<nat>)
    requires q <= |s|
    ensures r.Some? ==> q + 2 <= r.value <= |s| && s[r.value - 2] == ':' && IsSpace(s[r.value - 1])
    ensures r.Some? ==> forall i :: q <= i < r.value - 2 ==> IsSpace(s[i])
  {
    var c := Span(s, q, Space);
    if c + 1 < |s| && s[c] == ':' && IsSpace(s[c + 1]) then Some(c + 2) else None
  }

  /** Where a one- or two-word label and its colon end, if the text starts with one. */
  function PrecontentEnd(s: string): (r: Option<nat>)
    ensures r.Some? ==> 2 <= r.value <= |s| && s[r.value - 2] == ':' && IsSpace(s[r.value - 1])
  {
    var p := Span(s, 0, Space);
    var w := Span(s, p, Word);
    if w == p then None
    else
      var two := if w + 1 < |s| && IsSpace(s[w]) && In(s[w + 1], Word)
        then ColonEnd(s, Span(s, w + 1, Word)) else None;
      if two.Some? then two else ColonEnd(s, w)
  }

  /** `remove_precontent_tags`: what is left is a suffix of the text, and
      when something was removed it ended with a colon and one whitespace
      character. */
  function RemovePrecontentTags(text: string): (r: string)
    ensures |r| <= |text| && r == text[|text| - |r|..]
    ensures |r| < |text| ==> |text| - |r| >= 2 && text[|text| - |r| - 2] == ':' && IsSpace(text[|text| - |r| - 1])
  {
    CutPrefix(text, PrecontentEnd(text))
  }

  predicate IsWord(w: string)
  {
    w != [] && forall i :: 0 <= i < |w| ==> IsWordChar(w[i])
  }

  /** A one-word label, its colon and exactly one whitespace character go. */
  lemma PrecontentOneWord(w: string, c: char, x: string)
    requires IsWord(w) && IsSpace(c)
    ensures RemovePrecontentTags(w + [':', c] + x) == x
  {
    var s := w + [':', c] + x;
    var n := |w|;
    assert s[n] == ':' && s[n + 1] == c;
    assert forall i :: 0 <= i < n ==> s[i] == w[i];
    SpanStop(s, 0, Space);
    SpanIs(s, 0, n, Word);
    SpanStop(s, n, Space);
    assert ColonEnd(s, n) == Some(n + 2);
    assert PrecontentEnd(s) == Some(n + 2);
    assert s[n + 2..] == x;
  }

  /** A two-word label, its colon and exactly one whitespace character go. */
  lemma {:induction false} PrecontentTwoWords(w1: string, sp: char, w2: string, c: char, x: string)
    requires IsWord(w1) && IsSpace(sp) && IsWord(w2) && IsSpace(c)
    ensures RemovePrecontentTags(w1 + [sp] + w2 + [':', c] + x) == x
  {
    var s := w1 + [sp] + w2 + [':', c] + x;
    var n := |w1|;
    var m := n + 1 + |w2|;
    assert s[n] == sp && s[n + 1] == w2[0] && s[m] == ':' && s[m + 1] == c;
    assert forall i :: 0 <= i < n ==> s[i] == w1[i];
    assert forall i :: n + 1 <= i < m ==> s[i] == w2[i - n - 1];
    SpanStop(s, 0, Space);
    SpanIs(s, 0, n, Word);
    SpanIs(s, n + 1, m, Word);
    SpanStop(s, m, Space);
    assert ColonEnd(s, m) == Some(m + 2);
    assert PrecontentEnd(s) == Some(m + 2);
    assert s[m + 2..] == x;
  }

  /** A three-word label is not a precontent tag: the text is unchanged. */
  lemma {:induction false} PrecontentThreeWordsKept(w1: string, w2: string, w3: string, x: string)
    requires IsWord(w1) && IsWord(w2) && IsWord(w3)
    ensures var s := w1 + " " + w2 + " " + w3 + ": " + x;
      RemovePrecontentTags(s) == s
  {
    var s := w1 + " " + w2 + " " + w3 + ": " + x;
    var n := |w1|;
    var m := n + 1 + |w2|;
    assert s[n] == ' ' && s[n + 1] == w2[0] && s[m] == ' ' && s[m + 1] == w3[0];
    assert forall i :: 0 <= i < n ==> s[i] == w1[i];
    assert forall i :: n + 1 <= i < m ==> s[i] == w2[i - n - 1];
    SpanStop(s, 0, Space);
    SpanIs(s, 0, n, Word);
    SpanIs(s, n + 1, m, Word);
    SpanIs(s, m, m + 1, Space);
    assert ColonEnd(s, m) == None;
    SpanIs(s, n, n + 1, Space);
    assert ColonEnd(s, n) == None;
    assert PrecontentEnd(s) == None;
  }

  // ---------------------------------------------------------------------
  // rejoin_hyphenated_grams: `re.sub(r'\s*-\s*', '-', text)`
  //
  // The substitution scans left to right.  At each position the pattern
  // matches exactly when the whitespace run there is followed by a hyphen;
  // the match then also takes the whitespace after the hyphen.  Where it does
  // not match, one character is copied and the scan moves on.

  /** No whitespace character stands right before or right after a hyphen. */
  predicate NoSpaceByHyphen(r: string)
  {
    forall i :: 0 <= i < |r| - 1 ==>
      !(IsSpace(r[i]) && r[i + 1] == '-') && !(r[i] == '-' && IsSpace(r[i + 1]))
  }

  /** The whitespace run at the start of `s` is followed by a hyphen. */
  predicate HyphenAhead(s: string)
  {
    var k := Span(s, 0, Space);
    k < |s| && s[k] == '-'
  }

  /** Dropping a leading whitespace character shortens the leading run by one. */
  lemma SpanDropSpace(s: string)
    ensures s != [] && IsSpace(s[0]) ==> Span(s[1..], 0, Space) == Span(s, 0, Space) - 1
  {
    if s != [] && IsSpace(s[0]) {
      var k := Span(s, 0, Space);
      assert forall i :: 0 <= i < k - 1 ==> s[1..][i] == s[i + 1];
      SpanIs(s[1..], 0, k - 1, Space);
    }
  }

  function Rejoin(s: string): (r: string)
    ensures |r| <= |s|
    ensures s != [] ==> r != [] && (r[0] == '-' <==> HyphenAhead(s))
    ensures s != [] && !IsSpace(s[0]) ==> r[0] == s[0]
    ensures NoSpaceByHyphen(r)
    decreases |s|
  {
    if s == [] then []
    else
      var k := Span(s, 0, Space);
      if k < |s| && s[k] == '-' then
        var e := Span(s, k + 1, Space);
        var rest := Rejoin(s[e..]);
        assert e < |s| ==> !IsSpace(s[e..][0]);
        ['-'] + rest
      else
        var rest := Rejoin(s[1..]);
        assert s[0] != '-';
        SpanDropSpace(s);
        [s[0]] + rest
  }

  /** `rejoin_hyphenated_grams`. */
  function RejoinHyphenatedGrams(text: string): (r: string)
    ensures |r| <= |text|
    ensures NoSpaceByHyphen(r)
  {
    Rejoin(text)
  }

  /** The characters of `s` other than whitespace, in order. */
  function NonSpace(s: string): string
  {
    if s == [] then [] else KeepChar(s[0]) + NonSpace(s[1..])
  }

  function KeepChar(c: char): string
  {
    if IsSpace(c) then [] else [c]
  }

  lemma {:induction false} NonSpaceCat(a: string, b: string)
    ensures NonSpace(a + b) == NonSpace(a) + NonSpace(b)
  {
    if a == [] {
      assert a + b == b;
    } else {
      assert (a + b)[0] == a[0];
      assert (a + b)[1..] == a[1..] + b;
      NonSpaceCat(a[1..], b);
      calc {
        NonSpace(a + b);
        KeepChar(a[0]) + NonSpace(a[1..] + b);
        KeepChar(a[0]) + (NonSpace(a[1..]) + NonSpace(b));
        (KeepChar(a[0]) + NonSpace(a[1..])) + NonSpace(b);
      }
    }
  }

  lemma {:induction false} NonSpaceBlank(a: string)
    requires IsBlank(a)
    ensures NonSpace(a) == []
  {
    if a != [] {
      NonSpaceBlank(a[1..]);
    }
  }

  /** A hyphen with only whitespace around it contributes just the hyphen. */
  lemma NonSpaceHyphenGap(pre: string, gap: string, rest: string)
    requires IsBlank(pre) && IsBlank(gap)
    ensures NonSpace(pre + ['-'] + gap + rest) == ['-'] + NonSpace(rest)
  {
    var tail := ['-'] + gap + rest;
    assert pre + ['-'] + gap + rest == pre + tail;
    NonSpaceBlankPrefix(pre, tail);
    assert tail[0] == '-' && tail[1..] == gap + rest;
    NonSpaceBlankPrefix(gap, rest);
  }

  lemma NonSpaceBlankPrefix(pre: string, t: string)
    requires IsBlank(pre)
    ensures NonSpace(pre + t) == NonSpace(t)
  {
    NonSpaceCat(pre, t);
    NonSpaceBlank(pre);
  }

  /** A hyphen after the leading whitespace run `s[..k]` is kept alone,
      and the run `s[k + 1..e]` after it is dropped. */
  lemma RejoinHyphenHead(s: string, k: nat, e: nat)
    requires k < |s| && k == Span(s, 0, Space) && s[k] == '-' && e == Span(s, k + 1, Space)
    ensures Rejoin(s) == ['-'] + Rejoin(s[e..])
  {
  }

  lemma {:induction false} NonSpaceHyphenSplit(s: string, k: nat, e: nat)
    requires k < e <= |s| && s[k] == '-'
    requires forall i :: 0 <= i < k ==> IsSpace(s[i])
    requires forall i :: k < i < e ==> IsSpace(s[i])
    ensures NonSpace(s) == ['-'] + NonSpace(s[e..])
  {
    assert NonSpace(s) == NonSpace(s[k..]) by {
      assert s == s[..k] + s[k..];
      NonSpaceBlankPrefix(s[..k], s[k..]);
    }
    assert NonSpace(s[k..]) == ['-'] + NonSpace(s[k + 1..]) by {
      assert s[k..][0] == '-' && s[k..][1..] == s[k + 1..];
    }
    assert NonSpace(s[k + 1..]) == NonSpace(s[e..]) by {
      assert s[k + 1..] == s[k + 1..e] + s[e..];
      NonSpaceBlankPrefix(s[k + 1..e], s[e..]);
    }
  }

  /** The case of `RejoinKeepsNonSpace` where a hyphen comes after the
      leading whitespace run `s[..k]`, and `s[k + 1..e]` is the run after it. */
  lemma {:induction false} RejoinNonSpaceHyphen(s: string, k: nat, e: nat)
    requires k < |s| && k == Span(s, 0, Space) && s[k] == '-' && e == Span(s, k + 1, Space)
    requires NonSpace(Rejoin(s[e..])) == NonSpace(s[e..])
    ensures NonSpace(Rejoin(s)) == NonSpace(s)
  {
    RejoinHyphenHead(s, k, e);
    NonSpaceCat(['-'], Rejoin(s[e..]));
    NonSpaceHyphenSplit(s, k, e);
  }

  /** The case of `RejoinKeepsNonSpace` where the first character is kept. */
  lemma RejoinNonSpaceKeep(s: string)
    requires s != [] && !(Span(s, 0, Space) < |s| && s[Span(s, 0, Space)] == '-')
    requires NonSpace(Rejoin(s[1..])) == NonSpace(s[1..])
    ensures NonSpace(Rejoin(s)) == NonSpace(s)
  {
    assert Rejoin(s) == [s[0]] + Rejoin(s[1..]);
    NonSpaceCat([s[0]], Rejoin(s[1..]));
  }

  /** Rejoining removes only whitespace: the other characters, hyphens
      included, are kept in order. */
  lemma {:induction false} RejoinKeepsNonSpace(s: string)
    ensures NonSpace(Rejoin(s)) == NonSpace(s)
    decreases |s|
  {
    if s != [] {
      var k := Span(s, 0, Space);
      if k < |s| && s[k] == '-' {
        var e := Span(s, k + 1, Space);
        RejoinKeepsNonSpace(s[e..]);
        RejoinNonSpaceHyphen(s, k, e);
      } else {
        RejoinKeepsNonSpace(s[1..]);
        RejoinNonSpaceKeep(s);
      }
    }
  }

  /** The number of hyphens in a string. */
  function Hyphens(s: string): nat
  {
    multiset(s)['-']
  }

  lemma {:induction false} HyphensNonSpace(s: string)
    ensures Hyphens(NonSpace(s)) == Hyphens(s)
  {
    if s != [] {
      HyphensNonSpace(s[1..]);
      assert s == [s[0]] + s[1..];
      assert multiset(s) == multiset([s[0]]) + multiset(s[1..]);
    }
  }

  /** Rejoining keeps the number of hyphens. */
  lemma RejoinKeepsHyphens(s: string)
    ensures Hyphens(Rejoin(s)) == Hyphens(s)
  {
    RejoinKeepsNonSpace(s);
    HyphensNonSpace(s);
    HyphensNonSpace(Rejoin(s));
  }

  /** In text with no whitespace by a hyphen, a leading whitespace run is
      not followed by a hyphen. */
  lemma {:induction false} NoHyphenAfterSpaces(s: string)
    requires NoSpaceByHyphen(s) && s != [] && IsSpace(s[0])
    ensures !HyphenAhead(s)
    decreases |s|
  {
    SpanDropSpace(s);
    if |s| > 1 {
      assert !(IsSpace(s[0]) && s[1] == '-');
      if IsSpace(s[1]) {
        assert NoSpaceByHyphen(s[1..]) by {
          assert forall i :: 0 <= i < |s| - 1 ==> s[1..][i] == s[i + 1];
        }
        NoHyphenAfterSpaces(s[1..]);
      } else {
        SpanStop(s[1..], 0, Space);
      }
    }
  }

  /** Text with no whitespace by a hyphen is left as it is. */
  lemma {:induction false} RejoinFixed(s: string)
    requires NoSpaceByHyphen(s)
    ensures Rejoin(s) == s
    decreases |s|
  {
    if s != [] {
      assert NoSpaceByHyphen(s[1..]) by {
        assert forall i :: 0 <= i < |s| - 1 ==> s[1..][i] == s[i + 1];
      }
      RejoinFixed(s[1..]);
      if IsSpace(s[0]) {
        NoHyphenAfterSpaces(s);
      } else if s[0] == '-' {
        SpanStop(s, 0, Space);
        if |s| > 1 {
          assert !(s[0] == '-' && IsSpace(s[1]));
        }
        SpanStop(s, 1, Space);
      } else {
        SpanStop(s, 0, Space);
      }
      assert s == [s[0]] + s[1..];
    }
  }

  /** Rejoining twice is the same as rejoining once. */
  lemma RejoinIdempotent(s: string)
    ensures Rejoin(Rejoin(s)) == Rejoin(s)
  {
    RejoinFixed(Rejoin(s));
  }

  // ---------------------------------------------------------------------
  // extract_judgment
  //
  // `re.match(r'^\s*([*?#]+)[^/]+$', text)`: after the leading whitespace
  // `w` and the longest run `j` of judgment marks, the rest `x` must be
  // non-empty and free of `/`.  If `x` is empty the engine gives back the
  // last mark of `j` to `[^/]+`, so a run of two or more marks alone still
  // matches, with the group one mark shorter.  (`$` also matches before a
  // final newline, but `[^/]+` has already taken it.)

  /** The leading whitespace, the judgment run after it, and what follows. */
  predicate JudgmentParts(s: string, w: string, j: string, x: string)
  {
    && s == w + j + x
    && IsBlank(w) && j != [] && (forall i :: 0 <= i < |j| ==> In(j[i], Judgment))
    && (x == [] || !In(x[0], Judgment))
  }

  /** `match.group(1)` when the judgment pattern matches. */
  function JudgmentMatch(s: string): (r: Option<string>)
    ensures r.Some? ==> r.value != [] && forall i :: 0 <= i < |r.value| ==> In(r.value[i], Judgment)
    ensures r.Some? ==> '/' !in s
  {
    var p := Span(s, 0, Space);
    var e := Span(s, p, Judgment);
    if e == p || '/' in s[e..] then None
    else
      assert s == s[..e] + s[e..];
      assert forall i :: 0 <= i < e ==> s[..e][i] != '/';
      if e < |s| then Some(s[p..e])
      else if e - p >= 2 then Some(s[p..e - 1])
      else None
  }

  /** Where the parts of a text with a leading judgment run lie. */
  lemma JudgmentSpans(s: string, w: string, j: string, x: string)
    requires JudgmentParts(s, w, j, x)
    ensures Span(s, 0, Space) == |w|
    ensures Span(s, |w|, Judgment) == |w + j|
    ensures s[|w|..|w + j|] == j && s[|w + j|..] == x
  {
    assert forall i :: 0 <= i < |w| ==> s[i] == w[i];
    assert forall i :: |w| <= i < |w + j| ==> s[i] == j[i - |w|];
    assert !IsSpace(s[|w|]) by { assert s[|w|] == j[0]; }
    SpanIs(s, 0, |w|, Space);
    if x != [] {
      assert s[|w + j|] == x[0];
    }
    SpanIs(s, |w|, |w + j|, Judgment);
  }

  /** The judgment is recorded exactly when the rest has no `/`, and then it
      is the whole run, or the run less its last mark when nothing follows. */
  lemma JudgmentMatchParts(s: string, w: string, j: string, x: string)
    requires JudgmentParts(s, w, j, x)
    ensures '/' in x ==> JudgmentMatch(s) == None
    ensures '/' !in x && x != [] ==> JudgmentMatch(s) == Some(j)
    ensures x == [] && |j| >= 2 ==> JudgmentMatch(s) == Some(j[..|j| - 1])
    ensures x == [] && |j| == 1 ==> JudgmentMatch(s) == None
  {
    JudgmentSpans(s, w, j, x);
    if x == [] {
      assert s[|w|..|s| - 1] == j[..|j| - 1];
    }
  }

  /** Text that does not start (after whitespace) with a judgment mark has none. */
  lemma JudgmentMatchNone(s: string)
    requires var p := Span(s, 0, Space); p == |s| || !In(s[p], Judgment)
    ensures JudgmentMatch(s) == None
  {
  }

  /** `re.sub(r'^(\s*)[*?#]+\s*', r'\1', text)`: the judgment run and the
      whitespace after it are removed, the whitespace before it is kept. */
  function StripJudgment(s: string): (r: string)
    ensures |r| <= |s|
    ensures var p := Span(s, 0, Space); p == |s| || !In(s[p], Judgment) ==> r == s
  {
    var p := Span(s, 0, Space);
    var e := Span(s, p, Judgment);
    if e == p then s else s[..p] + s[Span(s, e, Space)..]
  }

  /** What `StripJudgment` leaves of a text with a leading judgment run:
      the whitespace before it and what follows the whitespace after it,
      whether or not a `/` kept the judgment from being recorded. */
  lemma {:induction false} StripJudgmentParts(s: string, w: string, j: string, sp: string, x: string)
    requires JudgmentParts(s, w, j, sp + x)
    requires IsBlank(sp) && (x == [] || !IsSpace(x[0]))
    ensures StripJudgment(s) == w + x
  {
    JudgmentSpans(s, w, j, sp + x);
    var e := |w + j|;
    assert forall i :: e <= i < e + |sp| ==> s[i] == sp[i - e];
    if x != [] {
      assert s[e + |sp|] == x[0];
    }
    SpanIs(s, e, e + |sp|, Space);
    assert s[..|w|] == w;
    assert s[e + |sp|..] == x;
  }
}
