/**
 * The parts of Python's built-in string behaviour that the ODIN tools rely
 * on: character classes (`\s`, `\w`, `\d`, `str.isspace`), `strip`, `split`,
 * `join`, `replace`, `int()` and `str()` on integers, and ASCII `lower` and
 * `title`.  Exceptions the tools let escape are values of `PyError`.
 *
 * Character classes are modelled on ASCII; see README for what that leaves out.
 */
module Py {

  datatype Option<+T> = None | Some(value: T)

  /** The Python exceptions that can escape from the modelled code. */
  datatype PyError = ValueError | KeyError | IndexError | TypeError | AttributeError | StopIteration
    | NameError | OSError

  /** The outcome of a Python call: a value, or an exception that escaped. */
  datatype Outcome<+T> = Ok(value: T) | Raised(error: PyError)

  // ---------------------------------------------------------------------
  // Character classes

  /** `str.isspace()` and the regex class `\s`, on ASCII. */
  predicate IsSpace(c: char) {
    c == ' ' || ('\t' <= c <= '\r') || ('\U{1C}' <= c <= '\U{1F}')
  }

  /** The regex class `\d` (and what `int()` accepts as a digit), on ASCII. */
  predicate IsDigit(c: char) {
    '0' <= c <= '9'
  }

  predicate IsUpper(c: char) { 'A' <= c <= 'Z' }

  predicate IsLower(c: char) { 'a' <= c <= 'z' }

  /** A cased character in the sense of `str.title()`. */
  predicate IsAlpha(c: char) { IsUpper(c) || IsLower(c) }

  /** The regex class `\w`, on ASCII. */
  predicate IsWordChar(c: char) {
    IsAlpha(c) || IsDigit(c) || c == '_'
  }

  /** `s.strip() == ''`: the string is empty or all whitespace. */
  predicate IsBlank(s: string) {
    forall i :: 0 <= i < |s| ==> IsSpace(s[i])
  }

  predicate AllDigits(s: string) {
    forall i :: 0 <= i < |s| ==> IsDigit(s[i])
  }

  predicate StartsWith(s: string, prefix: string) {
    |prefix| <= |s| && s[..|prefix|] == prefix
  }

  predicate EndsWith(s: string, suffix: string) {
    |suffix| <= |s| && s[|s| - |suffix|..] == suffix
  }

  /** `sub` occurs in `s` at position `i`. */
  predicate OccursAt(s: string, sub: string, i: int) {
    0 <= i <= |s| - |sub| && s[i..i + |sub|] == sub
  }

  /** Python's `sub in s` for strings. */
  predicate Contains(s: string, sub: string) {
    exists i | 0 <= i <= |s| - |sub| :: OccursAt(s, sub, i)
  }

  // ---------------------------------------------------------------------
  // Stripping

  /** Length of the run of whitespace at the start of `s` (what `re.match(r'\s*', s).end()` gives). */
  function LeadingSpaces(s: string): (n: nat)
    ensures n <= |s|
    ensures forall i :: 0 <= i < n ==> IsSpace(s[i])
    ensures n < |s| ==> !IsSpace(s[n])
  {
    if s != [] && IsSpace(s[0]) then 1 + LeadingSpaces(s[1..]) else 0
  }

  /** `s.lstrip(chars)` where `inSet` says which characters are stripped. */
  function LStripSet(s: string, cs: set<char>): (r: string)
    ensures |r| <= |s| && r == s[|s| - |r|..]
    ensures r == [] || r[0] !in cs
    ensures forall i :: 0 <= i < |s| - |r| ==> s[i] in cs
  {
    if s != [] && s[0] in cs then LStripSet(s[1..], cs) else s
  }

  /** `s.rstrip(chars)`. */
  function RStripSet(s: string, cs: set<char>): (r: string)
    ensures |r| <= |s| && r == s[..|r|]
    ensures r == [] || r[|r| - 1] !in cs
    ensures forall i :: |r| <= i < |s| ==> s[i] in cs
  {
    if s != [] && s[|s| - 1] in cs then RStripSet(s[..|s| - 1], cs) else s
  }

  /** `s.strip(chars)`. */
  function StripSet(s: string, cs: set<char>): (r: string)
  {
    RStripSet(LStripSet(s, cs), cs)
  }

  /** The ASCII whitespace characters, as a set (for `strip()` with no argument). */
  const Whitespace: set<char> :=
    {' ', '\t', '\n', '\U{0B}', '\U{0C}', '\r', '\U{1C}', '\U{1D}', '\U{1E}', '\U{1F}'}

  lemma WhitespaceIsSpace(c: char)
    ensures c in Whitespace <==> IsSpace(c)
  {
  }

  function Strip(s: string): (r: string)
  {
    StripSet(s, Whitespace)
  }

  function LStrip(s: string): (r: string)
  {
    LStripSet(s, Whitespace)
  }

  function RStrip(s: string): (r: string)
  {
    RStripSet(s, Whitespace)
  }

  /** What `strip()` leaves neither starts nor ends with whitespace, and it is
      empty exactly when the input is blank. */
  lemma StripSpec(s: string)
    ensures var r := Strip(s);
      && |r| <= |s|
      && (r == [] <==> IsBlank(s))
      && (r != [] ==> !IsSpace(r[0]) && !IsSpace(r[|r| - 1]))
  {
    var l := LStripSet(s, Whitespace);
    var r := RStripSet(l, Whitespace);
    LStripBlank(s);
    if r != [] {
      WhitespaceIsSpace(r[0]);
      WhitespaceIsSpace(r[|r| - 1]);
    }
  }

  lemma {:induction false} LStripBlank(s: string)
    ensures LStripSet(s, Whitespace) == [] <==> IsBlank(s)
  {
    if s != [] {
      WhitespaceIsSpace(s[0]);
      if s[0] in Whitespace {
        LStripBlank(s[1..]);
        assert IsBlank(s) <==> IsBlank(s[1..]) by {
          if IsBlank(s[1..]) {
            forall i | 0 <= i < |s| ensures IsSpace(s[i]) { if i > 0 { assert s[i] == s[1..][i - 1]; } }
          }
        }
      }
    }
  }

  /** Stripping a string that has non-blank ends changes nothing. */
  lemma StripNoop(s: string)
    requires s == [] || (!IsSpace(s[0]) && !IsSpace(s[|s| - 1]))
    ensures Strip(s) == s
  {
    if s != [] {
      WhitespaceIsSpace(s[0]);
      WhitespaceIsSpace(s[|s| - 1]);
    }
  }

  lemma StripIdempotent(s: string)
    ensures Strip(Strip(s)) == Strip(s)
  {
    StripSpec(s);
    StripNoop(Strip(s));
  }

  /** Whitespace around a non-blank core is exactly what `strip()` removes. */
  lemma StripAround(pre: string, core: string, post: string)
    requires IsBlank(pre) && IsBlank(post)
    requires core != [] && !IsSpace(core[0]) && !IsSpace(core[|core| - 1])
    ensures Strip(pre + core + post) == core
  {
    var s := pre + core + post;
    LStripPrefix(pre, core + post);
    assert s == pre + (core + post);
    RStripSuffix(core, post);
  }

  lemma LStripPrefix(pre: string, rest: string)
    requires IsBlank(pre)
    requires rest == [] || !IsSpace(rest[0])
    ensures LStripSet(pre + rest, Whitespace) == rest
    decreases |pre|
  {
    if pre == [] {
      assert pre + rest == rest;
      if rest != [] { WhitespaceIsSpace(rest[0]); }
    } else {
      WhitespaceIsSpace(pre[0]);
      assert (pre + rest)[1..] == pre[1..] + rest;
      LStripPrefix(pre[1..], rest);
    }
  }

  lemma RStripSuffix(core: string, post: string)
    requires IsBlank(post)
    requires core == [] || !IsSpace(core[|core| - 1])
    ensures RStripSet(core + post, Whitespace) == core
  {
    var s := core + post;
    var r := RStripSet(s, Whitespace);
    assert |r| >= |core| by {
      if |r| < |core| {
        assert s[|core| - 1] == core[|core| - 1];
        WhitespaceIsSpace(core[|core| - 1]);
      }
    }
    assert |r| <= |core| by {
      if |r| > |core| {
        var c := r[|r| - 1];
        assert c == post[|r| - 1 - |core|];
        WhitespaceIsSpace(c);
      }
    }
    assert s[..|core|] == core;
  }

  // ---------------------------------------------------------------------
  // Splitting, joining, replacing

  /** `s.split(sep)` for a one-character separator: every piece, empty ones included. */
  function SplitChar(s: string, sep: char): (r: seq<string>)
    ensures |r| >= 1
    ensures forall i :: 0 <= i < |r| ==> sep !in r[i]
    ensures JoinChar(r, sep) == s
  {
    if sep !in s then [s]
    else
      var i := IndexOf(s, sep);
      assert s == s[..i] + [sep] + s[i + 1..];
      [s[..i]] + SplitChar(s[i + 1..], sep)
  }

  /** `sep.join(parts)` for a one-character separator. */
  function JoinChar(parts: seq<string>, sep: char): string
  {
    if |parts| == 0 then ""
    else if |parts| == 1 then parts[0]
    else parts[0] + [sep] + JoinChar(parts[1..], sep)
  }

  /** Splitting the join of separator-free pieces gives the pieces back. */
  lemma {:induction false} SplitJoinChar(parts: seq<string>, sep: char)
    requires |parts| >= 1
    requires forall i :: 0 <= i < |parts| ==> sep !in parts[i]
    ensures SplitChar(JoinChar(parts, sep), sep) == parts
  {
    if |parts| == 1 {
    } else {
      var rest := JoinChar(parts[1..], sep);
      var s := parts[0] + [sep] + rest;
      assert s[|parts[0]|] == sep;
      IndexOfFirst(s, sep, |parts[0]|);
      assert s[..|parts[0]|] == parts[0];
      assert s[|parts[0]| + 1..] == rest;
      SplitJoinChar(parts[1..], sep);
    }
  }

  /** A non-empty run of non-whitespace characters. */
  predicate IsWord(w: string)
  {
    w != [] && forall j :: 0 <= j < |w| ==> !IsSpace(w[j])
  }

  /** `s.split()` with no argument: the maximal runs of non-whitespace
      characters, in order. */
  function Words(s: string): (r: seq<string>)
    ensures forall i :: 0 <= i < |r| ==> IsWord(r[i])
    decreases |s|
  {
    var p := Span(s, 0, Space);
    if p == |s| then []
    else
      var e := Span(s, p, NonSpace);
      [s[p..e]] + Words(s[e..])
  }

  /** A word after blanks, followed by nothing or by whitespace, is the
      first word. */
  lemma WordsCons(pre: string, w: string, rest: string)
    requires IsBlank(pre) && IsWord(w)
    requires rest == [] || IsSpace(rest[0])
    ensures Words(pre + w + rest) == [w] + Words(rest)
  {
    var s := pre + w + rest;
    SpanIs(s, 0, |pre|, Space);
    SpanIs(s, |pre|, |pre| + |w|, NonSpace);
    assert s[|pre|..|pre| + |w|] == w;
    assert s[|pre| + |w|..] == rest;
  }

  /** Words joined by a whitespace separator split back into those words. */
  lemma {:induction false} WordsJoin(pre: string, ws: seq<string>, sep: char)
    requires IsBlank(pre) && IsSpace(sep) && ws != []
    requires forall i :: 0 <= i < |ws| ==> IsWord(ws[i])
    ensures Words(pre + JoinChar(ws, sep)) == ws
    decreases |ws|
  {
    if |ws| == 1 {
      WordsJoinOne(pre, ws[0], sep);
    } else {
      var tail := ws[1..];
      var rest := [sep] + JoinChar(tail, sep);
      WordsJoinStep(pre, ws, sep);
      assert IsBlank([sep]);
      WordsJoin([sep], tail, sep);
    }
  }

  lemma WordsJoinOne(pre: string, w: string, sep: char)
    requires IsBlank(pre) && IsWord(w)
    ensures Words(pre + JoinChar([w], sep)) == [w]
  {
    WordsCons(pre, w, []);
    assert pre + JoinChar([w], sep) == pre + w + [];
    assert Words([]) == [];
  }

  lemma WordsJoinStep(pre: string, ws: seq<string>, sep: char)
    requires IsBlank(pre) && IsSpace(sep) && |ws| >= 2 && IsWord(ws[0])
    ensures Words(pre + JoinChar(ws, sep)) == [ws[0]] + Words([sep] + JoinChar(ws[1..], sep))
  {
    var j := JoinChar(ws[1..], sep);
    var rest := [sep] + j;
    assert JoinChar(ws, sep) == ws[0] + [sep] + j;
    AppendAssoc(ws[0], [sep], j);
    AppendAssoc(pre, ws[0], rest);
    WordsCons(pre, ws[0], rest);
  }

  lemma AppendAssoc<T>(a: seq<T>, b: seq<T>, c: seq<T>)
    ensures a + (b + c) == (a + b) + c
  {
  }

  /** Position of the first occurrence of `c` in `s`. */
  function IndexOf(s: string, c: char): (i: nat)
    requires c in s
    ensures i < |s| && s[i] == c && c !in s[..i]
  {
    if s[0] == c then 0 else
      assert s == [s[0]] + s[1..];
      var j := IndexOf(s[1..], c);
      assert s[..j + 1] == [s[0]] + s[1..][..j];
      1 + j
  }

  lemma IndexOfFirst(s: string, c: char, i: nat)
    requires i < |s| && s[i] == c && c !in s[..i]
    ensures IndexOf(s, c) == i
  {
    var j := IndexOf(s, c);
    assert forall k :: 0 <= k < i ==> s[..i][k] == s[k];
    assert forall k :: 0 <= k < j ==> s[..j][k] == s[k];
  }

  /** `s.split(sep, 1)` unpacked into two names: `None` stands for the ValueError
      raised when `sep` does not occur. */
  function SplitOnce(s: string, sep: char): (r: Option<(string, string)>)
    ensures r.None? <==> sep !in s
    ensures r.Some? ==> sep !in r.value.0 && s == r.value.0 + [sep] + r.value.1
  {
    if sep !in s then None
    else
      var i := IndexOf(s, sep);
      assert s == s[..i] + [sep] + s[i + 1..];
      Some((s[..i], s[i + 1..]))
  }

  /** Splitting at the first `sep` takes apart what was joined there. */
  lemma SplitOnceIs(a: string, sep: char, b: string)
    requires sep !in a
    ensures SplitOnce(a + [sep] + b, sep) == Some((a, b))
  {
    var s := a + [sep] + b;
    assert s[|a|] == sep && s[..|a|] == a;
    IndexOfFirst(s, sep, |a|);
    assert s[|a| + 1..] == b;
  }

  /** Position of the first occurrence of `sep` in `s` at or after `from`, if any. */
  function FindFrom(s: string, sep: string, from: nat): (r: Option<nat>)
    requires |sep| > 0
    ensures r.Some? ==> from <= r.value <= |s| - |sep| && s[r.value..r.value + |sep|] == sep
    ensures r.Some? ==> OccursAt(s, sep, r.value) && forall j :: from <= j < r.value ==> !OccursAt(s, sep, j)
    ensures r.None? ==> forall j :: from <= j ==> !OccursAt(s, sep, j)
    decreases |s| - from
  {
    if from + |sep| > |s| then None
    else if s[from..from + |sep|] == sep then Some(from)
    else FindFrom(s, sep, from + 1)
  }

  /** `s.split(sep)` for a separator of any positive length. */
  function SplitStr(s: string, sep: string): (r: seq<string>)
    requires |sep| > 0
    ensures |r| >= 1
    decreases |s|
  {
    match FindFrom(s, sep, 0)
    case None => [s]
    case Some(i) => [s[..i]] + SplitStr(s[i + |sep|..], sep)
  }

  /** A string without the separator's first character splits into itself. */
  lemma SplitStrNoSep(s: string, sep: string)
    requires |sep| > 0 && sep[0] !in s
    ensures SplitStr(s, sep) == [s]
  {
  }

  /** `s.replace(a, b)` for single characters. */
  function ReplaceChar(s: string, a: char, b: char): (r: string)
    ensures |r| == |s|
    ensures forall i :: 0 <= i < |s| ==> r[i] == (if s[i] == a then b else s[i])
  {
    if s == [] then [] else [if s[0] == a then b else s[0]] + ReplaceChar(s[1..], a, b)
  }

  // ---------------------------------------------------------------------
  // Integers

  function DigitValue(c: char): nat
    requires IsDigit(c)
  {
    (c as int - '0' as int) as nat
  }

  function DigitChar(d: nat): (c: char)
    requires d < 10
    ensures IsDigit(c) && DigitValue(c) == d
  {
    ('0' as int + d) as char
  }

  /** The value of a string of decimal digits. */
  function DigitsValue(s: string): nat
    requires AllDigits(s)
  {
    if s == [] then 0 else 10 * DigitsValue(s[..|s| - 1]) + DigitValue(s[|s| - 1])
  }

  /** `str(n)` for a natural number. */
  function NatToString(n: nat): (r: string)
    ensures r != [] && AllDigits(r)
    ensures DigitsValue(r) == n
    ensures r[0] == '0' ==> n == 0
  {
    if n < 10 then [DigitChar(n)]
    else
      var p := NatToString(n / 10);
      var r := p + [DigitChar(n % 10)];
      assert r[..|r| - 1] == p;
      r
  }

  /** `str(i)` for any integer. */
  function IntToString(i: int): (r: string)
    ensures r != []
  {
    if i < 0 then "-" + NatToString(-i) else NatToString(i)
  }

  /** Python's `int(s)` on an optional sign followed by at least one decimal
      digit; any other text is taken as raising ValueError (`None`), though
      `int()` also accepts surrounding whitespace and `_` between digits. */
  function ParseInt(s: string): (r: Option<int>)
    ensures r.Some? <==> (
      || (s != [] && AllDigits(s))
      || (|s| >= 2 && (s[0] == '-' || s[0] == '+') && AllDigits(s[1..])))
  {
    if s != [] && AllDigits(s) then Some(DigitsValue(s))
    else if |s| >= 2 && s[0] == '-' && AllDigits(s[1..]) then Some(0 - DigitsValue(s[1..]) as int)
    else if |s| >= 2 && s[0] == '+' && AllDigits(s[1..]) then Some(DigitsValue(s[1..]))
    else None
  }

  /** `int(str(i)) == i`. */
  lemma ParseIntToString(i: int)
    ensures ParseInt(IntToString(i)) == Some(i)
  {
    if i < 0 {
      var d := NatToString(-i);
      var s := "-" + d;
      assert s[1..] == d;
      assert !(s != [] && AllDigits(s)) by { assert !IsDigit(s[0]); }
    }
  }

  // ---------------------------------------------------------------------
  // Case mapping (ASCII)

  function LowerChar(c: char): char {
    if IsUpper(c) then (c as int + 32) as char else c
  }

  function UpperChar(c: char): char {
    if IsLower(c) then (c as int - 32) as char else c
  }

  /** `s.lower()`. */
  function Lower(s: string): (r: string)
    ensures |r| == |s|
    ensures forall i :: 0 <= i < |s| ==> r[i] == LowerChar(s[i])
  {
    if s == [] then [] else [LowerChar(s[0])] + Lower(s[1..])
  }

  /** `s.title()`: a cased character is upper-cased when it follows an uncased
      one (or starts the string) and lower-cased when it follows a cased one. */
  function Title(s: string): (r: string)
    ensures |r| == |s|
  {
    TitleAfter(s, false)
  }

  function TitleAfter(s: string, prevCased: bool): (r: string)
    ensures |r| == |s|
  {
    if s == [] then []
    else
      var c := s[0];
      [if !IsAlpha(c) then c else if prevCased then LowerChar(c) else UpperChar(c)]
      + TitleAfter(s[1..], IsAlpha(c))
  }

  // ---------------------------------------------------------------------
  // Lexicographic order of strings (Python's `<` on str)

  predicate StrLeq(a: string, b: string)
  {
    if a == [] then true
    else if b == [] then false
    else if a[0] < b[0] then true
    else if a[0] > b[0] then false
    else StrLeq(a[1..], b[1..])
  }

  lemma {:induction false} StrLeqTotal(a: string, b: string)
    ensures StrLeq(a, b) || StrLeq(b, a)
  {
    if a != [] && b != [] && a[0] == b[0] {
      StrLeqTotal(a[1..], b[1..]);
    }
  }

  lemma {:induction false} StrLeqTrans(a: string, b: string, c: string)
    requires StrLeq(a, b) && StrLeq(b, c)
    ensures StrLeq(a, c)
  {
    if a != [] && b != [] && c != [] && a[0] == b[0] == c[0] {
      StrLeqTrans(a[1..], b[1..], c[1..]);
    }
  }

  // ---------------------------------------------------------------------
  // Subsequences

  /** `r` is `s` with some elements left out, the others kept in order. */
  ghost predicate Subsequence<T>(r: seq<T>, s: seq<T>)
    decreases |s|
  {
    if r == [] then true
    else if s == [] then false
    else if r[0] == s[0] then Subsequence(r[1..], s[1..])
    else Subsequence(r, s[1..])
  }

  // ---------------------------------------------------------------------
  // Regular-expression scanning

  /** The character classes that the regular expressions of the tools
      repeat. */
  datatype Class =
    | Space      // `\s`
    | NonSpace   // `\S`
    | Word       // `\w`
    | Digit      // `\d`
    | NotNewline // `.`
    | NotColon   // `[^:]`
    | NotParen   // `[^)]`
    | NotComma   // `[^,]`
    | NotDash    // `[^-]`
    | SignDigit  // `[-0-9]`
    | NumChar    // `[\d.]`
    | Roman      // `[ivxlc]`
    | ParenPunct // `['.:]`
    | DotColon   // `[.:]`
    | NumPunct   // `['.):]`
    | Judgment   // `[*?#]`

  predicate In(c: char, k: Class)
  {
    match k
    case Space => IsSpace(c)
    case NonSpace => !IsSpace(c)
    case Word => IsWordChar(c)
    case Digit => IsDigit(c)
    case NotNewline => c != '\n'
    case NotColon => c != ':'
    case NotParen => c != ')'
    case NotComma => c != ','
    case NotDash => c != '-'
    case SignDigit => c == '-' || IsDigit(c)
    case NumChar => IsDigit(c) || c == '.'
    case Roman => c == 'i' || c == 'v' || c == 'x' || c == 'l' || c == 'c'
    case ParenPunct => c == '\'' || c == '.' || c == ':'
    case DotColon => c == '.' || c == ':'
    case NumPunct => c == '\'' || c == '.' || c == ')' || c == ':'
    case Judgment => c == '*' || c == '?' || c == '#'
  }

  /** End of the longest run of characters of class `f` starting at `p`
      (a greedy `[...]*` that has nothing after it to backtrack for). */
  function Span(s: string, p: nat, f: Class): (e: nat)
    requires p <= |s|
    ensures p <= e <= |s|
    ensures forall i :: p <= i < e ==> In(s[i], f)
    ensures e < |s| ==> !In(s[e], f)
    decreases |s| - p
  {
    if p < |s| && In(s[p], f) then Span(s, p + 1, f) else p
  }

  /** A run that begins with a character outside the class is empty. */
  lemma SpanStop(s: string, p: nat, f: Class)
    requires p <= |s| && (p == |s| || !In(s[p], f))
    ensures Span(s, p, f) == p
  {
  }

  /** A run is determined by where it is known to stop. */
  lemma SpanIs(s: string, p: nat, e: nat, f: Class)
    requires p <= e <= |s|
    requires forall i :: p <= i < e ==> In(s[i], f)
    requires e == |s| || !In(s[e], f)
    ensures Span(s, p, f) == e
    decreases e - p
  {
    if p < e {
      SpanIs(s, p + 1, e, f);
    }
  }

  /** Leading whitespace measured with `Span` is `LeadingSpaces`. */
  lemma SpanSpaces(s: string)
    ensures Span(s, 0, Space) == LeadingSpaces(s)
  {
    SpanIs(s, 0, LeadingSpaces(s), Space);
  }

  /** The longest run of class `f` at the front of `s`, and what follows it. */
  function TakeRun(s: string, f: Class): (r: (string, string))
    ensures r.0 + r.1 == s
  {
    var e := Span(s, 0, f);
    assert s[..e] + s[e..] == s;
    (s[..e], s[e..])
  }

  /** The run is all of class `f`, and what follows does not start with it. */
  lemma TakeRunSpec(s: string, f: Class)
    ensures forall i :: 0 <= i < |TakeRun(s, f).0| ==> In(TakeRun(s, f).0[i], f)
    ensures TakeRun(s, f).1 == [] || !In(TakeRun(s, f).1[0], f)
  {
  }

  /** A run followed by a character outside its class is what `TakeRun` takes. */
  lemma TakeRunIs(run: string, rest: string, f: Class)
    requires forall i :: 0 <= i < |run| ==> In(run[i], f)
    requires rest == [] || !In(rest[0], f)
    ensures TakeRun(run + rest, f) == (run, rest)
  {
    var s := run + rest;
    var r := TakeRun(s, f);
    TakeRunSpec(s, f);
    assert s[..|run|] == run && s[|run|..] == rest;
  }
}
