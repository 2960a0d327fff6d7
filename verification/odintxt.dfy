/**
 * odintxt.py: reading ODIN text into IGT blocks, choosing the language of a
 * block from its header lines, writing blocks back out as text, and the
 * per-key buffer that collects the blocks of each output file.  The regular
 * expressions of the source are written out as scans (`Span`), trying the
 * alternatives in the order Python's engine does.
 */
module OdinTxt {
  import opened Py

  /** How many IGTs a key may cache before they are written out. */
  const BufferSize: nat := 1000

  /** A nonempty run of class `f` at the front of `s` followed by a space
      (`\S+ `, `\d+ `): the run and what follows the space.  Backtracking
      cannot help, as a shorter run is followed by a character of the class. */
  function RunSpace(s: string, f: Class): Option<(string, string)>
  {
    var (run, rest) := TakeRun(s, f);
    if run == [] || rest == [] || rest[0] != ' ' then None else Some((run, rest[1..]))
  }

  /** What `RunSpace` reads: a nonempty run of the class, a space, the rest. */
  lemma RunSpaceSpec(s: string, f: Class)
    requires RunSpace(s, f).Some?
    ensures var (run, rest) := RunSpace(s, f).value;
      && run != [] && s == run + (" " + rest)
      && forall i :: 0 <= i < |run| ==> In(run[i], f)
  {
    var (run, rest0) := TakeRun(s, f);
    TakeRunSpec(s, f);
    assert rest0 == " " + rest0[1..];
  }

  lemma RunSpaceIs(run: string, rest: string, f: Class)
    requires run != [] && !In(' ', f)
    requires forall i :: 0 <= i < |run| ==> In(run[i], f)
    ensures RunSpace(run + " " + rest, f) == Some((run, rest))
  {
    assert run + " " + rest == run + (" " + rest);
    TakeRunIs(run, " " + rest, f);
    assert (" " + rest)[1..] == rest;
  }

  // ---------------------------------------------------------------------
  // doc_re

  /** The groups of a line that `doc_re` matches. */
  datatype DocLine = DocLine(docId: string, igtId: Option<string>, lineRange: string, lineTypes: string)

  /** `(?P<linerange>\d+ \d+) (?P<linetypes>.*)` at the front of `s`. */
  function DocRest(s: string): Option<(string, string)>
  {
    match RunSpace(s, Digit)
    case None => None
    case Some((x, r1)) =>
      match RunSpace(r1, Digit)
      case None => None
      case Some((y, r2)) => Some((x + " " + y, TakeRun(r2, NotNewline).0))
  }

  /** `doc_re.match(s)`.  The optional `igt_id=` group is tried first; when
      the rest fails after it, the engine backtracks and tries the rest
      without it. */
  function MatchDoc(s: string): Option<DocLine>
  {
    if !StartsWith(s, "doc_id=") then None
    else match RunSpace(s[7..], NonSpace)
      case None => None
      case Some((doc, r1)) =>
        var withIgt := WithIgt(doc, r1);
        if withIgt.Some? then withIgt else WithoutIgt(doc, r1)
  }

  /** The rest of `doc_re` after the doc id, with the `igt_id=` group. */
  function WithIgt(doc: string, r1: string): Option<DocLine>
  {
    if !StartsWith(r1, "igt_id=") then None
    else match RunSpace(r1[7..], NonSpace)
      case None => None
      case Some((igt, r2)) =>
        match DocRest(r2)
        case None => None
        case Some((range, types)) => Some(DocLine(doc, Some(igt), range, types))
  }

  /** The rest of `doc_re` after the doc id, without the `igt_id=` group. */
  function WithoutIgt(doc: string, r1: string): Option<DocLine>
  {
    match DocRest(r1)
    case None => None
    case Some((range, types)) => Some(DocLine(doc, None, range, types))
  }

  /** A word that `\S+` takes whole. */
  predicate IsToken(s: string)
  {
    s != [] && forall i :: 0 <= i < |s| ==> !IsSpace(s[i])
  }

  /** `DocRest` reads back a line range and line types. */
  lemma DocRestIs(x: string, y: string, types: string)
    requires x != [] && AllDigits(x) && y != [] && AllDigits(y)
    requires '\n' !in types
    ensures DocRest(x + " " + y + " " + types) == Some((x + " " + y, types))
  {
    RunSpaceIs(x, y + " " + types, Digit);
    assert x + " " + y + " " + types == x + " " + (y + " " + types);
    RunSpaceIs(y, types, Digit);
    TakeRunIs(types, [], NotNewline);
    assert types + [] == types;
  }

  // ---------------------------------------------------------------------
  // odin_line

  /** The three fields of a parsed IGT line. */
  datatype OdinLine = OdinLine(line: string, tag: string, content: string)

  /** `odin_line`: `line_re` is `line=(\d+) tag=([^:]+):(.*)`; `None` stands
      for the empty dict returned for a line that does not match. */
  function ParseOdinLine(s: string): Option<OdinLine>
  {
    if !StartsWith(s, "line=") then None
    else match RunSpace(s[5..], Digit)
      case None => None
      case Some((num, r1)) =>
        match TagContent(r1)
        case None => None
        case Some((tag, content)) => Some(OdinLine(num, tag, content))
  }

  /** `tag=([^:]+):(.*)` at the front of `s`. */
  function TagContent(s: string): Option<(string, string)>
  {
    if !StartsWith(s, "tag=") then None
    else
      var (tag, r) := TakeRun(s[4..], NotColon);
      if tag == [] || r == [] then None
      else Some((tag, TakeRun(r[1..], NotNewline).0))
  }

  /** `'line={line} tag={tag}:{content}'.format(**linedata)`. */
  function FormatOdinLine(l: OdinLine): string
  {
    "line=" + l.line + " " + "tag=" + l.tag + ":" + l.content
  }

  /** A line in the form `line_re` reads. */
  predicate WellFormedLine(l: OdinLine)
  {
    l.line != [] && AllDigits(l.line) && l.tag != [] && ':' !in l.tag && '\n' !in l.content
  }

  /** A parsed line has digits for `line`, a tag that ends at the first
      colon, and content that runs to the end of the line. */
  lemma ParseOdinLineWellFormed(s: string)
    requires ParseOdinLine(s).Some?
    ensures WellFormedLine(ParseOdinLine(s).value)
  {
    var (num, r1) := RunSpace(s[5..], Digit).value;
    RunSpaceSpec(s[5..], Digit);
    var _ := TagContentSpec(r1);
  }

  /** A parsed line is its own formatting followed by nothing or by a
      newline and more. */
  lemma ParseOdinLineShape(s: string)
    requires ParseOdinLine(s).Some?
    ensures exists rest :: s == FormatOdinLine(ParseOdinLine(s).value) + rest && (rest == [] || rest[0] == '\n')
  {
    var l := ParseOdinLine(s).value;
    var (num, r1) := RunSpace(s[5..], Digit).value;
    RunSpaceSpec(s[5..], Digit);
    var rest := TagContentSpec(r1);
    LineConcat(s, num, r1, l.tag, l.content, rest);
  }

  /** The pieces that `ParseOdinLine` takes apart put back together. */
  lemma LineConcat(s: string, num: string, r1: string, tag: string, content: string, rest: string)
    requires |s| >= 5 && s[..5] == "line=" && s[5..] == num + (" " + r1)
    requires r1 == "tag=" + (tag + (":" + (content + rest)))
    ensures s == FormatOdinLine(OdinLine(num, tag, content)) + rest
  {
    assert s == "line=" + (num + (" " + ("tag=" + (tag + (":" + (content + rest))))));
    Concat7("line=", num, " ", "tag=", tag, ":", content, rest);
  }

  /** What `TagContent` reads: a tag without a colon, then a colon, then
      content up to the end of the line. */
  lemma TagContentSpec(r: string) returns (rest: string)
    requires TagContent(r).Some?
    ensures var (tag, content) := TagContent(r).value;
      && tag != [] && ':' !in tag && '\n' !in content
      && r == "tag=" + (tag + (":" + (content + rest))) && (rest == [] || rest[0] == '\n')
  {
    var (tag, r2) := TakeRun(r[4..], NotColon);
    TakeRunSpec(r[4..], NotColon);
    TakeRunSpec(r2[1..], NotNewline);
    var content;
    content, rest := TakeRun(r2[1..], NotNewline).0, TakeRun(r2[1..], NotNewline).1;
    assert r2 == ":" + (content + rest);
    assert r == "tag=" + r[4..];
    assert forall i :: 0 <= i < |tag| ==> tag[i] != ':';
    assert forall i :: 0 <= i < |content| ==> content[i] != '\n';
  }

  lemma Concat7(a: string, b: string, c: string, d: string, e: string, f: string, g: string, h: string)
    ensures a + (b + (c + (d + (e + (f + (g + h)))))) == a + b + c + d + e + f + g + h
  {
  }

  lemma TagContentIs(tag: string, content: string)
    requires tag != [] && ':' !in tag && '\n' !in content
    ensures TagContent("tag=" + tag + ":" + content) == Some((tag, content))
  {
    var s := "tag=" + tag + ":" + content;
    assert s[..4] == "tag=";
    assert s[4..] == tag + (":" + content);
    TakeRunIs(tag, ":" + content, NotColon);
    assert (":" + content)[1..] == content + [];
    TakeRunIs(content, [], NotNewline);
  }

  /** Parsing a formatted line gives its fields back. */
  lemma FormatOdinLineRoundTrip(l: OdinLine)
    requires WellFormedLine(l)
    ensures ParseOdinLine(FormatOdinLine(l)) == Some(l)
  {
    var s := FormatOdinLine(l);
    var r1 := "tag=" + l.tag + ":" + l.content;
    assert s == "line=" + (l.line + " " + r1);
    assert s[5..] == l.line + " " + r1;
    RunSpaceIs(l.line, r1, Digit);
    TagContentIs(l.tag, l.content);
  }

  // ---------------------------------------------------------------------
  // get_best_lang_match

  /** `dict(l.split(':', 1) for l in lines if ':' in l)`: a later line with
      the same key replaces the value of an earlier one. */
  function HeaderFields(lines: seq<string>): (m: map<string, string>)
  {
    if lines == [] then map[]
    else
      var m := HeaderFields(lines[..|lines| - 1]);
      match SplitOnce(lines[|lines| - 1], ':')
      case None => m
      case Some((k, v)) => m[k := v]
  }

  /** The key of a header line, if it has a colon. */
  function FieldKey(line: string): Option<string>
  {
    match SplitOnce(line, ':')
    case None => None
    case Some((k, _)) => Some(k)
  }

  /** The value of a key is the one of the last line with that key. */
  lemma {:induction false} HeaderFieldsLast(lines: seq<string>, k: string, i: nat)
    requires i < |lines| && FieldKey(lines[i]) == Some(k)
    requires forall j :: i < j < |lines| ==> FieldKey(lines[j]) != Some(k)
    ensures k in HeaderFields(lines)
    ensures SplitOnce(lines[i], ':') == Some((k, HeaderFields(lines)[k]))
  {
    var n := |lines| - 1;
    if i < n {
      assert FieldKey(lines[n]) != Some(k);
      HeaderFieldsLast(lines[..n], k, i);
    }
  }

  /** A key that no line has is not in the dict. */
  lemma {:induction false} HeaderFieldsAbsent(lines: seq<string>, k: string)
    requires forall j :: 0 <= j < |lines| ==> FieldKey(lines[j]) != Some(k)
    ensures k !in HeaderFields(lines)
  {
    if lines != [] {
      var n := |lines| - 1;
      assert FieldKey(lines[n]) != Some(k);
      HeaderFieldsAbsent(lines[..n], k);
    }
  }

  /** ` \((?P<iso639>[^)]+)\)\s*$` at position `q`: the end of the code. */
  function ChosenTail(s: string, q: nat): (r: Option<nat>)
    requires q <= |s|
    ensures r.Some? ==> q + 2 < r.value < |s|
  {
    if q + 2 > |s| || s[q] != ' ' || s[q + 1] != '(' then None
    else
      var r := Span(s, q + 2, NotParen);
      if r == q + 2 || r == |s| || Span(s, r + 1, Space) != |s| then None
      else Some(r)
  }

  /** The greedy `(?P<name>.*)` from `p`, backing off from end `q`: the name
      and code of the longest name whose tail matches. */
  function ChosenAt(s: string, p: nat, q: nat): (r: Option<(string, string)>)
    requires p <= q <= |s|
    decreases q
  {
    match ChosenTail(s, q)
    case Some(r) => Some((s[p..q], s[q + 2..r]))
    case None => if q == p then None else ChosenAt(s, p, q - 1)
  }

  /** `lang_chosen_re`, `(?P<name>.*) \((?P<iso639>[^)]+)\)\s*$`, matched at
      position `p` (`.` stops at a newline). */
  function ChosenFrom(s: string, p: nat): (r: Option<(string, string)>)
    requires p <= |s|
  {
    ChosenAt(s, p, Span(s, p, NotNewline))
  }

  /** `lang_chosen_re.search(s[p..])`: the leftmost start that matches. */
  function ChosenSearch(s: string, p: nat): (r: Option<(string, string)>)
    requires p <= |s|
    decreases |s| - p
  {
    match ChosenFrom(s, p)
    case Some(m) => Some(m)
    case None => if p == |s| then None else ChosenSearch(s, p + 1)
  }

  const Stage2Key: string := "stage2_LN_lang_code"

  /** ` \([^,]+, (?P<iso639>[^)]+)\)` at position `q`: the bounds of the code. */
  function Stage2Tail(s: string, q: nat): (r: Option<(nat, nat)>)
    requires q <= |s|
    ensures r.Some? ==> q + 2 < r.value.0 < r.value.1 < |s|
  {
    if q + 2 > |s| || s[q] != ' ' || s[q + 1] != '(' then None
    else
      var c := Span(s, q + 2, NotComma);
      if c == q + 2 || c + 1 >= |s| || s[c + 1] != ' ' then None
      else
        var r := Span(s, c + 2, NotParen);
        if r == c + 2 || r == |s| then None else Some((c + 2, r))
  }

  /** The greedy `(?P<name>.*)` of `stage2_LN_re` from `p`, backing off from `q`. */
  function Stage2At(s: string, p: nat, q: nat): (r: Option<(string, string)>)
    requires p <= q <= |s|
    decreases q
  {
    match Stage2Tail(s, q)
    case Some((c, r)) => Some((s[p..q], s[c..r]))
    case None => if q == p then None else Stage2At(s, p, q - 1)
  }

  /** `stage2_LN_re.match(s)`: the pattern starts with the key itself,
      `stage2_LN_lang_code: (?P<name>.*) \([^,]+, (?P<iso639>[^)]+)\)`. */
  function Stage2Match(s: string): (r: Option<(string, string)>)
  {
    var prefix := Stage2Key + ": ";
    if !StartsWith(s, prefix) then None
    else Stage2At(s, |prefix|, Span(s, |prefix|, NotNewline))
  }

  /** `chosen_idx_re.search(s[p..])`: the `[-0-9]+` after the leftmost
      `lang_chosen_idx=` that is followed by one. */
  function ChosenIdx(s: string, p: nat): (r: Option<string>)
    requires p <= |s|
    decreases |s| - p
  {
    var key := "lang_chosen_idx=";
    if p + |key| > |s| then None
    else if s[p..p + |key|] == key && Span(s, p + |key|, SignDigit) > p + |key| then
      Some(s[p + |key|..Span(s, p + |key|, SignDigit)])
    else ChosenIdx(s, p + 1)
  }

  /** `xs[i]` with Python's negative indices; `None` where it raises IndexError. */
  function PyIndex<T>(xs: seq<T>, i: int): (r: Option<T>)
    ensures r.Some? <==> -|xs| <= i < |xs|
  {
    if 0 <= i < |xs| then Some(xs[i])
    else if -|xs| <= i < 0 then Some(xs[|xs| + i])
    else None
  }

  /** The keys tried first, in order. */
  const LangKeys: seq<string> := ["language", "stage3_lang_chosen", "stage2_lang_chosen"]

  /** The first key of `keys` present in `fields` whose value
      `lang_chosen_re` finds. */
  function KeyedMatch(fields: map<string, string>, keys: seq<string>): (r: Option<(string, string)>)
  {
    if keys == [] then None
    else if keys[0] in fields && ChosenSearch(fields[keys[0]], 0).Some? then ChosenSearch(fields[keys[0]], 0)
    else KeyedMatch(fields, keys[1..])
  }

  /** The fallbacks when no key matched: the first alternative of
      `stage2_LN_lang_code`, else the entry of `lang_code` that `note`'s
      `lang_chosen_idx` points at.  `asWritten` selects what the stage-2
      pattern is matched against: the value alone, as the source does, or
      the whole header line the pattern was written for. */
  function Fallback(fields: map<string, string>, asWritten: bool): (r: Outcome<Option<(string, string)>>)
  {
    if Stage2Key in fields then
      var first := SplitStr(fields[Stage2Key], "||")[0];
      Ok(Stage2Match(if asWritten then first else Stage2Key + ":" + first))
    else if "lang_code" in fields then
      if "note" !in fields then Raised(KeyError)
      else if !Contains(fields["note"], "lang_chosen_idx") then Ok(None)
      else match ChosenIdx(fields["note"], 0)
        case None => Ok(None)
        case Some(t) =>
          match ParseInt(t)
          case None => Raised(ValueError)
          case Some(idx) =>
            if idx == -1 then Ok(None)
            else match PyIndex(SplitStr(fields["lang_code"], "||"), idx)
              case None => Raised(IndexError)
              case Some(ls) => Ok(ChosenFrom(ls, 0))
    else Ok(None)
  }

  /** What `get_best_lang_match` returns when nothing matches. */
  const Undetermined: (string, string) := ("(Undetermined)", "und")

  /** The match `get_best_lang_match` settles on, if any. */
  function LangMatch(lines: seq<string>, asWritten: bool): Outcome<Option<(string, string)>>
  {
    var fields := HeaderFields(lines);
    var keyed := KeyedMatch(fields, LangKeys);
    if keyed.Some? then Ok(keyed) else Fallback(fields, asWritten)
  }

  /** The name and code of a match, cleaned up, or the undetermined pair. */
  function Resolve(m: Outcome<Option<(string, string)>>): Outcome<(string, string)>
  {
    match m
    case Raised(e) => Raised(e)
    case Ok(None) => Ok(Undetermined)
    case Ok(Some((name, iso))) => Ok((Title(Strip(name)), Lower(Strip(iso))))
  }

  function BestLangMatchWith(lines: seq<string>, asWritten: bool): Outcome<(string, string)>
  {
    Resolve(LangMatch(lines, asWritten))
  }

  /** `get_best_lang_match` as written. */
  function BestLangMatchAsWritten(lines: seq<string>): Outcome<(string, string)>
  {
    BestLangMatchWith(lines, true)
  }

  /** `get_best_lang_match` with the stage-2 pattern matched against the
      header line it was written for. */
  function BestLangMatch(lines: seq<string>): Outcome<(string, string)>
  {
    BestLangMatchWith(lines, false)
  }

  /** No character of `s` is in `cs`. */
  predicate Avoids(s: string, cs: set<char>)
  {
    forall i :: 0 <= i < |s| ==> s[i] !in cs
  }

  /** Backing the greedy name off past positions where the tail fails
      changes nothing. */
  lemma {:induction false} ChosenAtDown(s: string, p: nat, q: nat, m: nat)
    requires p <= m <= q <= |s|
    requires forall x :: m < x <= q ==> ChosenTail(s, x).None?
    ensures ChosenAt(s, p, q) == ChosenAt(s, p, m)
    decreases q
  {
    if q > m {
      ChosenAtDown(s, p, q - 1, m);
    }
  }

  /** The text after `language:` in a written language line. */
  function LangValue(name: string, iso: string): string
  {
    " " + name + " (" + iso + ")"
  }

  /** In a language value, ` (` occurs only where the code starts. */
  lemma LangTailOnlyAt(name: string, iso: string, x: nat)
    requires Avoids(iso, {'('})
    requires |name| + 1 < x <= |LangValue(name, iso)|
    ensures ChosenTail(LangValue(name, iso), x).None?
  {
    var s := LangValue(name, iso);
    var m := |name| + 1;
    if x + 2 <= |s| && s[x] == ' ' {
      if x + 1 < |s| - 1 {
        assert s[x + 1] == iso[x + 1 - m - 2];
      }
    }
  }

  /** The tail of a language value matches where the code starts. */
  lemma LangTailAt(name: string, iso: string)
    requires iso != [] && Avoids(iso, {')'})
    ensures ChosenTail(LangValue(name, iso), |name| + 1) == Some(|LangValue(name, iso)| - 1)
  {
    var s := LangValue(name, iso);
    var m := |name| + 1;
    assert s[m] == ' ' && s[m + 1] == '(' && s[|s| - 1] == ')';
    assert forall i :: m + 2 <= i < |s| - 1 ==> s[i] == iso[i - m - 2];
    SpanIs(s, m + 2, |s| - 1, NotParen);
    SpanStop(s, |s|, Space);
  }

  /** `lang_chosen_re` finds the name and code of a language value, the
      name with the space that follows the colon. */
  lemma LangValueChosen(name: string, iso: string)
    requires Avoids(name, {'\n'})
    requires iso != [] && Avoids(iso, {'(', ')', '\n'})
    ensures ChosenSearch(LangValue(name, iso), 0) == Some((" " + name, iso))
  {
    var s := LangValue(name, iso);
    var m := |name| + 1;
    assert forall i :: 0 <= i < |s| ==> s[i] != '\n' by {
      forall i | 0 <= i < |s| ensures s[i] != '\n' {
        if 1 <= i < m { assert s[i] == name[i - 1]; }
        else if m + 2 <= i < |s| - 1 { assert s[i] == iso[i - m - 2]; }
      }
    }
    SpanIs(s, 0, |s|, NotNewline);
    forall x | m < x <= |s| ensures ChosenTail(s, x).None? {
      LangTailOnlyAt(name, iso, x);
    }
    ChosenAtDown(s, 0, |s|, m);
    LangTailAt(name, iso);
    assert s[0..m] == " " + name;
    assert s[m + 2..|s| - 1] == iso;
  }

  /** The header of one line as the dict `get_best_lang_match` builds. */
  lemma HeaderFieldsOne(key: string, value: string)
    requires ':' !in key
    ensures HeaderFields([key + ":" + value]) == map[key := value]
  {
    SplitOnceIs(key, ':', value);
    assert [key + ":" + value][..0] == [];
  }

  /** A language line as `format_odin_igt` writes it is read back as that
      language: the name title-cased and the code lower-cased, each
      stripped, whichever way the stage-2 pattern is matched. */
  lemma LanguageLineRead(name: string, iso: string, asWritten: bool)
    requires Avoids(name, {'\n'})
    requires iso != [] && Avoids(iso, {'(', ')', '\n'})
    ensures BestLangMatchWith(["language" + ":" + LangValue(name, iso)], asWritten)
            == Ok((Title(Strip(" " + name)), Lower(Strip(iso))))
  {
    var v := LangValue(name, iso);
    HeaderFieldsOne("language", v);
    LangValueChosen(name, iso);
    assert KeyedMatch(map["language" := v], LangKeys) == Some((" " + name, iso));
  }

  /** The value of a `stage2_LN_lang_code` header line with one entry. */
  function Stage2Value(name: string, lab: string, code: string): string
  {
    " " + name + " (" + lab + ", " + code + ")"
  }

  /** The entry fields that keep a `stage2_LN_lang_code` value readable. */
  predicate Stage2Entry(name: string, lab: string, code: string)
  {
    && Avoids(name, {'\n', '|'})
    && lab != [] && Avoids(lab, {',', '(', '\n', '|'})
    && code != [] && Avoids(code, {')', '(', '\n', '|'})
  }

  /** The source matches `stage2_LN_re` against the value after the key,
      which never starts with the key the pattern begins with: a header
      whose only language line is a `stage2_LN_lang_code` line is always
      undetermined. */
  lemma Stage2AsWrittenUndetermined(name: string, lab: string, code: string)
    requires Stage2Entry(name, lab, code)
    ensures BestLangMatchAsWritten([Stage2Key + ":" + Stage2Value(name, lab, code)]) == Ok(Undetermined)
  {
    var v := Stage2Value(name, lab, code);
    Stage2Fields(name, lab, code);
    assert !StartsWith(v, Stage2Key + ": ") by {
      if |v| >= |Stage2Key + ": "| {
        assert v[..|Stage2Key + ": "|][0] == ' ';
      }
    }
    assert Fallback(map[Stage2Key := v], true) == Ok(None);
    assert LangMatch([Stage2Key + ":" + v], true) == Ok(None);
  }

  /** The header of one `stage2_LN_lang_code` line: no key is tried before
      the fallback, and the first entry is the whole value. */
  lemma Stage2Fields(name: string, lab: string, code: string)
    requires Stage2Entry(name, lab, code)
    ensures var v := Stage2Value(name, lab, code);
      && HeaderFields([Stage2Key + ":" + v]) == map[Stage2Key := v]
      && KeyedMatch(map[Stage2Key := v], LangKeys) == None
      && SplitStr(v, "||")[0] == v
  {
    var v := Stage2Value(name, lab, code);
    HeaderFieldsOne(Stage2Key, v);
    Stage2ValueNoBars(name, lab, code);
    SplitStrNoSep(v, "||");
    var fields := map[Stage2Key := v];
    assert |Stage2Key| == 19;
    assert LangKeys[0] !in fields && LangKeys[1] !in fields && LangKeys[2] !in fields;
    assert KeyedMatch(fields, LangKeys[3..]) == None;
    assert KeyedMatch(fields, LangKeys[2..]) == None;
    assert KeyedMatch(fields, LangKeys[1..]) == None;
  }

  lemma Stage2ValueNoBars(name: string, lab: string, code: string)
    requires Stage2Entry(name, lab, code)
    ensures '|' !in Stage2Value(name, lab, code)
  {
    var v := Stage2Value(name, lab, code);
    var m := |name| + 1;
    var c := m + 2 + |lab|;
    forall i | 0 <= i < |v| ensures v[i] != '|' {
      if 1 <= i < m { assert v[i] == name[i - 1]; }
      else if m + 2 <= i < c { assert v[i] == lab[i - m - 2]; }
      else if c + 2 <= i < |v| - 1 { assert v[i] == code[i - c - 2]; }
    }
  }

  /** Matched against the whole header line, as the pattern is written,
      the same header gives the name and the code of its first entry. */
  lemma Stage2Read(name: string, lab: string, code: string)
    requires Stage2Entry(name, lab, code)
    ensures BestLangMatch([Stage2Key + ":" + Stage2Value(name, lab, code)])
            == Ok((Title(Strip(name)), Lower(Strip(code))))
  {
    var v := Stage2Value(name, lab, code);
    Stage2Fields(name, lab, code);
    Stage2LineMatch(name, lab, code);
    assert Fallback(map[Stage2Key := v], false) == Ok(Some((name, code)));
    assert LangMatch([Stage2Key + ":" + v], false) == Ok(Some((name, code)));
  }

  /** `stage2_LN_re` reads the name and the code of a whole header line. */
  lemma Stage2LineMatch(name: string, lab: string, code: string)
    requires Stage2Entry(name, lab, code)
    ensures Stage2Match(Stage2Key + ":" + Stage2Value(name, lab, code)) == Some((name, code))
  {
    var s := Stage2Key + ":" + Stage2Value(name, lab, code);
    var prefix := Stage2Key + ": ";
    var p := |prefix|;
    var m := p + |name|;
    var c := m + 2 + |lab|;
    Stage2Layout(name, lab, code);
    Stage2Tails(s, p, m, c, name, lab, code);
  }

  /** Where the pieces of a whole `stage2_LN_lang_code` line are. */
  lemma Stage2Layout(name: string, lab: string, code: string)
    ensures var s := Stage2Key + ":" + Stage2Value(name, lab, code);
      var p := |Stage2Key + ": "|;
      var m := p + |name|;
      var c := m + 2 + |lab|;
      && |s| == c + 2 + |code| + 1
      && s[..p] == Stage2Key + ": "
      && s[p..m] == name && s[m + 2..c] == lab && s[c + 2..|s| - 1] == code
      && s[m] == ' ' && s[m + 1] == '(' && s[c] == ',' && s[c + 1] == ' ' && s[|s| - 1] == ')'
  {
    var s := Stage2Key + ":" + Stage2Value(name, lab, code);
    var prefix := Stage2Key + ": ";
    assert s == prefix + name + " (" + lab + ", " + code + ")";
  }

  /** The greedy name of `stage2_LN_re` ends where the entry's ` (` is. */
  lemma Stage2Tails(s: string, p: nat, m: nat, c: nat, name: string, lab: string, code: string)
    requires Stage2Entry(name, lab, code)
    requires p + |name| == m && m + 2 + |lab| == c && c + 2 + |code| + 1 == |s|
    requires s[p..m] == name && s[m + 2..c] == lab && s[c + 2..|s| - 1] == code
    requires s[m] == ' ' && s[m + 1] == '(' && s[c] == ',' && s[c + 1] == ' ' && s[|s| - 1] == ')'
    ensures Stage2At(s, p, Span(s, p, NotNewline)) == Some((name, code))
  {
    forall i | p <= i < |s| ensures s[i] != '\n' {
      if i < m { assert s[i] == s[p..m][i - p]; }
      else if m + 2 <= i < c { assert s[i] == s[m + 2..c][i - m - 2]; }
      else if c + 2 <= i < |s| - 1 { assert s[i] == s[c + 2..|s| - 1][i - c - 2]; }
    }
    SpanIs(s, p, |s|, NotNewline);
    forall x | m < x <= |s| ensures Stage2Tail(s, x).None? {
      Stage2NoTailAfter(s, m, c, lab, code, x);
    }
    Stage2AtDown(s, p, |s|, m);
    Stage2TailAt(s, m, c, lab, code);
  }

  lemma Stage2NoTailAfter(s: string, m: nat, c: nat, lab: string, code: string, x: nat)
    requires Avoids(lab, {'('}) && Avoids(code, {'('})
    requires m + 2 + |lab| == c && c + 2 + |code| + 1 == |s|
    requires s[m + 2..c] == lab && s[c + 2..|s| - 1] == code
    requires s[c] == ',' && s[|s| - 1] == ')'
    requires m < x <= |s|
    ensures Stage2Tail(s, x).None?
  {
    if x + 2 <= |s| && s[x] == ' ' {
      if x + 1 < c { assert s[x + 1] == s[m + 2..c][x + 1 - m - 2]; }
      else if c + 2 <= x + 1 < |s| - 1 { assert s[x + 1] == s[c + 2..|s| - 1][x + 1 - c - 2]; }
    }
  }

  lemma Stage2TailAt(s: string, m: nat, c: nat, lab: string, code: string)
    requires lab != [] && Avoids(lab, {','}) && code != [] && Avoids(code, {')'})
    requires m + 2 + |lab| == c && c + 2 + |code| + 1 == |s|
    requires s[m + 2..c] == lab && s[c + 2..|s| - 1] == code
    requires s[m] == ' ' && s[m + 1] == '(' && s[c] == ',' && s[c + 1] == ' ' && s[|s| - 1] == ')'
    ensures Stage2Tail(s, m) == Some((c + 2, |s| - 1))
  {
    forall i | m + 2 <= i < c ensures In(s[i], NotComma) {
      assert s[i] == s[m + 2..c][i - m - 2];
    }
    SpanIs(s, m + 2, c, NotComma);
    forall i | c + 2 <= i < |s| - 1 ensures In(s[i], NotParen) {
      assert s[i] == s[c + 2..|s| - 1][i - c - 2];
    }
    SpanIs(s, c + 2, |s| - 1, NotParen);
  }

  lemma {:induction false} Stage2AtDown(s: string, p: nat, q: nat, m: nat)
    requires p <= m <= q <= |s|
    requires forall x :: m < x <= q ==> Stage2Tail(s, x).None?
    ensures Stage2At(s, p, q) == Stage2At(s, p, m)
    decreases q
  {
    if q > m {
      Stage2AtDown(s, p, q - 1, m);
    }
  }

  // ---------------------------------------------------------------------
  // odin_blocks

  /** One IGT as `odin_blocks` yields it: the groups of its doc line, the
      chosen language and code (`None` until chosen), its parsed IGT lines
      and its header lines, right-stripped. */
  datatype Block = Block(
    docId: string,
    igtId: Option<string>,
    lineRange: string,
    lineTypes: string,
    language: Option<string>,
    iso: Option<string>,
    lines: seq<Option<OdinLine>>,
    headerLines: seq<string>)

  /** `line.strip() == ''`. */
  predicate IsBlankLine(s: string)
  {
    IsBlank(s)
  }

  /** A line that ends the header: a blank one or the first IGT line. */
  predicate EndsHeader(s: string)
  {
    IsBlankLine(s) || StartsWith(s, "line=")
  }

  /** The first position from `i` on whose line ends the header, or the end. */
  function HeaderEnd(lines: seq<string>, i: nat): (j: nat)
    requires i <= |lines|
    ensures i <= j <= |lines|
    decreases |lines| - i
  {
    if i == |lines| || EndsHeader(lines[i]) then i else HeaderEnd(lines, i + 1)
  }

  /** The first position from `i` on whose line is blank, or the end. */
  function BodyEnd(lines: seq<string>, i: nat): (k: nat)
    requires i <= |lines|
    ensures i <= k <= |lines|
    decreases |lines| - i
  {
    if i == |lines| || IsBlankLine(lines[i]) then i else BodyEnd(lines, i + 1)
  }

  /** `[line.rstrip() for line in lines]`. */
  function RStripAll(lines: seq<string>): (r: seq<string>)
    ensures |r| == |lines| && forall x :: 0 <= x < |lines| ==> r[x] == RStrip(lines[x])
  {
    seq(|lines|, x requires 0 <= x < |lines| => RStrip(lines[x]))
  }

  /** `[odin_line(line) for line in lines]`. */
  function ParseAll(lines: seq<string>): (r: seq<Option<OdinLine>>)
    ensures |r| == |lines| && forall x :: 0 <= x < |lines| ==> r[x] == ParseOdinLine(lines[x])
  {
    seq(|lines|, x requires 0 <= x < |lines| => ParseOdinLine(lines[x]))
  }

  function NewBlock(d: DocLine, lang: Option<(string, string)>, body: seq<Option<OdinLine>>, header: seq<string>): Block
  {
    Block(d.docId, d.igtId, d.lineRange, d.lineTypes,
          if lang.Some? then Some(lang.value.0) else None,
          if lang.Some? then Some(lang.value.1) else None,
          body, header)
  }

  /** What `odin_blocks` does with the line at position `i`: skip it (it is
      not a doc line), yield one last block (the input ends in the header or
      the body, or choosing the language raises), or yield a block and go on
      after the blank line that ends its body. */
  datatype Step = Skip | Last(block: Block, err: Option<PyError>) | Emit(block: Block, next: nat)

  function StepAt(lines: seq<string>, i: nat, asWritten: bool): (r: Step)
    requires i < |lines|
    ensures r.Emit? ==> i < r.next <= |lines|
  {
    match MatchDoc(lines[i])
    case None => Skip
    case Some(d) =>
      var j := HeaderEnd(lines, i);
      var header := RStripAll(lines[i..j]);
      if j == |lines| then Last(NewBlock(d, None, [], header), None)
      else match BestLangMatchWith(header, asWritten)
        case Raised(e) => Last(NewBlock(d, None, [], header), Some(e))
        case Ok(lang) =>
          var k := BodyEnd(lines, j);
          var b := NewBlock(d, Some(lang), ParseAll(lines[j..k]), header);
          if k == |lines| then Last(b, None) else Emit(b, k + 1)
  }

  /** The blocks `odin_blocks` yields from position `i` on, and the
      exception it raises after them, if any.  Lines before a doc line are
      skipped; the header runs from the doc line to a blank line or the
      first IGT line; the body runs to the next blank line.  When the input
      ends inside the header no language is chosen; when choosing the
      language raises, the block read so far is still yielded (the `yield`
      is in a `finally`) before the exception ends the iteration.  The
      language is chosen by `get_best_lang_match` as written, or, when
      `asWritten` is false, with the stage-2 pattern matched against the
      whole header line. */
  function BlocksFrom(lines: seq<string>, i: nat, asWritten: bool): (seq<Block>, Option<PyError>)
    requires i <= |lines|
    decreases |lines| - i
  {
    if i == |lines| then ([], None)
    else match StepAt(lines, i, asWritten)
      case Skip => BlocksFrom(lines, i + 1, asWritten)
      case Last(b, e) => ([b], e)
      case Emit(b, next) => Prepend(b, BlocksFrom(lines, next, asWritten))
  }

  /** A block yielded ahead of the rest of the iteration. */
  function Prepend(b: Block, rest: (seq<Block>, Option<PyError>)): (seq<Block>, Option<PyError>)
  {
    ([b] + rest.0, rest.1)
  }

  /** `list(odin_blocks(lines))`, with the exception that ends it (as
      written when `asWritten`). */
  function Blocks(lines: seq<string>, asWritten: bool): (seq<Block>, Option<PyError>)
  {
    BlocksFrom(lines, 0, asWritten)
  }

  lemma HeaderEndStep(lines: seq<string>, j: nat)
    requires j < |lines| && !EndsHeader(lines[j])
    ensures HeaderEnd(lines, j) == HeaderEnd(lines, j + 1)
  {
  }

  lemma BodyEndStep(lines: seq<string>, k: nat)
    requires k < |lines| && !IsBlankLine(lines[k])
    ensures BodyEnd(lines, k) == BodyEnd(lines, k + 1)
  {
  }

  lemma RStripAllSnoc(lines: seq<string>, i: nat, j: nat)
    requires i <= j < |lines|
    ensures RStripAll(lines[i..j + 1]) == RStripAll(lines[i..j]) + [RStrip(lines[j])]
  {
    assert lines[i..j + 1] == lines[i..j] + [lines[j]];
  }

  lemma ParseAllSnoc(lines: seq<string>, j: nat, k: nat)
    requires j <= k < |lines|
    ensures ParseAll(lines[j..k + 1]) == ParseAll(lines[j..k]) + [ParseOdinLine(lines[k])]
  {
    assert lines[j..k + 1] == lines[j..k] + [lines[k]];
  }

  /** The header loop of `odin_blocks`. */
  method ReadHeader(lines: seq<string>, i: nat) returns (header: seq<string>, j: nat)
    requires i <= |lines|
    ensures j == HeaderEnd(lines, i) && header == RStripAll(lines[i..j])
  {
    header := [];
    j := i;
    while j < |lines| && !EndsHeader(lines[j])
      invariant i <= j <= |lines|
      invariant HeaderEnd(lines, i) == HeaderEnd(lines, j)
      invariant header == RStripAll(lines[i..j])
      decreases |lines| - j
    {
      RStripAllSnoc(lines, i, j);
      HeaderEndStep(lines, j);
      header := header + [RStrip(lines[j])];
      j := j + 1;
    }
  }

  /** The body loop of `odin_blocks`. */
  method ReadBody(lines: seq<string>, j: nat) returns (body: seq<Option<OdinLine>>, k: nat)
    requires j <= |lines|
    ensures k == BodyEnd(lines, j) && body == ParseAll(lines[j..k])
  {
    body := [];
    k := j;
    while k < |lines| && !IsBlankLine(lines[k])
      invariant j <= k <= |lines|
      invariant BodyEnd(lines, j) == BodyEnd(lines, k)
      invariant body == ParseAll(lines[j..k])
      decreases |lines| - k
    {
      ParseAllSnoc(lines, j, k);
      BodyEndStep(lines, k);
      body := body + [ParseOdinLine(lines[k])];
      k := k + 1;
    }
  }

  /** One round of the outer loop of `odin_blocks`, from the line at `i`. */
  method ReadStep(lines: seq<string>, i: nat) returns (st: Step)
    requires i < |lines|
    ensures st == StepAt(lines, i, true)
  {
    var doc := MatchDoc(lines[i]);
    if doc.None? {
      StepSkip(lines, i, true);
      return Skip;
    }
    var header, j := ReadHeader(lines, i);
    if j == |lines| {
      StepNoBody(lines, i, doc.value, header, true);
      return Last(NewBlock(doc.value, None, [], header), None);
    }
    var lang := BestLangMatchAsWritten(header);
    if lang.Raised? {
      StepRaised(lines, i, doc.value, header, lang.error, true);
      return Last(NewBlock(doc.value, None, [], header), Some(lang.error));
    }
    var body, k := ReadBody(lines, j);
    StepBlock(lines, i, doc.value, header, lang.value, j, body, k, true);
    var b := NewBlock(doc.value, Some(lang.value), body, header);
    if k == |lines| {
      return Last(b, None);
    }
    return Emit(b, k + 1);
  }

  /** `odin_blocks`, run to the end: the blocks it yields and the exception
      that ends it, if any. */
  method OdinBlocks(lines: seq<string>) returns (blocks: seq<Block>, err: Option<PyError>)
    ensures (blocks, err) == Blocks(lines, true)
  {
    blocks := [];
    var i := 0;
    JoinEmpty(Rest(lines, 0, true));
    while i < |lines|
      invariant 0 <= i <= |lines|
      invariant Blocks(lines, true) == Join(blocks, Rest(lines, i, true))
      decreases |lines| - i
    {
      var st := ReadStep(lines, i);
      match st
      case Skip =>
        RestSkip(lines, i, true);
        i := i + 1;
      case Last(b, e) =>
        RestLast(lines, i, true);
        JoinPrepend(blocks, b, ([], e));
        return blocks + [b], e;
      case Emit(b, next) =>
        RestEmit(lines, i, true);
        JoinPrepend(blocks, b, Rest(lines, next, true));
        blocks := blocks + [b];
        i := next;
    }
    JoinEmpty((blocks, None));
    err := None;
  }

  /** Blocks already yielded, ahead of the rest of the iteration. */
  function Join(blocks: seq<Block>, rest: (seq<Block>, Option<PyError>)): (seq<Block>, Option<PyError>)
  {
    (blocks + rest.0, rest.1)
  }

  lemma JoinEmpty(r: (seq<Block>, Option<PyError>))
    ensures Join([], r) == r
    ensures Join(r.0, ([], r.1)) == r
  {
    assert [] + r.0 == r.0 && r.0 + [] == r.0;
  }

  lemma JoinPrepend(blocks: seq<Block>, b: Block, r: (seq<Block>, Option<PyError>))
    ensures Join(blocks, Prepend(b, r)) == Join(blocks + [b], r)
    ensures Prepend(b, ([], r.1)) == ([b], r.1)
  {
    assert blocks + ([b] + r.0) == (blocks + [b]) + r.0;
    assert [b] + [] == [b];
  }

  lemma StepSkip(lines: seq<string>, i: nat, asWritten: bool)
    requires i < |lines| && MatchDoc(lines[i]).None?
    ensures StepAt(lines, i, asWritten) == Skip
  {
  }

  lemma StepNoBody(lines: seq<string>, i: nat, d: DocLine, header: seq<string>, asWritten: bool)
    requires i < |lines| && MatchDoc(lines[i]) == Some(d) && HeaderEnd(lines, i) == |lines|
    requires header == RStripAll(lines[i..HeaderEnd(lines, i)])
    ensures StepAt(lines, i, asWritten) == Last(NewBlock(d, None, [], header), None)
  {
  }

  lemma StepRaised(lines: seq<string>, i: nat, d: DocLine, header: seq<string>, e: PyError, asWritten: bool)
    requires i < |lines| && MatchDoc(lines[i]) == Some(d) && HeaderEnd(lines, i) < |lines|
    requires header == RStripAll(lines[i..HeaderEnd(lines, i)]) && BestLangMatchWith(header, asWritten) == Raised(e)
    ensures StepAt(lines, i, asWritten) == Last(NewBlock(d, None, [], header), Some(e))
  {
  }

  lemma StepBlock(lines: seq<string>, i: nat, d: DocLine, header: seq<string>, lang: (string, string),
                  j: nat, body: seq<Option<OdinLine>>, k: nat, asWritten: bool)
    requires i < |lines| && MatchDoc(lines[i]) == Some(d) && j == HeaderEnd(lines, i) < |lines|
    requires header == RStripAll(lines[i..j]) && BestLangMatchWith(header, asWritten) == Ok(lang)
    requires k == BodyEnd(lines, j) && body == ParseAll(lines[j..k])
    ensures StepAt(lines, i, asWritten) == if k == |lines| then Last(NewBlock(d, Some(lang), body, header), None)
                                else Emit(NewBlock(d, Some(lang), body, header), k + 1)
  {
  }

  lemma RestSkip(lines: seq<string>, i: nat, asWritten: bool)
    requires i < |lines| && StepAt(lines, i, asWritten).Skip?
    ensures Rest(lines, i, asWritten) == Rest(lines, i + 1, asWritten)
  {
  }

  lemma RestLast(lines: seq<string>, i: nat, asWritten: bool)
    requires i < |lines| && StepAt(lines, i, asWritten).Last?
    ensures Rest(lines, i, asWritten) == ([StepAt(lines, i, asWritten).block], StepAt(lines, i, asWritten).err)
  {
  }

  lemma RestEmit(lines: seq<string>, i: nat, asWritten: bool)
    requires i < |lines| && StepAt(lines, i, asWritten).Emit?
    ensures Rest(lines, i, asWritten) == Prepend(StepAt(lines, i, asWritten).block, Rest(lines, StepAt(lines, i, asWritten).next, asWritten))
  {
  }

  /** `BlocksFrom` behind a call that does not recurse, so that loop
      invariants about it unfold it only once. */
  function Rest(lines: seq<string>, i: nat, asWritten: bool): (seq<Block>, Option<PyError>)
    requires i <= |lines|
  {
    BlocksFrom(lines, i, asWritten)
  }
}
