/**
 * odintxt.py, `format_odin_igt`: an IGT block formatted back into ODIN
 * text, and the text read back into the same block.
 */
module OdinTxtOut {
  import opened Py
  import opened OdinTxt

  // ---------------------------------------------------------------------
  // format_odin_igt

  /** `'{}'.format(x)` of a field that may be `None`. */
  function Show(x: Option<string>): string
  {
    if x.Some? then x.value else "None"
  }

  /** The top line as written.  The dict of a block always has the key
      `igt_id` (the group of `doc_re` is stored even when it did not
      participate), so the `igt_id=` segment is written for every block,
      with `None` for a block that has no IGT id. */
  function TopLineAsWritten(b: Block): string
  {
    "doc_id=" + (b.docId + " " + ("igt_id=" + (Show(b.igtId) + " " + TopTail(b))))
  }

  /** The line range and line types that end a top line. */
  function TopTail(b: Block): string
  {
    b.lineRange + " " + b.lineTypes
  }

  /** The top line the test on `igt_id` was meant to choose: the `igt_id=`
      segment only for a block that has an IGT id. */
  function TopLine(b: Block): string
  {
    "doc_id=" + (b.docId + " " +
      (if b.igtId.Some? then "igt_id=" + (b.igtId.value + " " + TopTail(b)) else TopTail(b)))
  }

  /** The top line as written, or as the test on `igt_id` was meant to
      choose it. */
  function TopLineWith(b: Block, asWritten: bool): string
  {
    if asWritten then TopLineAsWritten(b) else TopLine(b)
  }

  /** The IGT id a top line gives back when it is read: as written, the
      text of the field, `None` included. */
  function ReadIgtId(b: Block, asWritten: bool): (r: Option<string>)
    ensures r.None? <==> !asWritten && b.igtId.None?
    ensures b.igtId.Some? ==> r == b.igtId
    ensures asWritten && b.igtId.None? ==> r == Some("None")
  {
    if asWritten then Some(Show(b.igtId)) else b.igtId
  }

  /** `'language: {language} ({iso-639-3})'.format(**igt)`. */
  function LangLine(b: Block): string
  {
    "language" + ":" + LangValue(Show(b.language), Show(b.iso))
  }

  /** The header lines that are written again: all but those starting with
      `language:`, which the language line replaces. */
  function KeptHeader(hs: seq<string>): (r: seq<string>)
    ensures |r| <= |hs|
    ensures forall i :: 0 <= i < |r| ==> !StartsWith(r[i], "language:") && r[i] in hs
  {
    if hs == [] then []
    else
      var rest := KeptHeader(hs[1..]);
      if StartsWith(hs[0], "language:") then rest else [hs[0]] + rest
  }

  /** Filtering the header again removes nothing more, and a header without
      language lines is kept whole. */
  lemma {:induction false} KeptHeaderKeeps(hs: seq<string>)
    requires forall i :: 0 <= i < |hs| ==> !StartsWith(hs[i], "language:")
    ensures KeptHeader(hs) == hs
  {
    if hs != [] {
      KeptHeaderKeeps(hs[1..]);
      assert [hs[0]] + hs[1..] == hs;
    }
  }

  /** `line.format(**linedata)` for every IGT line, or `None` when some line
      did not parse: its dict is empty and the format raises KeyError. */
  function FormatLines(lines: seq<Option<OdinLine>>): (r: Option<seq<string>>)
    ensures r.Some? <==> forall i :: 0 <= i < |lines| ==> lines[i].Some?
    ensures r.Some? ==> |r.value| == |lines|
    ensures r.Some? ==> forall i :: 0 <= i < |lines| ==> r.value[i] == FormatOdinLine(lines[i].value)
  {
    if lines == [] then Some([])
    else if lines[0].None? then None
    else
      match FormatLines(lines[1..])
      case None => None
      case Some(rest) => Some([FormatOdinLine(lines[0].value)] + rest)
  }

  /** The lines of a formatted block, before they are joined. */
  function FormatParts(b: Block, body: seq<string>, asWritten: bool): seq<string>
  {
    [TopLineWith(b, asWritten), LangLine(b)] + KeptHeader(b.headerLines) + body
  }

  /** `format_odin_igt`: the top line (as written, or as meant), the
      language line, the kept header lines and the IGT lines, joined by
      newlines. */
  function FormatOdinIgtWith(b: Block, asWritten: bool): (r: Outcome<string>)
    ensures r.Raised? <==> exists i :: 0 <= i < |b.lines| && b.lines[i].None?
    ensures r.Raised? ==> r.error == KeyError
  {
    match FormatLines(b.lines)
    case None => Raised(KeyError)
    case Some(body) => Ok(JoinChar(FormatParts(b, body, asWritten), '\n'))
  }

  /** `format_odin_igt` as written. */
  function FormatOdinIgt(b: Block): (r: Outcome<string>)
    ensures r.Raised? <==> exists i :: 0 <= i < |b.lines| && b.lines[i].None?
    ensures r.Raised? ==> r.error == KeyError
  {
    FormatOdinIgtWith(b, true)
  }

  // ---------------------------------------------------------------------
  // Reading a top line back

  lemma DocPrefix(docId: string, rest: string)
    requires IsToken(docId)
    ensures StartsWith("doc_id=" + (docId + " " + rest), "doc_id=")
    ensures ("doc_id=" + (docId + " " + rest))[7..] == docId + " " + rest
    ensures RunSpace(docId + " " + rest, NonSpace) == Some((docId, rest))
  {
    RunSpaceIs(docId, rest, NonSpace);
  }

  lemma IgtPrefix(igt: string, rest: string)
    requires IsToken(igt)
    ensures StartsWith("igt_id=" + (igt + " " + rest), "igt_id=")
    ensures ("igt_id=" + (igt + " " + rest))[7..] == igt + " " + rest
    ensures RunSpace(igt + " " + rest, NonSpace) == Some((igt, rest))
  {
    RunSpaceIs(igt, rest, NonSpace);
  }

  lemma WithIgtIs(docId: string, igt: string, x: string, y: string, types: string)
    requires IsToken(igt)
    requires x != [] && AllDigits(x) && y != [] && AllDigits(y) && '\n' !in types
    ensures WithIgt(docId, "igt_id=" + (igt + " " + (x + " " + y + " " + types)))
            == Some(DocLine(docId, Some(igt), x + " " + y, types))
  {
    IgtPrefix(igt, x + " " + y + " " + types);
    DocRestIs(x, y, types);
  }

  /** Text that starts with a digit has no `igt_id=` segment. */
  lemma NoIgtField(docId: string, r1: string)
    requires r1 != [] && IsDigit(r1[0])
    ensures WithIgt(docId, r1).None?
  {
    assert !StartsWith(r1, "igt_id=") by {
      if |r1| >= 7 {
        assert r1[..7][0] == r1[0];
      }
    }
  }

  /** A top line without an `igt_id=` segment reads back without an IGT id. */
  lemma MatchDocWithout(docId: string, x: string, y: string, types: string)
    requires IsToken(docId)
    requires x != [] && AllDigits(x) && y != [] && AllDigits(y) && '\n' !in types
    ensures MatchDoc("doc_id=" + (docId + " " + (x + " " + y + " " + types)))
            == Some(DocLine(docId, None, x + " " + y, types))
  {
    var r1 := x + " " + y + " " + types;
    DocPrefix(docId, r1);
    assert r1[0] == x[0];
    NoIgtField(docId, r1);
    DocRestIs(x, y, types);
  }

  /** A top line with an `igt_id=` segment reads back with that IGT id. */
  lemma MatchDocWith(docId: string, igt: string, x: string, y: string, types: string)
    requires IsToken(docId) && IsToken(igt)
    requires x != [] && AllDigits(x) && y != [] && AllDigits(y) && '\n' !in types
    ensures MatchDoc("doc_id=" + (docId + " " + ("igt_id=" + (igt + " " + (x + " " + y + " " + types)))))
            == Some(DocLine(docId, Some(igt), x + " " + y, types))
  {
    var r1 := "igt_id=" + (igt + " " + (x + " " + y + " " + types));
    DocPrefix(docId, r1);
    WithIgtIs(docId, igt, x, y, types);
  }

  /** The doc-line fields of a block in the form `doc_re` reads, with its
      line range split into its two numbers. */
  predicate ReadableDoc(b: Block, x: string, y: string)
  {
    && IsToken(b.docId)
    && (b.igtId.Some? ==> IsToken(b.igtId.value))
    && x != [] && AllDigits(x) && y != [] && AllDigits(y) && b.lineRange == x + " " + y
    && '\n' !in b.lineTypes
  }

  /** `doc_re` reads the corrected top line back as the block's own fields. */
  lemma TopLineRoundTrip(b: Block, x: string, y: string)
    requires ReadableDoc(b, x, y)
    ensures MatchDoc(TopLine(b)) == Some(DocLine(b.docId, b.igtId, b.lineRange, b.lineTypes))
  {
    if b.igtId.Some? {
      MatchDocWith(b.docId, b.igtId.value, x, y, b.lineTypes);
    } else {
      MatchDocWithout(b.docId, x, y, b.lineTypes);
    }
  }

  /** The top line as written gives a block without an IGT id the IGT id
      `None` when it is read back. */
  lemma TopLineAsWrittenMisread(b: Block, x: string, y: string)
    requires ReadableDoc(b, x, y) && b.igtId.None?
    ensures MatchDoc(TopLineAsWritten(b)) == Some(DocLine(b.docId, Some("None"), b.lineRange, b.lineTypes))
  {
    NoneIsToken();
    MatchDocWith(b.docId, "None", x, y, b.lineTypes);
  }

  lemma NoneIsToken()
    ensures IsToken("None")
  {
  }

  /** Either top line is read back as the block's doc-line fields, with the
      IGT id the line shows. */
  lemma TopLineRead(b: Block, x: string, y: string, asWritten: bool)
    requires ReadableDoc(b, x, y)
    ensures MatchDoc(TopLineWith(b, asWritten))
            == Some(DocLine(b.docId, ReadIgtId(b, asWritten), b.lineRange, b.lineTypes))
  {
    if !asWritten {
      TopLineRoundTrip(b, x, y);
    } else if b.igtId.Some? {
      MatchDocWith(b.docId, b.igtId.value, x, y, b.lineTypes);
    } else {
      TopLineAsWrittenMisread(b, x, y);
    }
  }

  // ---------------------------------------------------------------------
  // Reading a formatted block back

  /** A header key that does not start with `l` is not `language`. */
  lemma FieldKeyNotLanguage(top: string)
    requires top != [] && top[0] != 'l'
    ensures FieldKey(top) != Some("language")
  {
  }

  /** A header made of a line that is not a language line and a language
      line as `format_odin_igt` writes it chooses that language, whichever
      way the stage-2 pattern is matched. */
  lemma HeaderLangRead(top: string, name: string, iso: string, asWritten: bool)
    requires top != [] && top[0] != 'l'
    requires Avoids(name, {'\n'})
    requires iso != [] && Avoids(iso, {'(', ')', '\n'})
    ensures BestLangMatchWith([top, "language" + ":" + LangValue(name, iso)], asWritten)
            == Ok((Title(Strip(" " + name)), Lower(Strip(iso))))
  {
    var v := LangValue(name, iso);
    var lines := [top, "language" + ":" + v];
    SplitOnceIs("language", ':', v);
    FieldKeyNotLanguage(top);
    HeaderFieldsLast(lines, "language", 1);
    var fields := HeaderFields(lines);
    assert fields["language"] == v;
    LangValueChosen(name, iso);
    assert KeyedMatch(fields, LangKeys) == Some((" " + name, iso));
  }

  /** An IGT line that `line_re` reads back and that fits on one line. */
  predicate WritableLine(l: Option<OdinLine>)
  {
    l.Some? && WellFormedLine(l.value) && '\n' !in l.value.tag
  }

  /** A block that `format_odin_igt` writes so that `odin_blocks` reads it
      back: fields in the form `doc_re` reads (line types ending in a
      non-space, which `rstrip` keeps), a language and code that come back
      from `title()`, `lower()` and `strip()` unchanged, no header lines of
      its own (the default `--igt-meta discard`) and at least one IGT line,
      each of which parses. */
  predicate Writable(b: Block, x: string, y: string)
  {
    && ReadableDoc(b, x, y)
    && b.lineTypes != [] && !IsSpace(b.lineTypes[|b.lineTypes| - 1])
    && b.language.Some? && Avoids(b.language.value, {'\n'})
    && Title(Strip(" " + b.language.value)) == b.language.value
    && b.iso.Some? && b.iso.value != [] && Avoids(b.iso.value, {'(', ')', '\n'})
    && Lower(Strip(b.iso.value)) == b.iso.value
    && b.headerLines == []
    && b.lines != [] && forall i :: 0 <= i < |b.lines| ==> WritableLine(b.lines[i])
  }

  lemma NotPrefixAt(t: string, p: string, k: nat)
    requires k < |p| && k < |t| && t[k] != p[k]
    ensures !StartsWith(t, p)
  {
    assert !StartsWith(t, p) by {
      if |p| <= |t| {
        assert t[..|p|][k] == t[k];
      }
    }
  }

  lemma NotBlankStart(t: string)
    requires t != [] && !IsSpace(t[0])
    ensures !IsBlankLine(t)
  {
  }

  lemma RStripKeeps(t: string)
    requires t != [] && !IsSpace(t[|t| - 1])
    ensures RStrip(t) == t
  {
    RStripSuffix(t, []);
    assert t + [] == t;
  }

  lemma TopLineNoNewline(b: Block, x: string, y: string, asWritten: bool)
    requires ReadableDoc(b, x, y)
    ensures '\n' !in TopLineWith(b, asWritten)
  {
    assert '\n' !in b.docId;
    assert '\n' !in x && '\n' !in y;
    assert '\n' !in Show(b.igtId);
  }

  lemma TopLineShape(b: Block, x: string, y: string, asWritten: bool)
    requires Writable(b, x, y)
    ensures '\n' !in TopLineWith(b, asWritten)
    ensures TopLineWith(b, asWritten) != [] && TopLineWith(b, asWritten)[0] == 'd'
    ensures RStrip(TopLineWith(b, asWritten)) == TopLineWith(b, asWritten) && !EndsHeader(TopLineWith(b, asWritten))
  {
    var t := TopLineWith(b, asWritten);
    TopLineNoNewline(b, x, y, asWritten);
    assert t[0] == 'd';
    assert t[|t| - 1] == b.lineTypes[|b.lineTypes| - 1];
    RStripKeeps(t);
    NotBlankStart(t);
    NotPrefixAt(t, "line=", 0);
  }

  lemma LangLineNoNewline(b: Block)
    requires b.language.Some? && Avoids(b.language.value, {'\n'})
    requires b.iso.Some? && Avoids(b.iso.value, {'\n'})
    ensures '\n' !in LangLine(b)
  {
    assert '\n' !in b.language.value && '\n' !in b.iso.value;
  }

  lemma LangLineShape(b: Block)
    requires b.language.Some? && Avoids(b.language.value, {'\n'})
    requires b.iso.Some? && Avoids(b.iso.value, {'\n'})
    ensures '\n' !in LangLine(b)
    ensures LangLine(b)[0] == 'l'
    ensures RStrip(LangLine(b)) == LangLine(b) && !EndsHeader(LangLine(b))
  {
    var t := LangLine(b);
    LangLineNoNewline(b);
    assert t == "language" + (":" + LangValue(Show(b.language), Show(b.iso)));
    assert t[0] == 'l' && t[1] == 'a';
    assert t[|t| - 1] == ')';
    RStripKeeps(t);
    NotBlankStart(t);
    NotPrefixAt(t, "line=", 1);
  }

  lemma BodyLineNoNewline(l: OdinLine)
    requires WellFormedLine(l) && '\n' !in l.tag
    ensures '\n' !in FormatOdinLine(l)
  {
    assert '\n' !in l.line;
  }

  lemma BodyLineShape(l: Option<OdinLine>)
    requires WritableLine(l)
    ensures '\n' !in FormatOdinLine(l.value)
    ensures ParseOdinLine(FormatOdinLine(l.value)) == l
    ensures EndsHeader(FormatOdinLine(l.value)) && !IsBlankLine(FormatOdinLine(l.value))
  {
    var t := FormatOdinLine(l.value);
    FormatOdinLineRoundTrip(l.value);
    BodyLineNoNewline(l.value);
    assert t[..5] == "line=";
    assert t[0] == t[..5][0];
    NotBlankStart(t);
  }

  /** The body lines a writable block formats to. */
  lemma FormattedBody(b: Block, x: string, y: string)
    requires Writable(b, x, y)
    ensures FormatLines(b.lines).Some?
    ensures var body := FormatLines(b.lines).value;
      && |body| == |b.lines|
      && (forall i :: 0 <= i < |body| ==> '\n' !in body[i] && ParseOdinLine(body[i]) == b.lines[i])
      && (forall i :: 0 <= i < |body| ==> EndsHeader(body[i]) && !IsBlankLine(body[i]))
  {
    var body := FormatLines(b.lines).value;
    forall i | 0 <= i < |body|
      ensures '\n' !in body[i] && ParseOdinLine(body[i]) == b.lines[i]
      ensures EndsHeader(body[i]) && !IsBlankLine(body[i])
    {
      BodyLineShape(b.lines[i]);
    }
  }

  lemma PartsNoNewline(top: string, lang: string, body: seq<string>)
    requires '\n' !in top && '\n' !in lang
    requires forall i :: 0 <= i < |body| ==> '\n' !in body[i]
    ensures forall i :: 0 <= i < |[top, lang] + body| ==> '\n' !in ([top, lang] + body)[i]
  {
    var parts := [top, lang] + body;
    forall i | 0 <= i < |parts| ensures '\n' !in parts[i] {
      if i >= 2 { assert parts[i] == body[i - 2]; }
    }
  }

  /** Lines without newlines, joined and split again at the newlines. */
  lemma SplitParts(top: string, lang: string, body: seq<string>)
    requires '\n' !in top && '\n' !in lang
    requires forall i :: 0 <= i < |body| ==> '\n' !in body[i]
    ensures SplitChar(JoinChar([top, lang] + body, '\n'), '\n') == [top, lang] + body
  {
    PartsNoNewline(top, lang, body);
    SplitJoinChar([top, lang] + body, '\n');
  }

  /** The lines of a formatted writable block, split at its newlines. */
  lemma FormattedSplit(b: Block, x: string, y: string, asWritten: bool)
    requires Writable(b, x, y)
    ensures FormatOdinIgtWith(b, asWritten).Ok?
    ensures SplitChar(FormatOdinIgtWith(b, asWritten).value, '\n')
            == [TopLineWith(b, asWritten), LangLine(b)] + FormatLines(b.lines).value
  {
    FormattedBody(b, x, y);
    var body := FormatLines(b.lines).value;
    FormatNoHeader(b, body, asWritten);
    TopLineNoNewline(b, x, y, asWritten);
    LangLineNoNewline(b);
    SplitParts(TopLineWith(b, asWritten), LangLine(b), body);
  }

  /** The text of a block without header lines of its own. */
  lemma FormatNoHeader(b: Block, body: seq<string>, asWritten: bool)
    requires FormatLines(b.lines) == Some(body) && b.headerLines == []
    ensures FormatOdinIgtWith(b, asWritten) == Ok(JoinChar([TopLineWith(b, asWritten), LangLine(b)] + body, '\n'))
  {
    assert KeptHeader(b.headerLines) == [];
    assert FormatParts(b, body, asWritten) == [TopLineWith(b, asWritten), LangLine(b)] + body;
  }

  /** The body runs to the end of the input when no line of it is blank. */
  lemma {:induction false} BodyEndAll(lines: seq<string>, j: nat)
    requires j <= |lines|
    requires forall x :: j <= x < |lines| ==> !IsBlankLine(lines[x])
    ensures BodyEnd(lines, j) == |lines|
    decreases |lines| - j
  {
    if j < |lines| {
      BodyEndStep(lines, j);
      BodyEndAll(lines, j + 1);
    }
  }

  /** The header of a block that is its doc line and one more line. */
  lemma HeaderOfTwo(lines: seq<string>)
    requires |lines| >= 3 && !EndsHeader(lines[0]) && !EndsHeader(lines[1]) && EndsHeader(lines[2])
    ensures HeaderEnd(lines, 0) == 2
  {
    HeaderEndStep(lines, 0);
    HeaderEndStep(lines, 1);
  }

  /** Where the header and the body of a block that is its doc line, one
      more header line and a body to the end of the input stop. */
  lemma TwoHeaderBounds(top: string, lang: string, body: seq<string>)
    requires !EndsHeader(top) && !EndsHeader(lang) && RStrip(top) == top && RStrip(lang) == lang
    requires body != [] && EndsHeader(body[0])
    requires forall i :: 0 <= i < |body| ==> !IsBlankLine(body[i])
    ensures var lines := [top, lang] + body;
      && HeaderEnd(lines, 0) == 2 && RStripAll(lines[0..2]) == [top, lang]
      && BodyEnd(lines, 2) == |lines| && lines[2..] == body
  {
    var lines := [top, lang] + body;
    assert lines[0] == top && lines[1] == lang && lines[2] == body[0];
    assert lines[0..2] == [top, lang] && lines[2..] == body;
    assert HeaderEnd(lines, 0) == 2 by { HeaderOfTwo(lines); }
    assert RStripAll(lines[0..2]) == [top, lang] by { RStripTwo(top, lang); }
    forall i | 2 <= i < |lines| ensures !IsBlankLine(lines[i]) { assert lines[i] == body[i - 2]; }
    BodyEndAll(lines, 2);
  }

  /** `odin_blocks` on a doc line, one more header line and a body that
      runs to the end of the input. */
  lemma ReadTwoHeader(top: string, lang: string, body: seq<string>, d: DocLine, lp: (string, string),
                      asWritten: bool)
    requires MatchDoc(top) == Some(d) && BestLangMatchWith([top, lang], asWritten) == Ok(lp)
    requires !EndsHeader(top) && !EndsHeader(lang) && RStrip(top) == top && RStrip(lang) == lang
    requires body != [] && EndsHeader(body[0])
    requires forall i :: 0 <= i < |body| ==> !IsBlankLine(body[i])
    ensures Blocks([top, lang] + body, asWritten) == ([NewBlock(d, Some(lp), ParseAll(body), [top, lang])], None)
  {
    var lines := [top, lang] + body;
    TwoHeaderBounds(top, lang, body);
    assert lines[0] == top;
    StepBlock(lines, 0, d, [top, lang], lp, 2, ParseAll(body), |lines|, asWritten);
    RestLast(lines, 0, asWritten);
  }

  lemma RStripTwo(a: string, c: string)
    requires RStrip(a) == a && RStrip(c) == c
    ensures RStripAll([a, c]) == [a, c]
  {
  }

  lemma ParseAllIs(body: seq<string>, parsed: seq<Option<OdinLine>>)
    requires |body| == |parsed|
    requires forall i :: 0 <= i < |body| ==> ParseOdinLine(body[i]) == parsed[i]
    ensures ParseAll(body) == parsed
  {
  }

  /** What `odin_blocks` needs of the two lines written at the top of a
      writable block. */
  lemma TopTwoRead(b: Block, x: string, y: string, asWritten: bool)
    requires Writable(b, x, y)
    ensures var top := TopLineWith(b, asWritten);
      && MatchDoc(top) == Some(DocLine(b.docId, ReadIgtId(b, asWritten), b.lineRange, b.lineTypes))
      && BestLangMatchWith([top, LangLine(b)], asWritten) == Ok((b.language.value, b.iso.value))
      && !EndsHeader(top) && RStrip(top) == top
    ensures !EndsHeader(LangLine(b)) && RStrip(LangLine(b)) == LangLine(b)
  {
    TopLineRead(b, x, y, asWritten);
    TopLineShape(b, x, y, asWritten);
    LangLineShape(b);
    HeaderLangRead(TopLineWith(b, asWritten), b.language.value, b.iso.value, asWritten);
  }

  /** `odin_blocks` on the lines of a formatted writable block. */
  lemma ReadParts(b: Block, x: string, y: string, body: seq<string>, asWritten: bool)
    requires Writable(b, x, y)
    requires |body| == |b.lines|
    requires forall i :: 0 <= i < |body| ==> ParseOdinLine(body[i]) == b.lines[i]
    requires forall i :: 0 <= i < |body| ==> EndsHeader(body[i]) && !IsBlankLine(body[i])
    ensures var top := TopLineWith(b, asWritten);
      Blocks([top, LangLine(b)] + body, asWritten)
      == ([b.(igtId := ReadIgtId(b, asWritten), headerLines := [top, LangLine(b)])], None)
  {
    var top := TopLineWith(b, asWritten);
    TopTwoRead(b, x, y, asWritten);
    ParseAllIs(body, b.lines);
    ReadTwoHeader(top, LangLine(b), body,
                  DocLine(b.docId, ReadIgtId(b, asWritten), b.lineRange, b.lineTypes),
                  (b.language.value, b.iso.value), asWritten);
  }

  /** Formatting a writable block and reading the text back with
      `odin_blocks` gives the block again, with the two lines written at its
      top as its header lines.  As written, a block without an IGT id comes
      back with the IGT id `None`; a block with one, or the program with
      the top line chosen as meant, gives the block back whole. */
  lemma FormatReadBack(b: Block, x: string, y: string, asWritten: bool)
    requires Writable(b, x, y)
    ensures FormatOdinIgtWith(b, asWritten).Ok?
    ensures var top := TopLineWith(b, asWritten);
      Blocks(SplitChar(FormatOdinIgtWith(b, asWritten).value, '\n'), asWritten)
      == ([b.(igtId := ReadIgtId(b, asWritten), headerLines := [top, LangLine(b)])], None)
    ensures asWritten && b.igtId.None? ==>
      Blocks(SplitChar(FormatOdinIgtWith(b, asWritten).value, '\n'), asWritten).0[0].igtId == Some("None")
    ensures !asWritten || b.igtId.Some? ==>
      Blocks(SplitChar(FormatOdinIgtWith(b, asWritten).value, '\n'), asWritten)
      == ([b.(headerLines := [TopLineWith(b, asWritten), LangLine(b)])], None)
  {
    FormattedBody(b, x, y);
    FormattedSplit(b, x, y, asWritten);
    ReadParts(b, x, y, FormatLines(b.lines).value, asWritten);
  }
}
