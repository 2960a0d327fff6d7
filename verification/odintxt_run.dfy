/**
 * odintxt.py, `process` and `run`: the IGT blocks read from each input are
 * numbered and stripped of their metadata as the options say, and handed
 * to the buffered writer under their doc id or their language code, so
 * that each output file collects the IGTs of one key in input order.
 *
 * An input file is a list of lines; the files that `run` may open are a
 * map from file name to lines, and standard input is a list of lines too.
 * The output directory is the map from file name to contents that the
 * writer appends to.
 */
module OdinTxtRun {
  import opened Py
  import opened OdinTxt
  import opened OdinTxtOut
  import opened OdinTxtWriter

  /** `--igt-meta`: keep or discard the header lines of each IGT. */
  datatype IgtMeta = Keep | Discard

  /** `--split-by`: the field whose value names an IGT's output file. */
  datatype SplitBy = ByDocId | ByIso

  /** The options `process` reads. */
  datatype Args = Args(igtMeta: IgtMeta, assignIgtIds: bool, firstId: int, splitBy: SplitBy)

  /** `default_split_key`. */
  const DefaultSplitKey: string := "_ungrouped_"

  // ---------------------------------------------------------------------
  // IGT ids

  /** `'igt{}-{}'.format(doc_id, n)`. */
  function IgtId(docId: string, n: int): string
  {
    "igt" + docId + "-" + IntToString(n)
  }

  /** In `a-b` with `b` all digits, the dash after `a` is the last one. */
  lemma LastDash(a: string, b: string)
    requires AllDigits(b)
    ensures (a + "-" + b)[|a|] == '-'
    ensures forall p :: |a| < p < |a + "-" + b| ==> (a + "-" + b)[p] != '-'
  {
    var s := a + "-" + b;
    forall p | |a| < p < |s| ensures s[p] != '-' {
      assert s[p] == b[p - |a| - 1];
    }
  }

  /** A dash followed by digits splits a string in one way only: the dash
      is the last one. */
  lemma DashDigitsSplit(a1: string, b1: string, a2: string, b2: string)
    requires AllDigits(b1) && AllDigits(b2)
    requires a1 + "-" + b1 == a2 + "-" + b2
    ensures a1 == a2 && b1 == b2
  {
    var s := a1 + "-" + b1;
    LastDash(a1, b1);
    LastDash(a2, b2);
    assert |a1| == |a2|;
    assert a1 == s[..|a1|] == a2;
    assert b1 == s[|a1| + 1..] == b2;
  }

  /** Ids with numbers of zero and above are told apart: the doc id and the
      number can be read back from the id. */
  lemma IgtIdInjective(d1: string, n1: int, d2: string, n2: int)
    requires n1 >= 0 && n2 >= 0
    ensures IgtId(d1, n1) == IgtId(d2, n2) ==> d1 == d2 && n1 == n2
  {
    if IgtId(d1, n1) == IgtId(d2, n2) {
      DashDigitsSplit("igt" + d1, NatToString(n1), "igt" + d2, NatToString(n2));
      assert d1 == ("igt" + d1)[3..] && d2 == ("igt" + d2)[3..];
      assert n1 == DigitsValue(NatToString(n1)) && n2 == DigitsValue(NatToString(n2));
    }
  }

  /** With a negative `--first-id` two IGTs of different documents can get
      the same id. */
  lemma IgtIdNegativeClash()
    ensures IgtId("a", -1) == IgtId("a-", 1)
  {
    assert NatToString(1) == "1";
    assert IntToString(-1) == "-1";
    assert IntToString(1) == "1";
  }

  // ---------------------------------------------------------------------
  // process

  /** What `process` does to the `i`-th block of a file before writing it:
      with `--assign-igt-ids` its id becomes `igt<doc id>-<first id + i>`,
      with `--igt-meta=discard` its header lines are dropped, and nothing
      else changes. */
  function Prepare(b: Block, i: nat, args: Args): (r: Block)
    ensures r.igtId == if args.assignIgtIds then Some(IgtId(b.docId, args.firstId + i)) else b.igtId
    ensures r.headerLines == if args.igtMeta == Discard then [] else b.headerLines
    ensures r == b.(igtId := r.igtId, headerLines := r.headerLines)
  {
    var b1 := if args.assignIgtIds then b.(igtId := Some(IgtId(b.docId, args.firstId + i))) else b;
    if args.igtMeta == Discard then b1.(headerLines := []) else b1
  }

  /** The blocks of one file as `process` writes them. */
  function Prepared(blocks: seq<Block>, args: Args): (r: seq<Block>)
    ensures |r| == |blocks|
  {
    seq(|blocks|, i requires 0 <= i < |blocks| => Prepare(blocks[i], i, args))
  }

  /** Ids assigned from a first id of zero or above are pairwise different
      within a file. */
  lemma PreparedIdsDistinct(blocks: seq<Block>, args: Args)
    requires args.assignIgtIds && args.firstId >= 0
    ensures forall i, j :: 0 <= i < j < |blocks| ==>
      Prepared(blocks, args)[i].igtId != Prepared(blocks, args)[j].igtId
  {
    forall i, j | 0 <= i < j < |blocks| ensures Prepared(blocks, args)[i].igtId != Prepared(blocks, args)[j].igtId {
      PreparedIdsApart(blocks, args, i, j);
    }
  }

  lemma PreparedIdsApart(blocks: seq<Block>, args: Args, i: nat, j: nat)
    requires args.assignIgtIds && args.firstId >= 0 && i < j < |blocks|
    ensures Prepared(blocks, args)[i].igtId != Prepared(blocks, args)[j].igtId
  {
    PreparedId(blocks, args, i);
    PreparedId(blocks, args, j);
    IgtIdInjective(blocks[i].docId, args.firstId + i, blocks[j].docId, args.firstId + j);
  }

  lemma PreparedId(blocks: seq<Block>, args: Args, i: nat)
    requires args.assignIgtIds && i < |blocks|
    ensures Prepared(blocks, args)[i].igtId == Some(IgtId(blocks[i].docId, args.firstId + i))
  {
    assert Prepared(blocks, args)[i] == Prepare(blocks[i], i, args);
  }

  /** `igt.get(args.split_by, default_split_key)` as written: every block
      has both fields, so the default is never taken, and a block without a
      language code has the key `None`. */
  function SplitKeyAsWritten(b: Block, split: SplitBy): (k: Option<string>)
    ensures k.None? <==> split == ByIso && b.iso.None?
    ensures k.Some? ==> k.value == SplitKey(b, split)
  {
    match split
    case ByDocId => Some(b.docId)
    case ByIso => b.iso
  }

  /** The key of a block: its doc id, or its language code, with a block
      whose language is unknown going to `default_split_key`. */
  function SplitKey(b: Block, split: SplitBy): string
  {
    match split
    case ByDocId => b.docId
    case ByIso => if b.iso.Some? then b.iso.value else DefaultSplitKey
  }

  /** The key `process` writes a block under: as written, or with a block
      whose language is unknown going to `default_split_key`. */
  function WriteKey(b: Block, split: SplitBy, asWritten: bool): (k: Option<string>)
    ensures k.None? <==> asWritten && split == ByIso && b.iso.None?
    ensures k.Some? ==> k.value == SplitKey(b, split)
  {
    if asWritten then SplitKeyAsWritten(b, split) else Some(SplitKey(b, split))
  }

  /** Under the key as written, a block without a language code makes the
      run raise: the write itself raises, or the final `flush()` meets the
      `None` key and raises AttributeError at `key.replace`. */
  lemma NoneKeyRaises(st: WriterState, b: Block)
    requires ValidState(st) && b.iso.None?
    ensures var (st1, e) := AfterWrite(st, SplitKeyAsWritten(b, ByIso), b);
      e.Some? || AfterFlush(st1, None).1.Some?
  {
    var st1 := Appended(st, None, b);
    assert None in st1.order;
    FlushNoneRaises(st1, st1.order);
  }

  /** The writes `process` makes for a list of prepared blocks, up to the
      first exception. */
  function WriteAll(st: WriterState, igts: seq<Block>, split: SplitBy, asWritten: bool): (WriterState, Option<PyError>)
    decreases |igts|
  {
    if igts == [] then (st, None)
    else
      var (st1, e) := AfterWrite(st, WriteKey(igts[0], split, asWritten), igts[0]);
      if e.Some? then (st1, e) else WriteAll(st1, igts[1..], split, asWritten)
  }

  /** What `odin_blocks` yields from one input: its blocks, and the
      exception that ends the iteration after them, if any. */
  type Read = (seq<Block>, Option<PyError>)

  /** `process(f, writer, args)` given what `odin_blocks` yields from `f`:
      every block is written; an exception of the writer ends it at once,
      and one of `odin_blocks` after the blocks yielded before it. */
  function Processed(st: WriterState, read: Read, args: Args, asWritten: bool): (WriterState, Option<PyError>)
  {
    var (st1, e) := WriteAll(st, Prepared(read.0, args), args.splitBy, asWritten);
    if e.Some? then (st1, e) else (st1, read.1)
  }

  /** The loop of `process`. */
  method WriteBlocks(blocks: seq<Block>, readErr: Option<PyError>, w: BufferedWriter, args: Args)
    returns (err: Option<PyError>)
    modifies w
    ensures (w.State(), err) == Processed(old(w.State()), (blocks, readErr), args, true)
  {
    ghost var igts := Prepared(blocks, args);
    var i := 0;
    while i < |blocks|
      invariant 0 <= i <= |blocks|
      invariant WriteAll(old(w.State()), igts, args.splitBy, true) == WriteAll(w.State(), igts[i..], args.splitBy, true)
    {
      assert igts[i..][0] == igts[i] && igts[i..][1..] == igts[i + 1..];
      var b := Prepare(blocks[i], i, args);
      err := w.Write(SplitKeyAsWritten(b, args.splitBy), b);
      if err.Some? {
        return;
      }
      i := i + 1;
    }
    err := readErr;
  }

  /** `process`. */
  method Process(lines: seq<string>, w: BufferedWriter, args: Args) returns (err: Option<PyError>)
    modifies w
    ensures (w.State(), err) == Processed(old(w.State()), Blocks(lines, true), args, true)
  {
    var blocks, e := OdinBlocks(lines);
    err := WriteBlocks(blocks, e, w, args);
  }

  // ---------------------------------------------------------------------
  // run

  /** Where `run` reads blocks from. */
  datatype Source = File(name: string) | Stdin

  /** The files named on the command line, or standard input when there
      are none. */
  function Sources(infiles: seq<string>): (r: seq<Source>)
    ensures |r| == if infiles == [] then 1 else |infiles|
    ensures infiles == [] ==> r == [Stdin]
    ensures forall n :: 0 <= n < |infiles| ==> r[n] == File(infiles[n])
  {
    if infiles == [] then [Stdin]
    else seq(|infiles|, i requires 0 <= i < |infiles| => File(infiles[i]))
  }

  /** `open(fn, 'r')` and its lines, or standard input; a file that does
      not exist raises.  As written, `sys.stdin` raises NameError, as `sys`
      is never imported; otherwise standard input is read, as the help
      text of `infiles` says. */
  function ReadSource(src: Source, fs: map<string, seq<string>>, stdin: seq<string>, asWritten: bool)
    : Outcome<seq<string>>
  {
    match src
    case Stdin => if asWritten then Raised(NameError) else Ok(stdin)
    case File(fn) => if fn in fs then Ok(fs[fn]) else Raised(OSError)
  }

  /** What each source yields, or the exception of opening it. What a
      source yields does not depend on what was written before it. */
  function ReadAll(srcs: seq<Source>, fs: map<string, seq<string>>, stdin: seq<string>, asWritten: bool)
    : (r: seq<Outcome<Read>>)
    ensures |r| == |srcs|
  {
    seq(|srcs|, n requires 0 <= n < |srcs| => ReadOne(srcs[n], fs, stdin, asWritten))
  }

  function ReadOne(src: Source, fs: map<string, seq<string>>, stdin: seq<string>, asWritten: bool): Outcome<Read>
  {
    match ReadSource(src, fs, stdin, asWritten)
    case Ok(lines) => Ok(Blocks(lines, asWritten))
    case Raised(e) => Raised(e)
  }

  /** One pass of the loop of `run`: the source is opened and processed. */
  function ProcessedOne(st: WriterState, input: Outcome<Read>, args: Args, asWritten: bool)
    : (WriterState, Option<PyError>)
  {
    match input
    case Raised(e) => (st, Some(e))
    case Ok(read) => Processed(st, read, args, asWritten)
  }

  /** The loop of `run` over its sources, up to the first exception. */
  function ProcessedAll(st: WriterState, inputs: seq<Outcome<Read>>, args: Args, asWritten: bool)
    : (WriterState, Option<PyError>)
    decreases |inputs|
  {
    if inputs == [] then (st, None)
    else
      var (st1, e) := ProcessedOne(st, inputs[0], args, asWritten);
      if e.Some? then (st1, e) else ProcessedAll(st1, inputs[1..], args, asWritten)
  }

  /** `run(args)`: the output directory afterwards, and the exception that
      ended the run. An exception leaves what is still buffered unwritten.
      `asWritten` selects the program as written, or the one that reads
      standard input, chooses stage-2 languages from the whole header line
      and writes blocks of unknown language under `default_split_key`. */
  function RunWith(infiles: seq<string>, fs: map<string, seq<string>>, stdin: seq<string>,
                   outdir: map<string, string>, args: Args, asWritten: bool): (map<string, string>, Option<PyError>)
  {
    var inputs := ReadAll(Sources(infiles), fs, stdin, asWritten);
    var (st, e) := ProcessedAll(WriterState([], map[], outdir), inputs, args, asWritten);
    if e.Some? then (st.files, e)
    else
      var (st1, e1) := AfterFlush(st, None);
      (st1.files, e1)
  }

  function RunAsWritten(infiles: seq<string>, fs: map<string, seq<string>>, stdin: seq<string>,
                        outdir: map<string, string>, args: Args): (map<string, string>, Option<PyError>)
  {
    RunWith(infiles, fs, stdin, outdir, args, true)
  }

  function Ran(infiles: seq<string>, fs: map<string, seq<string>>, stdin: seq<string>,
               outdir: map<string, string>, args: Args): (map<string, string>, Option<PyError>)
  {
    RunWith(infiles, fs, stdin, outdir, args, false)
  }

  /** Without input files, `run` as written raises NameError and writes
      nothing, where reading an empty standard input writes nothing and
      raises nothing. */
  lemma NoInfilesAsWritten(fs: map<string, seq<string>>, stdin: seq<string>, outdir: map<string, string>, args: Args)
    ensures RunAsWritten([], fs, stdin, outdir, args) == (outdir, Some(NameError))
    ensures Ran([], fs, [], outdir, args) == (outdir, None)
  {
    var st0 := WriterState([], map[], outdir);
    assert ReadAll([Stdin], fs, stdin, true) == [Raised(NameError)];
    var inputs := ReadAll([Stdin], fs, [], false);
    assert Blocks([], false) == ([], None);
    assert inputs == [Ok(([], None))];
    assert ProcessedAll(st0, inputs[1..], args, false) == (st0, None);
  }

  /** The body of the loop of `run`, for one source. */
  method ProcessSource(src: Source, fs: map<string, seq<string>>, stdin: seq<string>, w: BufferedWriter, args: Args)
    returns (err: Option<PyError>)
    modifies w
    ensures (w.State(), err) == ProcessedOne(old(w.State()), ReadOne(src, fs, stdin, true), args, true)
  {
    var lines: seq<string>;
    match src {
      case Stdin =>
        return Some(NameError);
      case File(fn) =>
        if fn !in fs {
          return Some(OSError);
        }
        lines := fs[fn];
    }
    err := Process(lines, w, args);
  }

  /** `run`. */
  method Run(infiles: seq<string>, fs: map<string, seq<string>>, stdin: seq<string>,
             outdir: map<string, string>, args: Args) returns (files: map<string, string>, err: Option<PyError>)
    ensures (files, err) == RunAsWritten(infiles, fs, stdin, outdir, args)
  {
    var w := new BufferedWriter(outdir);
    var srcs := Sources(infiles);
    ghost var inputs := ReadAll(srcs, fs, stdin, true);
    ghost var st0 := w.State();
    var i := 0;
    while i < |srcs|
      invariant 0 <= i <= |srcs|
      invariant ProcessedAll(st0, inputs, args, true) == ProcessedAll(w.State(), inputs[i..], args, true)
    {
      assert inputs[i..][0] == inputs[i] && inputs[i..][1..] == inputs[i + 1..];
      err := ProcessSource(srcs[i], fs, stdin, w, args);
      if err.Some? {
        return w.files, err;
      }
      i := i + 1;
    }
    err := w.Flush(None);
    files := w.files;
  }

  // ---------------------------------------------------------------------
  // What a run writes

  /** What printing one IGT writes to its file (nothing for an IGT that
      cannot be formatted, which raises instead). */
  function Shown(b: Block): string
  {
    match FormatOdinIgt(b)
    case Ok(t) => Printed(t)
    case Raised(_) => []
  }

  /** The text the IGTs of key `k` in a list print, one after the other. */
  function KeyText(igts: seq<Block>, k: string, split: SplitBy, asWritten: bool): string
  {
    if igts == [] then []
    else (if WriteKey(igts[0], split, asWritten) == Some(k) then Shown(igts[0]) else [])
         + KeyText(igts[1..], k, split, asWritten)
  }

  /** A key's text from two lists one after the other. */
  lemma {:induction false} KeyTextAppend(a: seq<Block>, b: seq<Block>, k: string, split: SplitBy, asWritten: bool)
    ensures KeyText(a + b, k, split, asWritten) == KeyText(a, k, split, asWritten) + KeyText(b, k, split, asWritten)
    decreases |a|
  {
    if a == [] {
      assert a + b == b;
    } else {
      assert (a + b)[0] == a[0] && (a + b)[1..] == a[1..] + b;
      KeyTextAppend(a[1..], b, k, split, asWritten);
    }
  }

  /** The pending text of each key of `ks` has grown by the text of its
      IGTs in `igts`. */
  predicate Grew(st: WriterState, st1: WriterState, ks: set<string>, igts: seq<Block>, split: SplitBy, asWritten: bool)
  {
    forall k :: k in ks ==> Pending(st1, k) == Pending(st, k) + KeyText(igts, k, split, asWritten)
  }

  /** Growing by one list and then another is growing by both. */
  lemma GrewTrans(st: WriterState, st1: WriterState, st2: WriterState, ks: set<string>,
                  a: seq<Block>, b: seq<Block>, split: SplitBy, asWritten: bool)
    requires Grew(st, st1, ks, a, split, asWritten) && Grew(st1, st2, ks, b, split, asWritten)
    ensures Grew(st, st2, ks, a + b, split, asWritten)
  {
    forall k | k in ks ensures Pending(st2, k) == Pending(st, k) + KeyText(a + b, k, split, asWritten) {
      KeyTextAppend(a, b, k, split, asWritten);
      Concat3(Pending(st, k), Pending(st1, k), Pending(st2, k),
              KeyText(a, k, split, asWritten), KeyText(b, k, split, asWritten));
    }
  }

  lemma Concat3(p0: string, p1: string, p2: string, t1: string, t2: string)
    requires p1 == p0 + t1 && p2 == p1 + t2
    ensures p2 == p0 + (t1 + t2)
  {
  }

  /** What a writer in good shape keeps through writes that raise nothing. */
  predicate Healthy(st: WriterState, ks: set<string>)
  {
    ValidState(st) && Formattable(st, ks) && PathsApart(ks)
  }

  /** A block that can be formatted and has a key, one of `ks`. */
  predicate KeyedIn(b: Block, split: SplitBy, ks: set<string>, asWritten: bool)
  {
    Parsed(b) && WriteKey(b, split, asWritten).Some? && WriteKey(b, split, asWritten).value in ks
  }

  /** One write of a formattable block under a key of `ks` raises
      nothing and keeps the writer in good shape ... */
  lemma WriteOne(st: WriterState, ks: set<string>, b: Block, split: SplitBy, asWritten: bool)
    requires Healthy(st, ks) && KeyedIn(b, split, ks, asWritten)
    ensures AfterWrite(st, WriteKey(b, split, asWritten), b).1 == None
    ensures Healthy(AfterWrite(st, WriteKey(b, split, asWritten), b).0, ks)
  {
    WriteFormattable(st, ks, WriteKey(b, split, asWritten), b);
  }

  /** ... and adds the block's text to the pending text of its key. */
  lemma WriteOneGrew(st: WriterState, ks: set<string>, b: Block, split: SplitBy, asWritten: bool)
    requires Healthy(st, ks) && KeyedIn(b, split, ks, asWritten)
    ensures Grew(st, AfterWrite(st, WriteKey(b, split, asWritten), b).0, ks, [b], split, asWritten)
  {
    var key := WriteKey(b, split, asWritten);
    WritePending(st, ks, key, b);
    var st1 := AfterWrite(st, key, b).0;
    forall k | k in ks ensures Pending(st1, k) == Pending(st, k) + KeyText([b], k, split, asWritten) {
      KeyTextOne(b, k, split, asWritten);
    }
  }

  /** The text of a one-IGT list. */
  lemma KeyTextOne(b: Block, k: string, split: SplitBy, asWritten: bool)
    requires Parsed(b)
    ensures KeyText([b], k, split, asWritten)
            == if WriteKey(b, split, asWritten) == Some(k) then Printed(FormatOdinIgt(b).value) else []
  {
    assert [b][1..] == [];
  }

  /** Every block read from an input can be written, under a key of
      `ks`, and nothing raises. */
  predicate Clean(read: Read, split: SplitBy, ks: set<string>, asWritten: bool)
  {
    read.1 == None && Writable(read.0, split, ks, asWritten)
  }

  /** Every IGT of a list can be formatted and has a key of `ks`. */
  predicate Writable(igts: seq<Block>, split: SplitBy, ks: set<string>, asWritten: bool)
  {
    forall i :: 0 <= i < |igts| ==> KeyedIn(igts[i], split, ks, asWritten)
  }

  lemma WritableTail(igts: seq<Block>, split: SplitBy, ks: set<string>, asWritten: bool)
    requires igts != [] && Writable(igts, split, ks, asWritten)
    ensures Writable(igts[1..], split, ks, asWritten)
  {
    forall i | 0 <= i < |igts[1..]| ensures igts[1..][i] == igts[i + 1] {
    }
  }

  lemma ConsTail(igts: seq<Block>)
    requires igts != []
    ensures [igts[0]] + igts[1..] == igts
  {
  }

  /** Writing a writable list raises nothing and keeps the writer in good
      shape ... */
  lemma {:induction false} WriteAllHealthy(st: WriterState, ks: set<string>, igts: seq<Block>, split: SplitBy,
                                           asWritten: bool)
    requires Healthy(st, ks) && Writable(igts, split, ks, asWritten)
    ensures WriteAll(st, igts, split, asWritten).1 == None
    ensures Healthy(WriteAll(st, igts, split, asWritten).0, ks)
    decreases |igts|
  {
    if igts != [] {
      var b := igts[0];
      WriteOne(st, ks, b, split, asWritten);
      WritableTail(igts, split, ks, asWritten);
      WriteAllHealthy(AfterWrite(st, WriteKey(b, split, asWritten), b).0, ks, igts[1..], split, asWritten);
    }
  }

  /** ... and adds each IGT's text to the pending text of its key. */
  lemma {:induction false} WriteAllPending(st: WriterState, ks: set<string>, igts: seq<Block>, split: SplitBy,
                                           asWritten: bool)
    requires Healthy(st, ks) && Writable(igts, split, ks, asWritten)
    ensures Grew(st, WriteAll(st, igts, split, asWritten).0, ks, igts, split, asWritten)
    decreases |igts|
  {
    if igts == [] {
      assert forall k :: KeyText([], k, split, asWritten) == [];
    } else {
      var b := igts[0];
      var st1 := AfterWrite(st, WriteKey(b, split, asWritten), b).0;
      WriteOne(st, ks, b, split, asWritten);
      WriteOneGrew(st, ks, b, split, asWritten);
      WritableTail(igts, split, ks, asWritten);
      WriteAllPending(st1, ks, igts[1..], split, asWritten);
      GrewTrans(st, st1, WriteAll(st1, igts[1..], split, asWritten).0, ks, [b], igts[1..], split, asWritten);
      ConsTail(igts);
    }
  }

  /** Preparing keeps the lines and the key of every block. */
  lemma PreparedWritable(blocks: seq<Block>, args: Args, ks: set<string>, asWritten: bool)
    requires Writable(blocks, args.splitBy, ks, asWritten)
    ensures Writable(Prepared(blocks, args), args.splitBy, ks, asWritten)
  {
    forall i | 0 <= i < |blocks| ensures Prepared(blocks, args)[i] == Prepare(blocks[i], i, args) {
    }
  }

  /** Processing a clean input raises nothing and adds the text of each of
      its blocks, as prepared, to the pending text of its key. */
  lemma ProcessedPending(st: WriterState, ks: set<string>, read: Read, args: Args, asWritten: bool)
    requires Healthy(st, ks) && Clean(read, args.splitBy, ks, asWritten)
    ensures Processed(st, read, args, asWritten).1 == None
    ensures Healthy(Processed(st, read, args, asWritten).0, ks)
    ensures Grew(st, Processed(st, read, args, asWritten).0, ks, Prepared(read.0, args), args.splitBy, asWritten)
  {
    PreparedWritable(read.0, args, ks, asWritten);
    WriteAllHealthy(st, ks, Prepared(read.0, args), args.splitBy, asWritten);
    WriteAllPending(st, ks, Prepared(read.0, args), args.splitBy, asWritten);
  }

  /** Every source can be opened and is clean. */
  predicate AllClean(inputs: seq<Outcome<Read>>, split: SplitBy, ks: set<string>, asWritten: bool)
  {
    forall n :: 0 <= n < |inputs| ==> inputs[n].Ok? && Clean(inputs[n].value, split, ks, asWritten)
  }

  /** The blocks of all sources, as prepared, in order. */
  function AllPrepared(inputs: seq<Outcome<Read>>, args: Args): seq<Block>
    decreases |inputs|
  {
    if inputs == [] then []
    else
      var first := match inputs[0]
        case Ok(read) => Prepared(read.0, args)
        case Raised(_) => [];
      first + AllPrepared(inputs[1..], args)
  }

  /** Processing clean sources one after the other. */
  lemma {:induction false} ProcessedAllPending(st: WriterState, ks: set<string>, inputs: seq<Outcome<Read>>,
                                               args: Args, asWritten: bool)
    requires Healthy(st, ks) && AllClean(inputs, args.splitBy, ks, asWritten)
    ensures ProcessedAll(st, inputs, args, asWritten).1 == None
    ensures Healthy(ProcessedAll(st, inputs, args, asWritten).0, ks)
    ensures Grew(st, ProcessedAll(st, inputs, args, asWritten).0, ks, AllPrepared(inputs, args), args.splitBy, asWritten)
    decreases |inputs|
  {
    if inputs == [] {
      assert forall k :: KeyText([], k, args.splitBy, asWritten) == [];
    } else {
      var read := inputs[0].value;
      ProcessedPending(st, ks, read, args, asWritten);
      var st1 := Processed(st, read, args, asWritten).0;
      assert AllClean(inputs[1..], args.splitBy, ks, asWritten) by {
        forall n | 0 <= n < |inputs[1..]| ensures inputs[1..][n] == inputs[n + 1] {
        }
      }
      ProcessedAllPending(st1, ks, inputs[1..], args, asWritten);
      GrewTrans(st, st1, ProcessedAll(st1, inputs[1..], args, asWritten).0, ks,
                Prepared(read.0, args), AllPrepared(inputs[1..], args), args.splitBy, asWritten);
    }
  }

  /** A run over clean inputs whose keys have files of their own raises
      nothing, and leaves in the file of each key what the file held
      before, followed by the IGTs of that key in the order they were
      read, each formatted as `format_odin_igt` does and followed by a
      blank line.  As written, clean inputs are named files whose blocks
      all have a key, which under `--split-by iso-639-3` means a language
      code; otherwise standard input may be read and a block of unknown
      language goes to `default_split_key`. */
  lemma RunGroups(infiles: seq<string>, fs: map<string, seq<string>>, stdin: seq<string>,
                  outdir: map<string, string>, args: Args, ks: set<string>, asWritten: bool)
    requires PathsApart(ks) && AllClean(ReadAll(Sources(infiles), fs, stdin, asWritten), args.splitBy, ks, asWritten)
    ensures RunWith(infiles, fs, stdin, outdir, args, asWritten).1 == None
    ensures forall k :: k in ks ==>
      FileText(RunWith(infiles, fs, stdin, outdir, args, asWritten).0, Path(k)) ==
      FileText(outdir, Path(k))
      + KeyText(AllPrepared(ReadAll(Sources(infiles), fs, stdin, asWritten), args), k, args.splitBy, asWritten)
  {
    var st0 := WriterState([], map[], outdir);
    var inputs := ReadAll(Sources(infiles), fs, stdin, asWritten);
    ProcessedAllPending(st0, ks, inputs, args, asWritten);
    var st := ProcessedAll(st0, inputs, args, asWritten).0;
    FlushAllEmpties(st, ks);
    FlushAllPending(st, ks);
    forall k | k in ks ensures Pending(st0, k) == FileText(outdir, Path(k)) {
      assert Bucket(st0, Some(k)) == [] && Formatted([]) == [];
    }
  }

  /** As written, a run over clean inputs reads named files only. */
  lemma CleanAsWrittenNamesFiles(infiles: seq<string>, fs: map<string, seq<string>>, stdin: seq<string>,
                                 args: Args, ks: set<string>)
    requires AllClean(ReadAll(Sources(infiles), fs, stdin, true), args.splitBy, ks, true)
    ensures infiles != [] && forall n :: 0 <= n < |infiles| ==> infiles[n] in fs
  {
    var inputs := ReadAll(Sources(infiles), fs, stdin, true);
    assert ReadOne(Sources(infiles)[0], fs, stdin, true).Ok? by {
      assert inputs[0].Ok?;
    }
    forall n | 0 <= n < |infiles| ensures infiles[n] in fs {
      assert inputs[n] == ReadOne(File(infiles[n]), fs, stdin, true);
    }
  }

  /** Keys without a colon each have a file of their own. */
  lemma ColonFreeApart(ks: set<string>)
    requires forall k :: k in ks ==> ':' !in k
    ensures PathsApart(ks)
  {
    forall k1, k2 | k1 in ks && k2 in ks && k1 != k2 ensures Path(k1) != Path(k2) {
      PathApart(k1, k2);
    }
  }
}
