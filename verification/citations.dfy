/**
 * citations.py: a database of citation properties, read from blocks made of
 * a `doc_id=<id>` line and `<key>: <value>` lines, updated from a
 * tab-separated table, and printed back in the same block format.
 */
module Citations {
  import opened Py
  import opened Dicts
  import opened Sorting

  /** One document's properties, in insertion order (an `OrderedDict`). */
  type Entry = ODict<string, string>

  /** Doc-ids and their entries (a `defaultdict(OrderedDict)`). */
  type Db = ODict<string, Entry>

  ghost predicate DbValid(db: Db)
  {
    db.Valid() && forall d :: d in db.vals ==> db.vals[d].Valid()
  }

  /** `db[docid]` as read from the defaultdict: the entry, or a new empty one. */
  function Get(db: Db, docid: string): (e: Entry)
    requires DbValid(db)
    ensures e.Valid()
  {
    if docid in db.vals then db.vals[docid] else Empty()
  }

  /** `db[docid][key] = val`: the entry is created on first use. */
  function Store(db: Db, docid: string, key: string, val: string): (r: Db)
    requires DbValid(db)
    ensures DbValid(r)
  {
    Put(db, docid, Put(Get(db, docid), key, val))
  }

  /** A store sets one property of one document.  A document seen before
      keeps its place and its other properties; a property seen before keeps
      its place and takes the new value. */
  lemma StoreSpec(db: Db, docid: string, key: string, val: string)
    requires DbValid(db)
    ensures var r := Store(db, docid, key, val);
      && (forall d :: d in r.vals <==> d in db.vals || d == docid)
      && (forall d :: d in db.vals && d != docid ==> r.vals[d] == db.vals[d])
      && (docid in db.vals ==> r.keys == db.keys)
      && (docid !in db.vals ==> r.keys == db.keys + [docid])
      && r.vals[docid].vals == Get(db, docid).vals[key := val]
      && (key in Get(db, docid).vals ==> r.vals[docid].keys == Get(db, docid).keys)
      && (key !in Get(db, docid).vals ==> r.vals[docid].keys == Get(db, docid).keys + [key])
  {
  }

  // ---------------------------------------------------------------------
  // load_citations

  /** The reading loop's state: the database so far and the current doc-id
      (`None` outside a block). */
  datatype Reader = Reader(db: Db, docid: Option<string>)

  /** What reading guarantees of its results: no document without
      properties, and doc-ids, keys and values free of surrounding
      whitespace. */
  ghost predicate Tidy(db: Db)
  {
    forall d :: d in db.vals ==> TidyEntry(d, db.vals[d])
  }

  ghost predicate TidyEntry(d: string, e: Entry)
  {
    e.keys != [] && Strip(d) == d && StrippedProps(e)
  }

  ghost predicate StrippedProps(e: Entry)
  {
    forall k :: k in e.vals ==> Strip(k) == k && Strip(e.vals[k]) == e.vals[k]
  }

  ghost predicate TidyReader(r: Reader)
  {
    DbValid(r.db) && Tidy(r.db) && (r.docid.Some? ==> Strip(r.docid.value) == r.docid.value)
  }

  /** One line of `load_citations`.  `Raised(ValueError)` where unpacking a
      split fails: a `doc_id` line whose `=` count is not one, or a property
      line without `:`. */
  function ReadLine(r: Reader, line: string): (o: Outcome<Reader>)
    requires DbValid(r.db)
    ensures o.Ok? ==> DbValid(o.value.db)
    ensures o.Raised? ==> o.error == ValueError
  {
    var s := Strip(line);
    if s == [] then Ok(Reader(r.db, None))
    else if StartsWith(s, "doc_id") then
      var parts := SplitChar(s, '=');
      if |parts| != 2 then Raised(ValueError) else Ok(Reader(r.db, Some(Strip(parts[1]))))
    else if r.docid.None? then Ok(r)
    else match SplitOnce(s, ':')
      case None => Raised(ValueError)
      case Some((key, val)) => Ok(Reader(Store(r.db, r.docid.value, Strip(key), Strip(val)), r.docid))
  }

  /** A line keeps the state tidy: what it stores or starts is stripped. */
  lemma ReadLineTidy(r: Reader, line: string)
    requires TidyReader(r)
    ensures ReadLine(r, line).Ok? ==> TidyReader(ReadLine(r, line).value)
  {
    var s := Strip(line);
    if s != [] && StartsWith(s, "doc_id") {
      var parts := SplitChar(s, '=');
      if |parts| == 2 {
        StripIdempotent(parts[1]);
      }
    } else if s != [] && r.docid.Some? && SplitOnce(s, ':').Some? {
      var (key, val) := SplitOnce(s, ':').value;
      StripIdempotent(key);
      StripIdempotent(val);
      StoreTidy(r.db, r.docid.value, Strip(key), Strip(val));
    }
  }

  lemma StoreTidy(db: Db, docid: string, key: string, val: string)
    requires DbValid(db) && Tidy(db)
    requires Strip(docid) == docid && Strip(key) == key && Strip(val) == val
    ensures Tidy(Store(db, docid, key, val))
  {
    var e := Get(db, docid);
    assert StrippedProps(e);
    PutStripped(e, key, val);
  }

  lemma PutStripped(e: Entry, key: string, val: string)
    requires e.Valid() && StrippedProps(e) && Strip(key) == key && Strip(val) == val
    ensures StrippedProps(Put(e, key, val)) && Put(e, key, val).keys != []
  {
  }

  /** The reading loop over `lines`. */
  function Read(r: Reader, lines: seq<string>): (o: Outcome<Reader>)
    requires DbValid(r.db)
    ensures o.Ok? ==> DbValid(o.value.db)
    ensures o.Raised? ==> o.error == ValueError
    decreases |lines|
  {
    if lines == [] then Ok(r)
    else match Read(r, lines[..|lines| - 1])
      case Raised(e) => Raised(e)
      case Ok(r1) => ReadLine(r1, lines[|lines| - 1])
  }

  lemma {:induction false} ReadTidy(r: Reader, lines: seq<string>)
    requires TidyReader(r)
    ensures Read(r, lines).Ok? ==> TidyReader(Read(r, lines).value)
    decreases |lines|
  {
    if lines != [] {
      var p := lines[..|lines| - 1];
      ReadTidy(r, p);
      if Read(r, p).Ok? {
        ReadLineTidy(Read(r, p).value, lines[|lines| - 1]);
      }
    }
  }

  function Start(): (r: Reader)
    ensures TidyReader(r) && r.db.keys == []
  {
    Reader(Empty(), None)
  }

  /** `load_citations(fn)` over the lines of the file.  Whatever it loads is
      tidy. */
  function Loaded(lines: seq<string>): (o: Outcome<Db>)
    ensures o.Raised? ==> o.error == ValueError
    ensures o.Ok? ==> DbValid(o.value) && Tidy(o.value)
  {
    ReadTidy(Start(), lines);
    match Read(Start(), lines)
    case Raised(e) => Raised(e)
    case Ok(r) => Ok(r.db)
  }

  /** Once reading has failed, the lines after do not matter. */
  lemma {:induction false} ReadRaisedPrefix(r: Reader, lines: seq<string>, i: nat)
    requires DbValid(r.db) && i <= |lines|
    requires Read(r, lines[..i]).Raised?
    ensures Read(r, lines) == Read(r, lines[..i])
    decreases |lines|
  {
    if i < |lines| {
      var p := lines[..|lines| - 1];
      assert p[..i] == lines[..i];
      ReadRaisedPrefix(r, p, i);
    } else {
      assert lines[..i] == lines;
    }
  }

  /** Reading `a + b` is reading `a`, then `b` from where `a` left off. */
  lemma {:induction false} ReadAppend(r: Reader, a: seq<string>, b: seq<string>)
    requires DbValid(r.db)
    ensures Read(r, a + b) == match Read(r, a)
      case Raised(e) => Raised(e)
      case Ok(r1) => Read(r1, b)
    decreases |b|
  {
    if b == [] {
      assert a + b == a;
    } else {
      var b1 := b[..|b| - 1];
      assert (a + b)[..|a + b| - 1] == a + b1;
      assert (a + b)[|a + b| - 1] == b[|b| - 1];
      ReadAppend(r, a, b1);
    }
  }

  /** `load_citations`: the loop over the lines with the current doc-id. */
  method LoadCitations(lines: seq<string>) returns (r: Outcome<Db>)
    ensures r == Loaded(lines)
  {
    var db: Db := Empty();
    var docid: Option<string> := None;
    for i := 0 to |lines|
      invariant DbValid(db)
      invariant Read(Start(), lines[..i]) == Ok(Reader(db, docid))
    {
      assert lines[..i + 1][..i] == lines[..i];
      var line := Strip(lines[i]);
      if line == [] {
        docid := None;
      } else if StartsWith(line, "doc_id") {
        var parts := SplitChar(line, '=');
        if |parts| != 2 {
          ReadRaisedPrefix(Start(), lines, i + 1);
          return Raised(ValueError);
        }
        docid := Some(Strip(parts[1]));
      } else if docid.None? {
        // logged as a property without a doc-id, and skipped
      } else {
        var kv := SplitOnce(line, ':');
        if kv.None? {
          ReadRaisedPrefix(Start(), lines, i + 1);
          return Raised(ValueError);
        }
        db := Store(db, docid.value, Strip(kv.value.0), Strip(kv.value.1));
      }
    }
    assert lines[..|lines|] == lines;
    r := Ok(db);
  }

  /** `s.split(c)` unpacks into two names exactly when `c` occurs once; the
      second name is then what follows it. */
  lemma SplitTwo(s: string, c: char)
    ensures |SplitChar(s, c)| == 2 <==> SplitOnce(s, c).Some? && c !in SplitOnce(s, c).value.1
    ensures |SplitChar(s, c)| == 2 ==> SplitChar(s, c)[1] == SplitOnce(s, c).value.1
  {
    if c in s {
      var i := IndexOf(s, c);
      assert SplitChar(s, c) == [s[..i]] + SplitChar(s[i + 1..], c);
    }
  }

  /** What one line does: a blank line ends the block; a `doc_id` line with
      a single `=` starts the block of the stripped text after it; a
      property line outside a block is skipped; a property line inside one
      is split at its first `:` and stored stripped, and raises without a
      `:`. */
  lemma ReadLineSpec(r: Reader, line: string)
    requires DbValid(r.db)
    ensures var s := Strip(line); var o := ReadLine(r, line);
      && (IsBlank(line) ==> o == Ok(Reader(r.db, None)))
      && (StartsWith(s, "doc_id") ==>
            && (o.Ok? <==> SplitOnce(s, '=').Some? && '=' !in SplitOnce(s, '=').value.1)
            && (o.Ok? ==> o.value == Reader(r.db, Some(Strip(SplitOnce(s, '=').value.1)))))
      && (!IsBlank(line) && !StartsWith(s, "doc_id") && r.docid.None? ==> o == Ok(r))
      && (!IsBlank(line) && !StartsWith(s, "doc_id") && r.docid.Some? ==>
            && (o.Ok? <==> ':' in s)
            && (o.Ok? ==> o.value == Reader(
                  Store(r.db, r.docid.value, Strip(SplitOnce(s, ':').value.0), Strip(SplitOnce(s, ':').value.1)),
                  r.docid)))
  {
    StripSpec(line);
    SplitTwo(Strip(line), '=');
  }

  // ---------------------------------------------------------------------
  // print_citations

  /** `safe_int(d)` returns an int: Python's `int()` accepts the doc-id. */
  predicate Numeric(d: string)
  {
    ParseInt(d).Some?
  }

  /** The sort key `safe_int` gives a doc-id: its value, or the string. */
  function DocKey(d: string): Key
  {
    if Numeric(d) then [ParseInt(d).value] else StrKey(d)
  }

  /** How doc-ids compare once they have their `safe_int` keys. */
  predicate DocLeq(a: string, b: string)
  {
    if Numeric(a) && Numeric(b) then ParseInt(a).value <= ParseInt(b).value else StrLeq(a, b)
  }

  function Keyed(ds: seq<string>): (r: seq<(Key, string)>)
    ensures |r| == |ds|
    ensures forall i :: 0 <= i < |ds| ==> r[i] == (DocKey(ds[i]), ds[i])
  {
    seq(|ds|, i requires 0 <= i < |ds| => (DocKey(ds[i]), ds[i]))
  }

  /** `sorted(db, key=safe_int)` over the doc-ids in insertion order;
      `Raised(TypeError)` where an int key would be compared with a str
      key, which happens as soon as both kinds are present. */
  function Order(ds: seq<string>): (r: Outcome<seq<string>>)
  {
    if (forall i :: 0 <= i < |ds| ==> Numeric(ds[i])) || (forall i :: 0 <= i < |ds| ==> !Numeric(ds[i])) then
      Ok(Elems(Sort(Keyed(ds))))
    else Raised(TypeError)
  }

  /** The order fails exactly on a mix of numeric and other doc-ids;
      otherwise it holds the same doc-ids, ascending by value when all are
      numeric and as strings when none is. */
  lemma OrderSpec(ds: seq<string>)
    ensures Order(ds).Raised? <==>
      (exists i :: 0 <= i < |ds| && Numeric(ds[i])) && (exists j :: 0 <= j < |ds| && !Numeric(ds[j]))
    ensures Order(ds).Ok? ==> multiset(Order(ds).value) == multiset(ds)
    ensures Order(ds).Ok? ==> forall i, j :: 0 <= i < j < |Order(ds).value| ==>
      DocLeq(Order(ds).value[i], Order(ds).value[j])
  {
    if Order(ds).Ok? {
      var kd := Keyed(ds);
      var t := Sort(kd);
      var o := Elems(t);
      SortElems(kd);
      assert Elems(kd) == ds;
      forall i, j | 0 <= i < j < |o| ensures DocLeq(o[i], o[j]) {
        SortedPairKeys(kd, t, i);
        SortedPairKeys(kd, t, j);
        assert KeyLeq(t[i].0, t[j].0);
        assert o[i] in multiset(ds) && o[j] in multiset(ds);
        var a, b := o[i], o[j];
        if Numeric(a) && Numeric(b) {
        } else {
          assert !Numeric(a) && !Numeric(b);
          StrKeyLeq(a, b);
        }
      }
    }
  }

  /** Every element of the sorted doc-ids carries its own key. */
  lemma SortedPairKeys(kd: seq<(Key, string)>, t: seq<(Key, string)>, i: nat)
    requires forall k :: 0 <= k < |kd| ==> kd[k].0 == DocKey(kd[k].1)
    requires multiset(t) == multiset(kd) && i < |t|
    ensures t[i].0 == DocKey(t[i].1)
  {
    assert t[i] in multiset(kd);
  }

  /** `'{}: {}'.format(key, val)`. */
  function PropLine(key: string, val: string): string
  {
    key + ": " + val
  }

  /** The property lines of an entry, one per item in order. */
  function PropLines(e: Entry): (r: seq<string>)
    requires e.Valid()
    ensures |r| == |e.keys|
    ensures forall i :: 0 <= i < |r| ==> r[i] == PropLine(e.keys[i], e.vals[e.keys[i]])
  {
    seq(|e.keys|, i requires 0 <= i < |e.keys| => PropLine(e.keys[i], e.vals[e.keys[i]]))
  }

  /** What `print_citations` prints for one document, the blank line after
      it included. */
  function BlockLines(docid: string, e: Entry): seq<string>
    requires e.Valid()
  {
    ["doc_id=" + docid] + PropLines(e) + [""]
  }

  /** Entries for every doc-id listed. */
  ghost predicate Covers(m: map<string, Entry>, ds: seq<string>)
  {
    forall d :: d in ds ==> d in m && m[d].Valid()
  }

  /** The blocks of the listed doc-ids, in the order listed. */
  function BlocksOf(m: map<string, Entry>, ds: seq<string>): seq<string>
    requires Covers(m, ds)
  {
    if ds == [] then []
    else BlocksOf(m, ds[..|ds| - 1]) + BlockLines(ds[|ds| - 1], m[ds[|ds| - 1]])
  }

  /** The ordered doc-ids are doc-ids of the database. */
  lemma OrderMembers(db: Db)
    requires DbValid(db) && Order(db.keys).Ok?
    ensures Covers(db.vals, Order(db.keys).value)
  {
    OrderSpec(db.keys);
    forall d | d in Order(db.keys).value ensures d in db.vals {
      assert d in multiset(Order(db.keys).value);
    }
  }

  /** The lines `print_citations(db)` prints, or the error sorting raises. */
  function Printed(db: Db): (o: Outcome<seq<string>>)
    requires DbValid(db)
    ensures o.Raised? ==> o.error == TypeError
  {
    match Order(db.keys)
    case Raised(e) => Raised(e)
    case Ok(ds) =>
      OrderMembers(db);
      Ok(BlocksOf(db.vals, ds))
  }

  /** The lines printed for one document. */
  method PrintBlock(docid: string, e: Entry) returns (block: seq<string>)
    requires e.Valid()
    ensures block == BlockLines(docid, e)
  {
    block := ["doc_id=" + docid];
    for j := 0 to |e.keys|
      invariant block == ["doc_id=" + docid] + PropLines(e)[..j]
    {
      block := block + [PropLine(e.keys[j], e.vals[e.keys[j]])];
      assert PropLines(e)[..j + 1] == PropLines(e)[..j] + [PropLines(e)[j]];
    }
    assert PropLines(e)[..|e.keys|] == PropLines(e);
    block := block + [""];
  }

  /** `print_citations`: the doc-ids in order, each with its properties. */
  method PrintCitations(db: Db) returns (r: Outcome<seq<string>>)
    requires DbValid(db)
    ensures r == Printed(db)
  {
    var order := Order(db.keys);
    if order.Raised? {
      return Raised(order.error);
    }
    var ds := order.value;
    OrderMembers(db);
    var out: seq<string> := [];
    for i := 0 to |ds|
      invariant out == BlocksOf(db.vals, ds[..i])
    {
      var block := PrintBlock(ds[i], db.vals[ds[i]]);
      assert ds[..i + 1][..i] == ds[..i];
      out := out + block;
    }
    assert ds[..|ds|] == ds;
    r := Ok(out);
  }

  // ---------------------------------------------------------------------
  // The printed text read back

  /** What `print` writes for the lines: each followed by a newline. */
  function Text(lines: seq<string>): string
  {
    if lines == [] then "" else lines[0] + "\n" + Text(lines[1..])
  }

  /** Python's universal newlines on reading text: `\r\n` and a lone `\r`
      are read as `\n`. */
  function Newlines(t: string): string
    decreases |t|
  {
    if t == [] then []
    else if t[0] == '\r' then "\n" + Newlines(if |t| > 1 && t[1] == '\n' then t[2..] else t[1..])
    else [t[0]] + Newlines(t[1..])
  }

  /** The lines iterating over a text file gives, without their line ends
      (which the readers strip). */
  function FileLines(t: string): seq<string>
  {
    var ps := SplitChar(Newlines(t), '\n');
    if ps[|ps| - 1] == [] then ps[..|ps| - 1] else ps
  }

  /** A line that stays one line when written and read back. */
  predicate OneLine(s: string)
  {
    '\n' !in s && '\r' !in s
  }

  lemma {:induction false} NewlinesPlain(t: string)
    requires '\r' !in t
    ensures Newlines(t) == t
  {
    if t != [] {
      NewlinesPlain(t[1..]);
      assert t == [t[0]] + t[1..];
    }
  }

  lemma {:induction false} TextJoin(lines: seq<string>)
    ensures Text(lines) == JoinChar(lines + [""], '\n')
    ensures (forall i :: 0 <= i < |lines| ==> '\r' !in lines[i]) ==> '\r' !in Text(lines)
  {
    if lines != [] {
      TextJoin(lines[1..]);
      assert (lines + [""])[1..] == lines[1..] + [""];
      assert (lines + [""])[0] == lines[0];
    }
  }

  /** Written lines are read back as they were. */
  lemma TextLines(lines: seq<string>)
    requires AllOneLine(lines)
    ensures FileLines(Text(lines)) == lines
  {
    var t := Text(lines);
    var ps := lines + [""];
    assert t == JoinChar(ps, '\n') && '\r' !in t by {
      TextJoin(lines);
    }
    assert Newlines(t) == t by {
      NewlinesPlain(t);
    }
    assert SplitChar(t, '\n') == ps by {
      assert forall i :: 0 <= i < |ps| ==> '\n' !in ps[i];
      SplitJoinChar(ps, '\n');
    }
    assert ps[..|ps| - 1] == lines;
  }

  // ---------------------------------------------------------------------
  // Printing, then loading

  /** A doc-id that survives its `doc_id=` line: one `=` splits it off and
      stripping leaves it as it is. */
  predicate DocSafe(d: string)
  {
    OneLine(d) && '=' !in d && Strip(d) == d
  }

  /** A key its property line gives back: split off at the first `:`, not
      read as a `doc_id` line, and unchanged by stripping. */
  predicate KeySafe(k: string)
  {
    OneLine(k) && ':' !in k && Strip(k) == k && !StartsWith(k, "doc_id")
  }

  predicate ValSafe(v: string)
  {
    OneLine(v) && Strip(v) == v
  }

  /** An entry whose block reads back as it is: a block without properties
      leaves nothing behind. */
  ghost predicate EntrySafe(e: Entry)
  {
    e.Valid() && e.keys != [] && forall k :: k in e.vals ==> KeySafe(k) && ValSafe(e.vals[k])
  }

  /** A database `print_citations` prints and `load_citations` reads back. */
  ghost predicate Printable(db: Db)
  {
    DbValid(db) && Order(db.keys).Ok? && forall d :: d in db.vals ==> DocSafe(d) && EntrySafe(db.vals[d])
  }

  ghost predicate AllOneLine(lines: seq<string>)
  {
    forall i :: 0 <= i < |lines| ==> OneLine(lines[i])
  }

  lemma NotDocLine(k: string, rest: string)
    requires ':' !in k && !StartsWith(k, "doc_id")
    ensures !StartsWith(k + [':'] + rest, "doc_id")
  {
    var s := k + [':'] + rest;
    if |k| >= 6 {
      assert s[..6] == k[..6];
    } else {
      assert s[|k|] == ':';
    }
  }

  lemma StrippedEnds(s: string)
    requires Strip(s) == s && s != []
    ensures !IsSpace(s[0]) && !IsSpace(s[|s| - 1])
  {
    StripSpec(s);
  }

  /** A `doc_id` line, already stripped, whose one `=` is followed by the
      stripped doc-id `d`. */
  ghost predicate DocLineOf(line: string, d: string)
  {
    Strip(line) == line && line != [] && StartsWith(line, "doc_id")
    && SplitChar(line, '=') == ["doc_id", d] && Strip(d) == d
  }

  /** Such a line starts the block of its doc-id. */
  lemma ReadDocLine(r: Reader, line: string, d: string)
    requires DbValid(r.db) && DocLineOf(line, d)
    ensures ReadLine(r, line) == Ok(Reader(r.db, Some(d)))
  {
  }

  /** The line `print_citations` prints for a doc-id is one. */
  lemma DocLineIs(d: string)
    requires DocSafe(d)
    ensures DocLineOf("doc_id=" + d, d)
  {
    DocLineSplit(d);
    DocLineStrip(d);
  }

  lemma DocLineStrip(d: string)
    requires DocSafe(d)
    ensures Strip("doc_id=" + d) == "doc_id=" + d
  {
    if d != [] {
      StrippedEnds(d);
    }
    StripNoop("doc_id=" + d);
  }

  lemma DocLineSplit(d: string)
    requires '=' !in d
    ensures StartsWith("doc_id=" + d, "doc_id")
    ensures SplitChar("doc_id=" + d, '=') == ["doc_id", d]
  {
    var line := "doc_id=" + d;
    assert line[..6] == "doc_id";
    assert line == "doc_id" + ['='] + d;
    SplitOnceIs("doc_id", '=', d);
    SplitTwo(line, '=');
    var ps := SplitChar(line, '=');
    assert line == ps[0] + ['='] + ps[1];
  }

  /** A printed `doc_id` line starts the block of its doc-id. */
  lemma DocLineRead(r: Reader, d: string)
    requires DbValid(r.db) && DocSafe(d)
    ensures ReadLine(r, "doc_id=" + d) == Ok(Reader(r.db, Some(d)))
  {
    DocLineIs(d);
    ReadDocLine(r, "doc_id=" + d, d);
  }

  /** A line whose stripped text is a property line splitting at its first
      `:` into `key` and `rest`. */
  ghost predicate PropLineOf(line: string, key: string, rest: string)
  {
    Strip(line) != [] && !StartsWith(Strip(line), "doc_id") && SplitOnce(Strip(line), ':') == Some((key, rest))
  }

  /** Inside a block such a line stores the stripped key and value. */
  lemma ReadPropLine(r: Reader, line: string, d: string, key: string, rest: string)
    requires DbValid(r.db) && r.docid == Some(d) && PropLineOf(line, key, rest)
    ensures ReadLine(r, line) == Ok(Reader(Store(r.db, d, Strip(key), Strip(rest)), Some(d)))
  {
  }

  /** What stripping leaves of a printed property line: all of it, but the
      space before an empty value. */
  function PropCore(k: string, v: string): string
  {
    if v == [] then k + [':'] else PropLine(k, v)
  }

  /** The shape of a property line: the key, a colon, a space, the value. */
  lemma PropLineShape(k: string, v: string)
    ensures PropLine(k, v) == k + [':'] + (" " + v)
    ensures PropLine(k, v)[0] == if k == [] then ':' else k[0]
    ensures v != [] ==> PropLine(k, v)[|PropLine(k, v)| - 1] == v[|v| - 1]
  {
  }

  lemma PropLineStrip(k: string, v: string)
    requires KeySafe(k) && ValSafe(v)
    ensures Strip(PropLine(k, v)) == PropCore(k, v)
  {
    if k != [] {
      StrippedEnds(k);
    }
    if v == [] {
      EmptyPropStrip(k);
    } else {
      StrippedEnds(v);
      FullPropStrip(k, v);
    }
  }

  lemma EmptyPropStrip(k: string)
    requires k == [] || !IsSpace(k[0])
    ensures Strip(PropLine(k, [])) == k + [':']
  {
    assert PropLine(k, []) == [] + (k + [':']) + " ";
    StripAround([], k + [':'], " ");
  }

  lemma FullPropStrip(k: string, v: string)
    requires k == [] || !IsSpace(k[0])
    requires v != [] && !IsSpace(v[|v| - 1])
    ensures Strip(PropLine(k, v)) == PropLine(k, v)
  {
    var s := PropLine(k, v);
    PropLineEnds(k, v);
    assert !IsSpace(s[0]);
    StripNoop(s);
  }
  lemma PropLineEnds(k: string, v: string)
    requires v != []
    ensures PropLine(k, v) != []
    ensures PropLine(k, v)[0] == if k == [] then ':' else k[0]
    ensures PropLine(k, v)[|PropLine(k, v)| - 1] == v[|v| - 1]
  {
  }

  lemma PropCoreSplit(k: string, v: string)
    requires KeySafe(k)
    ensures PropCore(k, v) != [] && !StartsWith(PropCore(k, v), "doc_id")
    ensures SplitOnce(PropCore(k, v), ':') == Some((k, if v == [] then [] else " " + v))
  {
    var rest := if v == [] then [] else " " + v;
    PropLineShape(k, v);
    assert PropCore(k, v) == k + [':'] + rest;
    SplitOnceIs(k, ':', rest);
    NotDocLine(k, rest);
  }

  /** A printed property line is one, with the key and the value after a
      space. */
  lemma PropLineIs(k: string, v: string)
    requires KeySafe(k) && ValSafe(v)
    ensures PropLineOf(PropLine(k, v), k, if v == [] then [] else " " + v)
  {
    PropLineStrip(k, v);
    PropCoreSplit(k, v);
  }

  lemma PropValStrip(v: string)
    requires ValSafe(v)
    ensures Strip(if v == [] then [] else " " + v) == v
  {
    if v == [] {
      StripNoop([]);
    } else {
      StrippedEnds(v);
      assert " " + v == " " + v + [];
      StripAround(" ", v, []);
    }
  }

  /** A printed property line stores its key and value under the current
      doc-id. */
  lemma PropLineRead(r: Reader, d: string, k: string, v: string)
    requires DbValid(r.db) && r.docid == Some(d) && KeySafe(k) && ValSafe(v)
    ensures ReadLine(r, PropLine(k, v)) == Ok(Reader(Store(r.db, d, k, v), Some(d)))
  {
    PropLineIs(k, v);
    PropValStrip(v);
    ReadPropLine(r, PropLine(k, v), d, k, if v == [] then [] else " " + v);
  }

  /** The blank line after a block ends it. */
  lemma EndLineRead(r: Reader)
    requires DbValid(r.db)
    ensures ReadLine(r, "") == Ok(Reader(r.db, None))
  {
    StripNoop("");
  }

  /** The stores of the first `n` properties of `e` under `d`. */
  function StoreAll(db: Db, d: string, e: Entry, n: nat): (r: Db)
    requires DbValid(db) && e.Valid() && n <= |e.keys|
    ensures DbValid(r)
  {
    if n == 0 then db else Store(StoreAll(db, d, e, n - 1), d, e.keys[n - 1], e.vals[e.keys[n - 1]])
  }

  /** Reading lines whose last line follows on from reading the others. */
  lemma ReadSnoc(r: Reader, lines: seq<string>, r1: Reader, r2: Reader)
    requires DbValid(r.db) && lines != [] && Read(r, lines[..|lines| - 1]) == Ok(r1)
    requires ReadLine(r1, lines[|lines| - 1]) == Ok(r2)
    ensures Read(r, lines) == Ok(r2)
  {
  }

  /** Reading the first `n` property lines of a printed block stores them
      one by one under its doc-id. */
  lemma PropsRead(db: Db, d: string, e: Entry, n: nat)
    requires DbValid(db) && EntrySafe(e) && n <= |e.keys|
    ensures Read(Reader(db, Some(d)), PropLines(e)[..n]) == Ok(Reader(StoreAll(db, d, e, n), Some(d)))
    decreases n
  {
    if n == 0 {
      assert PropLines(e)[..0] == [];
    } else {
      var k := e.keys[n - 1];
      var lines := PropLines(e)[..n];
      assert lines[..n - 1] == PropLines(e)[..n - 1] && lines[n - 1] == PropLine(k, e.vals[k]);
      PropsRead(db, d, e, n - 1);
      var r1 := Reader(StoreAll(db, d, e, n - 1), Some(d));
      assert KeySafe(k) && ValSafe(e.vals[k]);
      PropLineRead(r1, d, k, e.vals[k]);
      ReadSnoc(Reader(db, Some(d)), lines, r1, Reader(StoreAll(db, d, e, n), Some(d)));
    }
  }

  /** Storing properties one by one puts them, in order, into the entry. */
  lemma {:induction false} StoreAllIs(db: Db, d: string, e: Entry, n: nat)
    requires DbValid(db) && e.Valid() && 0 < n <= |e.keys|
    ensures forall k :: k in e.keys[..n] ==> k in e.vals
    ensures StoreAll(db, d, e, n) == Put(db, d, PutAll(Get(db, d), e.keys[..n], e.vals))
    decreases n
  {
    var ks := e.keys[..n];
    assert ks[..n - 1] == e.keys[..n - 1];
    var k := e.keys[n - 1];
    if n == 1 {
      assert ks[..0] == [];
    } else {
      StoreAllIs(db, d, e, n - 1);
      var p := PutAll(Get(db, d), e.keys[..n - 1], e.vals);
      PutPut(db, d, p, Put(p, k, e.vals[k]));
    }
  }

  /** Storing all the properties of an entry under a new doc-id adds the
      entry as it is. */
  lemma StoreAllNew(db: Db, d: string, e: Entry)
    requires DbValid(db) && d !in db.vals && e.Valid() && e.keys != []
    ensures StoreAll(db, d, e, |e.keys|) == Put(db, d, e)
  {
    StoreAllIs(db, d, e, |e.keys|);
    assert e.keys[..|e.keys|] == e.keys;
    Rebuild(e);
  }

  /** Reading `a` from `r` leaves `r1`. */
  ghost predicate Reads(r: Reader, a: seq<string>, r1: Reader)
  {
    DbValid(r.db) && Read(r, a) == Ok(r1)
  }

  /** Reading `a`, then `b` from where `a` left off. */
  lemma ReadThen(r: Reader, a: seq<string>, b: seq<string>, r1: Reader, r2: Reader)
    requires Reads(r, a, r1) && Reads(r1, b, r2)
    ensures Reads(r, a + b, r2)
  {
    ReadAppend(r, a, b);
  }

  /** Reading a single line. */
  lemma ReadOne(r: Reader, line: string, r1: Reader)
    requires DbValid(r.db) && ReadLine(r, line) == Ok(r1)
    ensures Read(r, [line]) == Ok(r1)
  {
    assert [line][..0] == [];
  }

  lemma DocHeadRead(r: Reader, d: string)
    requires DbValid(r.db) && DocSafe(d)
    ensures Reads(r, ["doc_id=" + d], Reader(r.db, Some(d)))
  {
    DocLineRead(r, d);
    ReadOne(r, "doc_id=" + d, Reader(r.db, Some(d)));
  }

  lemma EndRead(r: Reader)
    requires DbValid(r.db)
    ensures Reads(r, [""], Reader(r.db, None))
  {
    EndLineRead(r);
    ReadOne(r, "", Reader(r.db, None));
  }

  /** Reading the `doc_id` line and the property lines of a block. */
  lemma HeadPropsRead(r: Reader, d: string, e: Entry)
    requires DbValid(r.db) && DocSafe(d) && EntrySafe(e)
    ensures Reads(r, ["doc_id=" + d] + PropLines(e)[..|e.keys|], Reader(StoreAll(r.db, d, e, |e.keys|), Some(d)))
  {
    DocHeadRead(r, d);
    PropsRead(r.db, d, e, |e.keys|);
    ReadThen(r, ["doc_id=" + d], PropLines(e)[..|e.keys|], Reader(r.db, Some(d)),
      Reader(StoreAll(r.db, d, e, |e.keys|), Some(d)));
  }

  lemma BlockLinesIs(d: string, e: Entry)
    requires e.Valid()
    ensures BlockLines(d, e) == ["doc_id=" + d] + PropLines(e)[..|e.keys|] + [""]
  {
    assert PropLines(e)[..|e.keys|] == PropLines(e);
  }

  /** Reading a printed block adds its document, properties in order. */
  lemma BlockRead(r: Reader, d: string, e: Entry)
    requires DbValid(r.db) && d !in r.db.vals && DocSafe(d) && EntrySafe(e)
    ensures Reads(r, BlockLines(d, e), Reader(Put(r.db, d, e), None))
  {
    var db1 := StoreAll(r.db, d, e, |e.keys|);
    HeadPropsRead(r, d, e);
    EndRead(Reader(db1, Some(d)));
    ReadThen(r, ["doc_id=" + d] + PropLines(e)[..|e.keys|], [""], Reader(db1, Some(d)), Reader(db1, None));
    StoreAllNew(r.db, d, e);
    BlockLinesIs(d, e);
  }

  /** Reading the printed blocks of distinct doc-ids puts their entries,
      in the printed order, into an empty database. */
  lemma {:induction false} BlocksRead(m: map<string, Entry>, ds: seq<string>)
    requires Distinct(ds) && Covers(m, ds)
    requires forall d :: d in ds ==> DocSafe(d) && EntrySafe(m[d])
    ensures Read(Start(), BlocksOf(m, ds)) == Ok(Reader(PutAll(Empty(), ds, m), None))
    decreases |ds|
  {
    if ds != [] {
      var p, k := ds[..|ds| - 1], ds[|ds| - 1];
      DistinctPrefix(ds);
      BlocksRead(m, p);
      ReadAppend(Start(), BlocksOf(m, p), BlockLines(k, m[k]));
      var q: Db := PutAll(Empty(), p, m);
      PutAllVals(Empty(), p, m);
      assert k !in p;
      BlockRead(Reader(q, None), k, m[k]);
    }
  }

  /** The doc-ids in order, with their keys, are the sorted pairs. */
  lemma SortedIsKeyed(ds0: seq<string>)
    ensures Sort(Keyed(ds0)) == Keyed(Elems(Sort(Keyed(ds0))))
  {
    var kd := Keyed(ds0);
    var t := Sort(kd);
    var ds := Elems(t);
    forall i | 0 <= i < |t| ensures t[i] == Keyed(ds)[i] {
      SortedPairKeys(kd, t, i);
    }
  }

  /** Ordering doc-ids already in order changes nothing. */
  lemma OrderTwice(ds0: seq<string>)
    requires Order(ds0).Ok?
    ensures Order(Order(ds0).value) == Order(ds0)
  {
    var ds := Elems(Sort(Keyed(ds0)));
    OrderedMembers(ds0);
    assert Order(ds).Ok?;
    assert Elems(Sort(Keyed(ds))) == ds by {
      SortedIsKeyed(ds0);
      SortSorted(Keyed(ds));
      assert Elems(Keyed(ds)) == ds;
    }
  }

  /** Ordering keeps the doc-ids it was given. */
  lemma OrderedMembers(ds0: seq<string>)
    ensures forall i :: 0 <= i < |Elems(Sort(Keyed(ds0)))| ==> Elems(Sort(Keyed(ds0)))[i] in ds0
  {
    var kd := Keyed(ds0);
    var ds := Elems(Sort(kd));
    SortElems(kd);
    assert Elems(kd) == ds0;
    forall i | 0 <= i < |ds| ensures ds[i] in ds0 {
      assert ds[i] in multiset(ds0);
    }
  }

  /** Printing what was loaded from a printout prints it again, line for
      line. */
  lemma Reprint(db: Db)
    requires Printable(db)
    ensures Printed(db).Ok?
    ensures var l := Loaded(FileLines(Text(Printed(db).value)));
      l.Ok? && Printed(l.value) == Printed(db)
  {
    LoadPrinted(db);
    OrderTwice(db.keys);
  }

  /** What a printable database prints: every block, each line a line. */
  lemma PrintedLines(db: Db)
    requires Printable(db)
    ensures Covers(db.vals, Order(db.keys).value)
    ensures Printed(db) == Ok(BlocksOf(db.vals, Order(db.keys).value))
    ensures AllOneLine(BlocksOf(db.vals, Order(db.keys).value))
  {
    OrderMembers(db);
    BlocksOneLine(db.vals, Order(db.keys).value);
  }

  /** Reading the printed lines puts the entries in printed order. */
  lemma ReadPrinted(db: Db)
    requires Printable(db)
    ensures Covers(db.vals, Order(db.keys).value)
    ensures Read(Start(), BlocksOf(db.vals, Order(db.keys).value)) == Ok(Reader(ODict(Order(db.keys).value, db.vals), None))
  {
    var ds := Order(db.keys).value;
    OrderMembers(db);
    OrderSpec(db.keys);
    DistinctPerm(ds, db.keys);
    BlocksRead(db.vals, ds);
    Reorder(db, ds);
  }

  /** Loading what `print_citations` printed gives back every document with
      its properties in their order; the documents come in printed order. */
  lemma LoadPrinted(db: Db)
    requires Printable(db)
    ensures Printed(db).Ok?
    ensures Loaded(FileLines(Text(Printed(db).value))) == Ok(ODict(Order(db.keys).value, db.vals))
  {
    PrintedLines(db);
    TextLines(Printed(db).value);
    ReadPrinted(db);
  }

  lemma PropLinesOneLine(e: Entry)
    requires EntrySafe(e)
    ensures AllOneLine(PropLines(e))
  {
    forall i | 0 <= i < |e.keys| ensures OneLine(PropLines(e)[i]) {
      var k := e.keys[i];
      assert KeySafe(k) && ValSafe(e.vals[k]);
      PropLineOneLine(k, e.vals[k]);
    }
  }

  lemma PropLineOneLine(k: string, v: string)
    requires OneLine(k) && OneLine(v)
    ensures OneLine(PropLine(k, v))
  {
  }

  lemma BlockOneLine(d: string, e: Entry)
    requires DocSafe(d) && EntrySafe(e)
    ensures AllOneLine(BlockLines(d, e))
  {
    PropLinesOneLine(e);
    assert OneLine("doc_id=" + d);
    AllOneLineAppend(["doc_id=" + d], PropLines(e));
    AllOneLineAppend(["doc_id=" + d] + PropLines(e), [""]);
  }

  lemma AllOneLineAppend(a: seq<string>, b: seq<string>)
    requires AllOneLine(a) && AllOneLine(b)
    ensures AllOneLine(a + b)
  {
  }

  lemma {:induction false} BlocksOneLine(m: map<string, Entry>, ds: seq<string>)
    requires Covers(m, ds) && forall d :: d in ds ==> DocSafe(d) && EntrySafe(m[d])
    ensures AllOneLine(BlocksOf(m, ds))
    decreases |ds|
  {
    if ds != [] {
      var k := ds[|ds| - 1];
      BlocksOneLine(m, ds[..|ds| - 1]);
      BlockOneLine(k, m[k]);
      AllOneLineAppend(BlocksOf(m, ds[..|ds| - 1]), BlockLines(k, m[k]));
    }
  }

  // ---------------------------------------------------------------------
  // update

  /** The entry a processed document ends with: its old properties, each
      key of the new ones set to the new value. */
  function Merge(e: Entry, n: Entry): (r: Entry)
    requires e.Valid() && n.Valid()
    ensures r.Valid()
  {
    PutAll(e, n.keys, n.vals)
  }

  /** Merging sets the new keys' values and keeps the other keys' values; the
      new keys not there before follow the old ones, in their order. */
  lemma MergeSpec(e: Entry, n: Entry)
    requires e.Valid() && n.Valid()
    ensures Merge(e, n).vals == e.vals + n.vals
    ensures Merge(e, n).keys == e.keys + Fresh(e, n.keys)
  {
    assert Distinct(n.keys);
    PutAllSpec(e, n.keys, n.vals);
    assert Restrict(n.vals, n.keys) == n.vals;
  }

  /** Merging the same properties twice is merging them once. */
  lemma MergeIdempotent(e: Entry, n: Entry)
    requires e.Valid() && n.Valid()
    ensures Merge(Merge(e, n), n) == Merge(e, n)
  {
    var m := Merge(e, n);
    var r := Merge(m, n);
    MergeSpec(m, n);
    assert r.vals == m.vals by {
      MergeSpec(e, n);
      UnionTwice(e.vals, n.vals);
    }
    assert r.keys == m.keys by {
      assert forall k :: k in n.keys ==> k in m.vals;
      FreshOfPresent(m, n.keys);
    }
  }

  /** Storing every property of `e` under `d`: the document's entry becomes
      its old one (or an empty one) merged with `e`; nothing happens when
      `e` is empty. */
  lemma StoreAllMerge(db: Db, d: string, e: Entry)
    requires DbValid(db) && e.Valid()
    ensures e.keys == [] ==> StoreAll(db, d, e, |e.keys|) == db
    ensures e.keys != [] ==> StoreAll(db, d, e, |e.keys|) == Put(db, d, Merge(Get(db, d), e))
  {
    if e.keys != [] {
      StoreAllIs(db, d, e, |e.keys|);
      assert e.keys[..|e.keys|] == e.keys;
    }
  }

  /** One step of `update`: a doc-id of the new values that is not in the
      database is skipped unless `add`; otherwise its properties are
      stored. */
  function UpdateOne(db: Db, docid: string, e: Entry, add: bool): (r: Db)
    requires DbValid(db) && e.Valid()
    ensures DbValid(r)
  {
    if docid !in db.vals && !add then db else StoreAll(db, docid, e, |e.keys|)
  }

  /** `update` over the first `n` doc-ids of the new values. */
  function UpdateFirst(db: Db, nv: Db, add: bool, n: nat): (r: Db)
    requires DbValid(db) && DbValid(nv) && n <= |nv.keys|
    ensures DbValid(r)
  {
    if n == 0 then db
    else UpdateOne(UpdateFirst(db, nv, add, n - 1), nv.keys[n - 1], nv.vals[nv.keys[n - 1]], add)
  }

  /** `update(db, newvals, add)`: the database it leaves. */
  function Updated(db: Db, nv: Db, add: bool): (r: Db)
    requires DbValid(db) && DbValid(nv)
    ensures DbValid(r)
  {
    UpdateFirst(db, nv, add, |nv.keys|)
  }

  /** Storing every property of one document, one by one. */
  method StoreEntry(db: Db, docid: string, e: Entry) returns (r: Db)
    requires DbValid(db) && e.Valid()
    ensures r == StoreAll(db, docid, e, |e.keys|)
  {
    r := db;
    for j := 0 to |e.keys|
      invariant r == StoreAll(db, docid, e, j)
    {
      r := StoreNext(db, r, docid, e, j);
    }
  }

  /** The store of the `j`-th property, after the ones before it. */
  method StoreNext(ghost db: Db, r: Db, docid: string, e: Entry, j: nat) returns (r': Db)
    requires DbValid(db) && e.Valid() && j < |e.keys| && r == StoreAll(db, docid, e, j)
    ensures r' == StoreAll(db, docid, e, j + 1)
  {
    r' := Store(r, docid, e.keys[j], e.vals[e.keys[j]]);
  }

  /** One document of `update`. */
  method UpdateStep(db: Db, docid: string, e: Entry, add: bool) returns (r: Db)
    requires DbValid(db) && e.Valid()
    ensures r == UpdateOne(db, docid, e, add)
  {
    if docid !in db.vals && !add {
      return db;
    }
    r := StoreEntry(db, docid, e);
  }

  /** `update`, changing the database document by document, property by
      property. */
  method Update(db: Db, nv: Db, add: bool) returns (r: Db)
    requires DbValid(db) && DbValid(nv)
    ensures r == Updated(db, nv, add)
  {
    r := db;
    for i := 0 to |nv.keys|
      invariant r == UpdateFirst(db, nv, add, i)
    {
      r := UpdateStep(r, nv.keys[i], nv.vals[nv.keys[i]], add);
    }
  }

  /** A document's entry, if the database has one. */
  function At(db: Db, d: string): Option<Entry>
  {
    if d in db.vals then Some(db.vals[d]) else None
  }

  /** Databases with the same doc-ids in the same order and the same entries
      are the same. */
  lemma AtExt(a: Db, b: Db)
    requires a.keys == b.keys && forall d :: At(a, d) == At(b, d)
    ensures a == b
  {
    assert a.vals == b.vals by {
      forall d ensures d in a.vals <==> d in b.vals {
        assert At(a, d) == At(b, d);
      }
      forall d | d in a.vals ensures a.vals[d] == b.vals[d] {
        assert At(a, d) == At(b, d);
      }
    }
  }

  /** The entry `update` leaves for `d` once it has been through the doc-ids
      `ks`: a document of the new values that is in the database, or that is
      new with properties while adding, has its entry merged with the new
      values; any other document is as it was. */
  function Expected(db: Db, nv: Db, add: bool, ks: seq<string>, d: string): Option<Entry>
    requires DbValid(db) && DbValid(nv)
  {
    if d in ks && d in nv.vals && (d in db.vals || (add && nv.vals[d].keys != [])) then
      Some(Merge(Get(db, d), nv.vals[d]))
    else At(db, d)
  }

  /** One step of `update` touches one document: `d` is merged with `e` when
      it is the doc-id stored and either is there already or, while adding,
      `e` has properties. */
  lemma UpdateOneAt(u: Db, k: string, e: Entry, add: bool, d: string)
    requires DbValid(u) && e.Valid()
    ensures At(UpdateOne(u, k, e, add), d) ==
      if d == k && (k in u.vals || (add && e.keys != [])) then Some(Merge(Get(u, k), e)) else At(u, d)
  {
    StoreAllMerge(u, k, e);
    if e.keys == [] && k in u.vals {
      MergeEmpty(u.vals[k], e);
    }
  }

  lemma MergeEmpty(e: Entry, n: Entry)
    requires e.Valid() && n.Valid() && n.keys == []
    ensures Merge(e, n) == e
  {
  }

  /** After the first `n` doc-ids, each document is as `Expected` says. */
  lemma {:induction false} UpdateFirstAt(db: Db, nv: Db, add: bool, n: nat, d: string)
    requires DbValid(db) && DbValid(nv) && n <= |nv.keys|
    ensures At(UpdateFirst(db, nv, add, n), d) == Expected(db, nv, add, nv.keys[..n], d)
    decreases n
  {
    if n > 0 {
      var ks, k := nv.keys[..n - 1], nv.keys[n - 1];
      assert nv.keys[..n] == ks + [k];
      var u := UpdateFirst(db, nv, add, n - 1);
      UpdateFirstAt(db, nv, add, n - 1, d);
      UpdateOneAt(u, k, nv.vals[k], add, d);
      if d == k {
        assert k !in ks;
      }
    }
  }

  /** The doc-ids among `ks` that `update` adds, in order: new ones with
      properties, when adding. */
  function Added(db: Db, nv: Db, add: bool, ks: seq<string>): (r: seq<string>)
    ensures forall d :: d in r ==> add && d in ks && d in nv.vals && d !in db.vals && nv.vals[d].keys != []
  {
    if ks == [] then []
    else
      var k := ks[|ks| - 1];
      Added(db, nv, add, ks[..|ks| - 1]) + (if add && k in nv.vals && k !in db.vals && nv.vals[k].keys != [] then [k] else [])
  }

  /** No doc-id is added when none of `ks` is both new and with properties
      while adding. */
  lemma {:induction false} AddedNone(db: Db, nv: Db, add: bool, ks: seq<string>)
    requires forall d :: d in ks && add && d in nv.vals && nv.vals[d].keys != [] ==> d in db.vals
    ensures Added(db, nv, add, ks) == []
    decreases |ks|
  {
    if ks != [] {
      AddedNone(db, nv, add, ks[..|ks| - 1]);
    }
  }

  /** After the first `n` doc-ids, the order is the old one followed by the
      added doc-ids. */
  lemma {:induction false} UpdateFirstKeys(db: Db, nv: Db, add: bool, n: nat)
    requires DbValid(db) && DbValid(nv) && n <= |nv.keys|
    ensures UpdateFirst(db, nv, add, n).keys == db.keys + Added(db, nv, add, nv.keys[..n])
    decreases n
  {
    if n > 0 {
      var ks, k := nv.keys[..n - 1], nv.keys[n - 1];
      assert nv.keys[..n] == ks + [k];
      assert (ks + [k])[..|ks|] == ks;
      var u := UpdateFirst(db, nv, add, n - 1);
      UpdateFirstKeys(db, nv, add, n - 1);
      UpdateFirstAt(db, nv, add, n - 1, k);
      assert k !in ks;
      assert k in u.vals <==> k in db.vals;
      UpdateOneKeys(u, k, nv.vals[k], add);
      var tail := if add && k !in db.vals && nv.vals[k].keys != [] then [k] else [];
      assert Added(db, nv, add, ks + [k]) == Added(db, nv, add, ks) + tail;
      AppendAssoc(db.keys, Added(db, nv, add, ks), tail);
    }
  }

  /** One step of `update` appends the doc-id when it is new, may be added
      and has properties. */
  lemma UpdateOneKeys(u: Db, k: string, e: Entry, add: bool)
    requires DbValid(u) && e.Valid()
    ensures UpdateOne(u, k, e, add).keys == u.keys + (if add && k !in u.vals && e.keys != [] then [k] else [])
  {
    StoreAllMerge(u, k, e);
  }

  /** `update` as a whole: each document as `Expected` says, the added
      doc-ids after the old ones. */
  lemma UpdatedSpec(db: Db, nv: Db, add: bool, d: string)
    requires DbValid(db) && DbValid(nv)
    ensures At(Updated(db, nv, add), d) == Expected(db, nv, add, nv.keys, d)
    ensures Updated(db, nv, add).keys == db.keys + Added(db, nv, add, nv.keys)
  {
    UpdateFirstAt(db, nv, add, |nv.keys|, d);
    UpdateFirstKeys(db, nv, add, |nv.keys|);
    assert nv.keys[..|nv.keys|] == nv.keys;
  }

  /** Without `add`, `update` only changes documents already there: the
      doc-ids and their order stay as they were. */
  lemma UpdateNoAdd(db: Db, nv: Db, d: string)
    requires DbValid(db) && DbValid(nv)
    ensures Updated(db, nv, false).keys == db.keys
    ensures d in Updated(db, nv, false).vals <==> d in db.vals
  {
    UpdatedSpec(db, nv, false, d);
    AddedNone(db, nv, false, nv.keys);
  }

  /** The properties a document ends with: a processed document takes each
      new property's value and keeps its other properties' values, the new
      properties after its old ones; any other document is untouched. */
  lemma UpdatedEntry(db: Db, nv: Db, add: bool, d: string)
    requires DbValid(db) && DbValid(nv)
    ensures var u := Updated(db, nv, add);
      && (d in nv.vals && (d in db.vals || (add && nv.vals[d].keys != [])) ==>
            && d in u.vals
            && u.vals[d].vals == Get(db, d).vals + nv.vals[d].vals
            && u.vals[d].keys == Get(db, d).keys + Fresh(Get(db, d), nv.vals[d].keys))
      && (d !in nv.vals || !(d in db.vals || (add && nv.vals[d].keys != [])) ==>
            At(u, d) == At(db, d))
  {
    UpdatedSpec(db, nv, add, d);
    assert d in nv.vals <==> d in nv.keys;
    if d in nv.vals {
      MergeSpec(Get(db, d), nv.vals[d]);
    }
  }

  /** Running `update` twice with the same new values is running it once. */
  lemma UpdateIdempotent(db: Db, nv: Db, add: bool)
    requires DbValid(db) && DbValid(nv)
    ensures Updated(Updated(db, nv, add), nv, add) == Updated(db, nv, add)
  {
    var u := Updated(db, nv, add);
    var w := Updated(u, nv, add);
    forall d ensures At(w, d) == At(u, d) {
      UpdatedSpec(db, nv, add, d);
      UpdatedSpec(u, nv, add, d);
      if d in nv.keys && (d in db.vals || (add && nv.vals[d].keys != [])) {
        MergeIdempotent(Get(db, d), nv.vals[d]);
      }
    }
    assert Added(u, nv, add, nv.keys) == [] by {
      forall d | d in nv.keys && add && d in nv.vals && nv.vals[d].keys != [] ensures d in u.vals {
        UpdatedSpec(db, nv, add, d);
      }
      AddedNone(u, nv, add, nv.keys);
    }
    UpdatedSpec(u, nv, add, "");
    AtExt(w, u);
  }

  // ---------------------------------------------------------------------
  // load_update_tsv

  /** `a` if it holds a value, `b` otherwise. */
  function OrElse<T>(a: Option<T>, b: Option<T>): Option<T>
  {
    if a.Some? then a else b
  }

  /** A property's value in a document's entry, if it has one. */
  function PropOf(db: Db, d: string, key: string): Option<string>
  {
    if d in db.vals && key in db.vals[d].vals then Some(db.vals[d].vals[key]) else None
  }

  /** `xs[1:]`: everything after the first, nothing when there is none. */
  function Drop1<T>(xs: seq<T>): (r: seq<T>)
    ensures |r| == if xs == [] then 0 else |xs| - 1
    ensures forall i :: 0 <= i < |r| ==> r[i] == xs[i + 1]
  {
    if xs == [] then [] else xs[1..]
  }

  /** The tab-separated cells of a row. */
  function Cells(line: string): (r: seq<string>)
    ensures |r| >= 1
  {
    SplitChar(line, '\t')
  }

  /** The doc-id of a row: its first cell, stripped; possibly empty. */
  function RowDocId(line: string): string
  {
    Strip(Cells(line)[0])
  }

  /** How many (field, cell) pairs `zip(fields[1:], toks[1:])` yields: the
      shorter of the two runs out first. */
  function Pairs(fields: seq<string>, line: string): (r: nat)
    ensures r <= |Drop1(fields)| && r <= |Drop1(Cells(line))|
    ensures r == |Drop1(fields)| || r == |Drop1(Cells(line))|
  {
    var a, b := |Drop1(fields)|, |Drop1(Cells(line))|;
    if a <= b then a else b
  }

  /** Each string stripped. */
  function StripAll(xs: seq<string>): (r: seq<string>)
    ensures |r| == |xs|
    ensures forall i :: 0 <= i < |xs| ==> r[i] == Strip(xs[i])
  {
    seq(|xs|, i requires 0 <= i < |xs| => Strip(xs[i]))
  }

  /** The property keys a header names: the fields after the first,
      stripped. */
  function RowKeys(fields: seq<string>): seq<string>
  {
    StripAll(Drop1(fields))
  }

  /** The values a row gives: the cells after the first, stripped. */
  function RowVals(line: string): seq<string>
  {
    StripAll(Drop1(Cells(line)))
  }

  /** The first `n` (key, value) pairs stored under `d`. */
  function StoreZip(db: Db, d: string, ks: seq<string>, vs: seq<string>, n: nat): (r: Db)
    requires DbValid(db) && n <= |ks| && n <= |vs|
    ensures DbValid(r)
  {
    if n == 0 then db else Store(StoreZip(db, d, ks, vs, n - 1), d, ks[n - 1], vs[n - 1])
  }

  /** The value the last of the first `n` pairs with key `key` gives it. */
  function LastPaired(ks: seq<string>, vs: seq<string>, n: nat, key: string): (r: Option<string>)
    requires n <= |ks| && n <= |vs|
    ensures r.None? <==> forall i :: 0 <= i < n ==> ks[i] != key
  {
    if n == 0 then None
    else if ks[n - 1] == key then Some(vs[n - 1])
    else LastPaired(ks, vs, n - 1, key)
  }

  /** A key the pairs after position `i` do not repeat takes value `i`. */
  lemma {:induction false} LastPairedIs(ks: seq<string>, vs: seq<string>, n: nat, i: nat)
    requires i < n <= |ks| && n <= |vs|
    requires forall j :: i < j < n ==> ks[j] != ks[i]
    ensures LastPaired(ks, vs, n, ks[i]) == Some(vs[i])
    decreases n
  {
    if i < n - 1 {
      LastPairedIs(ks, vs, n - 1, i);
    }
  }

  /** One store, seen from one document and one property. */
  lemma StoreAt(db: Db, d: string, key: string, val: string, d2: string, x: string)
    requires DbValid(db)
    ensures d2 != d ==> At(Store(db, d, key, val), d2) == At(db, d2)
    ensures d in Store(db, d, key, val).vals
    ensures PropOf(Store(db, d, key, val), d, x) == if x == key then Some(val) else PropOf(db, d, x)
  {
  }

  /** Storing pairs under `d`: other documents are untouched; `d` is there
      once a pair has been stored. */
  lemma {:induction false} StoreZipDocs(db: Db, d: string, ks: seq<string>, vs: seq<string>, n: nat, d2: string)
    requires DbValid(db) && n <= |ks| && n <= |vs|
    ensures d2 != d ==> At(StoreZip(db, d, ks, vs, n), d2) == At(db, d2)
    ensures d in StoreZip(db, d, ks, vs, n).vals <==> d in db.vals || n > 0
    decreases n
  {
    if n > 0 {
      StoreZipDocs(db, d, ks, vs, n - 1, d2);
      StoreAt(StoreZip(db, d, ks, vs, n - 1), d, ks[n - 1], vs[n - 1], d2, "");
    }
  }

  /** Storing pairs under `d`: each property of `d` takes the value of the
      last pair naming it, or keeps its old one. */
  lemma StoreZipProp(db: Db, d: string, ks: seq<string>, vs: seq<string>, n: nat, x: string)
    requires DbValid(db) && n <= |ks| && n <= |vs|
    ensures PropOf(StoreZip(db, d, ks, vs, n), d, x) ==
      OrElse(LastPaired(ks, vs, n, x), PropOf(db, d, x))
    decreases n
  {
    if n > 0 {
      StoreZipProp(db, d, ks, vs, n - 1, x);
      StoreZipPropStep(db, d, ks, vs, n, x);
    }
  }

  lemma StoreZipPropStep(db: Db, d: string, ks: seq<string>, vs: seq<string>, n: nat, x: string)
    requires DbValid(db) && 0 < n <= |ks| && n <= |vs|
    requires PropOf(StoreZip(db, d, ks, vs, n - 1), d, x) ==
      OrElse(LastPaired(ks, vs, n - 1, x), PropOf(db, d, x))
    ensures PropOf(StoreZip(db, d, ks, vs, n), d, x) ==
      OrElse(LastPaired(ks, vs, n, x), PropOf(db, d, x))
  {
    StoreZipStep(db, d, ks, vs, n);
    LastPairedStep(ks, vs, n, x);
    PropStoreStep(StoreZip(db, d, ks, vs, n - 1), d, ks[n - 1], vs[n - 1], x,
      LastPaired(ks, vs, n, x), LastPaired(ks, vs, n - 1, x), PropOf(db, d, x));
  }

  /** The step of `StoreZipProp`: the last pair decides when it names the
      property, the ones before it otherwise. */
  lemma PropStoreStep(r: Db, d: string, k: string, v: string, x: string,
                      lp: Option<string>, lp1: Option<string>, o: Option<string>)
    requires DbValid(r)
    requires PropOf(r, d, x) == OrElse(lp1, o)
    requires lp == if k == x then Some(v) else lp1
    ensures PropOf(Store(r, d, k, v), d, x) == OrElse(lp, o)
  {
    StoreAt(r, d, k, v, d, x);
  }

  lemma StoreZipStep(db: Db, d: string, ks: seq<string>, vs: seq<string>, n: nat)
    requires DbValid(db) && 0 < n <= |ks| && n <= |vs|
    ensures StoreZip(db, d, ks, vs, n) == Store(StoreZip(db, d, ks, vs, n - 1), d, ks[n - 1], vs[n - 1])
  {
  }

  lemma LastPairedStep(ks: seq<string>, vs: seq<string>, n: nat, x: string)
    requires 0 < n <= |ks| && n <= |vs|
    ensures LastPaired(ks, vs, n, x) == if ks[n - 1] == x then Some(vs[n - 1]) else LastPaired(ks, vs, n - 1, x)
  {
  }

  /** One row of the update file: its cells paired by position with the
      header fields after the first, stored stripped under the row's
      doc-id. */
  function UpdateRow(db: Db, fields: seq<string>, line: string): (r: Db)
    requires DbValid(db)
    ensures DbValid(r)
  {
    StoreZip(db, RowDocId(line), RowKeys(fields), RowVals(line), Pairs(fields, line))
  }

  /** A row changes only its own document, which it creates (even with an
      empty doc-id) once it has a pair; each paired key takes the value of
      the last pair naming it; unpaired fields and cells are ignored. */
  lemma UpdateRowAt(db: Db, fields: seq<string>, line: string, d: string, x: string)
    requires DbValid(db)
    ensures var r := UpdateRow(db, fields, line);
      && (d != RowDocId(line) ==> At(r, d) == At(db, d))
      && (RowDocId(line) in r.vals <==> RowDocId(line) in db.vals || Pairs(fields, line) > 0)
      && PropOf(r, RowDocId(line), x) ==
           OrElse(LastPaired(RowKeys(fields), RowVals(line), Pairs(fields, line), x), PropOf(db, RowDocId(line), x))
  {
    StoreZipDocs(db, RowDocId(line), RowKeys(fields), RowVals(line), Pairs(fields, line), d);
    StoreZipProp(db, RowDocId(line), RowKeys(fields), RowVals(line), Pairs(fields, line), x);
  }

  /** With the keys of a header distinct, each paired key takes its own
      cell's value. */
  lemma UpdateRowDistinct(db: Db, fields: seq<string>, line: string, i: nat)
    requires DbValid(db) && Distinct(RowKeys(fields)) && i < Pairs(fields, line)
    ensures PropOf(UpdateRow(db, fields, line), RowDocId(line), RowKeys(fields)[i]) == Some(RowVals(line)[i])
  {
    var ks := RowKeys(fields);
    LastPairedIs(ks, RowVals(line), Pairs(fields, line), i);
    UpdateRowAt(db, fields, line, RowDocId(line), ks[i]);
  }

  /** A row without pairs (a header of one field, or no tab in the row)
      changes nothing. */
  lemma RowNoPairs(db: Db, fields: seq<string>, line: string)
    requires DbValid(db) && Pairs(fields, line) == 0
    ensures UpdateRow(db, fields, line) == db
  {
  }

  /** The rows, in order. */
  function UpdateRows(db: Db, fields: seq<string>, rows: seq<string>): (r: Db)
    requires DbValid(db)
    ensures DbValid(r)
    decreases |rows|
  {
    if rows == [] then db else UpdateRow(UpdateRows(db, fields, rows[..|rows| - 1]), fields, rows[|rows| - 1])
  }

  /** `load_update_tsv(fn)` over the lines of the file: the first line's
      words are the fields; an empty file raises StopIteration. */
  function LoadedUpdate(lines: seq<string>): (o: Outcome<Db>)
    ensures o.Raised? <==> lines == []
    ensures o.Raised? ==> o.error == StopIteration
    ensures o.Ok? ==> DbValid(o.value)
  {
    if lines == [] then Raised(StopIteration) else Ok(UpdateRows(Empty(), Words(lines[0]), lines[1..]))
  }

  /** With at most one header field no row has a pair, and the update is
      empty. */
  lemma {:induction false} RowsOneField(db: Db, fields: seq<string>, rows: seq<string>)
    requires DbValid(db) && |fields| <= 1
    ensures UpdateRows(db, fields, rows) == db
    decreases |rows|
  {
    if rows != [] {
      RowsOneField(db, fields, rows[..|rows| - 1]);
      RowNoPairs(db, fields, rows[|rows| - 1]);
    }
  }

  lemma LoadedUpdateOneField(lines: seq<string>)
    requires lines != [] && |Words(lines[0])| <= 1
    ensures LoadedUpdate(lines) == Ok(Empty())
  {
    RowsOneField(Empty(), Words(lines[0]), lines[1..]);
  }

  /** `load_update_tsv`, filling the database row by row, pair by pair. */
  method LoadUpdateTsv(lines: seq<string>) returns (o: Outcome<Db>)
    ensures o == LoadedUpdate(lines)
  {
    if lines == [] {
      return Raised(StopIteration);
    }
    var fields := Words(lines[0]);
    var rows := lines[1..];
    var db: Db := Empty();
    for i := 0 to |rows|
      invariant db == UpdateRows(Empty(), fields, rows[..i])
    {
      db := NextRow(db, fields, rows, i);
    }
    assert rows[..|rows|] == rows;
    return Ok(db);
  }

  /** The `i`-th row, after the rows before it. */
  method NextRow(db: Db, fields: seq<string>, rows: seq<string>, i: nat) returns (r: Db)
    requires i < |rows| && db == UpdateRows(Empty(), fields, rows[..i])
    ensures r == UpdateRows(Empty(), fields, rows[..i + 1])
  {
    UpdateRowsSnoc(Empty(), fields, rows, i);
    r := StoreRow(db, fields, rows[i]);
  }

  lemma UpdateRowsSnoc(db: Db, fields: seq<string>, rows: seq<string>, i: nat)
    requires DbValid(db) && i < |rows|
    ensures UpdateRows(db, fields, rows[..i + 1]) == UpdateRow(UpdateRows(db, fields, rows[..i]), fields, rows[i])
  {
    assert rows[..i + 1][..i] == rows[..i];
  }

  /** One row, pair by pair. */
  method StoreRow(db: Db, fields: seq<string>, line: string) returns (r: Db)
    requires DbValid(db)
    ensures r == UpdateRow(db, fields, line)
  {
    var toks := Cells(line);
    var docid := Strip(toks[0]);
    var ks, vs, n := RowKeys(fields), RowVals(line), Pairs(fields, line);
    r := db;
    for j := 0 to n
      invariant r == StoreZip(db, docid, ks, vs, j)
    {
      r := NextPair(db, r, docid, ks, vs, j);
    }
  }

  /** The store of the `j`-th pair, after the ones before it. */
  method NextPair(ghost db: Db, r: Db, d: string, ks: seq<string>, vs: seq<string>, j: nat) returns (r': Db)
    requires DbValid(db) && j < |ks| && j < |vs| && r == StoreZip(db, d, ks, vs, j)
    ensures r' == StoreZip(db, d, ks, vs, j + 1)
  {
    r' := Store(r, d, ks[j], vs[j]);
  }

  // ---------------------------------------------------------------------
  // run

  /** `run(args)` over the text of the citations file and, when an update
      file is given, its text: load, update, print. */
  function CitationsRun(file: string, upd: Option<string>, insert: bool): (o: Outcome<seq<string>>)
    ensures o.Raised? ==> o.error in {ValueError, StopIteration, TypeError}
  {
    match Loaded(FileLines(file))
    case Raised(e) => Raised(e)
    case Ok(db) =>
      if upd.None? then Printed(db)
      else match LoadedUpdate(FileLines(upd.value))
        case Raised(e) => Raised(e)
        case Ok(nv) => Printed(Updated(db, nv, insert))
  }

  /** Running the tool, without an update, on what it printed prints the
      same again. */
  lemma RunOwnOutput(db: Db, insert: bool)
    requires Printable(db)
    ensures Printed(db).Ok?
    ensures CitationsRun(Text(Printed(db).value), None, insert) == Printed(db)
  {
    Reprint(db);
  }

  /** An update file of just a header, or with at most one field, changes
      nothing the tool prints. */
  lemma RunEmptyUpdate(file: string, upd: string, insert: bool)
    requires FileLines(upd) != [] && |Words(FileLines(upd)[0])| <= 1
    ensures CitationsRun(file, Some(upd), insert) == CitationsRun(file, None, insert)
  {
    LoadedUpdateOneField(FileLines(upd));
    if Loaded(FileLines(file)).Ok? {
      var db := Loaded(FileLines(file)).value;
      var nv: Db := Empty();
      assert Updated(db, nv, insert) == db by {
        assert UpdateFirst(db, nv, insert, 0) == db;
      }
    }
  }
}
