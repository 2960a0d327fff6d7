/**
 * odintxt.py, `_BufferedIGTWriter`: IGT blocks are kept in one list per
 * key (a doc id or a language code) and appended to the file of that key
 * when the list reaches `buffer_size` IGTs, or when everything is flushed
 * at the end of a run.
 *
 * The writer's dict is modelled by the order its keys were inserted in
 * (`order`, the order `cache.keys()` lists them in) and a map from each key
 * to its list; the output directory is a map from file name to contents.
 */
module OdinTxtWriter {
  import opened Py
  import opened OdinTxt
  import opened OdinTxtOut

  /** `format_odin_igt` of each IGT of a list. */
  function Formatted(igts: seq<Block>): (r: seq<Outcome<string>>)
    ensures |r| == |igts|
  {
    seq(|igts|, i requires 0 <= i < |igts| => FormatOdinIgt(igts[i]))
  }

  /** `print(text, file=f, end='\n\n')` for each formatted IGT in turn: the
      text written, and the exception that stopped the loop. */
  function Render(outs: seq<Outcome<string>>): (seq<char>, Option<PyError>)
  {
    if outs == [] then ([], None)
    else match outs[0]
      case Raised(e) => ([], Some(e))
      case Ok(t) =>
        var rest := Render(outs[1..]);
        (Printed(t) + rest.0, rest.1)
  }

  /** `print(t, end='\n\n')`. */
  function Printed(t: string): string
  {
    t + "\n\n"
  }

  /** Writing stops exactly when an IGT fails to format, with that IGT's
      exception. */
  lemma {:induction false} RenderOk(outs: seq<Outcome<string>>)
    ensures Render(outs).1.None? <==> forall i :: 0 <= i < |outs| ==> outs[i].Ok?
    ensures Render(outs).1.Some? ==> exists i :: 0 <= i < |outs| && outs[i].Raised? && Render(outs).1 == Some(outs[i].error)
  {
    if outs != [] {
      RenderOk(outs[1..]);
      if outs[0].Ok? {
        assert forall i :: 1 <= i < |outs| ==> outs[i] == outs[1..][i - 1];
      }
    }
  }

  /** A list of IGTs is written, or raises KeyError at the first IGT with an
      unparsed line. */
  lemma RenderBlocks(igts: seq<Block>)
    ensures Render(Formatted(igts)).1.None? <==>
      forall i, j :: 0 <= i < |igts| && 0 <= j < |igts[i].lines| ==> igts[i].lines[j].Some?
    ensures Render(Formatted(igts)).1.Some? ==> Render(Formatted(igts)).1 == Some(KeyError)
  {
    RenderOk(Formatted(igts));
    assert forall i :: 0 <= i < |igts| ==> Formatted(igts)[i] == FormatOdinIgt(igts[i]);
  }

  /** Writing two lists one after the other writes their texts one after
      the other, and stops where the first stops. */
  lemma {:induction false} RenderAppend(a: seq<Outcome<string>>, b: seq<Outcome<string>>)
    ensures Render(a).1.None? ==> Render(a + b) == (Render(a).0 + Render(b).0, Render(b).1)
    ensures Render(a).1.Some? ==> Render(a + b) == Render(a)
  {
    if a != [] {
      assert (a + b)[0] == a[0];
      assert (a + b)[1..] == a[1..] + b;
      RenderAppend(a[1..], b);
      if a[0].Ok? && Render(a).1.None? {
        var t := Printed(a[0].value);
        assert t + (Render(a[1..]).0 + Render(b).0) == (t + Render(a[1..]).0) + Render(b).0;
      }
    } else {
      assert a + b == b;
      assert Render(a).0 + Render(b).0 == Render(b).0;
    }
  }

  /** What the loop in `flush` has written after `i` IGTs. */
  function RenderPrefix(outs: seq<Outcome<string>>, i: nat): (seq<char>, Option<PyError>)
    requires i <= |outs|
  {
    Render(outs[..i])
  }

  /** The loop in `flush` one IGT further: its text is appended, or its
      exception ends the loop with the text written so far. */
  lemma RenderStep(outs: seq<Outcome<string>>, i: nat)
    requires i < |outs| && RenderPrefix(outs, i).1.None?
    ensures outs[i].Ok? ==> RenderPrefix(outs, i + 1) == (RenderPrefix(outs, i).0 + Printed(outs[i].value), None)
    ensures outs[i].Raised? ==> Render(outs) == (RenderPrefix(outs, i).0, Some(outs[i].error))
  {
    if outs[i].Ok? {
      RenderAppend(outs[..i], [outs[i]]);
      assert outs[..i] + [outs[i]] == outs[..i + 1];
      assert [outs[i]][1..] == [];
      assert Printed(outs[i].value) + [] == Printed(outs[i].value);
    } else {
      RenderAppend(outs[..i], outs[i..]);
      assert outs[..i] + outs[i..] == outs;
      assert outs[i..][0] == outs[i];
      assert Render(outs[..i]).0 + [] == Render(outs[..i]).0;
    }
  }

  /** The file an IGT list is appended to: `key.replace(':', '-') + '.txt'`. */
  function Path(key: string): (p: string)
    ensures |p| == |key| + 4 && p[|key|..] == ".txt"
    ensures ':' !in p[..|key|]
  {
    ReplaceChar(key, ':', '-') + ".txt"
  }

  /** Keys without a colon keep their own names, so no two of them share a
      file. */
  lemma PathApart(k1: string, k2: string)
    requires ':' !in k1 && ':' !in k2 && k1 != k2
    ensures Path(k1) != Path(k2)
  {
    if |k1| == |k2| {
      var i :| 0 <= i < |k1| && k1[i] != k2[i];
      assert Path(k1)[i] == k1[i] && Path(k2)[i] == k2[i];
    }
  }

  /** The writer: its keys in insertion order, the list kept for each key,
      and the output directory. */
  datatype WriterState = WriterState(
    order: seq<Option<string>>,
    cache: map<Option<string>, seq<Block>>,
    files: map<string, string>)

  /** The contents of file `p`, empty when it does not exist yet. */
  function FileText(files: map<string, string>, p: string): string
  {
    if p in files then files[p] else ""
  }

  /** `self.cache[key]` of the defaultdict. */
  function Bucket(st: WriterState, key: Option<string>): seq<Block>
  {
    if key in st.cache then st.cache[key] else []
  }

  /** The key order after `del self.cache[key]`. */
  function Remove(order: seq<Option<string>>, key: Option<string>): (r: seq<Option<string>>)
    ensures forall x :: x in r <==> x in order && x != key
  {
    if order == [] then []
    else (if order[0] == key then [] else [order[0]]) + Remove(order[1..], key)
  }

  predicate Distinct(s: seq<Option<string>>)
  {
    forall i, j :: 0 <= i < j < |s| ==> s[i] != s[j]
  }

  lemma {:induction false} RemoveDistinct(order: seq<Option<string>>, key: Option<string>)
    requires Distinct(order)
    ensures Distinct(Remove(order, key))
  {
    if order != [] {
      RemoveDistinct(order[1..], key);
      var rest := Remove(order[1..], key);
      var r := Remove(order, key);
      if order[0] != key {
        assert r == [order[0]] + rest;
        forall i, j | 0 <= i < j < |r| ensures r[i] != r[j] {
          if i == 0 {
            assert r[j] == rest[j - 1] && rest[j - 1] in order[1..];
          } else {
            assert r[i] == rest[i - 1] && r[j] == rest[j - 1];
          }
        }
      }
    }
  }

  /** What the writer keeps between calls: each key once, a list for
      exactly the keys it lists, and every list nonempty and shorter than
      `buffer_size` (a list that reaches it is written at once). */
  predicate ValidState(st: WriterState)
  {
    && KeysAgree(st)
    && (forall k :: k in st.cache ==> 0 < |st.cache[k]| < BufferSize)
  }

  /** The dict's keys, each once, in insertion order. */
  predicate KeysAgree(st: WriterState)
  {
    && Distinct(st.order)
    && (forall k :: k in st.cache ==> k in st.order)
    && (forall k :: k in st.order ==> k in st.cache)
  }

  /** One pass of the loop in `flush`: a `None` key raises AttributeError at
      `key.replace`; otherwise the file is opened for appending (which
      creates it), the IGTs are printed to it one by one, and the key is
      deleted once all were printed. An IGT that raises leaves the ones
      before it in the file and the key in the dict. */
  function AfterFlushKey(st: WriterState, key: Option<string>): (WriterState, Option<PyError>)
  {
    if key.None? then (st, Some(AttributeError))
    else
      var p := Path(key.value);
      var r := Render(Formatted(Bucket(st, key)));
      var files := st.files[p := FileText(st.files, p) + r.0];
      if r.1.Some? then (st.(files := files), r.1)
      else (WriterState(Remove(st.order, key), st.cache - {key}, files), None)
  }

  /** The loop in `flush` over `keys`, stopping at the first exception. */
  function AfterFlushKeys(st: WriterState, keys: seq<Option<string>>): (WriterState, Option<PyError>)
    decreases |keys|
  {
    if keys == [] then (st, None)
    else
      var (st1, e) := AfterFlushKey(st, keys[0]);
      if e.Some? then (st1, e) else AfterFlushKeys(st1, keys[1..])
  }

  lemma FlushKeysStep(st: WriterState, keys: seq<Option<string>>, i: nat)
    requires i < |keys|
    ensures var (st1, e) := AfterFlushKey(st, keys[i]);
      AfterFlushKeys(st, keys[i..]) == if e.Some? then (st1, e) else AfterFlushKeys(st1, keys[i + 1..])
  {
    assert keys[i..][0] == keys[i] && keys[i..][1..] == keys[i + 1..];
  }

  /** `flush(key)`: every key when `key` is `None` (also when the caller
      meant the `None` key itself), else just `key`. */
  function AfterFlush(st: WriterState, key: Option<string>): (WriterState, Option<PyError>)
  {
    AfterFlushKeys(st, if key.None? then st.order else [key])
  }

  /** `write(key, igt)`: append to the key's list, and flush the key when the
      list has reached `buffer_size`. */
  function AfterWrite(st: WriterState, key: Option<string>, igt: Block): (WriterState, Option<PyError>)
  {
    var st1 := Appended(st, key, igt);
    if |Bucket(st1, key)| >= BufferSize then AfterFlush(st1, key) else (st1, None)
  }

  /** `self.cache[key].append(igt)`: a new key goes to the end of the
      order. */
  function Appended(st: WriterState, key: Option<string>, igt: Block): WriterState
  {
    WriterState(
      if key in st.cache then st.order else st.order + [key],
      st.cache[key := Bucket(st, key) + [igt]],
      st.files)
  }

  class BufferedWriter {
    var order: seq<Option<string>>
    var cache: map<Option<string>, seq<Block>>
    var files: map<string, string>

    function State(): WriterState
      reads this
    {
      WriterState(order, cache, files)
    }

    /** A writer with nothing buffered, over the output directory `dir`. */
    constructor(dir: map<string, string>)
      ensures State() == WriterState([], map[], dir)
      ensures ValidState(State())
    {
      order := [];
      cache := map[];
      files := dir;
    }

    method Write(key: Option<string>, igt: Block) returns (err: Option<PyError>)
      modifies this
      ensures (State(), err) == AfterWrite(old(State()), key, igt)
    {
      var bucket := (if key in cache then cache[key] else []) + [igt];
      if key !in cache {
        order := order + [key];
      }
      cache := cache[key := bucket];
      err := None;
      if |bucket| >= BufferSize {
        err := Flush(key);
      }
    }

    method Flush(key: Option<string>) returns (err: Option<PyError>)
      modifies this
      ensures (State(), err) == AfterFlush(old(State()), key)
    {
      var keys := if key.None? then order else [key];
      var i := 0;
      while i < |keys|
        invariant 0 <= i <= |keys|
        invariant AfterFlushKeys(old(State()), keys) == AfterFlushKeys(State(), keys[i..])
      {
        FlushKeysStep(State(), keys, i);
        err := FlushKey(keys[i]);
        if err.Some? {
          return;
        }
        i := i + 1;
      }
      err := None;
    }

    /** The body of the loop in `flush`, for one key. */
    method FlushKey(key: Option<string>) returns (err: Option<PyError>)
      modifies this
      ensures (State(), err) == AfterFlushKey(old(State()), key)
    {
      if key.None? {
        return Some(AttributeError);
      }
      var p := Path(key.value);
      var bucket := if key in cache then cache[key] else [];
      var outs := Formatted(bucket);
      // What has been printed to the open file; it is in the file once the
      // `with` block closes it, whether or not an exception ends the loop.
      var written := [];
      var i := 0;
      assert outs[..0] == [];
      while i < |bucket|
        invariant 0 <= i <= |bucket|
        invariant RenderPrefix(outs, i) == (written, None)
        invariant files == old(files) && order == old(order) && cache == old(cache)
      {
        RenderStep(outs, i);
        match outs[i] {
          case Raised(e) =>
            assert Render(outs) == (written, Some(e));
            files := files[p := FileText(files, p) + written];
            return Some(e);
          case Ok(t) =>
            written := written + Printed(t);
        }
        i := i + 1;
      }
      assert outs[..i] == outs;
      files := files[p := FileText(files, p) + written];
      cache := cache - {key};
      order := Remove(order, key);
      err := None;
    }
  }

  // ---------------------------------------------------------------------
  // What the writer keeps and what it writes

  /** Flushing keeps the writer's shape, whether or not it raises. */
  lemma FlushKeyValid(st: WriterState, key: Option<string>)
    requires ValidState(st)
    ensures ValidState(AfterFlushKey(st, key).0)
  {
    if key.Some? && Render(Formatted(Bucket(st, key))).1.None? {
      RemoveDistinct(st.order, key);
    }
  }

  lemma {:induction false} FlushKeysValid(st: WriterState, keys: seq<Option<string>>)
    requires ValidState(st)
    ensures ValidState(AfterFlushKeys(st, keys).0)
    decreases |keys|
  {
    if keys != [] {
      FlushKeyValid(st, keys[0]);
      FlushKeysValid(AfterFlushKey(st, keys[0]).0, keys[1..]);
    }
  }

  /** A flush over keys that include `None` raises: AttributeError at the
      `None` key, unless an IGT before it raised first. */
  lemma {:induction false} FlushNoneRaises(st: WriterState, keys: seq<Option<string>>)
    requires None in keys
    ensures AfterFlushKeys(st, keys).1.Some?
    decreases |keys|
  {
    if keys[0].Some? && AfterFlushKey(st, keys[0]).1.None? {
      assert None in keys[1..];
      FlushNoneRaises(AfterFlushKey(st, keys[0]).0, keys[1..]);
    }
  }

  /** A write that raises nothing leaves every list nonempty and shorter
      than `buffer_size`: the list it fills up is written and dropped. */
  lemma WriteValid(st: WriterState, key: Option<string>, igt: Block)
    requires ValidState(st) && AfterWrite(st, key, igt).1.None?
    ensures ValidState(AfterWrite(st, key, igt).0)
  {
    var st1 := Appended(st, key, igt);
    assert KeysAgree(st1);
    if |Bucket(st1, key)| >= BufferSize {
      if key.None? {
        FlushNoneRaises(st1, st1.order);
      }
      assert AfterFlushKeys(st1, [key]) == AfterFlushKey(st1, key);
      RemoveDistinct(st1.order, key);
    }
  }

  /** A write below `buffer_size` touches no file: it only appends to the
      key's list. */
  lemma WriteBuffers(st: WriterState, key: Option<string>, igt: Block)
    requires |Bucket(st, key)| + 1 < BufferSize
    ensures AfterWrite(st, key, igt).1 == None
    ensures AfterWrite(st, key, igt).0.files == st.files
    ensures Bucket(AfterWrite(st, key, igt).0, key) == Bucket(st, key) + [igt]
    ensures forall k :: k != key ==> Bucket(AfterWrite(st, key, igt).0, k) == Bucket(st, k)
  {
  }

  /** Every IGT line of a block parsed, so the block can be formatted. */
  predicate Parsed(b: Block)
  {
    forall j :: 0 <= j < |b.lines| ==> b.lines[j].Some?
  }

  /** Every IGT of a list can be formatted. */
  predicate AllFormat(igts: seq<Block>)
  {
    forall i :: 0 <= i < |igts| ==> Parsed(igts[i])
  }

  lemma RenderAll(igts: seq<Block>)
    requires AllFormat(igts)
    ensures Render(Formatted(igts)).1 == None
  {
    RenderBlocks(igts);
  }

  /** The text of a list one IGT longer. */
  lemma RenderSnoc(igts: seq<Block>, igt: Block)
    requires AllFormat(igts) && Parsed(igt)
    ensures Render(Formatted(igts + [igt])).0 == Render(Formatted(igts)).0 + Printed(FormatOdinIgt(igt).value)
  {
    RenderAll(igts);
    assert Formatted(igts + [igt]) == Formatted(igts) + [FormatOdinIgt(igt)];
    RenderAppend(Formatted(igts), [FormatOdinIgt(igt)]);
    assert [FormatOdinIgt(igt)][1..] == [];
    assert Printed(FormatOdinIgt(igt).value) + [] == Printed(FormatOdinIgt(igt).value);
  }

  /** No two keys of `ks` share a file. */
  predicate PathsApart(ks: set<string>)
  {
    forall k1, k2 :: k1 in ks && k2 in ks && Path(k1) == Path(k2) ==> k1 == k2
  }

  /** Every buffered list has a key from `ks` and can be formatted. */
  predicate Formattable(st: WriterState, ks: set<string>)
  {
    forall key :: key in st.cache ==> key.Some? && key.value in ks && AllFormat(st.cache[key])
  }

  /** What the file of key `k` will hold once the key is flushed: what it
      holds now and the text of the key's list. */
  function Pending(st: WriterState, k: string): string
  {
    FileText(st.files, Path(k)) + Render(Formatted(Bucket(st, Some(k)))).0
  }

  /** Flushing a buffered key whose IGTs all format moves its text from
      the list to the file: the pending text of a key `k` that is the
      flushed key or has a file of its own does not change. */
  lemma FlushKeyPendingAt(st: WriterState, key: Option<string>, k: string)
    requires key in st.cache && key.Some? && AllFormat(st.cache[key])
    requires Some(k) == key || Path(k) != Path(key.value)
    ensures Pending(AfterFlushKey(st, key).0, k) == Pending(st, k)
  {
    RenderAll(st.cache[key]);
    var st1 := AfterFlushKey(st, key).0;
    if Some(k) == key {
      assert Bucket(st1, Some(k)) == [] && Formatted([]) == [];
      assert Pending(st1, k) == Pending(st, k) + [];
    } else {
      assert FileText(st1.files, Path(k)) == FileText(st.files, Path(k));
      assert Bucket(st1, Some(k)) == Bucket(st, Some(k));
    }
  }

  /** Flushing a buffered key whose IGTs all format raises nothing and
      drops the key. */
  lemma FlushKeyDrops(st: WriterState, ks: set<string>, key: Option<string>)
    requires KeysAgree(st) && Formattable(st, ks) && key in st.cache
    ensures var (st1, e) := AfterFlushKey(st, key);
      && e == None && st1.cache == st.cache - {key} && st1.order == Remove(st.order, key)
      && KeysAgree(st1) && Formattable(st1, ks)
  {
    RenderAll(st.cache[key]);
    RemoveDistinct(st.order, key);
  }

  /** Flushing a buffered key leaves every key's pending text as it was. */
  lemma FlushKeyPending(st: WriterState, ks: set<string>, key: Option<string>)
    requires KeysAgree(st) && Formattable(st, ks) && PathsApart(ks) && key in st.cache
    ensures var (st1, e) := AfterFlushKey(st, key);
      && e == None && st1.cache == st.cache - {key} && st1.order == Remove(st.order, key)
      && KeysAgree(st1) && Formattable(st1, ks)
      && forall k :: k in ks ==> Pending(st1, k) == Pending(st, k)
  {
    FlushKeyDrops(st, ks, key);
    forall k | k in ks ensures Pending(AfterFlushKey(st, key).0, k) == Pending(st, k) {
      FlushKeyPendingAt(st, key, k);
    }
  }

  lemma DistinctTail(keys: seq<Option<string>>)
    requires Distinct(keys) && keys != []
    ensures Distinct(keys[1..]) && keys[0] !in keys[1..]
    ensures forall key :: key in keys[1..] ==> key in keys
  {
    assert forall j :: 0 <= j < |keys[1..]| ==> keys[1..][j] == keys[j + 1];
  }

  /** Flushing distinct buffered keys one after the other raises nothing
      and drops them. */
  lemma {:induction false} FlushKeysDrop(st: WriterState, ks: set<string>, keys: seq<Option<string>>)
    requires KeysAgree(st) && Formattable(st, ks)
    requires Distinct(keys) && forall key :: key in keys ==> key in st.cache
    ensures AfterFlushKeys(st, keys).1 == None
    ensures KeysAgree(AfterFlushKeys(st, keys).0) && Formattable(AfterFlushKeys(st, keys).0, ks)
    ensures forall key :: key in AfterFlushKeys(st, keys).0.cache ==> key in st.cache && key !in keys
    decreases |keys|
  {
    if keys != [] {
      FlushKeyDrops(st, ks, keys[0]);
      DistinctTail(keys);
      FlushKeysDrop(AfterFlushKey(st, keys[0]).0, ks, keys[1..]);
    }
  }

  /** ... and changes no key's pending text. */
  lemma {:induction false} FlushKeysPending(st: WriterState, ks: set<string>, keys: seq<Option<string>>)
    requires KeysAgree(st) && Formattable(st, ks) && PathsApart(ks)
    requires Distinct(keys) && forall key :: key in keys ==> key in st.cache
    ensures forall k :: k in ks ==> Pending(AfterFlushKeys(st, keys).0, k) == Pending(st, k)
    decreases |keys|
  {
    if keys != [] {
      var st1 := AfterFlushKey(st, keys[0]).0;
      assert forall k :: k in ks ==> Pending(st1, k) == Pending(st, k) by {
        FlushKeyPending(st, ks, keys[0]);
      }
      assert KeysAgree(st1) && Formattable(st1, ks) && AfterFlushKeys(st, keys) == AfterFlushKeys(st1, keys[1..])
        && Distinct(keys[1..]) && forall key :: key in keys[1..] ==> key in st1.cache by {
        FlushKeyDrops(st, ks, keys[0]);
        DistinctTail(keys);
      }
      FlushKeysPending(st1, ks, keys[1..]);
    }
  }

  /** The flush at the end of a run: when every buffered key is a string
      whose IGTs all format, it raises nothing and empties the writer. */
  lemma FlushAllEmpties(st: WriterState, ks: set<string>)
    requires KeysAgree(st) && Formattable(st, ks) && PathsApart(ks)
    ensures AfterFlush(st, None).1 == None
    ensures AfterFlush(st, None).0.cache == map[]
    ensures forall key :: key !in AfterFlush(st, None).0.order
  {
    var st1 := AfterFlushKeys(st, st.order).0;
    assert AfterFlushKeys(st, st.order).1 == None && KeysAgree(st1)
      && forall key :: key in st1.cache ==> key in st.cache && key !in st.order by {
      FlushKeysDrop(st, ks, st.order);
    }
    assert st1.cache == map[];
  }

  /** ... and leaves each file holding its pending text. */
  lemma FlushAllPending(st: WriterState, ks: set<string>)
    requires KeysAgree(st) && Formattable(st, ks) && PathsApart(ks)
    ensures forall k :: k in ks ==> FileText(AfterFlush(st, None).0.files, Path(k)) == Pending(st, k)
  {
    var st1 := AfterFlush(st, None).0;
    assert forall k :: k in ks ==> Pending(st1, k) == Pending(st, k) by {
      FlushKeysPending(st, ks, st.order);
    }
    assert st1.cache == map[] by {
      FlushAllEmpties(st, ks);
    }
    forall k | k in ks ensures FileText(st1.files, Path(k)) == Pending(st, k) {
      assert Bucket(st1, Some(k)) == [] && Formatted([]) == [];
      assert Pending(st1, k) == FileText(st1.files, Path(k)) + [];
    }
  }

  /** Appending to a key's list adds the IGT's text to that key's pending
      text and to no other key's. */
  lemma AppendedPendingAt(st: WriterState, key: Option<string>, igt: Block, k: string)
    requires AllFormat(Bucket(st, key)) && Parsed(igt)
    ensures Pending(Appended(st, key, igt), k) ==
      Pending(st, k) + (if Some(k) == key then Printed(FormatOdinIgt(igt).value) else [])
  {
    var st1 := Appended(st, key, igt);
    BucketAppended(st, key, igt, Some(k));
    if Some(k) == key {
      RenderSnoc(Bucket(st, key), igt);
      Concat3Text(FileText(st.files, Path(k)), Render(Formatted(Bucket(st, key))).0,
                  Printed(FormatOdinIgt(igt).value));
    } else {
      assert Pending(st1, k) == Pending(st, k);
      assert Pending(st, k) + [] == Pending(st, k);
    }
  }

  /** `self.cache[key].append(igt)` changes the list of `key` only, and no
      file. */
  lemma BucketAppended(st: WriterState, key: Option<string>, igt: Block, other: Option<string>)
    ensures Bucket(Appended(st, key, igt), other) == if other == key then Bucket(st, key) + [igt] else Bucket(st, other)
    ensures Appended(st, key, igt).files == st.files
  {
  }

  lemma Concat3Text(a: string, b: string, c: string)
    ensures a + (b + c) == (a + b) + c
  {
  }

  /** Appending a formattable IGT under a key of `ks`. */
  lemma AppendedFormattable(st: WriterState, ks: set<string>, key: Option<string>, igt: Block)
    requires KeysAgree(st) && Formattable(st, ks)
    requires key.Some? && key.value in ks && Parsed(igt)
    ensures KeysAgree(Appended(st, key, igt)) && Formattable(Appended(st, key, igt), ks)
  {
    var b := Bucket(st, key) + [igt];
    assert forall i :: 0 <= i < |b| ==> Parsed(b[i]) by {
      forall i | 0 <= i < |b| ensures Parsed(b[i]) {
        if i < |b| - 1 { assert b[i] == Bucket(st, key)[i]; }
      }
    }
  }

  /** A write of a formattable IGT under a key of `ks` raises nothing and
      keeps the writer's shape. */
  lemma WriteFormattable(st: WriterState, ks: set<string>, key: Option<string>, igt: Block)
    requires ValidState(st) && Formattable(st, ks) && PathsApart(ks)
    requires key.Some? && key.value in ks && Parsed(igt)
    ensures AfterWrite(st, key, igt).1 == None
    ensures ValidState(AfterWrite(st, key, igt).0) && Formattable(AfterWrite(st, key, igt).0, ks)
  {
    var st1 := Appended(st, key, igt);
    AppendedFormattable(st, ks, key, igt);
    if |Bucket(st1, key)| >= BufferSize {
      assert AfterFlushKeys(st1, [key]) == AfterFlushKey(st1, key);
      FlushKeyDrops(st1, ks, key);
    }
  }

  /** Appending adds the IGT's text to its key's pending text only. */
  lemma AppendedPending(st: WriterState, ks: set<string>, key: Option<string>, igt: Block)
    requires AllFormat(Bucket(st, key)) && Parsed(igt)
    ensures forall k :: k in ks ==>
      Pending(Appended(st, key, igt), k) ==
      Pending(st, k) + (if Some(k) == key then Printed(FormatOdinIgt(igt).value) else [])
  {
    forall k | k in ks
      ensures Pending(Appended(st, key, igt), k) ==
        Pending(st, k) + (if Some(k) == key then Printed(FormatOdinIgt(igt).value) else [])
    {
      AppendedPendingAt(st, key, igt, k);
    }
  }

  /** The flush a write makes when the list is full changes no key's
      pending text. */
  lemma WriteFlushPending(st: WriterState, ks: set<string>, key: Option<string>, igt: Block)
    requires KeysAgree(st) && Formattable(st, ks) && PathsApart(ks)
    requires key.Some? && key.value in ks && Parsed(igt)
    ensures forall k :: k in ks ==> Pending(AfterWrite(st, key, igt).0, k) == Pending(Appended(st, key, igt), k)
  {
    var st1 := Appended(st, key, igt);
    if |Bucket(st1, key)| >= BufferSize {
      assert AfterWrite(st, key, igt) == AfterFlushKey(st1, key) by {
        assert AfterFlushKeys(st1, [key]) == AfterFlushKey(st1, key);
      }
      AppendedFormattable(st, ks, key, igt);
      FlushKeyPending(st1, ks, key);
    }
  }

  /** ... and adds the IGT's text to that key's pending text only. */
  lemma WritePending(st: WriterState, ks: set<string>, key: Option<string>, igt: Block)
    requires ValidState(st) && Formattable(st, ks) && PathsApart(ks)
    requires key.Some? && key.value in ks && Parsed(igt)
    ensures forall k :: k in ks ==>
      Pending(AfterWrite(st, key, igt).0, k) ==
      Pending(st, k) + (if Some(k) == key then Printed(FormatOdinIgt(igt).value) else [])
  {
    WriteFlushPending(st, ks, key, igt);
    AppendedPending(st, ks, key, igt);
  }
}
