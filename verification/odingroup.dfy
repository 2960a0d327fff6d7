/**
 * Grouping ODIN IGTs into corpora by a key such as the language or the
 * document id: the sort key of an IGT, the index of (file, position) pairs
 * by key, and the selection and ordering of the IGTs written for one key.
 * Loading and dumping xigt files are outside the model: the input files are
 * given as a map from file name to the IGTs the file holds, in order.
 */
module OdinGroup {
  import opened Py
  import opened Xigt
  import opened Dicts
  import opened Sorting
  import OdinTxtRun

  // ---------------------------------------------------------------------
  // igt_sort_key

  /** The length of what `^([^-]+-)?` matches in `s`: through the first
      hyphen when at least one other character comes before it, else
      nothing (the group is optional). */
  function SegmentLength(s: string): (n: nat)
    ensures n <= |s|
    ensures n == 0 <==> ('-' !in s || s[0] == '-')
    ensures n > 0 ==> n >= 2 && s[n - 1] == '-' && '-' !in s[..n - 1]
  {
    if '-' in s && s[0] != '-' then IndexOf(s, '-') + 1 else 0
  }

  /** The length of what `^(igt|i)([^-]+-)?` matches at the start of `s`, 0
      when it does not match.  `igt` is tried first; once it matches the
      optional group cannot make the match fail, so `i` is tried only
      for ids that do not start with `igt`. */
  function IdPrefixLength(s: string): (n: nat)
    ensures n <= |s|
    ensures n == 0 <==> s == [] || s[0] != 'i'
  {
    if |s| >= 3 && s[0] == 'i' && s[1] == 'g' && s[2] == 't' then 3 + SegmentLength(s[3..])
    else if s != [] && s[0] == 'i' then 1 + SegmentLength(s[1..])
    else 0
  }

  /** `re.sub(r'^(igt|i)([^-]+-)?', '', s)`: the id without its prefix. */
  function StripIdPrefix(s: string): (r: string)
    ensures |r| <= |s| && r == s[|s| - |r|..]
    ensures s == [] || s[0] != 'i' ==> r == s
  {
    s[IdPrefixLength(s)..]
  }

  /** `igt.id or '0-0'`. */
  function IdOr(id: Option<string>): (r: string)
    ensures r != []
  {
    if id.None? || id.value == [] then "0-0" else id.value
  }

  /** `int(igt.get_attribute('doc-id', default=0))`; `None` for ValueError. */
  function DocIdNumber(igt: Igt): Option<int>
  {
    if "doc-id" in igt.attributes then ParseInt(igt.attributes["doc-id"]) else Some(0)
  }

  /** `int(re.sub(r'^(igt|i)([^-]+-)?', '', igt.id or '0-0'))`; `None` for
      ValueError. */
  function IdNumber(igt: Igt): Option<int>
  {
    ParseInt(StripIdPrefix(IdOr(igt.id)))
  }

  /** `igt_sort_key`: the pair (doc-id, number of the id), compared as a
      tuple; `(0, 0)` when either conversion raises ValueError. */
  function SortKey(igt: Igt): (r: Key)
    ensures |r| == 2
    ensures DocIdNumber(igt).None? || IdNumber(igt).None? ==> r == [0, 0]
    ensures DocIdNumber(igt).Some? && IdNumber(igt).Some? ==>
      r[0] == DocIdNumber(igt).value && r[1] == IdNumber(igt).value
  {
    var d := DocIdNumber(igt);
    var n := IdNumber(igt);
    if d.Some? && n.Some? then [d.value, n.value] else [0, 0]
  }

  /** What the prefix strip removes is `igt` or `i`, then either nothing or
      a run of characters other than `-` closed by a `-`. */
  lemma StripIdPrefixRemoves(s: string)
    requires s != [] && s[0] == 'i'
    ensures var p := s[..|s| - |StripIdPrefix(s)|];
      && (p == "i" || p == "igt" || (StartsWith(p, "i") && |p| >= 3 && p[|p| - 1] == '-' && '-' !in p[..|p| - 1]))
  {
    var n := IdPrefixLength(s);
    var p := s[..n];
    if |s| >= 3 && s[0] == 'i' && s[1] == 'g' && s[2] == 't' {
      var m := SegmentLength(s[3..]);
      if m == 0 {
        assert p == "igt";
      } else {
        assert p[n - 1] == s[3..][m - 1];
        assert p[..n - 1] == s[..3] + s[3..][..m - 1];
      }
    } else {
      var m := SegmentLength(s[1..]);
      if m == 0 {
        assert p == "i";
      } else {
        assert p[n - 1] == s[1..][m - 1];
        assert p[..n - 1] == s[..1] + s[1..][..m - 1];
      }
    }
  }

  /** `igt10-3` gives 3: the doc-id part up to the hyphen goes with the
      prefix. */
  lemma IdNumberDocPart()
    ensures StripIdPrefix("igt10-3") == "3"
    ensures ParseInt(StripIdPrefix("igt10-3")) == Some(3)
  {
    var s := "igt10-3";
    assert s[3..] == "10-3";
    assert IndexOf("10-3", '-') == 2;
  }

  /** `i3` gives 3: a bare `i` prefix is removed as well. */
  lemma IdNumberShortPrefix()
    ensures StripIdPrefix("i3") == "3"
    ensures ParseInt(StripIdPrefix("i3")) == Some(3)
  {
    var s := "i3";
    assert s[1..] == "3";
    assert SegmentLength("3") == 0 by { assert '-' !in "3"; }
    assert IdPrefixLength(s) == 1;
  }

  /** An IGT without an id, or with an empty one, sorts as `(0, 0)`:
      `'0-0'` is not an integer. */
  lemma SortKeyNoId(igt: Igt)
    requires igt.id.None? || igt.id == Some("")
    ensures SortKey(igt) == [0, 0]
  {
    var s := "0-0";
    assert IdOr(igt.id) == s;
    assert StripIdPrefix(s) == s by { assert s[0] == '0'; }
    assert !AllDigits(s) by { assert s[1] == '-' && !IsDigit('-'); }
  }

  /** An IGT without a doc-id has first component 0 when its id converts. */
  lemma SortKeyNoDocId(igt: Igt)
    requires "doc-id" !in igt.attributes && IdNumber(igt).Some?
    ensures SortKey(igt) == [0, IdNumber(igt).value]
  {
  }

  /** An id with more than one hyphen after its prefix does not convert,
      and the key falls back to `(0, 0)` whatever the doc-id. */
  lemma SortKeyBadId(igt: Igt)
    requires igt.id == Some("igt1-2-3")
    ensures SortKey(igt) == [0, 0]
  {
    StripTwoHyphens();
    assert !AllDigits("2-3") by { assert "2-3"[1] == '-' && !IsDigit('-'); }
  }

  lemma StripTwoHyphens()
    ensures StripIdPrefix("igt1-2-3") == "2-3"
  {
    var s := "igt1-2-3";
    assert s[3..] == "1-2-3";
    assert IndexOf("1-2-3", '-') == 1;
  }

  /** The ids `odintxt` assigns, `igt<doc-id>-<n>`, sort by their number:
      for a numeric doc-id without a sign the key is (doc-id, n). */
  lemma SortKeyOfAssignedId(igt: Igt, docId: string, n: int)
    requires docId != [] && AllDigits(docId)
    requires igt.id == Some(OdinTxtRun.IgtId(docId, n))
    requires "doc-id" in igt.attributes && igt.attributes["doc-id"] == docId
    ensures SortKey(igt) == [DigitsValue(docId), n]
  {
    StripAssignedId(docId, IntToString(n));
    ParseIntToString(n);
  }

  /** The strip removes `igt`, the doc-id and the hyphen after it. */
  lemma StripAssignedId(docId: string, t: string)
    requires docId != [] && AllDigits(docId)
    ensures StripIdPrefix("igt" + docId + "-" + t) == t
  {
    var s := "igt" + docId + "-" + t;
    var u := docId + "-" + t;
    assert s[3..] == u;
    assert '-' !in docId by { assert !IsDigit('-'); }
    assert u[..|docId|] == docId;
    IndexOfFirst(u, '-', |docId|);
  }

  // ---------------------------------------------------------------------
  // index

  /** `idx`: key -> file name -> positions, nested `defaultdict`s whose
      keys keep the order they were first used in. */
  type GroupIndex = ODict<Option<string>, ODict<string, set<nat>>>

  ghost predicate IndexValid(idx: GroupIndex)
  {
    idx.Valid() && forall k :: k in idx.vals ==> idx.vals[k].Valid()
  }

  /** Position `i` of file `fn` is recorded under key `k`. */
  predicate Recorded(idx: GroupIndex, k: Option<string>, fn: string, i: nat)
  {
    k in idx.vals && fn in idx.vals[k].vals && i in idx.vals[k].vals[fn]
  }

  /** `idx[k][fn].add(i)`: the missing levels are created empty, as a
      `defaultdict` does, and a new key or file goes to the end of its
      order. */
  function Add(idx: GroupIndex, k: Option<string>, fn: string, i: nat): (r: GroupIndex)
    ensures k in r.vals && fn in r.vals[k].vals && i in r.vals[k].vals[fn]
  {
    var inner: ODict<string, set<nat>> := if k in idx.vals then idx.vals[k] else ODict([], map[]);
    var pos := if fn in inner.vals then inner.vals[fn] else {};
    var inner' := ODict(if fn in inner.vals then inner.keys else inner.keys + [fn], inner.vals[fn := pos + {i}]);
    ODict(if k in idx.vals then idx.keys else idx.keys + [k], idx.vals[k := inner'])
  }

  /** On a well-formed index `Add` is two dictionary stores, and it keeps
      the index well formed. */
  lemma AddIsPut(idx: GroupIndex, k: Option<string>, fn: string, i: nat)
    requires IndexValid(idx)
    ensures var inner := if k in idx.vals then idx.vals[k] else Empty();
      && inner.Valid()
      && Add(idx, k, fn, i) == Put(idx, k, Put(inner, fn, (if fn in inner.vals then inner.vals[fn] else {}) + {i}))
  {
  }

  /** Adding keeps the index well formed. */
  lemma AddValid(idx: GroupIndex, k: Option<string>, fn: string, i: nat, r: GroupIndex)
    requires IndexValid(idx) && r == Add(idx, k, fn, i)
    ensures IndexValid(r)
  {
    AddIsPut(idx, k, fn, i);
  }

  /** Adding records the one new position and keeps the others. */
  lemma AddRecorded(idx: GroupIndex, k: Option<string>, fn: string, i: nat, r: GroupIndex, k2: Option<string>, fn2: string, i2: nat)
    requires r == Add(idx, k, fn, i)
    ensures Recorded(r, k2, fn2, i2) <==> Recorded(idx, k2, fn2, i2) || (k2 == k && fn2 == fn && i2 == i)
  {
  }

  /** Adding a position under a file of `fs` keeps every file of the index
      in `fs`. */
  lemma AddFilesIn(idx: GroupIndex, k: Option<string>, fn: string, i: nat, r: GroupIndex, fs: map<string, seq<Igt>>)
    requires FilesIn(idx, fs) && fn in fs && r == Add(idx, k, fn, i)
    ensures FilesIn(r, fs)
  {
  }

  /** Every file the index names is one of `fs`. */
  ghost predicate FilesIn(idx: GroupIndex, fs: map<string, seq<Igt>>)
  {
    forall k, fn :: k in idx.vals && fn in idx.vals[k].vals ==> fn in fs
  }

  /** `index(fn, by, idx)` over the first `n` IGTs of the file, with
      `find` the `xigtpath.find` query of the `--by` option. */
  function IndexFile(idx: GroupIndex, fn: string, igts: seq<Igt>, find: Igt -> Option<string>, n: nat): (r: GroupIndex)
    requires n <= |igts|
    decreases n
  {
    if n == 0 then idx else Add(IndexFile(idx, fn, igts, find, n - 1), find(igts[n - 1]), fn, n - 1)
  }

  lemma {:induction false} IndexFileRecorded(idx: GroupIndex, fn: string, igts: seq<Igt>, find: Igt -> Option<string>, n: nat,
                                             k: Option<string>, f: string, i: nat)
    requires n <= |igts|
    ensures Recorded(IndexFile(idx, fn, igts, find, n), k, f, i)
      <==> Recorded(idx, k, f, i) || (f == fn && i < n && k == find(igts[i]))
    decreases n
  {
    if n > 0 {
      var prev := IndexFile(idx, fn, igts, find, n - 1);
      var cur := IndexFile(idx, fn, igts, find, n);
      IndexFileRecorded(idx, fn, igts, find, n - 1, k, f, i);
      IndexFileUnfold(idx, fn, igts, find, n);
      AddRecorded(prev, find(igts[n - 1]), fn, n - 1, cur, k, f, i);
      RecordedStep(idx, prev, cur, fn, igts, find, n, k, f, i);
    }
  }

  lemma IndexFileUnfold(idx: GroupIndex, fn: string, igts: seq<Igt>, find: Igt -> Option<string>, n: nat)
    requires 0 < n <= |igts|
    ensures IndexFile(idx, fn, igts, find, n) == Add(IndexFile(idx, fn, igts, find, n - 1), find(igts[n - 1]), fn, n - 1)
  {
  }

  lemma RecordedStep(idx: GroupIndex, prev: GroupIndex, cur: GroupIndex, fn: string, igts: seq<Igt>, find: Igt -> Option<string>, n: nat,
                     k: Option<string>, f: string, i: nat)
    requires 0 < n <= |igts|
    requires Recorded(prev, k, f, i) <==> Recorded(idx, k, f, i) || (f == fn && i < n - 1 && k == find(igts[i]))
    requires Recorded(cur, k, f, i) <==> Recorded(prev, k, f, i) || (k == find(igts[n - 1]) && f == fn && i == n - 1)
    ensures Recorded(cur, k, f, i) <==> Recorded(idx, k, f, i) || (f == fn && i < n && k == find(igts[i]))
  {
  }

  lemma {:induction false} IndexFileFilesIn(idx: GroupIndex, fn: string, igts: seq<Igt>, find: Igt -> Option<string>, n: nat,
                                            fs: map<string, seq<Igt>>)
    requires n <= |igts| && FilesIn(idx, fs) && fn in fs
    ensures FilesIn(IndexFile(idx, fn, igts, find, n), fs)
    decreases n
  {
    if n > 0 {
      IndexFileFilesIn(idx, fn, igts, find, n - 1, fs);
      IndexFileFilesInStep(idx, fn, igts, find, n, fs);
    }
  }

  lemma IndexFileFilesInStep(idx: GroupIndex, fn: string, igts: seq<Igt>, find: Igt -> Option<string>, n: nat,
                             fs: map<string, seq<Igt>>)
    requires 0 < n <= |igts| && fn in fs && FilesIn(IndexFile(idx, fn, igts, find, n - 1), fs)
    ensures FilesIn(IndexFile(idx, fn, igts, find, n), fs)
  {
    IndexFileUnfold(idx, fn, igts, find, n);
    AddFilesIn(IndexFile(idx, fn, igts, find, n - 1), find(igts[n - 1]), fn, n - 1, IndexFile(idx, fn, igts, find, n), fs);
  }

  /** Indexing keeps the key and file orders free of repeats and in step
      with the dictionaries. */
  lemma {:induction false} IndexFileValid(idx: GroupIndex, fn: string, igts: seq<Igt>, find: Igt -> Option<string>, n: nat)
    requires IndexValid(idx) && n <= |igts|
    ensures IndexValid(IndexFile(idx, fn, igts, find, n))
    decreases n
  {
    if n > 0 {
      IndexFileValid(idx, fn, igts, find, n - 1);
      IndexFileValidStep(idx, fn, igts, find, n);
    }
  }

  lemma IndexFileValidStep(idx: GroupIndex, fn: string, igts: seq<Igt>, find: Igt -> Option<string>, n: nat)
    requires 0 < n <= |igts| && IndexValid(IndexFile(idx, fn, igts, find, n - 1))
    ensures IndexValid(IndexFile(idx, fn, igts, find, n))
  {
    IndexFileUnfold(idx, fn, igts, find, n);
    AddValid(IndexFile(idx, fn, igts, find, n - 1), find(igts[n - 1]), fn, n - 1, IndexFile(idx, fn, igts, find, n));
  }

  /** The first loop of `run`: the first `m` input files indexed in turn,
      starting from an empty index. */
  function IndexFiles(fs: map<string, seq<Igt>>, infiles: seq<string>, find: Igt -> Option<string>, m: nat): (r: GroupIndex)
    requires m <= |infiles| && forall j :: 0 <= j < |infiles| ==> infiles[j] in fs
    decreases m
  {
    if m == 0 then Empty()
    else
      var fn := infiles[m - 1];
      IndexFile(IndexFiles(fs, infiles, find, m - 1), fn, fs[fn], find, |fs[fn]|)
  }

  /** Position `i` of file `fn` exists among the first `m` input files. */
  ghost predicate InputPosition(fs: map<string, seq<Igt>>, infiles: seq<string>, m: nat, fn: string, i: nat)
  {
    (exists j :: 0 <= j < m && j < |infiles| && infiles[j] == fn) && fn in fs && i < |fs[fn]|
  }

  /** The index records each position of each input file under exactly one
      key, the one `find` gives for the IGT there, and records nothing
      else. */
  lemma {:induction false} IndexFilesRecorded(fs: map<string, seq<Igt>>, infiles: seq<string>, find: Igt -> Option<string>, m: nat,
                                              k: Option<string>, f: string, i: nat)
    requires m <= |infiles| && forall j :: 0 <= j < |infiles| ==> infiles[j] in fs
    ensures Recorded(IndexFiles(fs, infiles, find, m), k, f, i)
      <==> InputPosition(fs, infiles, m, f, i) && k == find(fs[f][i])
    decreases m
  {
    if m > 0 {
      var fn := infiles[m - 1];
      IndexFilesRecorded(fs, infiles, find, m - 1, k, f, i);
      IndexFileRecorded(IndexFiles(fs, infiles, find, m - 1), fn, fs[fn], find, |fs[fn]|, k, f, i);
      InputPositionStep(fs, infiles, m, f, i);
    }
  }

  lemma InputPositionStep(fs: map<string, seq<Igt>>, infiles: seq<string>, m: nat, f: string, i: nat)
    requires 0 < m <= |infiles|
    ensures InputPosition(fs, infiles, m, f, i)
      <==> InputPosition(fs, infiles, m - 1, f, i) || (f == infiles[m - 1] && f in fs && i < |fs[f]|)
  {
    if f == infiles[m - 1] && f in fs && i < |fs[f]| {
      assert 0 <= m - 1 < m && infiles[m - 1] == f;
    }
  }

  /** Every file the index names is an input file. */
  lemma {:induction false} IndexFilesIn(fs: map<string, seq<Igt>>, infiles: seq<string>, find: Igt -> Option<string>, m: nat)
    requires m <= |infiles| && forall j :: 0 <= j < |infiles| ==> infiles[j] in fs
    ensures FilesIn(IndexFiles(fs, infiles, find, m), fs)
    decreases m
  {
    if m > 0 {
      var fn := infiles[m - 1];
      IndexFilesIn(fs, infiles, find, m - 1);
      IndexFileFilesIn(IndexFiles(fs, infiles, find, m - 1), fn, fs[fn], find, |fs[fn]|, fs);
    }
  }

  lemma {:induction false} IndexFilesValid(fs: map<string, seq<Igt>>, infiles: seq<string>, find: Igt -> Option<string>, m: nat)
    requires m <= |infiles| && forall j :: 0 <= j < |infiles| ==> infiles[j] in fs
    ensures IndexValid(IndexFiles(fs, infiles, find, m))
    decreases m
  {
    if m > 0 {
      var fn := infiles[m - 1];
      IndexFilesValid(fs, infiles, find, m - 1);
      IndexFileValid(IndexFiles(fs, infiles, find, m - 1), fn, fs[fn], find, |fs[fn]|);
    }
  }

  /** `index(fn, by, idx)`: one pass over the IGTs of a file. */
  method Index(idx: GroupIndex, fn: string, igts: seq<Igt>, find: Igt -> Option<string>) returns (r: GroupIndex)
    ensures r == IndexFile(idx, fn, igts, find, |igts|)
  {
    r := idx;
    var i := 0;
    while i < |igts|
      invariant i <= |igts|
      invariant r == IndexFile(idx, fn, igts, find, i)
    {
      r := AddNext(idx, r, fn, igts, find, i);
      i := i + 1;
    }
  }

  /** `idx[idx_key][fn].add(i)` for the IGT at position `i`. */
  method AddNext(ghost idx: GroupIndex, r: GroupIndex, fn: string, igts: seq<Igt>, find: Igt -> Option<string>, i: nat)
    returns (r': GroupIndex)
    requires i < |igts| && r == IndexFile(idx, fn, igts, find, i)
    ensures r' == IndexFile(idx, fn, igts, find, i + 1)
  {
    r' := Add(r, find(igts[i]), fn, i);
    IndexFileUnfold(idx, fn, igts, find, i + 1);
  }

  /** The indexing loop of `run`. */
  method IndexAll(fs: map<string, seq<Igt>>, infiles: seq<string>, find: Igt -> Option<string>) returns (idx: GroupIndex)
    requires forall j :: 0 <= j < |infiles| ==> infiles[j] in fs
    ensures idx == IndexFiles(fs, infiles, find, |infiles|)
  {
    idx := Empty();
    for m := 0 to |infiles|
      invariant idx == IndexFiles(fs, infiles, find, m)
    {
      idx := Index(idx, infiles[m], fs[infiles[m]], find);
    }
  }

  /** The `--by doc-id` query `@doc-id`: the attribute, or `None`. */
  function DocIdKey(igt: Igt): (r: Option<string>)
    ensures r.Some? <==> "doc-id" in igt.attributes
    ensures r.Some? ==> r.value == igt.attributes["doc-id"]
  {
    if "doc-id" in igt.attributes then Some(igt.attributes["doc-id"]) else None
  }

  // ---------------------------------------------------------------------
  // write

  /** The files of one group can all be loaded: each is in `fs` and has
      its positions. */
  ghost predicate Loadable(fs: map<string, seq<Igt>>, fnIdx: ODict<string, set<nat>>)
  {
    forall j :: 0 <= j < |fnIdx.keys| ==> fnIdx.keys[j] in fs && fnIdx.keys[j] in fnIdx.vals
  }

  /** The inner loop of `write`: the IGTs among the first `n` of a file
      whose positions are in `pos`, in file order. */
  function FileKept(igts: seq<Igt>, pos: set<nat>, n: nat): (r: seq<Igt>)
    requires n <= |igts|
    decreases n
  {
    if n == 0 then [] else FileKept(igts, pos, n - 1) + (if n - 1 in pos then [igts[n - 1]] else [])
  }

  /** The outer loop of `write` over the first `m` files of the group. */
  function Selected(fs: map<string, seq<Igt>>, fnIdx: ODict<string, set<nat>>, m: nat): (r: seq<Igt>)
    requires m <= |fnIdx.keys| && Loadable(fs, fnIdx)
    decreases m
  {
    if m == 0 then []
    else
      var fn := fnIdx.keys[m - 1];
      Selected(fs, fnIdx, m - 1) + FileKept(fs[fn], fnIdx.vals[fn], |fs[fn]|)
  }

  /** Each IGT paired with its `igt_sort_key`. */
  function KeyedIgts(xs: seq<Igt>): (r: seq<(Key, Igt)>)
    ensures |r| == |xs|
    ensures forall i :: 0 <= i < |xs| ==> r[i] == (SortKey(xs[i]), xs[i])
  {
    seq(|xs|, i requires 0 <= i < |xs| => (SortKey(xs[i]), xs[i]))
  }

  /** `write(out_fn, fn_idx)`: the selected IGTs after
      `xc._list.sort(key=igt_sort_key)`. */
  function Written(fs: map<string, seq<Igt>>, fnIdx: ODict<string, set<nat>>): seq<Igt>
    requires Loadable(fs, fnIdx)
  {
    Elems(Sort(KeyedIgts(Selected(fs, fnIdx, |fnIdx.keys|))))
  }

  /** `write`: select the indexed IGTs file by file, then sort them. */
  method Write(fs: map<string, seq<Igt>>, fnIdx: ODict<string, set<nat>>) returns (xc: seq<Igt>)
    requires Loadable(fs, fnIdx)
    ensures xc == Written(fs, fnIdx)
  {
    xc := [];
    for m := 0 to |fnIdx.keys|
      invariant xc == Selected(fs, fnIdx, m)
    {
      var fn := fnIdx.keys[m];
      var igts := fs[fn];
      var pos := fnIdx.vals[fn];
      for i := 0 to |igts|
        invariant xc == Selected(fs, fnIdx, m) + FileKept(igts, pos, i)
      {
        if i in pos {
          xc := xc + [igts[i]];
        }
      }
    }
    xc := Elems(Sort(KeyedIgts(xc)));
  }

  /** Pairing with keys and dropping them again gives the IGTs back. */
  lemma ElemsKeyed(xs: seq<Igt>)
    ensures Elems(KeyedIgts(xs)) == xs
  {
  }

  /** Every pair the sort returns carries its own IGT's key. */
  lemma SortKeepsKeys(xs: seq<Igt>)
    ensures forall i :: 0 <= i < |xs| ==> Sort(KeyedIgts(xs))[i].0 == SortKey(Sort(KeyedIgts(xs))[i].1)
  {
    var s := KeyedIgts(xs);
    var t := Sort(s);
    forall i | 0 <= i < |t| ensures t[i].0 == SortKey(t[i].1) {
      assert t[i] in multiset(t);
      assert t[i] in s;
    }
  }

  /** `write` outputs exactly the selected IGTs, each as often as it was
      selected. */
  lemma WrittenPermutes(fs: map<string, seq<Igt>>, fnIdx: ODict<string, set<nat>>)
    requires Loadable(fs, fnIdx)
    ensures multiset(Written(fs, fnIdx)) == multiset(Selected(fs, fnIdx, |fnIdx.keys|))
  {
    var sel := Selected(fs, fnIdx, |fnIdx.keys|);
    SortElems(KeyedIgts(sel));
    ElemsKeyed(sel);
  }

  /** The output is in ascending `igt_sort_key` order. */
  lemma WrittenSorted(fs: map<string, seq<Igt>>, fnIdx: ODict<string, set<nat>>)
    requires Loadable(fs, fnIdx)
    ensures var w := Written(fs, fnIdx);
      forall i, j :: 0 <= i < j < |w| ==> KeyLeq(SortKey(w[i]), SortKey(w[j]))
  {
    var sel := Selected(fs, fnIdx, |fnIdx.keys|);
    SortKeepsKeys(sel);
  }

  /** The IGTs whose sort key is `k`, in order. */
  function Tied(xs: seq<Igt>, k: Key): (r: seq<Igt>)
    ensures forall x :: x in r ==> x in xs && SortKey(x) == k
  {
    if xs == [] then [] else (if SortKey(xs[0]) == k then [xs[0]] else []) + Tied(xs[1..], k)
  }

  lemma {:induction false} TiedElems(s: seq<(Key, Igt)>, k: Key)
    requires forall i :: 0 <= i < |s| ==> s[i].0 == SortKey(s[i].1)
    ensures Elems(WithKey(s, k)) == Tied(Elems(s), k)
  {
    if s != [] {
      TiedElems(s[1..], k);
      var h: seq<(Key, Igt)> := if s[0].0 == k then [s[0]] else [];
      var th: seq<Igt> := if s[0].0 == k then [s[0].1] else [];
      var e := Elems(s);
      ElemsAppend(h, WithKey(s[1..], k));
      assert Elems(h) == th;
      assert e[0] == s[0].1 && SortKey(e[0]) == s[0].0;
      assert e[1..] == Elems(s[1..]);
      assert WithKey(s, k) == h + WithKey(s[1..], k);
      assert Tied(e, k) == th + Tied(e[1..], k);
    }
  }

  lemma ElemsAppend<T>(a: seq<(Key, T)>, b: seq<(Key, T)>)
    ensures Elems(a + b) == Elems(a) + Elems(b)
  {
  }

  /** The sort is stable: IGTs with equal keys keep the order the selection
      gave them, files in the group's order and positions in file
      order. */
  lemma WrittenStable(fs: map<string, seq<Igt>>, fnIdx: ODict<string, set<nat>>, k: Key)
    requires Loadable(fs, fnIdx)
    ensures Tied(Written(fs, fnIdx), k) == Tied(Selected(fs, fnIdx, |fnIdx.keys|), k)
  {
    var sel := Selected(fs, fnIdx, |fnIdx.keys|);
    var s := KeyedIgts(sel);
    SortKeepsKeys(sel);
    TiedElems(Sort(s), k);
    TiedElems(s, k);
    ElemsKeyed(sel);
  }

  /** The (file, position) pairs the inner loop of `write` keeps. */
  function FilePositions(fn: string, pos: set<nat>, n: nat): (r: seq<(string, nat)>)
    ensures forall j :: 0 <= j < |r| ==> r[j].0 == fn && r[j].1 < n && r[j].1 in pos
    ensures forall a, b :: 0 <= a < b < |r| ==> r[a].1 < r[b].1
    decreases n
  {
    if n == 0 then [] else FilePositions(fn, pos, n - 1) + (if n - 1 in pos then [(fn, n - 1)] else [])
  }

  /** A file keeps every position of `pos` below `n`. */
  lemma {:induction false} FilePositionsHas(fn: string, pos: set<nat>, n: nat, i: nat)
    requires i < n && i in pos
    ensures (fn, i) in FilePositions(fn, pos, n)
    decreases n
  {
    if i < n - 1 {
      FilePositionsHas(fn, pos, n - 1, i);
    }
  }

  /** The (file, position) pairs the outer loop of `write` keeps over the
      first `m` files. */
  function SelectedPositions(fs: map<string, seq<Igt>>, fnIdx: ODict<string, set<nat>>, m: nat): (r: seq<(string, nat)>)
    requires m <= |fnIdx.keys| && Loadable(fs, fnIdx)
    ensures forall j :: 0 <= j < |r| ==> r[j].0 in fs && r[j].1 < |fs[r[j].0]|
    decreases m
  {
    if m == 0 then []
    else
      var fn := fnIdx.keys[m - 1];
      SelectedPositions(fs, fnIdx, m - 1) + FilePositions(fn, fnIdx.vals[fn], |fs[fn]|)
  }

  /** The IGTs at the given (file, position) pairs. */
  function Lookup(fs: map<string, seq<Igt>>, ps: seq<(string, nat)>): (r: seq<Igt>)
    requires forall j :: 0 <= j < |ps| ==> ps[j].0 in fs && ps[j].1 < |fs[ps[j].0]|
    ensures |r| == |ps|
    ensures forall j :: 0 <= j < |ps| ==> r[j] == fs[ps[j].0][ps[j].1]
  {
    seq(|ps|, j requires 0 <= j < |ps| => fs[ps[j].0][ps[j].1])
  }

  lemma {:induction false} FileKeptAt(fs: map<string, seq<Igt>>, fn: string, pos: set<nat>, n: nat)
    requires fn in fs && n <= |fs[fn]|
    ensures FileKept(fs[fn], pos, n) == Lookup(fs, FilePositions(fn, pos, n))
    decreases n
  {
    if n > 0 {
      FileKeptAt(fs, fn, pos, n - 1);
      var last: seq<(string, nat)> := if n - 1 in pos then [(fn, n - 1)] else [];
      var kept: seq<Igt> := if n - 1 in pos then [fs[fn][n - 1]] else [];
      LookupAppend(fs, FilePositions(fn, pos, n - 1), last);
      LookupOne(fs, fn, n - 1);
      assert Lookup(fs, last) == kept;
      assert FileKept(fs[fn], pos, n) == FileKept(fs[fn], pos, n - 1) + kept;
      assert FilePositions(fn, pos, n) == FilePositions(fn, pos, n - 1) + last;
    }
  }

  lemma LookupOne(fs: map<string, seq<Igt>>, fn: string, i: nat)
    requires fn in fs && i < |fs[fn]|
    ensures Lookup(fs, [(fn, i)]) == [fs[fn][i]]
    ensures Lookup(fs, []) == []
  {
  }

  lemma LookupAppend(fs: map<string, seq<Igt>>, a: seq<(string, nat)>, b: seq<(string, nat)>)
    requires forall j :: 0 <= j < |a| ==> a[j].0 in fs && a[j].1 < |fs[a[j].0]|
    requires forall j :: 0 <= j < |b| ==> b[j].0 in fs && b[j].1 < |fs[b[j].0]|
    ensures Lookup(fs, a + b) == Lookup(fs, a) + Lookup(fs, b)
  {
  }

  /** The selection is the IGTs at the selected positions, in that
      order. */
  lemma {:induction false} SelectedAt(fs: map<string, seq<Igt>>, fnIdx: ODict<string, set<nat>>, m: nat)
    requires m <= |fnIdx.keys| && Loadable(fs, fnIdx)
    ensures Selected(fs, fnIdx, m) == Lookup(fs, SelectedPositions(fs, fnIdx, m))
    decreases m
  {
    if m > 0 {
      var fn := fnIdx.keys[m - 1];
      SelectedAt(fs, fnIdx, m - 1);
      FileKeptAt(fs, fn, fnIdx.vals[fn], |fs[fn]|);
      LookupAppend(fs, SelectedPositions(fs, fnIdx, m - 1), FilePositions(fn, fnIdx.vals[fn], |fs[fn]|));
    }
  }

  /** A pair is selected exactly when its file is one of the first `m`
      files of the group, its position is in that file's set, and the file
      has that many IGTs. */
  lemma {:induction false} SelectedPositionsHas(fs: map<string, seq<Igt>>, fnIdx: ODict<string, set<nat>>, m: nat,
                                                fn: string, i: nat)
    requires m <= |fnIdx.keys| && Loadable(fs, fnIdx)
    ensures (fn, i) in SelectedPositions(fs, fnIdx, m)
      <==> fn in fnIdx.keys[..m] && i in fnIdx.vals[fn] && i < |fs[fn]|
    decreases m
  {
    if m > 0 {
      var f := fnIdx.keys[m - 1];
      SelectedPositionsHas(fs, fnIdx, m - 1, fn, i);
      assert fnIdx.keys[..m] == fnIdx.keys[..m - 1] + [f];
      if fn == f && i in fnIdx.vals[fn] && i < |fs[fn]| {
        FilePositionsHas(f, fnIdx.vals[f], |fs[f]|, i);
      }
    }
  }

  /** The first index of `x` in `ks`. */
  function Rank<T(==)>(ks: seq<T>, x: T): (r: nat)
    requires x in ks
    ensures r < |ks| && ks[r] == x
    ensures forall j :: 0 <= j < r ==> ks[j] != x
  {
    if ks[0] == x then 0 else 1 + Rank(ks[1..], x)
  }

  /** The pairs of `r` name files among the first `m` of `ks` and come
      file by file in the order of `ks` and, within a file, by ascending
      position. */
  ghost predicate GroupOrder(ks: seq<string>, m: nat, r: seq<(string, nat)>)
    requires m <= |ks|
  {
    && (forall j :: 0 <= j < |r| ==> r[j].0 in ks[..m])
    && (forall a, b :: 0 <= a < b < |r| ==>
          Rank(ks, r[a].0) < Rank(ks, r[b].0) || (r[a].0 == r[b].0 && r[a].1 < r[b].1))
  }

  /** The selected pairs are in group order: files in the order the group
      lists them, positions ascending within a file. */
  lemma {:induction false} SelectedPositionsOrder(fs: map<string, seq<Igt>>, fnIdx: ODict<string, set<nat>>, m: nat)
    requires m <= |fnIdx.keys| && Loadable(fs, fnIdx) && Distinct(fnIdx.keys)
    ensures GroupOrder(fnIdx.keys, m, SelectedPositions(fs, fnIdx, m))
    decreases m
  {
    if m > 0 {
      var f := fnIdx.keys[m - 1];
      SelectedPositionsOrder(fs, fnIdx, m - 1);
      GroupOrderAppend(fnIdx.keys, m, SelectedPositions(fs, fnIdx, m - 1), FilePositions(f, fnIdx.vals[f], |fs[f]|));
    }
  }

  /** Appending the pairs of the next file keeps the group order. */
  lemma GroupOrderAppend(ks: seq<string>, m: nat, p: seq<(string, nat)>, q: seq<(string, nat)>)
    requires 0 < m <= |ks| && Distinct(ks) && GroupOrder(ks, m - 1, p)
    requires forall j :: 0 <= j < |q| ==> q[j].0 == ks[m - 1]
    requires forall a, b :: 0 <= a < b < |q| ==> q[a].1 < q[b].1
    ensures GroupOrder(ks, m, p + q)
  {
    var r := p + q;
    assert ks[..m] == ks[..m - 1] + [ks[m - 1]];
    RankDistinct(ks, m - 1);
    forall j | 0 <= j < |p| ensures Rank(ks, p[j].0) < m - 1 {
      RankBefore(ks, m - 1, p[j].0);
    }
    forall a, b | 0 <= a < b < |r|
      ensures Rank(ks, r[a].0) < Rank(ks, r[b].0) || (r[a].0 == r[b].0 && r[a].1 < r[b].1)
    {
      if b >= |p| {
        assert r[b] == q[b - |p|];
        if a >= |p| {
          assert r[a] == q[a - |p|];
        } else {
          assert r[a] == p[a];
        }
      } else {
        assert r[a] == p[a] && r[b] == p[b];
      }
    }
    forall j | 0 <= j < |r| ensures r[j].0 in ks[..m] {
      if j < |p| {
        assert r[j] == p[j];
      } else {
        assert r[j] == q[j - |p|];
      }
    }
  }

  lemma RankDistinct<T(!new)>(ks: seq<T>, j: nat)
    requires j < |ks| && Distinct(ks)
    ensures Rank(ks, ks[j]) == j
  {
  }

  lemma RankBefore<T>(ks: seq<T>, m: nat, x: T)
    requires m <= |ks| && x in ks[..m]
    ensures Rank(ks, x) < m
  {
    var j :| 0 <= j < m && ks[..m][j] == x;
    assert ks[j] == x;
  }

  /** `write` outputs exactly the IGTs at the selected positions, each
      once per selected position. */
  lemma WrittenKeeps(fs: map<string, seq<Igt>>, fnIdx: ODict<string, set<nat>>)
    requires Loadable(fs, fnIdx)
    ensures multiset(Written(fs, fnIdx)) == multiset(Lookup(fs, SelectedPositions(fs, fnIdx, |fnIdx.keys|)))
  {
    WrittenPermutes(fs, fnIdx);
    SelectedAt(fs, fnIdx, |fnIdx.keys|);
  }

  // ---------------------------------------------------------------------
  // run

  /** The output file name of a group inside the output directory: `---`
      when the query found nothing, `:` replaced by `-`. */
  function OutName(key: Option<string>): (r: string)
    ensures EndsWith(r, ".xml")
  {
    (if key.None? then "---" else ReplaceChar(key.value, ':', '-')) + ".xml"
  }

  /** Keys without `:` other than `---` get names of their own. */
  lemma OutNameDistinct(a: Option<string>, b: Option<string>)
    requires a.Some? ==> ':' !in a.value && a.value != "---"
    requires b.Some? ==> ':' !in b.value && b.value != "---"
    requires a != b
    ensures OutName(a) != OutName(b)
  {
    if a.Some? {
      ReplaceAbsent(a.value);
    }
    if b.Some? {
      ReplaceAbsent(b.value);
    }
  }

  lemma ReplaceAbsent(s: string)
    requires ':' !in s
    ensures ReplaceChar(s, ':', '-') == s
  {
  }

  /** Two groups can share a file name, the later write replacing the
      earlier one: the group of IGTs without the attribute and a key
      `---`, or keys that differ only in `:` against `-`. */
  lemma OutNameShared()
    ensures OutName(None) == OutName(Some("---"))
    ensures OutName(Some("a:b")) == OutName(Some("a-b"))
  {
    ReplaceAbsent("---");
    assert ReplaceChar("a:b", ':', '-') == "a-b";
  }

  /** Every group of a well-formed index can be written. */
  lemma GroupsLoadable(idx: GroupIndex, fs: map<string, seq<Igt>>)
    requires IndexValid(idx) && FilesIn(idx, fs)
    ensures forall k :: k in idx.vals ==> Loadable(fs, idx.vals[k])
  {
  }

  /** `run` after the output directory is made: one output per key, in the
      order the keys were first found, holding what `write` produces for
      the key's group. */
  function Groups(fs: map<string, seq<Igt>>, infiles: seq<string>, find: Igt -> Option<string>): (r: seq<(string, seq<Igt>)>)
    requires forall j :: 0 <= j < |infiles| ==> infiles[j] in fs
  {
    var idx := IndexFiles(fs, infiles, find, |infiles|);
    IndexFilesValid(fs, infiles, find, |infiles|);
    IndexFilesIn(fs, infiles, find, |infiles|);
    GroupsLoadable(idx, fs);
    seq(|idx.keys|, j requires 0 <= j < |idx.keys| => (OutName(idx.keys[j]), Written(fs, idx.vals[idx.keys[j]])))
  }

  /** `run`: index every input file, then write one corpus per key. */
  method Run(fs: map<string, seq<Igt>>, infiles: seq<string>, find: Igt -> Option<string>) returns (out: seq<(string, seq<Igt>)>)
    requires forall j :: 0 <= j < |infiles| ==> infiles[j] in fs
    ensures out == Groups(fs, infiles, find)
  {
    var idx := IndexAll(fs, infiles, find);
    IndexFilesValid(fs, infiles, find, |infiles|);
    IndexFilesIn(fs, infiles, find, |infiles|);
    GroupsLoadable(idx, fs);
    out := [];
    for j := 0 to |idx.keys|
      invariant |out| == j
      invariant forall t :: 0 <= t < j ==> out[t] == (OutName(idx.keys[t]), Written(fs, idx.vals[idx.keys[t]]))
    {
      var key := idx.keys[j];
      var xc := Write(fs, idx.vals[key]);
      out := out + [(OutName(key), xc)];
    }
  }

  /** A position of an input file is in the output of group `j` exactly
      when the group's key is the one `find` gives for the IGT there. */
  lemma GroupsPartition(fs: map<string, seq<Igt>>, infiles: seq<string>, find: Igt -> Option<string>, j: nat, fn: string, i: nat)
    requires forall t :: 0 <= t < |infiles| ==> infiles[t] in fs
    requires j < |IndexFiles(fs, infiles, find, |infiles|).keys|
    ensures var idx := IndexFiles(fs, infiles, find, |infiles|);
      IndexValid(idx) && FilesIn(idx, fs) && Loadable(fs, idx.vals[idx.keys[j]])
      && ((fn, i) in SelectedPositions(fs, idx.vals[idx.keys[j]], |idx.vals[idx.keys[j]].keys|)
          <==> InputPosition(fs, infiles, |infiles|, fn, i) && idx.keys[j] == find(fs[fn][i]))
  {
    var idx := IndexFiles(fs, infiles, find, |infiles|);
    IndexFilesValid(fs, infiles, find, |infiles|);
    IndexFilesIn(fs, infiles, find, |infiles|);
    GroupsLoadable(idx, fs);
    var k := idx.keys[j];
    var g := idx.vals[k];
    SelectedPositionsHas(fs, g, |g.keys|, fn, i);
    assert g.keys[..|g.keys|] == g.keys;
    IndexFilesRecorded(fs, infiles, find, |infiles|, k, fn, i);
  }

  /** Every position of every input file has a group. */
  lemma GroupsCover(fs: map<string, seq<Igt>>, infiles: seq<string>, find: Igt -> Option<string>, fn: string, i: nat)
    requires forall t :: 0 <= t < |infiles| ==> infiles[t] in fs
    requires InputPosition(fs, infiles, |infiles|, fn, i)
    ensures find(fs[fn][i]) in IndexFiles(fs, infiles, find, |infiles|).keys
  {
    IndexFilesValid(fs, infiles, find, |infiles|);
    IndexFilesRecorded(fs, infiles, find, |infiles|, find(fs[fn][i]), fn, i);
  }
}
