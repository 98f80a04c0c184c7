/** Directory listings as both listing routes build them: keep the names a
    suffix test accepts, stat each kept entry, and sort by modification time,
    most recent first, with `Array.prototype.sort` (stable since ES2019) and the
    comparator `(a, b) => b.mtime - a.mtime`. */
module FileListing {
  import opened Wrappers

  /** What `stat` reports about one entry. `mtime` is the time the route
      compares: `mtimeMs`, a fractional number of milliseconds, in
      api/server.js; `mtime.getTime()`, whole milliseconds, in the Next.js
      route, where two files modified within the same millisecond tie. */
  datatype Stat = Stat(size: nat, mtime: real)

  /** One name returned by `readdir`, with the outcome of stat-ing it:
      `None` when the stat call would throw. */
  datatype DirEntry = DirEntry(name: string, stat: Option<Stat>)

  /** One element of the listing: `{ name, size, mtime }`. */
  datatype FileInfo = FileInfo(name: string, size: nat, mtime: real)

  /** `names.filter(n => keep(n))`, order kept. */
  function KeepNames(entries: seq<DirEntry>, keep: string -> bool): (kept: seq<DirEntry>)
    ensures |kept| <= |entries|
    ensures forall e | e in kept :: keep(e.name)
    ensures forall e :: multiset(kept)[e] == if keep(e.name) then multiset(entries)[e] else 0
  {
    if |entries| == 0 then []
    else
      var rest := KeepNames(entries[1..], keep);
      assert entries == [entries[0]] + entries[1..];
      if keep(entries[0].name) then [entries[0]] + rest else rest
  }

  /** The filter keeps directory order: filtering a concatenation filters
      each part and concatenates the results. */
  lemma {:induction false} KeepNamesAppend(a: seq<DirEntry>, b: seq<DirEntry>, keep: string -> bool)
    ensures KeepNames(a + b, keep) == KeepNames(a, keep) + KeepNames(b, keep)
  {
    if |a| > 0 {
      assert (a + b)[0] == a[0];
      assert (a + b)[1..] == a[1..] + b;
      KeepNamesAppend(a[1..], b, keep);
    } else {
      assert a + b == b;
    }
  }

  /** The listing element for an entry whose stat succeeded. */
  function Info(e: DirEntry): FileInfo
    requires e.stat.Some?
  {
    FileInfo(e.name, e.stat.value.size, e.stat.value.mtime)
  }

  /** `Promise.all(names.map(stat))` or the synchronous `map` with `statSync`:
      one element per entry, in order, or a failure as soon as one stat fails. */
  function StatAll(entries: seq<DirEntry>): (r: Option<seq<FileInfo>>)
    ensures r.Some? <==> forall i | 0 <= i < |entries| :: entries[i].stat.Some?
    ensures r.Some? ==> |r.value| == |entries|
    ensures r.Some? ==> forall i | 0 <= i < |entries| :: r.value[i] == Info(entries[i])
  {
    if |entries| == 0 then Some([])
    else if entries[0].stat.None? then None
    else
      match StatAll(entries[1..])
      case None => None
      case Some(rest) => Some([Info(entries[0])] + rest)
  }

  /** Most recent first: modification times never increase along the list. */
  predicate SortedByMtime(fs: seq<FileInfo>) {
    forall i, j | 0 <= i < j < |fs| :: fs[i].mtime >= fs[j].mtime
  }

  /** The elements modified at time `t`, in list order. */
  function WithMtime(fs: seq<FileInfo>, t: real): seq<FileInfo> {
    if |fs| == 0 then []
    else (if fs[0].mtime == t then [fs[0]] else []) + WithMtime(fs[1..], t)
  }

  /** Puts `f` in front of the first element that is not more recent than it,
      so `f` goes before the elements it ties with. */
  function Insert(f: FileInfo, fs: seq<FileInfo>): (r: seq<FileInfo>)
    ensures multiset(r) == multiset(fs) + multiset{f}
  {
    if |fs| == 0 || fs[0].mtime <= f.mtime then [f] + fs
    else
      assert fs == [fs[0]] + fs[1..];
      [fs[0]] + Insert(f, fs[1..])
  }

  /** Inserting into a sorted list keeps it sorted. */
  lemma {:induction false} InsertKeepsSorted(f: FileInfo, fs: seq<FileInfo>)
    requires SortedByMtime(fs)
    ensures SortedByMtime(Insert(f, fs))
  {
    if |fs| == 0 || fs[0].mtime <= f.mtime {
      ConsKeepsSorted(f, fs);
    } else {
      var rest := Insert(f, fs[1..]);
      InsertKeepsSorted(f, fs[1..]);
      forall x | x in rest ensures x.mtime <= fs[0].mtime {
        assert x in multiset(rest);
      }
      ConsKeepsSorted(fs[0], rest);
    }
  }

  /** Putting an element in front of a sorted list that is no more recent
      than it gives a sorted list. */
  lemma ConsKeepsSorted(x: FileInfo, fs: seq<FileInfo>)
    requires SortedByMtime(fs)
    requires forall y | y in fs :: y.mtime <= x.mtime
    ensures SortedByMtime([x] + fs)
  {
    var r := [x] + fs;
    forall i, j | 0 <= i < j < |r| ensures r[i].mtime >= r[j].mtime {
      assert r[j] == fs[j - 1];
      if i > 0 {
        assert r[i] == fs[i - 1];
      }
    }
  }

  /** `f` joins the elements of its own time in front, and the elements of
      every other time are untouched. */
  lemma {:induction false} InsertWithMtime(f: FileInfo, fs: seq<FileInfo>, t: real)
    ensures WithMtime(Insert(f, fs), t) == (if f.mtime == t then [f] else []) + WithMtime(fs, t)
  {
    if |fs| == 0 || fs[0].mtime <= f.mtime {
      assert ([f] + fs)[1..] == fs;
    } else {
      var rest := Insert(f, fs[1..]);
      assert ([fs[0]] + rest)[1..] == rest;
      InsertWithMtime(f, fs[1..], t);
      if f.mtime == t {
        assert fs[0].mtime != t;
      }
    }
  }

  /** The sort by modification time, most recent first. */
  function SortByMtime(fs: seq<FileInfo>): (r: seq<FileInfo>)
    ensures multiset(r) == multiset(fs)
  {
    if |fs| == 0 then []
    else
      assert fs == [fs[0]] + fs[1..];
      Insert(fs[0], SortByMtime(fs[1..]))
  }

  /** The result is ordered most recent first. */
  lemma {:induction false} SortByMtimeSorted(fs: seq<FileInfo>)
    ensures SortedByMtime(SortByMtime(fs))
  {
    if |fs| > 0 {
      SortByMtimeSorted(fs[1..]);
      InsertKeepsSorted(fs[0], SortByMtime(fs[1..]));
    }
  }

  /** The sort is stable: the elements of any one modification time appear in
      their input order. */
  lemma {:induction false} SortByMtimeStable(fs: seq<FileInfo>, t: real)
    ensures WithMtime(SortByMtime(fs), t) == WithMtime(fs, t)
  {
    if |fs| > 0 {
      SortByMtimeStable(fs[1..], t);
      InsertWithMtime(fs[0], SortByMtime(fs[1..]), t);
    }
  }

  /** An entry is kept exactly when it is in the directory and its name passes. */
  lemma KeptMembership(entries: seq<DirEntry>, keep: string -> bool, e: DirEntry)
    ensures e in KeepNames(entries, keep) <==> e in entries && keep(e.name)
  {
    var kept := KeepNames(entries, keep);
    assert e in kept <==> e in multiset(kept);
    assert e in entries <==> e in multiset(entries);
  }

  /** Everything the sorted listing holds comes from a kept entry. */
  lemma ListedNamesPass(entries: seq<DirEntry>, keep: string -> bool, f: FileInfo)
    requires StatAll(KeepNames(entries, keep)).Some?
    requires f in SortByMtime(StatAll(KeepNames(entries, keep)).value)
    ensures keep(f.name)
  {
    var kept := KeepNames(entries, keep);
    var infos := StatAll(kept).value;
    assert f in multiset(SortByMtime(infos));
    var i :| 0 <= i < |infos| && infos[i] == f;
    assert kept[i] in kept;
  }

  /** Every entry of the directory whose name passes is in the sorted listing,
      with its own size and time. */
  lemma PassingEntriesListed(entries: seq<DirEntry>, keep: string -> bool, e: DirEntry)
    requires forall x | x in entries && keep(x.name) :: x.stat.Some?
    requires e in entries && keep(e.name)
    ensures StatAll(KeepNames(entries, keep)).Some?
    ensures e.stat.Some? && Info(e) in SortByMtime(StatAll(KeepNames(entries, keep)).value)
  {
    var kept := KeepNames(entries, keep);
    forall i | 0 <= i < |kept| ensures kept[i].stat.Some? {
      assert kept[i] in kept;
      KeptMembership(entries, keep, kept[i]);
    }
    KeptMembership(entries, keep, e);
    var infos := StatAll(kept).value;
    var i :| 0 <= i < |kept| && kept[i] == e;
    assert infos[i] == Info(e);
    assert Info(e) in multiset(SortByMtime(infos));
  }
}
