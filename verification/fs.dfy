/** The host filesystem as the image builders see it: a map from cleaned
    path to entry, plus the files whose data writes fail (a full disk, an
    I/O error), each with how many bytes it takes before the error. A name is reached by walking its ancestors from the
    root (or the working directory, for relative paths), which is where
    ENOENT and ENOTDIR come from. Permissions, modes, links and file
    descriptors are not modelled. */
module Fs {
  import opened Base
  import opened GoPath

  datatype Entry = Dir | File(data: seq<byte>)

  /** Entries by path relative to the tree's own root: what an external tool
      extracts or what a mounted image shows. */
  type Tree = map<seq<string>, Entry>

  datatype Disk = Disk(entries: map<PathKey, Entry>, faulty: map<PathKey, nat>)

  /** The result of resolving a key: the entry, no such entry, or a regular
      file standing where a directory was needed. */
  datatype Lookup = Found(entry: Entry) | Missing | FileOnPath

  /** A disk operation's effect and its returned error, if any. */
  datatype Changed = Changed(disk: Disk, out: Outcome)

  function Parent(k: PathKey): (p: PathKey)
    requires |k.segs| > 0
    ensures Child(p, k.segs[|k.segs| - 1]) == k
  {
    PathKey(k.rooted, k.segs[..|k.segs| - 1])
  }

  /** Path resolution: every ancestor must be a directory. The root and the
      working directory always exist. */
  function Walk(d: Disk, k: PathKey): Lookup
    decreases |k.segs|
  {
    if |k.segs| == 0 then Found(Dir)
    else
      match Walk(d, Parent(k))
      case Found(Dir) => if k in d.entries then Found(d.entries[k]) else Missing
      case Found(File(_)) => FileOnPath
      case Missing => Missing
      case FileOnPath => FileOnPath
  }

  /** The error number of a failed lookup. */
  function LookupError(l: Lookup): Error
  {
    match l
    case Missing => Os(NotExist)
    case _ => Os(NotDir)
  }

  /** `os.Stat`: the entry, ENOENT, or ENOTDIR. */
  function Stat(d: Disk, k: PathKey): (r: Result<Entry>)
    ensures r.Ok? <==> Walk(d, k).Found?
    ensures r.Ok? ==> r.value == Walk(d, k).entry
    ensures r.Err? ==> (IsNotExist(r.error) <==> Walk(d, k) == Missing)
  {
    match Walk(d, k)
    case Found(e) => Ok(e)
    case l => Err(LookupError(l))
  }

  /** The directory that would hold `k` exists. */
  predicate ParentIsDir(d: Disk, k: PathKey)
  {
    |k.segs| > 0 && Walk(d, Parent(k)) == Found(Dir)
  }

  /** The error for creating `k` when its directory is not there. */
  function ParentError(d: Disk, k: PathKey): Error
  {
    if |k.segs| == 0 then Os(IsDir)
    else
      match Walk(d, Parent(k))
      case Found(File(_)) => Os(NotDir)
      case l => LookupError(l)
  }

  function Put(d: Disk, k: PathKey, e: Entry): Disk
  {
    d.(entries := d.entries[k := e])
  }

  /** `os.Create`: make or truncate a regular file. On success the file is
      empty; on failure nothing changes. `CreateSpec` says when it succeeds. */
  function Create(d: Disk, k: PathKey): (c: Changed)
    ensures c.out.Pass? ==> c.disk == Put(d, k, File([]))
    ensures c.out.Fail? ==> c.disk == d
  {
    if !ParentIsDir(d, k) then Changed(d, Fail(ParentError(d, k)))
    else if k in d.entries && d.entries[k].Dir? then Changed(d, Fail(Os(IsDir)))
    else Changed(Put(d, k, File([])), Pass)
  }

  /** The bytes a failing write leaves behind: the first `n` of the data,
      or all of it when it is shorter. */
  function Prefix(n: nat, data: seq<byte>): (p: seq<byte>)
    ensures |p| <= |data| && p == data[..|p|]
    ensures |p| == n || p == data
  {
    if n < |data| then data[..n] else data
  }

  /** `(*os.File).Write` on a freshly created file: the file holds the data,
      unless its writes fail, in which case it holds the bytes written
      before the error. */
  function Write(d: Disk, k: PathKey, data: seq<byte>): (c: Changed)
    ensures c.out.Pass? <==> k !in d.faulty
    ensures c.out.Pass? ==> c.disk == Put(d, k, File(data))
    ensures c.out.Fail? ==> k in d.faulty && c.disk == Put(d, k, File(Prefix(d.faulty[k], data)))
  {
    if k in d.faulty then Changed(Put(d, k, File(Prefix(d.faulty[k], data))), Fail(Os(Io)))
    else Changed(Put(d, k, File(data)), Pass)
  }

  /** `os.WriteFile`: create or truncate, then write. A failed create
      changes nothing; a failed write leaves the bytes written before the
      error. */
  function WriteFile(d: Disk, k: PathKey, data: seq<byte>): (c: Changed)
    ensures c.out.Pass? <==> Create(d, k).out.Pass? && k !in d.faulty
    ensures c.out.Pass? ==> c.disk == Put(d, k, File(data))
    ensures c.out.Fail? && Create(d, k).out.Fail? ==> c.disk == d
    ensures c.out.Fail? && Create(d, k).out.Pass? ==>
      k in d.faulty && c.disk == Put(d, k, File(Prefix(d.faulty[k], data)))
  {
    var created := Create(d, k);
    if created.out.Fail? then created
    else
      var written := Write(created.disk, k, data);
      if written.out.Pass? then
        PutTwice(d, k, File([]), File(data));
        written
      else
        PutTwice(d, k, File([]), File(Prefix(d.faulty[k], data)));
        written
  }

  /** `os.ReadFile`. */
  function ReadFile(d: Disk, k: PathKey): (r: Result<seq<byte>>)
    ensures r.Ok? <==> Walk(d, k).Found? && Walk(d, k).entry.File?
    ensures r.Ok? ==> Walk(d, k) == Found(File(r.value))
  {
    match Walk(d, k)
    case Found(File(b)) => Ok(b)
    case Found(Dir) => Err(Os(IsDir))
    case l => Err(LookupError(l))
  }

  /** `os.ReadDir`, for whether it fails: only a directory can be listed.
      The listing itself is only printed, so it is not modelled. */
  function ReadDir(d: Disk, k: PathKey): (r: Outcome)
    ensures r.Pass? <==> Walk(d, k) == Found(Dir)
    ensures r.Fail? ==> (IsNotExist(r.error) <==> Walk(d, k) == Missing)
  {
    match Walk(d, k)
    case Found(Dir) => Pass
    case Found(File(_)) => Fail(Os(NotDir))
    case l => Fail(LookupError(l))
  }

  /** `os.Mkdir`. On success the directory is added; on failure nothing
      changes. `MkdirSpec` says when it succeeds. */
  function Mkdir(d: Disk, k: PathKey): (c: Changed)
    ensures c.out.Pass? ==> c.disk == Put(d, k, Dir) && k !in d.entries
    ensures c.out.Fail? ==> c.disk == d
  {
    if !ParentIsDir(d, k) then Changed(d, Fail(ParentError(d, k)))
    else if k in d.entries then Changed(d, Fail(Os(Exist)))
    else Changed(Put(d, k, Dir), Pass)
  }

  /** `d'` has every entry of `d`, unchanged, and the same faulty files. */
  predicate Keeps(d: Disk, d': Disk)
  {
    && d'.faulty == d.faulty
    && forall q :: q in d.entries ==> q in d'.entries && d'.entries[q] == d.entries[q]
  }

  /** `os.MkdirAll`: done if `k` is already a directory; ENOTDIR if it is a
      file; otherwise make the parent, then `k`, and accept a directory
      that is found there after a failed `Mkdir`. It only adds directories,
      and only at `k` and its ancestors. `MkdirAllSpec` says what success
      means. */
  function MkdirAll(d: Disk, k: PathKey): (c: Changed)
    decreases |k.segs|
    ensures Keeps(d, c.disk)
    ensures forall q :: q in c.disk.entries && q !in d.entries ==> |q.segs| > 0 && Below(k, q) && c.disk.entries[q] == Dir
  {
    if |k.segs| == 0 then Changed(d, Pass)
    else
      match Walk(d, k)
      case Found(Dir) => Changed(d, Pass)
      case Found(File(_)) => Changed(d, Fail(Os(NotDir)))
      case _ =>
        var up := MkdirAll(d, Parent(k));
        BelowParent(k);
        if up.out.Fail? then up
        else
          var made := Mkdir(up.disk, k);
          if made.out.Pass? then made
          else if Walk(up.disk, k) == Found(Dir) then Changed(up.disk, Pass)
          else made
  }

  /** `os.RemoveAll`: `k` and everything below it are gone. */
  function RemoveAll(d: Disk, k: PathKey): (d': Disk)
    ensures forall q :: q in d'.entries <==> q in d.entries && !Below(q, k)
    ensures forall q :: q in d'.entries ==> d'.entries[q] == d.entries[q]
    ensures d'.faulty == d.faulty
  {
    d.(entries := map q | q in d.entries && !Below(q, k) :: d.entries[q])
  }

  /** The tree placed at `at`, hiding whatever was below `at` before (a mount,
      or an extraction into a fresh directory). */
  function Graft(d: Disk, at: PathKey, tree: Tree): (d': Disk)
    ensures at in d'.entries && d'.entries[at] == Dir
    ensures forall rel :: rel in tree && rel != [] ==> Extend(at, rel) in d'.entries && d'.entries[Extend(at, rel)] == tree[rel]
    ensures forall q :: !Below(q, at) ==> (q in d'.entries <==> q in d.entries)
    ensures forall q :: q in d'.entries && !Below(q, at) ==> d'.entries[q] == d.entries[q]
    ensures d'.faulty == d.faulty
  {
    var cleared := RemoveAll(d, at);
    forall r1, r2 | r1 in tree && r2 in tree && Extend(at, r1) == Extend(at, r2) ensures r1 == r2 {
      ExtendInjective(at, r1, r2);
    }
    var moved := map rel | rel in tree :: Extend(at, rel) := tree[rel];
    assert forall rel :: rel in tree ==> Extend(at, rel) in moved && moved[Extend(at, rel)] == tree[rel];
    assert forall q :: q in moved ==> Below(q, at);
    cleared.(entries := (cleared.entries + moved)[at := Dir])
  }

  // ---------------------------------------------------------------------
  // Lemmas
  // ---------------------------------------------------------------------

  /** Different relative paths under one key name different keys. */
  lemma ExtendInjective(at: PathKey, r1: seq<string>, r2: seq<string>)
    requires Extend(at, r1) == Extend(at, r2)
    ensures r1 == r2
  {
    assert r1 == (at.segs + r1)[|at.segs|..];
    assert r2 == (at.segs + r2)[|at.segs|..];
  }

  /** A key that is not below `k` has a parent that is not below `k` either. */
  lemma BelowParent(k: PathKey)
    requires |k.segs| > 0
    ensures forall q :: !Below(k, q) ==> !Below(Parent(k), q)
  {
    forall q | Below(Parent(k), q) ensures Below(k, q) {
      assert k.segs[..|q.segs|] == Parent(k).segs[..|q.segs|];
    }
  }

  /** Changing the entry at `k` does not affect resolving names that are
      neither `k` nor below it. */
  lemma {:induction false} WalkFrame(d: Disk, d': Disk, k: PathKey, q: PathKey)
    requires forall p :: p != k ==> (p in d.entries <==> p in d'.entries)
    requires forall p :: p != k && p in d.entries ==> d'.entries[p] == d.entries[p]
    requires !Below(q, k)
    ensures Walk(d', q) == Walk(d, q)
    decreases |q.segs|
  {
    if |q.segs| > 0 {
      var p := Parent(q);
      assert !Below(p, k);
      WalkFrame(d, d', k, p);
    }
  }

  /** Putting an entry at `k`, whose directory exists, makes `k` resolve to it. */
  lemma WalkPut(d: Disk, k: PathKey, e: Entry)
    requires ParentIsDir(d, k)
    ensures Walk(Put(d, k, e), k) == Found(e)
  {
    var p := Parent(k);
    assert !Below(p, k);
    WalkFrame(d, Put(d, k, e), k, p);
  }

  /** Putting an entry at `k` does not affect names that are not `k` or below it. */
  lemma WalkPutFrame(d: Disk, k: PathKey, e: Entry, q: PathKey)
    requires !Below(q, k)
    ensures Walk(Put(d, k, e), q) == Walk(d, q)
  {
    WalkFrame(d, Put(d, k, e), k, q);
  }

  /** Resolving a name outside `k` only looks at names outside `k`. */
  lemma {:induction false} WalkOutside(d: Disk, d': Disk, k: PathKey, q: PathKey)
    requires forall p :: !Below(p, k) ==> (p in d'.entries <==> p in d.entries)
    requires forall p :: p in d.entries && !Below(p, k) ==> d'.entries[p] == d.entries[p]
    requires !Below(q, k)
    ensures Walk(d', q) == Walk(d, q)
    decreases |q.segs|
  {
    if |q.segs| > 0 {
      BelowParent(q);
      WalkOutside(d, d', k, Parent(q));
    }
  }

  /** Being below is transitive. */
  lemma BelowTrans(a: PathKey, b: PathKey, c: PathKey)
    requires Below(a, b) && Below(b, c)
    ensures Below(a, c)
  {
    assert a.segs[..|c.segs|] == a.segs[..|b.segs|][..|c.segs|];
  }

  /** After `RemoveAll(k)` names outside `k` resolve as before. */
  lemma WalkRemoveAll(d: Disk, k: PathKey, q: PathKey)
    requires !Below(q, k)
    ensures Walk(RemoveAll(d, k), q) == Walk(d, q)
  {
    WalkOutside(d, RemoveAll(d, k), k, q);
  }

  /** After `os.RemoveAll(k)`, `k` is reported missing unless a file on
      its path is in the way. */
  lemma WalkRemoveAllSelf(d: Disk, k: PathKey)
    requires |k.segs| > 0
    requires Walk(d, Parent(k)) == Found(Dir) || Walk(d, Parent(k)) == Missing
    ensures Walk(RemoveAll(d, k), k) == Missing
  {
    assert !Below(Parent(k), k);
    WalkRemoveAll(d, k, Parent(k));
  }

  /** After a graft at `at`, names outside `at` resolve as before, and `at`
      is a directory if its parent was. */
  lemma WalkGraft(d: Disk, at: PathKey, tree: Tree, q: PathKey)
    requires !Below(q, at)
    ensures Walk(Graft(d, at, tree), q) == Walk(d, q)
  {
    WalkOutside(d, Graft(d, at, tree), at, q);
  }

  lemma WalkGraftRoot(d: Disk, at: PathKey, tree: Tree)
    requires ParentIsDir(d, at)
    ensures Walk(Graft(d, at, tree), at) == Found(Dir)
  {
    BelowParent(at);
    WalkGraft(d, at, tree, Parent(at));
  }

  /** A second entry at the same name replaces the first. */
  lemma PutTwice(d: Disk, k: PathKey, e: Entry, e': Entry)
    ensures Put(Put(d, k, e), k, e') == Put(d, k, e')
  {
    assert Put(Put(d, k, e), k, e').entries == Put(d, k, e').entries;
  }

  /** A name that resolves has all its ancestors present as directories. */
  lemma {:induction false} FoundPrefixes(d: Disk, k: PathKey, p: PathKey)
    requires Walk(d, k).Found?
    requires Below(k, p) && |p.segs| > 0
    ensures p in d.entries
    ensures p != k ==> d.entries[p] == Dir
    decreases |k.segs|
  {
    if p != k {
      assert |p.segs| < |k.segs| by {
        if |p.segs| == |k.segs| { assert false; }
      }
      var up := Parent(k);
      assert Below(up, p) by {
        assert up.segs[..|p.segs|] == k.segs[..|p.segs|];
      }
      FoundPrefixes(d, up, p);
      if p == up {
        assert Walk(d, up) == Found(Dir);
      }
    }
  }

  /** Adding entries that are not ancestors of `q` does not change how `q`
      resolves. */
  lemma {:induction false} WalkGrow(d: Disk, d': Disk, q: PathKey)
    requires Keeps(d, d')
    requires forall p :: p in d'.entries && p !in d.entries ==> !Below(q, p)
    ensures Walk(d', q) == Walk(d, q)
    decreases |q.segs|
  {
    if |q.segs| > 0 {
      var up := Parent(q);
      BelowParent(q);
      WalkGrow(d, d', up);
      assert Below(q, q);
    }
  }

  /** Adding entries never changes a name that already resolves. */
  lemma WalkKeep(d: Disk, d': Disk, q: PathKey)
    requires Keeps(d, d')
    requires forall p :: p in d'.entries && p !in d.entries ==> |p.segs| > 0
    requires Walk(d, q).Found?
    ensures Walk(d', q) == Walk(d, q)
  {
    forall p | p in d'.entries && p !in d.entries ensures !Below(q, p) {
      if Below(q, p) {
        FoundPrefixes(d, q, p);
      }
    }
    WalkGrow(d, d', q);
  }

  /** A key below another one and as long as it is that key. */
  lemma BelowSameLength(k: PathKey, p: PathKey)
    ensures Below(k, p) && |k.segs| == |p.segs| ==> k == p
  {
    if Below(k, p) && |k.segs| == |p.segs| {
      assert k.segs[..|p.segs|] == k.segs;
    }
  }

  /** `os.Create` succeeds exactly when the directory that holds `k` exists
      and `k` is not a directory; the name then resolves to an empty file. */
  lemma CreateSpec(d: Disk, k: PathKey)
    ensures Create(d, k).out.Pass? <==> ParentIsDir(d, k) && Walk(d, k) != Found(Dir)
    ensures Create(d, k).out.Pass? ==> Walk(Create(d, k).disk, k) == Found(File([]))
  {
    if ParentIsDir(d, k) {
      WalkPut(d, k, File([]));
    }
  }

  /** `os.WriteFile` succeeds exactly when the file can be created and its
      writes do not fail; the name then resolves to the data. A failed write
      leaves the file holding a prefix of the data, the bytes the file took
      before the error; a failed create changes nothing. */
  lemma WriteFileSpec(d: Disk, k: PathKey, data: seq<byte>)
    ensures var c := WriteFile(d, k, data);
      && (c.out.Pass? <==> ParentIsDir(d, k) && Walk(d, k) != Found(Dir) && k !in d.faulty)
      && (c.out.Pass? ==> Walk(c.disk, k) == Found(File(data)))
      && (c.out.Fail? && ParentIsDir(d, k) && Walk(d, k) != Found(Dir) ==>
            k in d.faulty && Walk(c.disk, k) == Found(File(Prefix(d.faulty[k], data))))
      && (c.out.Fail? && !(ParentIsDir(d, k) && Walk(d, k) != Found(Dir)) ==> c.disk == d)
  {
    CreateSpec(d, k);
    if ParentIsDir(d, k) {
      WalkPut(d, k, File(data));
      if k in d.faulty {
        WalkPut(d, k, File(Prefix(d.faulty[k], data)));
      }
    }
  }

  /** `os.Mkdir` succeeds exactly when the directory that holds `k` exists
      and nothing is at `k`; the name then resolves to a directory. */
  lemma MkdirSpec(d: Disk, k: PathKey)
    ensures Mkdir(d, k).out.Pass? <==> ParentIsDir(d, k) && k !in d.entries
    ensures Mkdir(d, k).out.Pass? ==> Walk(Mkdir(d, k).disk, k) == Found(Dir)
  {
    if ParentIsDir(d, k) {
      WalkPut(d, k, Dir);
    }
  }

  /** After a successful `os.MkdirAll` the name resolves to a directory. */
  lemma {:induction false} MkdirAllSpec(d: Disk, k: PathKey)
    ensures MkdirAll(d, k).out.Pass? ==> Walk(MkdirAll(d, k).disk, k) == Found(Dir)
    decreases |k.segs|
  {
    if |k.segs| > 0 && !Walk(d, k).Found? {
      var up := MkdirAll(d, Parent(k));
      MkdirAllSpec(d, Parent(k));
      if up.out.Pass? {
        MkdirSpec(up.disk, k);
      }
    }
  }

  /** Below a directory that resolves, `MkdirAll` succeeds unless a regular
      file stands on the way. */
  lemma {:induction false} MkdirAllPasses(d: Disk, k: PathKey, root: PathKey)
    requires Walk(d, root) == Found(Dir)
    requires Below(k, root)
    requires forall p :: p in d.entries && Below(k, p) && |p.segs| > |root.segs| ==> d.entries[p] == Dir
    ensures MkdirAll(d, k).out.Pass?
    decreases |k.segs|
  {
    if |k.segs| > 0 && Walk(d, k) != Found(Dir) {
      BelowSameLength(k, root);
      if Walk(d, k).Found? {
        assert k in d.entries && Below(k, k);
      } else {
        var up := Parent(k);
        assert Below(up, root) by {
          assert up.segs[..|root.segs|] == k.segs[..|root.segs|];
        }
        forall p | p in d.entries && Below(up, p) && |p.segs| > |root.segs| ensures d.entries[p] == Dir {
          assert k.segs[..|p.segs|] == up.segs[..|p.segs|];
          assert Below(k, p);
        }
        MkdirAllPasses(d, up, root);
        MkdirAllSpec(d, up);
        var u := MkdirAll(d, up);
        MkdirSpec(u.disk, k);
        if k in u.disk.entries {
          BelowParent(k);
          assert k in d.entries && u.disk.entries[k] == d.entries[k];
          assert Below(k, k);
          assert Walk(u.disk, k) == Found(Dir);
        }
      }
    }
  }
}
