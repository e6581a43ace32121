/** Preparing a root filesystem for an overlay boot: the directories the
    overlay init mounts onto, the init script itself, and a resolver
    configuration. */
module Overlay {
  import opened Base
  import opened GoPath
  import opened Fs

  /** The first names of the directories made for the overlay. */
  const Zone: set<string> := {"overlay", "mnt", "rom"}

  /** Where the init script goes, relative to the image root. */
  const InitSegs: seq<string> := ["sbin", "overlay-init"]

  /** Where the resolver configuration goes, relative to the image root. */
  const ResolvSegs: seq<string> := ["etc", "resolv.conf"]

  /** The only nameserver the guest is given. */
  const ResolvConf: string := "nameserver 8.8.8.8\n"

  /** The bytes written to etc/resolv.conf. */
  const ResolvBytes: seq<byte> := Ascii(ResolvConf)

  /** `filepath.Join(root, names...)`, resolved. */
  function Under(root: string, names: seq<string>): PathKey
  {
    Locate(JoinAll([root] + names))
  }

  /** `filepath.Join(".", path)`: where the init script is read from. */
  function ScriptKey(path: string): PathKey
  {
    Locate(JoinAll([".", path]))
  }

  /** The directories made for the overlay, in order: its work and upper
      directories, the new root, and where the old root is moved. */
  const OverlayDirs: seq<seq<string>> := [["overlay", "work"], ["overlay", "root"], ["mnt"], ["rom"]]

  /** The `os.MkdirAll` calls, whose errors are dropped. */
  function MakeDirs(d: Disk, mountDir: string): Disk
  {
    MkdirEach(d, mountDir, OverlayDirs)
  }

  /** `os.MkdirAll` of each directory in turn, ignoring errors. Only
      directories are added, and nothing present is changed. */
  function MkdirEach(d: Disk, mountDir: string, dirs: seq<seq<string>>): (d': Disk)
    ensures Keeps(d, d')
    ensures forall p :: p in d'.entries && p !in d.entries ==> |p.segs| > 0 && d'.entries[p] == Dir
    decreases |dirs|
  {
    if |dirs| == 0 then d
    else MkdirEach(MkdirAll(d, Under(mountDir, dirs[0])).disk, mountDir, dirs[1..])
  }

  /** `addRequiredFiles`: make the overlay directories, then write the two
      files. */
  function AddRequiredFiles(d: Disk, mountDir: string, initScript: string): (c: Changed)
    ensures c.out.Fail? ==>
      || c.out.error.CreateInitFailed?
      || c.out.error.ReadInitFailed?
      || c.out.error.WriteInitFailed?
      || c.out.error.WriteResolvFailed?
    ensures c.disk.faulty == d.faulty
  {
    WriteFiles(MakeDirs(d, mountDir), Under(mountDir, InitSegs), Under(mountDir, ResolvSegs), ScriptKey(initScript))
  }

  /** Copy the script at `script` into a new file at `init`, then write the
      resolver configuration at `resolv`; stop at the first error. */
  function WriteFiles(d: Disk, init: PathKey, resolv: PathKey, script: PathKey): (c: Changed)
    ensures c.out.Fail? ==>
      || c.out.error.CreateInitFailed?
      || c.out.error.ReadInitFailed?
      || c.out.error.WriteInitFailed?
      || c.out.error.WriteResolvFailed?
    ensures c.disk.faulty == d.faulty
  {
    WriteResolv(CopyInit(d, init, script), resolv)
  }

  /** Create the file at `init` and copy the bytes of `script` into it. */
  function CopyInit(d: Disk, init: PathKey, script: PathKey): (c: Changed)
    ensures c.out.Fail? ==>
      c.out.error.CreateInitFailed? || c.out.error.ReadInitFailed? || c.out.error.WriteInitFailed?
    ensures c.disk.faulty == d.faulty
  {
    var created := Create(d, init);
    if created.out.Fail? then Changed(created.disk, Fail(CreateInitFailed(created.out.error)))
    else
      var bytes := ReadFile(created.disk, script);
      if bytes.Err? then Changed(created.disk, Fail(ReadInitFailed(bytes.error)))
      else
        var written := Write(created.disk, init, bytes.value);
        if written.out.Fail? then Changed(written.disk, Fail(WriteInitFailed(written.out.error)))
        else written
  }

  /** After the copy: an earlier error is passed on, otherwise the resolver
      configuration is written. */
  function WriteResolv(copied: Changed, resolv: PathKey): (c: Changed)
    ensures copied.out.Fail? ==> c == copied
    ensures copied.out.Pass? ==> c.out.Pass? || c.out.error.WriteResolvFailed?
    ensures c.disk.faulty == copied.disk.faulty
  {
    if copied.out.Fail? then copied
    else
      var conf := WriteFile(copied.disk, resolv, ResolvBytes);
      Changed(conf.disk, if conf.out.Fail? then Fail(WriteResolvFailed(conf.out.error)) else Pass)
  }

  /** Where sbin/overlay-init and etc/resolv.conf are below an image root. */
  function InitAt(root: PathKey): PathKey
  {
    Extend(root, InitSegs)
  }

  function ResolvAt(root: PathKey): PathKey
  {
    Extend(root, ResolvSegs)
  }

  // ---------------------------------------------------------------------
  // Writing the two files
  // ---------------------------------------------------------------------

  /** The three keys `WriteFiles` uses do not shadow one another: the script
      and etc/ are not below the init file, and neither file is below the
      other. */
  predicate Separate(init: PathKey, resolv: PathKey, script: PathKey)
  {
    && |init.segs| > 0 && |resolv.segs| > 0
    && !Below(script, init)
    && !Below(resolv, init) && !Below(Parent(resolv), init)
    && !Below(init, resolv)
  }

  /** What `WriteFiles` needs to succeed: both files can be created and
      written, and the script can be read. */
  predicate ReadyAt(d: Disk, init: PathKey, resolv: PathKey, script: PathKey)
  {
    && ParentIsDir(d, init) && Walk(d, init) != Found(Dir) && init !in d.faulty
    && ReadFile(d, script).Ok?
    && ParentIsDir(d, resolv) && Walk(d, resolv) != Found(Dir) && resolv !in d.faulty
  }

  /** `CopyInit` succeeds exactly when the init file can be created and
      written and the script read; it then holds the script's bytes. A
      failed create changes nothing; a failed read leaves the init file
      empty, and a failed write leaves it holding the bytes written before
      the error. */
  lemma CopiedInit(d: Disk, init: PathKey, script: PathKey)
    requires |init.segs| > 0 && !Below(script, init)
    ensures var c := CopyInit(d, init, script);
      && (c.out.Pass? <==>
            && ParentIsDir(d, init) && Walk(d, init) != Found(Dir) && init !in d.faulty
            && ReadFile(d, script).Ok?)
      && (c.out.Pass? ==> c.disk == Put(d, init, File(ReadFile(d, script).value)))
      && (c.out.Fail? && c.out.error.CreateInitFailed? ==> c.disk == d)
      && (c.out.Fail? && c.out.error.ReadInitFailed? ==> c.disk == Put(d, init, File([])))
      && (c.out.Fail? && c.out.error.WriteInitFailed? ==>
            && ReadFile(d, script).Ok? && init in d.faulty
            && c.disk == Put(d, init, File(Prefix(d.faulty[init], ReadFile(d, script).value))))
      && (c.out.Pass? || !c.out.error.CreateInitFailed? ==> ParentIsDir(d, init))
  {
    CreateSpec(d, init);
    WalkPutFrame(d, init, File([]), script);
    if ReadFile(d, script).Ok? {
      var bytes := ReadFile(d, script).value;
      PutTwice(d, init, File([]), File(bytes));
      if init in d.faulty {
        PutTwice(d, init, File([]), File(Prefix(d.faulty[init], bytes)));
      }
    }
  }

  /** `CopyInit` touches nothing but the init file. */
  lemma CopyInitFrame(d: Disk, init: PathKey, script: PathKey, q: PathKey)
    requires |init.segs| > 0 && !Below(script, init)
    requires !Below(q, init)
    ensures Walk(CopyInit(d, init, script).disk, q) == Walk(d, q)
  {
    CopiedInit(d, init, script);
    var copied := CopyInit(d, init, script);
    if copied.out.Pass? {
      WalkPutFrame(d, init, File(ReadFile(d, script).value), q);
    } else if copied.out.error.ReadInitFailed? {
      WalkPutFrame(d, init, File([]), q);
    } else if copied.out.error.WriteInitFailed? {
      WalkPutFrame(d, init, File(Prefix(d.faulty[init], ReadFile(d, script).value)), q);
    }
  }

  /** After a successful copy, the init file's directory is a directory:
      creating the file needed it. */
  lemma CopyInitParent(d: Disk, init: PathKey, script: PathKey)
    requires CopyInit(d, init, script).out.Pass?
    ensures ParentIsDir(CopyInit(d, init, script).disk, init)
  {
    var created := Create(d, init);
    var bytes := ReadFile(created.disk, script);
    WalkPutFrame(d, init, File([]), Parent(init));
    WalkPutFrame(created.disk, init, File(bytes.value), Parent(init));
  }

  /** The init file's directory is sbin/ below the root. */
  lemma InitDir(root: PathKey)
    ensures Parent(InitAt(root)) == Extend(root, ["sbin"])
  {
    assert (root.segs + InitSegs)[..|root.segs| + 1] == root.segs + ["sbin"];
  }

  /** After a successful copy into sbin/overlay-init below a mount
      directory, that directory's sbin/ is a directory. */
  lemma CopyInitSbin(d: Disk, mountDir: string, script: PathKey)
    requires mountDir != ""
    requires CopyInit(d, Under(mountDir, InitSegs), script).out.Pass?
    ensures Walk(CopyInit(d, Under(mountDir, InitSegs), script).disk, Under(mountDir, ["sbin"])) == Found(Dir)
  {
    CopyInitParent(d, Under(mountDir, InitSegs), script);
    FileKeys(mountDir);
    UnderRoot(mountDir, ["sbin"]);
    InitDir(Locate(mountDir));
  }

  /** `os.WriteFile` touches nothing but its file. */
  lemma WriteFileFrame(d: Disk, k: PathKey, data: seq<byte>, q: PathKey)
    requires !Below(q, k)
    ensures Walk(WriteFile(d, k, data).disk, q) == Walk(d, q)
  {
    WalkPutFrame(d, k, File(data), q);
    if k in d.faulty {
      WalkPutFrame(d, k, File(Prefix(d.faulty[k], data)), q);
    }
  }

  /** Writing the resolver file after the copy touches nothing else. */
  lemma WriteResolvFrame(copied: Changed, resolv: PathKey, q: PathKey)
    requires !Below(q, resolv)
    ensures Walk(WriteResolv(copied, resolv).disk, q) == Walk(copied.disk, q)
  {
    if copied.out.Pass? {
      var conf := WriteFile(copied.disk, resolv, ResolvBytes);
      assert WriteResolv(copied, resolv).disk == conf.disk;
      WriteFileFrame(copied.disk, resolv, ResolvBytes, q);
    }
  }

  /** After the copy, the resolver file is written exactly when it can be
      created and written, and then holds the nameserver line. When it
      cannot be created nothing changes; when the write fails it holds the
      bytes written before the error. */
  lemma WroteResolv(copied: Changed, resolv: PathKey)
    requires copied.out.Pass?
    ensures var c, dc := WriteResolv(copied, resolv), copied.disk;
      && (c.out.Pass? <==> ParentIsDir(dc, resolv) && Walk(dc, resolv) != Found(Dir) && resolv !in dc.faulty)
      && (c.out.Pass? ==> Walk(c.disk, resolv) == Found(File(ResolvBytes)))
      && (c.out.Fail? && !(ParentIsDir(dc, resolv) && Walk(dc, resolv) != Found(Dir)) ==> c.disk == dc)
      && (c.out.Fail? && ParentIsDir(dc, resolv) && Walk(dc, resolv) != Found(Dir) ==>
            resolv in dc.faulty && Walk(c.disk, resolv) == Found(File(Prefix(dc.faulty[resolv], ResolvBytes))))
  {
    WriteFileSpec(copied.disk, resolv, ResolvBytes);
  }

  /** `WriteFiles` touches nothing but its two files. */
  lemma WriteFilesFrame(d: Disk, init: PathKey, resolv: PathKey, script: PathKey, q: PathKey)
    requires |init.segs| > 0 && !Below(script, init)
    requires !Below(q, init) && !Below(q, resolv)
    ensures Walk(WriteFiles(d, init, resolv, script).disk, q) == Walk(d, q)
  {
    CopyInitFrame(d, init, script, q);
    WriteResolvFrame(CopyInit(d, init, script), resolv, q);
  }

  /** After a copy, the resolver file sees the disk as before. */
  lemma CopiedKeepsResolv(d: Disk, init: PathKey, resolv: PathKey, script: PathKey)
    requires Separate(init, resolv, script)
    ensures var c := CopyInit(d, init, script).disk;
      && Walk(c, resolv) == Walk(d, resolv)
      && Walk(c, Parent(resolv)) == Walk(d, Parent(resolv))
  {
    CopyInitFrame(d, init, script, resolv);
    CopyInitFrame(d, init, script, Parent(resolv));
  }

  /** `WriteFiles` succeeds exactly when the disk is ready. */
  lemma WriteFilesPass(d: Disk, init: PathKey, resolv: PathKey, script: PathKey)
    requires Separate(init, resolv, script)
    ensures WriteFiles(d, init, resolv, script).out.Pass? <==> ReadyAt(d, init, resolv, script)
  {
    CopiedInit(d, init, script);
    var copied := CopyInit(d, init, script);
    if copied.out.Pass? {
      CopiedKeepsResolv(d, init, resolv, script);
      WroteResolv(copied, resolv);
    }
  }

  /** After success the init file holds the script's bytes and the resolver
      file names 8.8.8.8. */
  lemma WrittenFiles(d: Disk, init: PathKey, resolv: PathKey, script: PathKey)
    requires Separate(init, resolv, script)
    requires WriteFiles(d, init, resolv, script).out.Pass?
    ensures ReadFile(d, script).Ok?
    ensures Walk(WriteFiles(d, init, resolv, script).disk, init) == Found(File(ReadFile(d, script).value))
    ensures Walk(WriteFiles(d, init, resolv, script).disk, resolv) == Found(File(ResolvBytes))
  {
    CopiedInit(d, init, script);
    var copied := CopyInit(d, init, script);
    WalkPut(d, init, File(ReadFile(d, script).value));
    WroteResolv(copied, resolv);
    WriteResolvFrame(copied, resolv, init);
  }

  /** A failed create leaves both files as they were. */
  lemma CreateInitFailure(d: Disk, init: PathKey, resolv: PathKey, script: PathKey)
    requires Separate(init, resolv, script)
    requires WriteFiles(d, init, resolv, script).out.Fail?
    requires WriteFiles(d, init, resolv, script).out.error.CreateInitFailed?
    ensures WriteFiles(d, init, resolv, script).disk == d
  {
    CopiedInit(d, init, script);
  }

  /** A failure to read the script leaves the init file empty, and a
      failure to write it leaves the bytes written before the error; either
      way the resolver file is as it was. */
  lemma CopyInitFailure(d: Disk, init: PathKey, resolv: PathKey, script: PathKey)
    requires Separate(init, resolv, script)
    requires WriteFiles(d, init, resolv, script).out.Fail?
    requires WriteFiles(d, init, resolv, script).out.error.ReadInitFailed?
          || WriteFiles(d, init, resolv, script).out.error.WriteInitFailed?
    ensures var c := WriteFiles(d, init, resolv, script);
      && (c.out.error.ReadInitFailed? ==> Walk(c.disk, init) == Found(File([])))
      && (c.out.error.WriteInitFailed? ==>
            && ReadFile(d, script).Ok? && init in d.faulty
            && Walk(c.disk, init) == Found(File(Prefix(d.faulty[init], ReadFile(d, script).value))))
      && Walk(c.disk, resolv) == Walk(d, resolv)
  {
    CopiedInit(d, init, script);
    CopyInitFrame(d, init, script, resolv);
    var c := CopyInit(d, init, script);
    if c.out.error.ReadInitFailed? {
      WalkPut(d, init, File([]));
    } else {
      WalkPut(d, init, File(Prefix(d.faulty[init], ReadFile(d, script).value)));
    }
  }

  /** A failure to write the resolver file comes after a complete copy of
      the script. When the file could be created it holds the bytes written
      before the error; otherwise it is untouched. */
  lemma ResolvFailure(d: Disk, init: PathKey, resolv: PathKey, script: PathKey)
    requires Separate(init, resolv, script)
    requires WriteFiles(d, init, resolv, script).out.Fail?
    requires WriteFiles(d, init, resolv, script).out.error.WriteResolvFailed?
    ensures ReadFile(d, script).Ok?
    ensures Walk(WriteFiles(d, init, resolv, script).disk, init) == Found(File(ReadFile(d, script).value))
    ensures var r := Walk(WriteFiles(d, init, resolv, script).disk, resolv);
      if ParentIsDir(d, resolv) && Walk(d, resolv) != Found(Dir)
      then resolv in d.faulty && r == Found(File(Prefix(d.faulty[resolv], ResolvBytes)))
      else r == Walk(d, resolv)
  {
    CopiedInit(d, init, script);
    CopiedKeepsResolv(d, init, resolv, script);
    var copied := CopyInit(d, init, script);
    WalkPut(d, init, File(ReadFile(d, script).value));
    WroteResolv(copied, resolv);
    WriteResolvFrame(copied, resolv, init);
  }

  // ---------------------------------------------------------------------
  // Where the keys are
  // ---------------------------------------------------------------------

  /** `q` has no ancestor-or-self among the overlay directories of `root`. */
  predicate Aside(q: PathKey, root: PathKey)
  {
    !Below(q, root) || (|q.segs| > |root.segs| && q.segs[|root.segs|] !in Zone)
  }

  /** `p` is an overlay directory of `root`, or lies below one. */
  predicate InZone(p: PathKey, root: PathKey)
  {
    Below(p, root) && |p.segs| > |root.segs| && p.segs[|root.segs|] in Zone
  }

  /** What the operation assumes of its caller: the mount directory exists,
      and the init script is not inside the image. */
  predicate Mounted(d: Disk, mountDir: string, initScript: string)
  {
    && mountDir != ""
    && Walk(d, Locate(mountDir)) == Found(Dir)
    && !Below(ScriptKey(initScript), Locate(mountDir))
  }

  /** The init script is read relative to the working directory, even
      when its path starts with '/'. */
  lemma ScriptKeyRelative(path: string)
    ensures !ScriptKey(path).rooted
  {
    JoinAllRooted(".", [path]);
  }

  /** Keys below a mount directory given by an absolute path are rooted. */
  lemma UnderRooted(root: string, names: seq<string>)
    requires root != "" && root[0] == '/'
    ensures Under(root, names).rooted
  {
    JoinAllRooted(root, names);
  }

  /** A key below the mount directory, spelled with plain names. */
  lemma UnderRoot(mountDir: string, names: seq<string>)
    requires mountDir != ""
    requires forall i :: 0 <= i < |names| ==> Plain(names[i])
    ensures Under(mountDir, names) == Extend(Locate(mountDir), names)
  {
    LocateJoin(mountDir, names);
  }

  /** Where a key some names below `root` sits. */
  lemma ExtendFacts(root: PathKey, names: seq<string>)
    requires |names| > 0
    ensures Below(Extend(root, names), root)
    ensures |Extend(root, names).segs| > |root.segs|
    ensures Extend(root, names).segs[|root.segs|] == names[0]
    ensures Parent(Extend(root, names)) == Extend(root, names[..|names| - 1])
  {
    var k := Extend(root, names);
    assert k.segs[..|root.segs|] == root.segs;
    assert k.segs[..|k.segs| - 1] == root.segs + names[..|names| - 1];
  }

  /** Keys whose first names below `root` differ are not below one another. */
  lemma Apart(root: PathKey, a: seq<string>, b: seq<string>)
    requires |a| > 0 && |b| > 0 && a[0] != b[0]
    ensures !Below(Extend(root, a), Extend(root, b))
  {
    var ka, kb := Extend(root, a), Extend(root, b);
    ExtendFacts(root, a);
    ExtendFacts(root, b);
    if |kb.segs| <= |ka.segs| {
      assert ka.segs[..|kb.segs|][|root.segs|] == a[0];
    }
  }

  /** Nothing in the zone is an ancestor-or-self of a key aside from it. */
  lemma ZoneApart(q: PathKey, p: PathKey, root: PathKey)
    requires Aside(q, root)
    requires InZone(p, root)
    ensures !Below(q, p)
  {
    if Below(q, p) {
      BelowTrans(q, p, root);
    }
  }

  /** A key in the zone is not below a key below `root` aside from it. */
  lemma NotBelowZone(t: PathKey, q: PathKey, root: PathKey)
    requires InZone(t, root)
    requires Aside(q, root) && Below(q, root)
    ensures !Below(t, q)
  {
  }

  /** The two files, and etc/ and sbin/, are below the image root and
      aside from the zone. */
  lemma FilesAside(root: PathKey)
    ensures Below(InitAt(root), root) && Aside(InitAt(root), root)
    ensures Below(ResolvAt(root), root) && Aside(ResolvAt(root), root)
    ensures Aside(Parent(InitAt(root)), root)
    ensures Aside(Parent(ResolvAt(root)), root)
  {
    ExtendFacts(root, InitSegs);
    ExtendFacts(root, ResolvSegs);
    assert InitSegs[..1] == ["sbin"] && ResolvSegs[..1] == ["etc"];
    ExtendFacts(root, ["sbin"]);
    ExtendFacts(root, ["etc"]);
  }

  /** The keys `WriteFiles` is given do not shadow one another. */
  lemma FilesSeparate(root: PathKey, script: PathKey)
    requires !Below(script, root)
    ensures Separate(InitAt(root), ResolvAt(root), script)
  {
    var init := InitAt(root);
    ExtendFacts(root, InitSegs);
    ExtendFacts(root, ResolvSegs);
    assert ResolvSegs[..1] == ["etc"];
    Apart(root, ResolvSegs, InitSegs);
    Apart(root, ["etc"], InitSegs);
    Apart(root, InitSegs, ResolvSegs);
    if Below(script, init) {
      BelowTrans(script, init, root);
    }
  }

  /** The two files are where `filepath.Join` puts them. */
  lemma FileKeys(mountDir: string)
    requires mountDir != ""
    ensures Under(mountDir, InitSegs) == InitAt(Locate(mountDir))
    ensures Under(mountDir, ResolvSegs) == ResolvAt(Locate(mountDir))
  {
    UnderRoot(mountDir, InitSegs);
    UnderRoot(mountDir, ResolvSegs);
  }

  /** The names of an overlay directory: plain, the first one in the zone. */
  predicate ZoneNames(names: seq<string>)
  {
    && |names| > 0 && names[0] in Zone
    && forall i :: 0 <= i < |names| ==> Plain(names[i])
  }

  /** The overlay directories lie in the zone. */
  lemma DirInZone(mountDir: string, names: seq<string>)
    requires mountDir != ""
    requires ZoneNames(names)
    ensures InZone(Under(mountDir, names), Locate(mountDir))
  {
    UnderRoot(mountDir, names);
    ExtendFacts(Locate(mountDir), names);
  }

  lemma OverlayDirsZone()
    ensures forall i :: 0 <= i < |OverlayDirs| ==> ZoneNames(OverlayDirs[i])
  {
    assert ZoneNames(OverlayDirs[0]) && ZoneNames(OverlayDirs[1]);
    assert ZoneNames(OverlayDirs[2]) && ZoneNames(OverlayDirs[3]);
  }

  // ---------------------------------------------------------------------
  // Making the overlay directories
  // ---------------------------------------------------------------------

  /** One `MkdirAll` of an overlay directory leaves the mount directory and
      every key aside from the zone as they were. */
  lemma MkdirAllAside(d: Disk, root: PathKey, t: PathKey, q: PathKey)
    requires Walk(d, root) == Found(Dir)
    requires InZone(t, root)
    requires Aside(q, root)
    ensures Walk(MkdirAll(d, t).disk, q) == Walk(d, q)
    ensures Walk(MkdirAll(d, t).disk, root) == Found(Dir)
  {
    var d' := MkdirAll(d, t).disk;
    WalkKeep(d, d', root);
    forall p | p in d'.entries && p !in d.entries ensures !Below(q, p) {
      if |p.segs| <= |root.segs| {
        assert root.segs[..|p.segs|] == t.segs[..|p.segs|];
        FoundPrefixes(d, root, p);
      } else {
        assert p.segs[..|root.segs|] == t.segs[..|root.segs|];
        assert p.segs[|root.segs|] == t.segs[|root.segs|];
        ZoneApart(q, p, root);
      }
    }
    WalkGrow(d, d', q);
  }

  /** Making overlay directories does not change how a key aside from
      them resolves. */
  lemma {:induction false} MkdirEachAside(d: Disk, mountDir: string, dirs: seq<seq<string>>, q: PathKey)
    requires mountDir != ""
    requires Walk(d, Locate(mountDir)) == Found(Dir)
    requires forall i :: 0 <= i < |dirs| ==> ZoneNames(dirs[i])
    requires Aside(q, Locate(mountDir))
    ensures Walk(MkdirEach(d, mountDir, dirs), q) == Walk(d, q)
    decreases |dirs|
  {
    if |dirs| > 0 {
      var t := Under(mountDir, dirs[0]);
      DirInZone(mountDir, dirs[0]);
      MkdirAllAside(d, Locate(mountDir), t, q);
      MkdirEachAside(MkdirAll(d, t).disk, mountDir, dirs[1..], q);
    }
  }

  lemma MakeDirsAside(d: Disk, mountDir: string, q: PathKey)
    requires mountDir != ""
    requires Walk(d, Locate(mountDir)) == Found(Dir)
    requires Aside(q, Locate(mountDir))
    ensures Walk(MakeDirs(d, mountDir), q) == Walk(d, q)
  {
    OverlayDirsZone();
    MkdirEachAside(d, mountDir, OverlayDirs, q);
  }

  /** One `MkdirAll` of an overlay directory, with no regular file in the
      zone, succeeds and keeps the zone free of regular files. */
  lemma MkdirZone(d: Disk, root: PathKey, t: PathKey)
    requires Walk(d, root) == Found(Dir)
    requires InZone(t, root)
    requires forall p :: p in d.entries && InZone(p, root) ==> d.entries[p] == Dir
    ensures Walk(MkdirAll(d, t).disk, t) == Found(Dir)
    ensures Walk(MkdirAll(d, t).disk, root) == Found(Dir)
    ensures forall p :: p in MkdirAll(d, t).disk.entries && InZone(p, root) ==> MkdirAll(d, t).disk.entries[p] == Dir
  {
    forall p | p in d.entries && Below(t, p) && |p.segs| > |root.segs| ensures d.entries[p] == Dir {
      assert p.segs[..|root.segs|] == t.segs[..|root.segs|];
      assert p.segs[|root.segs|] == t.segs[|root.segs|];
    }
    MkdirAllPasses(d, t, root);
    MkdirAllSpec(d, t);
    WalkKeep(d, MkdirAll(d, t).disk, root);
  }

  /** With no regular file in the zone, every overlay directory exists once
      they are made. */
  lemma {:induction false} MkdirEachMade(d: Disk, mountDir: string, dirs: seq<seq<string>>)
    requires mountDir != ""
    requires Walk(d, Locate(mountDir)) == Found(Dir)
    requires forall i :: 0 <= i < |dirs| ==> ZoneNames(dirs[i])
    requires forall p :: p in d.entries && InZone(p, Locate(mountDir)) ==> d.entries[p] == Dir
    ensures forall names :: names in dirs ==> Walk(MkdirEach(d, mountDir, dirs), Under(mountDir, names)) == Found(Dir)
    decreases |dirs|
  {
    if |dirs| > 0 {
      var t := Under(mountDir, dirs[0]);
      DirInZone(mountDir, dirs[0]);
      MkdirZone(d, Locate(mountDir), t);
      var d1 := MkdirAll(d, t).disk;
      MkdirEachMade(d1, mountDir, dirs[1..]);
      WalkKeep(d1, MkdirEach(d1, mountDir, dirs[1..]), t);
      assert forall names :: names in dirs ==> names == dirs[0] || names in dirs[1..];
    }
  }

  // ---------------------------------------------------------------------
  // The whole operation
  // ---------------------------------------------------------------------

  /** What success needs, stated on the disk before the call. The overlay
      directories play no part: their errors are dropped. */
  predicate Ready(d: Disk, mountDir: string, initScript: string)
  {
    var root := Locate(mountDir);
    ReadyAt(d, InitAt(root), ResolvAt(root), ScriptKey(initScript))
  }

  /** Readiness depends only on how five keys resolve and on the faulty files. */
  lemma ReadySame(d: Disk, d': Disk, init: PathKey, resolv: PathKey, script: PathKey)
    requires |init.segs| > 0 && |resolv.segs| > 0
    requires d'.faulty == d.faulty
    requires Walk(d', init) == Walk(d, init) && Walk(d', Parent(init)) == Walk(d, Parent(init))
    requires Walk(d', resolv) == Walk(d, resolv) && Walk(d', Parent(resolv)) == Walk(d, Parent(resolv))
    requires Walk(d', script) == Walk(d, script)
    ensures ReadFile(d', script) == ReadFile(d, script)
    ensures ReadyAt(d', init, resolv, script) <==> ReadyAt(d, init, resolv, script)
  {
  }

  /** Making the overlay directories changes nothing the two files depend on. */
  lemma DirsKeepFiles(d: Disk, mountDir: string, initScript: string)
    requires Mounted(d, mountDir, initScript)
    ensures var dirs, root := MakeDirs(d, mountDir), Locate(mountDir);
      && ReadFile(dirs, ScriptKey(initScript)) == ReadFile(d, ScriptKey(initScript))
      && Walk(dirs, InitAt(root)) == Walk(d, InitAt(root))
      && Walk(dirs, ResolvAt(root)) == Walk(d, ResolvAt(root))
      && Walk(dirs, Parent(ResolvAt(root))) == Walk(d, Parent(ResolvAt(root)))
      && dirs.faulty == d.faulty
      && (ReadyAt(dirs, InitAt(root), ResolvAt(root), ScriptKey(initScript)) <==> Ready(d, mountDir, initScript))
  {
    var root := Locate(mountDir);
    FilesAside(root);
    var init, resolv, sk := InitAt(root), ResolvAt(root), ScriptKey(initScript);
    MakeDirsAside(d, mountDir, init);
    MakeDirsAside(d, mountDir, Parent(init));
    MakeDirsAside(d, mountDir, resolv);
    MakeDirsAside(d, mountDir, Parent(resolv));
    MakeDirsAside(d, mountDir, sk);
    ReadySame(d, MakeDirs(d, mountDir), init, resolv, sk);
  }

  /** The operation is `WriteFiles` on the disk with the directories made,
      at keys that do not shadow one another. */
  lemma Unfold(d: Disk, mountDir: string, initScript: string)
    requires Mounted(d, mountDir, initScript)
    ensures var root := Locate(mountDir);
      && AddRequiredFiles(d, mountDir, initScript)
         == WriteFiles(MakeDirs(d, mountDir), InitAt(root), ResolvAt(root), ScriptKey(initScript))
      && Separate(InitAt(root), ResolvAt(root), ScriptKey(initScript))
  {
    FileKeys(mountDir);
    FilesSeparate(Locate(mountDir), ScriptKey(initScript));
  }

  /** The operation succeeds exactly when the disk is `Ready`: whether
      the overlay directories could be made plays no part. */
  lemma AddFilesPass(d: Disk, mountDir: string, initScript: string)
    requires Mounted(d, mountDir, initScript)
    ensures AddRequiredFiles(d, mountDir, initScript).out.Pass? <==> Ready(d, mountDir, initScript)
  {
    var root := Locate(mountDir);
    Unfold(d, mountDir, initScript);
    DirsKeepFiles(d, mountDir, initScript);
    WriteFilesPass(MakeDirs(d, mountDir), InitAt(root), ResolvAt(root), ScriptKey(initScript));
  }

  /** After success, sbin/overlay-init holds the script's bytes and
      etc/resolv.conf names 8.8.8.8. */
  lemma AddedFiles(d: Disk, mountDir: string, initScript: string)
    requires Mounted(d, mountDir, initScript)
    requires AddRequiredFiles(d, mountDir, initScript).out.Pass?
    ensures ReadFile(d, ScriptKey(initScript)).Ok?
    ensures Walk(AddRequiredFiles(d, mountDir, initScript).disk, InitAt(Locate(mountDir)))
         == Found(File(ReadFile(d, ScriptKey(initScript)).value))
    ensures Walk(AddRequiredFiles(d, mountDir, initScript).disk, ResolvAt(Locate(mountDir))) == Found(File(ResolvBytes))
  {
    var root := Locate(mountDir);
    Unfold(d, mountDir, initScript);
    DirsKeepFiles(d, mountDir, initScript);
    WrittenFiles(MakeDirs(d, mountDir), InitAt(root), ResolvAt(root), ScriptKey(initScript));
  }

  /** A failed create of sbin/overlay-init leaves both files as they were. */
  lemma AddFilesCreateFailure(d: Disk, mountDir: string, initScript: string)
    requires Mounted(d, mountDir, initScript)
    requires AddRequiredFiles(d, mountDir, initScript).out.Fail?
    requires AddRequiredFiles(d, mountDir, initScript).out.error.CreateInitFailed?
    ensures var c, root := AddRequiredFiles(d, mountDir, initScript), Locate(mountDir);
      && Walk(c.disk, InitAt(root)) == Walk(d, InitAt(root))
      && Walk(c.disk, ResolvAt(root)) == Walk(d, ResolvAt(root))
  {
    var root := Locate(mountDir);
    Unfold(d, mountDir, initScript);
    DirsKeepFiles(d, mountDir, initScript);
    CreateInitFailure(MakeDirs(d, mountDir), InitAt(root), ResolvAt(root), ScriptKey(initScript));
  }

  /** A failure to read the script leaves sbin/overlay-init empty, and a
      failure to write it leaves the bytes written before the error;
      etc/resolv.conf stays as it was. */
  lemma AddFilesCopyFailure(d: Disk, mountDir: string, initScript: string)
    requires Mounted(d, mountDir, initScript)
    requires AddRequiredFiles(d, mountDir, initScript).out.Fail?
    requires AddRequiredFiles(d, mountDir, initScript).out.error.ReadInitFailed?
          || AddRequiredFiles(d, mountDir, initScript).out.error.WriteInitFailed?
    ensures var c, root := AddRequiredFiles(d, mountDir, initScript), Locate(mountDir);
      && (c.out.error.ReadInitFailed? ==> Walk(c.disk, InitAt(root)) == Found(File([])))
      && (c.out.error.WriteInitFailed? ==>
            && ReadFile(d, ScriptKey(initScript)).Ok? && InitAt(root) in d.faulty
            && Walk(c.disk, InitAt(root))
               == Found(File(Prefix(d.faulty[InitAt(root)], ReadFile(d, ScriptKey(initScript)).value))))
      && Walk(c.disk, ResolvAt(root)) == Walk(d, ResolvAt(root))
  {
    var root := Locate(mountDir);
    Unfold(d, mountDir, initScript);
    DirsKeepFiles(d, mountDir, initScript);
    CopyInitFailure(MakeDirs(d, mountDir), InitAt(root), ResolvAt(root), ScriptKey(initScript));
  }

  /** A failure to write etc/resolv.conf comes after a complete copy of the
      script. When etc/resolv.conf could be created it holds the bytes
      written before the error; otherwise it is as it was. */
  lemma AddFilesResolvFailure(d: Disk, mountDir: string, initScript: string)
    requires Mounted(d, mountDir, initScript)
    requires AddRequiredFiles(d, mountDir, initScript).out.Fail?
    requires AddRequiredFiles(d, mountDir, initScript).out.error.WriteResolvFailed?
    ensures ReadFile(d, ScriptKey(initScript)).Ok?
    ensures Walk(AddRequiredFiles(d, mountDir, initScript).disk, InitAt(Locate(mountDir)))
         == Found(File(ReadFile(d, ScriptKey(initScript)).value))
    ensures var k := ResolvAt(Locate(mountDir));
      var r := Walk(AddRequiredFiles(d, mountDir, initScript).disk, k);
      if ParentIsDir(d, k) && Walk(d, k) != Found(Dir)
      then k in d.faulty && r == Found(File(Prefix(d.faulty[k], ResolvBytes)))
      else r == Walk(d, k)
  {
    var root := Locate(mountDir);
    Unfold(d, mountDir, initScript);
    DirsKeepFiles(d, mountDir, initScript);
    ResolvFailure(MakeDirs(d, mountDir), InitAt(root), ResolvAt(root), ScriptKey(initScript));
  }

  /** Writing the two files leaves the overlay directories as they were made. */
  lemma ZoneUntouched(d: Disk, mountDir: string, initScript: string, t: PathKey)
    requires Mounted(d, mountDir, initScript)
    requires InZone(t, Locate(mountDir))
    ensures Walk(AddRequiredFiles(d, mountDir, initScript).disk, t) == Walk(MakeDirs(d, mountDir), t)
  {
    var root := Locate(mountDir);
    Unfold(d, mountDir, initScript);
    FilesAside(root);
    NotBelowZone(t, InitAt(root), root);
    NotBelowZone(t, ResolvAt(root), root);
    WriteFilesFrame(MakeDirs(d, mountDir), InitAt(root), ResolvAt(root), ScriptKey(initScript), t);
  }

  /** With no regular file where the overlay directories go, all four exist
      afterwards, whatever the outcome. */
  lemma OverlayDirsMade(d: Disk, mountDir: string, initScript: string)
    requires Mounted(d, mountDir, initScript)
    requires forall p :: p in d.entries && InZone(p, Locate(mountDir)) ==> d.entries[p] == Dir
    ensures forall names :: names in OverlayDirs ==>
      Walk(AddRequiredFiles(d, mountDir, initScript).disk, Under(mountDir, names)) == Found(Dir)
  {
    OverlayDirsZone();
    MkdirEachMade(d, mountDir, OverlayDirs);
    forall names | names in OverlayDirs
      ensures Walk(AddRequiredFiles(d, mountDir, initScript).disk, Under(mountDir, names)) == Found(Dir)
    {
      DirInZone(mountDir, names);
      ZoneUntouched(d, mountDir, initScript, Under(mountDir, names));
    }
  }

  /** A regular file where mnt should be a directory is left in place, and
      the operation can still succeed: the `MkdirAll` error is dropped. */
  lemma MkdirErrorDropped(d: Disk, mountDir: string, initScript: string, b: seq<byte>)
    requires Mounted(d, mountDir, initScript)
    requires Walk(d, Under(mountDir, ["mnt"])) == Found(File(b))
    ensures Walk(AddRequiredFiles(d, mountDir, initScript).disk, Under(mountDir, ["mnt"])) == Found(File(b))
    ensures AddRequiredFiles(d, mountDir, initScript).out.Pass? <==> Ready(d, mountDir, initScript)
  {
    ZoneFileKept(d, mountDir, initScript, ["mnt"], b);
    AddFilesPass(d, mountDir, initScript);
  }

  /** A file already standing where an overlay directory goes survives
      `addRequiredFiles`. */
  lemma ZoneFileKept(d: Disk, mountDir: string, initScript: string, names: seq<string>, b: seq<byte>)
    requires Mounted(d, mountDir, initScript)
    requires ZoneNames(names)
    requires Walk(d, Under(mountDir, names)) == Found(File(b))
    ensures Walk(AddRequiredFiles(d, mountDir, initScript).disk, Under(mountDir, names)) == Found(File(b))
  {
    var k, dirs := Under(mountDir, names), MakeDirs(d, mountDir);
    DirInZone(mountDir, names);
    WalkKeep(d, dirs, k);
    ZoneUntouched(d, mountDir, initScript, k);
  }
}
