/** The two image builders and their helpers: a root-filesystem blob built
    from a container image, the boot image built from an ext4 base, and a
    small ext4 disk holding an SSH public key. Each builder first looks for
    its artifact and does no work when it is there.

    External programs and libraries are oracles collected in `Tools`; the
    random name `os.MkdirTemp` picks is the parameter `draw`. */
module Image {
  import opened Base
  import opened GoPath
  import opened Fs
  import opened Naming
  import Overlay
  import Decimal

  /** What the builders learn from the world outside the filesystem model. */
  datatype Tools = Tools(
    md5: seq<byte> -> Digest,                     // md5.Sum
    pull: string -> Outcome,                      // rootfs.PullableImage.Pull
    extract: string -> Result<Tree>,              // Extract: the image's root tree
    squash: (Disk, PathKey) -> Result<seq<byte>>, // mksquashfs of a directory
    mkfs: seq<byte> -> Result<seq<byte>>,         // mkfs.ext4 on an image file
    mount: seq<byte> -> Result<Tree>)             // loopback.MountImage: the image's tree

  /** The steps a builder runs, as far as it gets. */
  datatype Stage = MakeTemp | Pull | Extract | AddFiles | Squash | Mount | CreateImage | Format | AddKey | ListSbin

  /** `MakeRootFS`'s steps in order. */
  const RootfsSteps: seq<Stage> := [MakeTemp, Pull, Extract, AddFiles, Squash]

  /** `BuildSquashFSImage`'s steps in order. */
  const SquashSteps: seq<Stage> := [Mount, AddFiles, Squash]

  /** `MakeSSHDiskImage`'s steps in order. */
  const KeySteps: seq<Stage> := [CreateImage, Format, Mount, AddKey]

  /** The steps of main.go's own start-up builder in order: the mount, the
      overlay directories and init script, mksquashfs, and listing sbin/. */
  const StartupSteps: seq<Stage> := [Mount, AddFiles, Squash, ListSbin]

  /** A builder's effect, how many of its steps it ran, and what it returned. */
  datatype Built = Built(disk: Disk, ran: nat, result: Result<string>)

  /** The size of an SSH key image, in bytes. */
  const KeyImageSize: nat := 2000000

  function Zeros(n: nat): (z: seq<byte>)
    ensures |z| == n
  {
    seq(n, _ => 0)
  }

  // ---------------------------------------------------------------------
  // Helpers
  // ---------------------------------------------------------------------

  /** The directory `os.MkdirTemp("/tmp", "*")` makes for a random draw. */
  function TempPath(draw: nat): string
  {
    "/tmp/" + Decimal.Itoa(draw)
  }

  function TempKey(draw: nat): PathKey
  {
    Locate(TempPath(draw))
  }

  /** `os.MkdirTemp("/tmp", "*")`, with the name it settles on. */
  function MkdirTemp(d: Disk, draw: nat): Changed
  {
    Mkdir(d, TempKey(draw))
  }

  /** How to undo a mount: nothing, or unmount and remove the directory. */
  datatype Cleanup = NoCleanup | Unmount(dir: PathKey)

  /** `mountImageToRandomDir`'s results: the effect, the mount point, the
      cleanup function and the error. */
  datatype Mounted = Mounted(disk: Disk, dir: string, cleanup: Cleanup, out: Outcome)

  /** `mountImageToRandomDir`: make a temporary directory, open the image
      read-write and mount it there. Opening read-write fails as reading
      does: ENOENT, ENOTDIR, or EISDIR for a directory. */
  function MountImageToRandomDir(d: Disk, tools: Tools, imagePath: string, draw: nat): (m: Mounted)
    ensures m.out.Fail? ==> m.dir == "" && m.cleanup == NoCleanup
    ensures m.out.Pass? ==> m.dir == TempPath(draw) && m.cleanup == Unmount(TempKey(draw))
    ensures MkdirTemp(d, draw).out.Fail? ==> m.disk == d && m.out.Fail?
    ensures MkdirTemp(d, draw).out.Pass? && m.out.Fail? ==> m.disk == MkdirTemp(d, draw).disk
  {
    var tmp := MkdirTemp(d, draw);
    if tmp.out.Fail? then Mounted(d, "", NoCleanup, tmp.out)
    else
      var image := ReadFile(tmp.disk, Locate(imagePath));
      if image.Err? then Mounted(tmp.disk, "", NoCleanup, Fail(image.error))
      else
        var tree := tools.mount(image.value);
        if tree.Err? then Mounted(tmp.disk, "", NoCleanup, Fail(tree.error))
        else Mounted(Graft(tmp.disk, TempKey(draw), tree.value), TempPath(draw), Unmount(TempKey(draw)), Pass)
  }

  /** Run a cleanup: unmounting hides the image's tree, and `os.RemoveAll`
      removes the directory. */
  function RunCleanup(d: Disk, c: Cleanup): (d': Disk)
    ensures c.Unmount? ==> forall q :: q in d'.entries ==> !Below(q, c.dir)
  {
    match c
    case NoCleanup => d
    case Unmount(dir) => RemoveAll(d, dir)
  }

  /** `mksquashfs src dst -noappend`: the tool's output replaces `dst`.
      A failure leaves the disk as it was: `mksquashfs` deletes an output
      file it created when it fails. Over an output that already exists
      this is an assumption; `MakeRootFS` and the start-up only squash to a
      missing output. */
  function Squashfs(d: Disk, tools: Tools, src: PathKey, dst: PathKey): (c: Changed)
    ensures c.out.Fail? ==> c.disk == d
  {
    var image := tools.squash(d, src);
    if image.Err? then Changed(d, Fail(image.error))
    else
      var written := WriteFile(d, dst, image.value);
      if written.out.Fail? then Changed(d, written.out) else written
  }

  // ---------------------------------------------------------------------
  // BuildSquashFSImage
  // ---------------------------------------------------------------------

  /** `BuildSquashFSImage`: mount the base image, add the overlay files, and
      squash the mounted tree into `out`. The deferred cleanup runs once the
      mount succeeded. */
  function BuildSquashFSImage(d: Disk, tools: Tools, base: string, initScript: string, out: string, draw: nat): (r: Built)
    ensures 1 <= r.ran <= |SquashSteps|
    ensures r.result.Ok? <==> r.ran == |SquashSteps| && Squashed(d, tools, base, initScript, out, draw)
    ensures r.result.Ok? ==> r.result.value == out
    ensures r.ran > 1 ==> forall q :: q in r.disk.entries ==> !Below(q, TempKey(draw))
  {
    var m := MountImageToRandomDir(d, tools, base, draw);
    if m.out.Fail? then Built(m.disk, 1, Err(m.out.error))
    else
      var added := Overlay.AddRequiredFiles(m.disk, m.dir, initScript);
      if added.out.Fail? then Built(RunCleanup(added.disk, m.cleanup), 2, Err(added.out.error))
      else
        var sq := Squashfs(added.disk, tools, TempKey(draw), Locate(out));
        Built(RunCleanup(sq.disk, m.cleanup), 3, if sq.out.Fail? then Err(sq.out.error) else Ok(out))
  }

  /** Every step of `BuildSquashFSImage` succeeds. */
  predicate Squashed(d: Disk, tools: Tools, base: string, initScript: string, out: string, draw: nat)
  {
    var m := MountImageToRandomDir(d, tools, base, draw);
    && m.out.Pass?
    && Overlay.AddRequiredFiles(m.disk, m.dir, initScript).out.Pass?
    && Squashfs(Overlay.AddRequiredFiles(m.disk, m.dir, initScript).disk, tools, TempKey(draw), Locate(out)).out.Pass?
  }

  // ---------------------------------------------------------------------
  // MakeRootFS
  // ---------------------------------------------------------------------

  /** The wrapper `MakeRootFS` puts around an error from its `n`-th step. */
  predicate WrapsStep(e: Error, n: nat)
  {
    if n == 1 then e.TempDirFailed?
    else if n == 2 then e.PullFailed?
    else if n == 3 then e.ExtractFailed?
    else if n == 4 then e.AddFilesFailed?
    else n == 5 && e.SquashFailed?
  }

  /** Where the extracted root filesystem lies. */
  function RootfsPath(draw: nat): string
  {
    Join(TempPath(draw), "rootfs")
  }

  /** `MakeRootFS`: return the cached blob if the stat succeeds; fail if it
      fails other than with not-exist; otherwise pull, extract, add the
      overlay files and squash into the blob, stopping at the first error. */
  function MakeRootFS(d: Disk, tools: Tools, image: string, initScript: string, draw: nat): (b: Built)
    ensures b.result.Ok? ==> b.result.value == BlobPath(image)
    ensures b.ran <= |RootfsSteps|
    ensures b.ran == 0 ==> b.disk == d
    ensures b.result.Ok? && b.ran != 0 ==> b.ran == |RootfsSteps|
    ensures b.result.Err? && b.ran != 0 ==> WrapsStep(b.result.error, b.ran)
  {
    var blob := BlobPath(image);
    var st := Stat(d, Locate(blob));
    if st.Ok? then Built(d, 0, Ok(blob))
    else if !IsNotExist(st.error) then Built(d, 0, Err(StatFailed(blob, st.error)))
    else BuildRootFS(d, tools, image, initScript, draw)
  }

  /** The part of `MakeRootFS` after a not-exist stat. */
  function BuildRootFS(d: Disk, tools: Tools, image: string, initScript: string, draw: nat): (b: Built)
    ensures b.result.Ok? ==> b.result.value == BlobPath(image)
    ensures 1 <= b.ran <= |RootfsSteps|
    ensures b.result.Ok? ==> b.ran == |RootfsSteps|
    ensures b.result.Err? ==> WrapsStep(b.result.error, b.ran)
    ensures b.ran == 1 <==> MkdirTemp(d, draw).out.Fail?
    ensures b.ran == 1 ==> b.disk == d
    ensures b.ran == 2 <==> MkdirTemp(d, draw).out.Pass? && tools.pull(image).Fail?
    ensures b.ran == 3 <==> MkdirTemp(d, draw).out.Pass? && tools.pull(image).Pass? && tools.extract(image).Err?
    ensures b.ran == 2 || b.ran == 3 ==> b.disk == Put(d, TempKey(draw), Dir)
    ensures b.ran >= 4 ==> && MkdirTemp(d, draw).out.Pass? && tools.pull(image).Pass? && tools.extract(image).Ok?
                           && b == FinishRootFS(d, tools, image, initScript, draw)
  {
    var tmp := MkdirTemp(d, draw);
    if tmp.out.Fail? then Built(d, 1, Err(TempDirFailed(tmp.out.error)))
    else if tools.pull(image).Fail? then Built(tmp.disk, 2, Err(PullFailed(image, tools.pull(image).error)))
    else if tools.extract(image).Err? then
      Built(tmp.disk, 3, Err(ExtractFailed(image, tools.extract(image).error)))
    else FinishRootFS(d, tools, image, initScript, draw)
  }

  /** The last two steps of `MakeRootFS`, once the image is extracted: add
      the overlay files, then squash. Either failure leaves the prepared
      tree as the effect. */
  function FinishRootFS(d: Disk, tools: Tools, image: string, initScript: string, draw: nat): (b: Built)
    requires MkdirTemp(d, draw).out.Pass? && tools.extract(image).Ok?
    ensures b.ran == 4 <==> Prepared(d, tools, image, initScript, draw).out.Fail?
    ensures b.ran == 4 || b.ran == 5
    ensures b.ran == 4 || b.result.Err? ==> b.disk == Prepared(d, tools, image, initScript, draw).disk
    ensures b.result.Ok? ==> b.result.value == BlobPath(image)
    ensures b.result.Err? ==> WrapsStep(b.result.error, b.ran)
  {
    var added := Prepared(d, tools, image, initScript, draw);
    if added.out.Fail? then Built(added.disk, 4, Err(AddFilesFailed(added.out.error)))
    else SquashRootFS(added.disk, tools, image, draw)
  }

  /** The last step of `MakeRootFS`: squash the prepared root into the blob. */
  function SquashRootFS(d: Disk, tools: Tools, image: string, draw: nat): (b: Built)
    ensures b.ran == |RootfsSteps|
    ensures b.result.Ok? ==> b.result.value == BlobPath(image)
    ensures b.result.Err? ==> b.result.error.SquashFailed? && b.disk == d
  {
    var sq := Squashfs(d, tools, Locate(RootfsPath(draw)), Locate(BlobPath(image)));
    if sq.out.Fail? then Built(sq.disk, 5, Err(SquashFailed(sq.out.error)))
    else Built(sq.disk, 5, Ok(BlobPath(image)))
  }

  /** The tree `mksquashfs` is given: the extracted image with the overlay
      files added. */
  function Prepared(d: Disk, tools: Tools, image: string, initScript: string, draw: nat): Changed
    requires MkdirTemp(d, draw).out.Pass? && tools.extract(image).Ok?
  {
    var extracted := Graft(MkdirTemp(d, draw).disk, Locate(RootfsPath(draw)), tools.extract(image).value);
    Overlay.AddRequiredFiles(extracted, RootfsPath(draw), initScript)
  }

  // ---------------------------------------------------------------------
  // MakeSSHDiskImage
  // ---------------------------------------------------------------------

  /** Where the key goes inside the mounted image. */
  const SshDirSegs: seq<string> := ["root", ".ssh"]
  const KeysSegs: seq<string> := ["root", ".ssh", "authorized_keys"]

  /** Put the key into the mounted image: make root/.ssh (errors dropped),
      create authorized_keys and write the key into it. */
  function AddKeyFile(d: Disk, mountDir: string, key: seq<byte>): Changed
  {
    var dirs := MkdirAll(d, Overlay.Under(mountDir, SshDirSegs)).disk;
    var file := Overlay.Under(mountDir, KeysSegs);
    var created := Create(dirs, file);
    if created.out.Fail? then created else Write(created.disk, file, key)
  }

  /** `MakeSSHDiskImage`: the image is named after the key's digest. Any
      stat result but not-exist counts as an existing image. Otherwise
      create a zeroed 2 MB file, format it, mount it, and write the key. */
  function MakeSSHDiskImage(d: Disk, tools: Tools, key: seq<byte>, draw: nat): (b: Built)
    ensures b.result.Ok? ==> b.result.value == KeyImagePath(tools.md5(key))
    ensures b.ran <= |KeySteps|
    ensures b.ran == 0 <==> Walk(d, Locate(KeyImagePath(tools.md5(key)))) != Missing
    ensures b.ran == 0 ==> b.disk == d && b.result.Ok?
    ensures b.result.Ok? && b.ran != 0 ==> b.ran == |KeySteps|
  {
    var path := KeyImagePath(tools.md5(key));
    var st := Stat(d, Locate(path));
    if !(st.Err? && IsNotExist(st.error)) then Built(d, 0, Ok(path))
    else BuildKeyImage(d, tools, key, draw)
  }

  /** The part of `MakeSSHDiskImage` after a not-exist stat. */
  function BuildKeyImage(d: Disk, tools: Tools, key: seq<byte>, draw: nat): (b: Built)
    ensures b.result.Ok? ==> b.result.value == KeyImagePath(tools.md5(key))
    ensures 1 <= b.ran <= |KeySteps|
    ensures b.result.Ok? ==> b.ran == |KeySteps|
  {
    var path := KeyImagePath(tools.md5(key));
    var made := WriteFile(d, Locate(path), Zeros(KeyImageSize));
    if made.out.Fail? then Built(made.disk, 1, Err(made.out.error))
    else
      var formatted := tools.mkfs(Zeros(KeyImageSize));
      if formatted.Err? then Built(made.disk, 2, Err(formatted.error))
      else InstallKey(Put(made.disk, Locate(path), File(formatted.value)), tools, key, path, draw)
  }

  /** The last two steps of `MakeSSHDiskImage`: mount the formatted image
      and write the key into it; the deferred cleanup runs once the mount
      succeeded. */
  function InstallKey(d: Disk, tools: Tools, key: seq<byte>, path: string, draw: nat): (b: Built)
    ensures b.ran == 3 || b.ran == |KeySteps|
    ensures b.result.Ok? ==> b.ran == |KeySteps| && b.result.value == path
  {
    var m := MountImageToRandomDir(d, tools, path, draw);
    if m.out.Fail? then Built(m.disk, 3, Err(m.out.error))
    else
      var added := AddKeyFile(m.disk, m.dir, key);
      Built(RunCleanup(added.disk, m.cleanup), 4, if added.out.Fail? then Err(added.out.error) else Ok(path))
  }

  /** `MakeSSHDiskImage` with the partial image removed when a step after
      its creation fails, so that a later call builds it again. */
  function MakeSSHDiskImageFixed(d: Disk, tools: Tools, key: seq<byte>, draw: nat): (b: Built)
    ensures b.result.Ok? ==> b.result.value == KeyImagePath(tools.md5(key))
    ensures b.ran <= |KeySteps|
    ensures b.ran == 0 <==> Walk(d, Locate(KeyImagePath(tools.md5(key)))) != Missing
    ensures b.ran == 0 ==> b.disk == d && b.result.Ok?
    ensures b.result.Ok? && b.ran != 0 ==> b.ran == |KeySteps|
  {
    var path := KeyImagePath(tools.md5(key));
    var st := Stat(d, Locate(path));
    if !(st.Err? && IsNotExist(st.error)) then Built(d, 0, Ok(path))
    else
      var b := BuildKeyImage(d, tools, key, draw);
      if b.result.Err? then b.(disk := RemoveAll(b.disk, Locate(path))) else b
  }

  // ---------------------------------------------------------------------
  // Facts about MakeRootFS
  // ---------------------------------------------------------------------

  /** When the blob is there, `MakeRootFS` returns its path and does nothing
      else. */
  lemma RootfsCacheHit(d: Disk, tools: Tools, image: string, initScript: string, draw: nat)
    requires Walk(d, Locate(BlobPath(image))).Found?
    ensures MakeRootFS(d, tools, image, initScript, draw) == Built(d, 0, Ok(BlobPath(image)))
  {
  }

  /** A stat error other than not-exist is returned, wrapped, with no work
      done. */
  lemma RootfsStatError(d: Disk, tools: Tools, image: string, initScript: string, draw: nat)
    requires Walk(d, Locate(BlobPath(image))) == FileOnPath
    ensures MakeRootFS(d, tools, image, initScript, draw)
         == Built(d, 0, Err(StatFailed(BlobPath(image), Os(NotDir))))
  {
  }

  /** `MakeRootFS` builds exactly when the stat reports not-exist. */
  lemma RootfsBuildsWhenMissing(d: Disk, tools: Tools, image: string, initScript: string, draw: nat)
    ensures MakeRootFS(d, tools, image, initScript, draw).ran != 0 <==> Walk(d, Locate(BlobPath(image))) == Missing
  {
  }

  /** `mksquashfs` succeeds exactly when the tool does and its output can be
      written; `dst` then holds the tool's output. A failure leaves `dst` as
      it was, so no partial blob is taken for a built one. */
  lemma SquashfsSpec(d: Disk, tools: Tools, src: PathKey, dst: PathKey)
    ensures var c := Squashfs(d, tools, src, dst);
      && (c.out.Pass? <==> tools.squash(d, src).Ok? && ParentIsDir(d, dst) && Walk(d, dst) != Found(Dir) && dst !in d.faulty)
      && (c.out.Pass? ==> Walk(c.disk, dst) == Found(File(tools.squash(d, src).value)))
      && (c.out.Fail? ==> Walk(c.disk, dst) == Walk(d, dst))
  {
    if tools.squash(d, src).Ok? {
      WriteFileSpec(d, dst, tools.squash(d, src).value);
    }
  }

  /** A successful last step leaves the blob holding what `mksquashfs` made
      of the prepared tree. */
  lemma RootfsBlobWritten(d: Disk, tools: Tools, image: string, draw: nat)
    requires SquashRootFS(d, tools, image, draw).result.Ok?
    ensures Walk(SquashRootFS(d, tools, image, draw).disk, Locate(BlobPath(image)))
      == Found(File(tools.squash(d, Locate(RootfsPath(draw))).value))
  {
    SquashfsSpec(d, tools, Locate(RootfsPath(draw)), Locate(BlobPath(image)));
  }

  /** After a successful `MakeRootFS`, a second call for the same reference
      is a cache hit, whatever the tools would do. */
  lemma RootfsIdempotent(d: Disk, tools: Tools, image: string, initScript: string, draw: nat,
                         tools': Tools, initScript': string, draw': nat)
    requires MakeRootFS(d, tools, image, initScript, draw).result.Ok?
    ensures var d' := MakeRootFS(d, tools, image, initScript, draw).disk;
      MakeRootFS(d', tools', image, initScript', draw') == Built(d', 0, Ok(BlobPath(image)))
  {
    var b := MakeRootFS(d, tools, image, initScript, draw);
    if b.ran != 0 {
      RootfsLastStep(d, tools, image, initScript, draw);
      RootfsBlobWritten(Prepared(d, tools, image, initScript, draw).disk, tools, image, draw);
    }
    RootfsCacheHit(b.disk, tools', image, initScript', draw');
  }

  /** The steps run in order and the first failure ends the build: step `k`
      is the last one run exactly when every step before it passed and it
      failed (or, for the squash, was reached). An early exit leaves the
      disk the failed step saw: untouched when the temporary directory
      cannot be made, with only that directory added when pulling or
      extracting fails, and with the prepared tree in place when adding the
      files or squashing fails. */
  lemma RootfsFirstFailure(d: Disk, tools: Tools, image: string, initScript: string, draw: nat)
    requires Walk(d, Locate(BlobPath(image))) == Missing
    ensures var b, tmp := MakeRootFS(d, tools, image, initScript, draw), MkdirTemp(d, draw);
      && (b.ran == 1 <==> tmp.out.Fail?)
      && (b.ran == 1 ==> b.disk == d)
      && (b.ran == 2 <==> tmp.out.Pass? && tools.pull(image).Fail?)
      && (b.ran == 3 <==> tmp.out.Pass? && tools.pull(image).Pass? && tools.extract(image).Err?)
      && (b.ran == 2 || b.ran == 3 ==> b.disk == Put(d, TempKey(draw), Dir))
      && (b.ran == 4 <==> && tmp.out.Pass? && tools.pull(image).Pass? && tools.extract(image).Ok?
                          && Prepared(d, tools, image, initScript, draw).out.Fail?)
      && (b.ran == 5 <==> && tmp.out.Pass? && tools.pull(image).Pass? && tools.extract(image).Ok?
                          && Prepared(d, tools, image, initScript, draw).out.Pass?)
      && (b.ran == 4 || (b.ran == 5 && b.result.Err?) ==> b.disk == Prepared(d, tools, image, initScript, draw).disk)
  {
    var st := Stat(d, Locate(BlobPath(image)));
    assert st.Err? && IsNotExist(st.error);
    assert MakeRootFS(d, tools, image, initScript, draw) == BuildRootFS(d, tools, image, initScript, draw);
  }

  /** A build that succeeds ends with the squash step on the prepared tree. */
  lemma RootfsLastStep(d: Disk, tools: Tools, image: string, initScript: string, draw: nat)
    requires MakeRootFS(d, tools, image, initScript, draw).result.Ok?
    requires MakeRootFS(d, tools, image, initScript, draw).ran != 0
    ensures MkdirTemp(d, draw).out.Pass? && tools.extract(image).Ok?
    ensures MakeRootFS(d, tools, image, initScript, draw)
      == SquashRootFS(Prepared(d, tools, image, initScript, draw).disk, tools, image, draw)
  {
    var st := Stat(d, Locate(BlobPath(image)));
    assert st.Err? && IsNotExist(st.error);
    var b := BuildRootFS(d, tools, image, initScript, draw);
    assert MakeRootFS(d, tools, image, initScript, draw) == b;
    assert b.result.Ok?;
    assert MkdirTemp(d, draw).out.Pass? && tools.pull(image).Pass? && tools.extract(image).Ok?;
    assert Prepared(d, tools, image, initScript, draw).out.Pass?;
  }

  /** After a successful build every step ran: the temporary directory was
      made, the image extracted, and the overlay files added. */
  lemma RootfsStepsRan(d: Disk, tools: Tools, image: string, initScript: string, draw: nat)
    requires MakeRootFS(d, tools, image, initScript, draw).result.Ok?
    requires MakeRootFS(d, tools, image, initScript, draw).ran != 0
    ensures MkdirTemp(d, draw).out.Pass? && tools.pull(image).Pass? && tools.extract(image).Ok?
    ensures Prepared(d, tools, image, initScript, draw).out.Pass?
  {
  }

  /** The extracted root lies in the temporary directory. */
  lemma RootfsKey(draw: nat)
    ensures Locate(RootfsPath(draw)) == Child(TempKey(draw), "rootfs")
    ensures TempKey(draw).rooted
  {
    JoinPlain(TempPath(draw), "rootfs");
  }

  /** The tree given to `mksquashfs` holds the init script's bytes at
      sbin/overlay-init and the nameserver line at etc/resolv.conf, below
      the extracted root. */
  lemma PreparedHoldsFiles(d: Disk, tools: Tools, image: string, initScript: string, draw: nat)
    requires MkdirTemp(d, draw).out.Pass? && tools.extract(image).Ok?
    requires Prepared(d, tools, image, initScript, draw).out.Pass?
    ensures ReadFile(d, Overlay.ScriptKey(initScript)).Ok?
    ensures var root, p := Locate(RootfsPath(draw)), Prepared(d, tools, image, initScript, draw).disk;
      && Walk(p, Overlay.InitAt(root)) == Found(File(ReadFile(d, Overlay.ScriptKey(initScript)).value))
      && Walk(p, Overlay.ResolvAt(root)) == Found(File(Overlay.ResolvBytes))
  {
    var tmp := MkdirTemp(d, draw);
    var root := Locate(RootfsPath(draw));
    var extracted := Graft(tmp.disk, root, tools.extract(image).value);
    var script := Overlay.ScriptKey(initScript);
    RootfsKey(draw);
    Overlay.ScriptKeyRelative(initScript);
    MkdirSpec(d, TempKey(draw));
    WalkGraftRoot(tmp.disk, root, tools.extract(image).value);
    WalkPutFrame(d, TempKey(draw), Dir, script);
    WalkGraft(tmp.disk, root, tools.extract(image).value, script);
    assert Overlay.Mounted(extracted, RootfsPath(draw), initScript);
    Overlay.AddedFiles(extracted, RootfsPath(draw), initScript);
  }

  // ---------------------------------------------------------------------
  // Facts about mountImageToRandomDir and BuildSquashFSImage
  // ---------------------------------------------------------------------

  /** Once the temporary directory is made it stays, even when opening or
      mounting the image then fails and no cleanup is returned. A failure
      to make it changes nothing. */
  lemma MountKeepsTempDir(d: Disk, tools: Tools, imagePath: string, draw: nat)
    ensures var m := MountImageToRandomDir(d, tools, imagePath, draw);
      && (MkdirTemp(d, draw).out.Pass? ==> Walk(m.disk, TempKey(draw)) == Found(Dir))
      && (MkdirTemp(d, draw).out.Fail? ==> m.disk == d && m.out.Fail?)
  {
    var tmp := MkdirTemp(d, draw);
    var m := MountImageToRandomDir(d, tools, imagePath, draw);
    MkdirSpec(d, TempKey(draw));
    if m.out.Pass? {
      var tree := tools.mount(ReadFile(tmp.disk, Locate(imagePath)).value);
      assert m.disk == Graft(tmp.disk, TempKey(draw), tree.value);
      WalkGraftRoot(tmp.disk, TempKey(draw), tree.value);
    }
  }

  /** The three steps run in order and the first failure ends the build:
      a failed mount is step 1 and leaves what the mount left (the disk as
      it was, or with only the temporary directory added); a failure to add
      the files is step 2; the squash is step 3. From step 2 on the cleanup
      has run. */
  lemma SquashFirstFailure(d: Disk, tools: Tools, base: string, initScript: string, out: string, draw: nat)
    ensures var r, m := BuildSquashFSImage(d, tools, base, initScript, out, draw), MountImageToRandomDir(d, tools, base, draw);
      && (r.ran == 1 <==> m.out.Fail?)
      && (r.ran == 1 ==> r.result == Err(m.out.error) && (r.disk == d || r.disk == Put(d, TempKey(draw), Dir)))
      && (r.ran == 2 <==> m.out.Pass? && Overlay.AddRequiredFiles(m.disk, m.dir, initScript).out.Fail?)
      && (r.ran == 2 ==> r.result == Err(Overlay.AddRequiredFiles(m.disk, m.dir, initScript).out.error))
      && (r.ran == 3 <==> m.out.Pass? && Overlay.AddRequiredFiles(m.disk, m.dir, initScript).out.Pass?)
      && (r.ran == 3 ==> (r.result.Ok? <==>
            Squashfs(Overlay.AddRequiredFiles(m.disk, m.dir, initScript).disk, tools, TempKey(draw), Locate(out)).out.Pass?))
  {
    var m := MountImageToRandomDir(d, tools, base, draw);
    var r := BuildSquashFSImage(d, tools, base, initScript, out, draw);
    if m.out.Fail? {
      assert r == Built(m.disk, 1, Err(m.out.error));
    } else {
      assert r.ran != 1;
    }
  }

  /** Success in terms of the disk the mount leaves: the mount passes, the
      mounted tree is `Overlay.Ready` for the two files, and mksquashfs
      passes. */
  lemma SquashBuiltWhenReady(d: Disk, tools: Tools, base: string, initScript: string, out: string, draw: nat)
    ensures var m := MountImageToRandomDir(d, tools, base, draw);
      BuildSquashFSImage(d, tools, base, initScript, out, draw).result.Ok? <==>
        && m.out.Pass?
        && Overlay.Ready(m.disk, m.dir, initScript)
        && Squashfs(Overlay.AddRequiredFiles(m.disk, m.dir, initScript).disk, tools, TempKey(draw), Locate(out)).out.Pass?
  {
    var m := MountImageToRandomDir(d, tools, base, draw);
    SquashFirstFailure(d, tools, base, initScript, out, draw);
    if m.out.Pass? {
      MountKeepsTempDir(d, tools, base, draw);
      Overlay.ScriptKeyRelative(initScript);
      RootfsKey(draw);
      assert Overlay.Mounted(m.disk, m.dir, initScript);
      Overlay.AddFilesPass(m.disk, m.dir, initScript);
    }
  }

  /** After success the output image is a regular file, provided it does
      not lie inside the mount directory that the cleanup removes. */
  lemma SquashOutput(d: Disk, tools: Tools, base: string, initScript: string, out: string, draw: nat)
    requires BuildSquashFSImage(d, tools, base, initScript, out, draw).result.Ok?
    requires !Below(Locate(out), TempKey(draw))
    ensures var w := Walk(BuildSquashFSImage(d, tools, base, initScript, out, draw).disk, Locate(out));
      w.Found? && w.entry.File?
  {
    var m := MountImageToRandomDir(d, tools, base, draw);
    var added := Overlay.AddRequiredFiles(m.disk, m.dir, initScript);
    var sq := Squashfs(added.disk, tools, TempKey(draw), Locate(out));
    assert m.out.Pass? && added.out.Pass? && sq.out.Pass?;
    assert BuildSquashFSImage(d, tools, base, initScript, out, draw).disk == RemoveAll(sq.disk, TempKey(draw));
    WriteFileSpec(added.disk, Locate(out), tools.squash(added.disk, TempKey(draw)).value);
    WalkRemoveAll(sq.disk, TempKey(draw), Locate(out));
  }

  // ---------------------------------------------------------------------
  // main.go's start-up builder
  // ---------------------------------------------------------------------

  /** The tree main.go's builder squashes: after the overlay directories,
      the init script is copied to sbin/overlay-init. No resolv.conf is
      written. */
  function StartupPrepared(m: Mounted, initScript: string): Changed
  {
    Overlay.CopyInit(Overlay.MakeDirs(m.disk, m.dir), Overlay.Under(m.dir, Overlay.InitSegs), Overlay.ScriptKey(initScript))
  }

  /** main.go's own `buildSquashFSImage`, which the start-up runs: mount the
      base image, make the overlay directories, list the mount point, copy
      the init script, squash the tree into `out`, then list sbin/. File
      errors are returned without a wrapper. The deferred cleanup runs once
      the mount succeeded. */
  function BuildStartupImage(d: Disk, tools: Tools, base: string, initScript: string, out: string, draw: nat): (r: Built)
    ensures 1 <= r.ran <= |StartupSteps|
    ensures r.result.Ok? ==> r.ran == |StartupSteps| && r.result.value == out
    ensures r.ran > 1 ==> forall q :: q in r.disk.entries ==> !Below(q, TempKey(draw))
  {
    var m := MountImageToRandomDir(d, tools, base, draw);
    if m.out.Fail? then Built(m.disk, 1, Err(m.out.error))
    else
      var dirs := Overlay.MakeDirs(m.disk, m.dir);
      var listed := ReadDir(dirs, Locate(m.dir));
      if listed.Fail? then Built(RunCleanup(dirs, m.cleanup), 2, Err(listed.error))
      else
        var copied := StartupPrepared(m, initScript);
        if copied.out.Fail? then Built(RunCleanup(copied.disk, m.cleanup), 2, Err(copied.out.error.inner))
        else
          var sq := Squashfs(copied.disk, tools, TempKey(draw), Locate(out));
          if sq.out.Fail? then Built(RunCleanup(sq.disk, m.cleanup), 3, Err(sq.out.error))
          else
            var sbin := ReadDir(sq.disk, Overlay.Under(m.dir, ["sbin"]));
            Built(RunCleanup(sq.disk, m.cleanup), 4, if sbin.Fail? then Err(sbin.error) else Ok(out))
  }

  /** The mount point can always be listed after a successful mount: it is
      the directory the image was grafted on, and the overlay directories
      only add entries. */
  lemma StartupListsMount(d: Disk, tools: Tools, base: string, draw: nat)
    requires MountImageToRandomDir(d, tools, base, draw).out.Pass?
    ensures var m := MountImageToRandomDir(d, tools, base, draw);
      ReadDir(Overlay.MakeDirs(m.disk, m.dir), Locate(m.dir)).Pass?
  {
    var m := MountImageToRandomDir(d, tools, base, draw);
    MountKeepsTempDir(d, tools, base, draw);
    WalkKeep(m.disk, Overlay.MakeDirs(m.disk, m.dir), Locate(m.dir));
  }

  /** `mksquashfs` touches nothing but its output. */
  lemma SquashfsFrame(d: Disk, tools: Tools, src: PathKey, dst: PathKey, q: PathKey)
    requires !Below(q, dst)
    ensures Walk(Squashfs(d, tools, src, dst).disk, q) == Walk(d, q)
  {
    var image := tools.squash(d, src);
    if image.Ok? {
      Overlay.WriteFileFrame(d, dst, image.value, q);
    }
  }

  /** Once the init script is copied, sbin/ is a directory, and writing a
      relative output keeps it so below the absolute mount point. */
  lemma StartupListsSbin(m: Mounted, tools: Tools, initScript: string, out: string, draw: nat)
    requires m.dir == TempPath(draw) && !Locate(out).rooted
    requires StartupPrepared(m, initScript).out.Pass?
    ensures var sq := Squashfs(StartupPrepared(m, initScript).disk, tools, TempKey(draw), Locate(out));
      ReadDir(sq.disk, Overlay.Under(m.dir, ["sbin"])).Pass?
  {
    var sbin := Overlay.Under(m.dir, ["sbin"]);
    Overlay.CopyInitSbin(Overlay.MakeDirs(m.disk, m.dir), m.dir, Overlay.ScriptKey(initScript));
    Overlay.UnderRooted(m.dir, ["sbin"]);
    SquashfsFrame(StartupPrepared(m, initScript).disk, tools, TempKey(draw), Locate(out), sbin);
  }

  /** For a relative output, as the start-up gives, neither listing can
      fail: main.go's builder succeeds exactly when the mount, the copy of
      the init script and mksquashfs do. */
  lemma StartupBuilt(d: Disk, tools: Tools, base: string, initScript: string, out: string, draw: nat)
    requires !Locate(out).rooted
    ensures var m := MountImageToRandomDir(d, tools, base, draw);
      BuildStartupImage(d, tools, base, initScript, out, draw).result.Ok? <==>
        && m.out.Pass?
        && StartupPrepared(m, initScript).out.Pass?
        && Squashfs(StartupPrepared(m, initScript).disk, tools, TempKey(draw), Locate(out)).out.Pass?
  {
    var m := MountImageToRandomDir(d, tools, base, draw);
    if m.out.Pass? {
      StartupListsMount(d, tools, base, draw);
      if StartupPrepared(m, initScript).out.Pass? {
        StartupListsSbin(m, tools, initScript, out, draw);
      }
    }
  }

  /** On success the tree given to mksquashfs holds the init script's bytes
      at sbin/overlay-init, while etc/resolv.conf is whatever the base image
      had there: main.go's builder writes no nameserver. */
  lemma StartupHoldsScript(d: Disk, tools: Tools, base: string, initScript: string, draw: nat)
    requires MountImageToRandomDir(d, tools, base, draw).out.Pass?
    requires StartupPrepared(MountImageToRandomDir(d, tools, base, draw), initScript).out.Pass?
    ensures ReadFile(d, Overlay.ScriptKey(initScript)).Ok?
    ensures var m, root := MountImageToRandomDir(d, tools, base, draw), TempKey(draw);
      && Walk(StartupPrepared(m, initScript).disk, Overlay.InitAt(root))
         == Found(File(ReadFile(d, Overlay.ScriptKey(initScript)).value))
      && Walk(StartupPrepared(m, initScript).disk, Overlay.ResolvAt(root)) == Walk(m.disk, Overlay.ResolvAt(root))
  {
    var m := MountImageToRandomDir(d, tools, base, draw);
    var root := Locate(m.dir);
    var script := Overlay.ScriptKey(initScript);
    Overlay.ScriptKeyRelative(initScript);
    MountKeepsTempDir(d, tools, base, draw);
    MountFrame(d, tools, base, draw, script);
    RootfsKey(draw);
    assert Overlay.Mounted(m.disk, m.dir, initScript);
    Overlay.DirsKeepFiles(m.disk, m.dir, initScript);
    var dirs := Overlay.MakeDirs(m.disk, m.dir);
    var init := Overlay.InitAt(root);
    Overlay.FileKeys(m.dir);
    Overlay.FilesAside(root);
    Overlay.CopiedInit(dirs, init, script);
    WalkPut(dirs, init, File(ReadFile(dirs, script).value));
    WalkPutFrame(dirs, init, File(ReadFile(dirs, script).value), Overlay.ResolvAt(root));
  }

  // ---------------------------------------------------------------------
  // Facts about MakeSSHDiskImage
  // ---------------------------------------------------------------------

  /** The two builders treat a stat error other than not-exist in opposite
      ways: `MakeRootFS` fails, `MakeSSHDiskImage` returns the path as if
      the image existed. Neither does any work. */
  lemma StatErrorsDiffer(d: Disk, tools: Tools, image: string, initScript: string, key: seq<byte>, draw: nat)
    requires Walk(d, Locate(BlobPath(image))) == FileOnPath
    requires Walk(d, Locate(KeyImagePath(tools.md5(key)))) == FileOnPath
    ensures MakeRootFS(d, tools, image, initScript, draw) == Built(d, 0, Err(StatFailed(BlobPath(image), Os(NotDir))))
    ensures MakeSSHDiskImage(d, tools, key, draw) == Built(d, 0, Ok(KeyImagePath(tools.md5(key))))
  {
  }

  /** After `AddKeyFile` succeeds, authorized_keys holds exactly the key. */
  lemma KeyFileWritten(d: Disk, mountDir: string, key: seq<byte>)
    requires AddKeyFile(d, mountDir, key).out.Pass?
    ensures Walk(AddKeyFile(d, mountDir, key).disk, Overlay.Under(mountDir, KeysSegs)) == Found(File(key))
  {
    var dirs := MkdirAll(d, Overlay.Under(mountDir, SshDirSegs)).disk;
    var file := Overlay.Under(mountDir, KeysSegs);
    CreateSpec(dirs, file);
    PutTwice(dirs, file, File([]), File(key));
    WalkPut(dirs, file, File(key));
  }

  // ---------------------------------------------------------------------
  // A failed key image stays cached
  // ---------------------------------------------------------------------

  /** Mounting never touches relative names: the temporary directory and
      the mount are under /tmp. */
  lemma MountFrame(d: Disk, tools: Tools, imagePath: string, draw: nat, q: PathKey)
    requires !q.rooted
    ensures Walk(MountImageToRandomDir(d, tools, imagePath, draw).disk, q) == Walk(d, q)
  {
    var tmp := MkdirTemp(d, draw);
    RootfsKey(draw);
    if tmp.out.Pass? {
      WalkPutFrame(d, TempKey(draw), Dir, q);
      var image := ReadFile(tmp.disk, Locate(imagePath));
      if image.Ok? && tools.mount(image.value).Ok? {
        WalkGraft(tmp.disk, TempKey(draw), tools.mount(image.value).value, q);
      }
    }
  }

  /** Writing the key under an absolute mount directory keeps every relative
      name that resolves. */
  lemma AddKeyFileKeeps(d: Disk, mountDir: string, key: seq<byte>, q: PathKey)
    requires mountDir != "" && mountDir[0] == '/'
    requires !q.rooted && Walk(d, q).Found?
    ensures Walk(AddKeyFile(d, mountDir, key).disk, q) == Walk(d, q)
  {
    var dirs := MkdirAll(d, Overlay.Under(mountDir, SshDirSegs)).disk;
    var file := Overlay.Under(mountDir, KeysSegs);
    WalkKeep(d, dirs, q);
    Overlay.UnderRooted(mountDir, KeysSegs);
    var created := Create(dirs, file);
    if created.out.Pass? {
      WalkPutFrame(dirs, file, File([]), q);
      if file !in created.disk.faulty {
        WalkPutFrame(created.disk, file, File(key), q);
      } else {
        WalkPutFrame(created.disk, file, File(Prefix(created.disk.faulty[file], key)), q);
      }
    }
  }

  /** The last two steps keep every relative name that resolves, the key
      image among them. */
  lemma InstallKeyKeeps(d: Disk, tools: Tools, key: seq<byte>, path: string, draw: nat, q: PathKey)
    requires !q.rooted && Walk(d, q).Found?
    ensures Walk(InstallKey(d, tools, key, path, draw).disk, q) == Walk(d, q)
  {
    var m := MountImageToRandomDir(d, tools, path, draw);
    MountFrame(d, tools, path, draw, q);
    if m.out.Pass? {
      var added := AddKeyFile(m.disk, m.dir, key);
      AddKeyFileKeeps(m.disk, m.dir, key, q);
      RootfsKey(draw);
      WalkRemoveAll(added.disk, TempKey(draw), q);
    }
  }

  /** Once the zeroed image is created and its parent found, the image file
      survives every later step, whether it succeeds or not. */
  lemma KeyImageKept(d: Disk, tools: Tools, key: seq<byte>, draw: nat)
    requires BuildKeyImage(d, tools, key, draw).ran >= 2
    ensures var k := Locate(KeyImagePath(tools.md5(key)));
      && ParentIsDir(d, k)
      && Walk(BuildKeyImage(d, tools, key, draw).disk, k).Found?
  {
    var path := KeyImagePath(tools.md5(key));
    var k := Locate(path);
    KeyImageKey(tools.md5(key));
    WriteFileSpec(d, k, Zeros(KeyImageSize));
    var made := WriteFile(d, k, Zeros(KeyImageSize));
    var formatted := tools.mkfs(Zeros(KeyImageSize));
    if formatted.Ok? {
      PutTwice(d, k, File(Zeros(KeyImageSize)), File(formatted.value));
      WalkPut(d, k, File(formatted.value));
      InstallKeyKeeps(Put(made.disk, k, File(formatted.value)), tools, key, path, draw, k);
    }
  }

  /** As written, a build that fails after creating the image file leaves
      the file behind, and the next request takes it for a finished image:
      it returns the path at once, without the key ever having been written.
      For instance, when `mkfs.ext4` fails the image stays all zeros. */
  lemma KeyImageCachePoisoned(d: Disk, tools: Tools, key: seq<byte>, draw: nat, draw': nat)
    requires MakeSSHDiskImage(d, tools, key, draw).result.Err?
    requires MakeSSHDiskImage(d, tools, key, draw).ran >= 2
    ensures var b := MakeSSHDiskImage(d, tools, key, draw);
      MakeSSHDiskImage(b.disk, tools, key, draw') == Built(b.disk, 0, Ok(KeyImagePath(tools.md5(key))))
  {
    KeyImageKept(d, tools, key, draw);
  }

  /** The concrete case: ssh_keys/ exists, the image does not, and
      `mkfs.ext4` fails. The request reports the failure after creating the
      zeroed file, and the next request returns that unformatted file as the
      key image. */
  lemma KeyImageFormatFailure(d: Disk, tools: Tools, key: seq<byte>, draw: nat, draw': nat)
    requires Walk(d, PathKey(false, [KeyDir])) == Found(Dir)
    requires PathKey(false, [KeyDir, KeyImageName(tools.md5(key))]) !in d.entries
    requires PathKey(false, [KeyDir, KeyImageName(tools.md5(key))]) !in d.faulty
    requires tools.mkfs(Zeros(KeyImageSize)).Err?
    ensures var b := MakeSSHDiskImage(d, tools, key, draw);
      && b.ran == 2
      && b.result == Err(tools.mkfs(Zeros(KeyImageSize)).error)
      && Walk(b.disk, PathKey(false, [KeyDir, KeyImageName(tools.md5(key))])) == Found(File(Zeros(KeyImageSize)))
      && MakeSSHDiskImage(b.disk, tools, key, draw') == Built(b.disk, 0, Ok(KeyImagePath(tools.md5(key))))
  {
    var k := PathKey(false, [KeyDir, KeyImageName(tools.md5(key))]);
    KeyImageKey(tools.md5(key));
    assert Parent(k) == PathKey(false, [KeyDir]);
    WriteFileSpec(d, k, Zeros(KeyImageSize));
  }

  /** Every step of the key image build keeps the parent of the image's
      name as it was. */
  lemma KeyImageParentKept(d: Disk, tools: Tools, key: seq<byte>, draw: nat)
    ensures var k := Locate(KeyImagePath(tools.md5(key)));
      && |k.segs| > 0
      && Walk(BuildKeyImage(d, tools, key, draw).disk, Parent(k)) == Walk(d, Parent(k))
  {
    var path := KeyImagePath(tools.md5(key));
    var k := Locate(path);
    KeyImageKey(tools.md5(key));
    var p := Parent(k);
    assert !Below(p, k);
    var made := WriteFile(d, k, Zeros(KeyImageSize));
    Overlay.WriteFileFrame(d, k, Zeros(KeyImageSize), p);
    var formatted := tools.mkfs(Zeros(KeyImageSize));
    if made.out.Pass? && formatted.Ok? {
      WriteFileSpec(d, k, Zeros(KeyImageSize));
      var put := Put(made.disk, k, File(formatted.value));
      WalkPutFrame(made.disk, k, File(formatted.value), p);
      InstallKeyKeeps(put, tools, key, path, draw, p);
      assert BuildKeyImage(d, tools, key, draw) == InstallKey(put, tools, key, path, draw);
    } else {
      assert BuildKeyImage(d, tools, key, draw).disk == made.disk;
    }
  }

  /** With the partial image removed, a failed request leaves no image
      behind, and the next request builds it again. */
  lemma KeyImageFailureRetried(d: Disk, tools: Tools, key: seq<byte>, draw: nat, draw': nat)
    requires MakeSSHDiskImageFixed(d, tools, key, draw).result.Err?
    ensures var b := MakeSSHDiskImageFixed(d, tools, key, draw);
      && Walk(b.disk, Locate(KeyImagePath(tools.md5(key)))) == Missing
      && MakeSSHDiskImageFixed(b.disk, tools, key, draw').ran != 0
  {
    var k := Locate(KeyImagePath(tools.md5(key)));
    KeyImageParentKept(d, tools, key, draw);
    WalkRemoveAllSelf(BuildKeyImage(d, tools, key, draw).disk, k);
  }

  /** The correction changes nothing when the request succeeds or finds the
      image: result, steps and disk are those of the code as written. */
  lemma KeyImageFixedAgrees(d: Disk, tools: Tools, key: seq<byte>, draw: nat)
    requires MakeSSHDiskImage(d, tools, key, draw).result.Ok?
    ensures MakeSSHDiskImageFixed(d, tools, key, draw) == MakeSSHDiskImage(d, tools, key, draw)
  {
  }

  /** After a successful request the next one is a cache hit. */
  lemma KeyImageIdempotent(d: Disk, tools: Tools, key: seq<byte>, draw: nat, draw': nat)
    requires MakeSSHDiskImage(d, tools, key, draw).result.Ok?
    ensures var b := MakeSSHDiskImage(d, tools, key, draw);
      MakeSSHDiskImage(b.disk, tools, key, draw') == Built(b.disk, 0, Ok(KeyImagePath(tools.md5(key))))
  {
    if MakeSSHDiskImage(d, tools, key, draw).ran != 0 {
      KeyImageKept(d, tools, key, draw);
    }
  }

  /** The same holds for the corrected builder. */
  lemma KeyImageFixedIdempotent(d: Disk, tools: Tools, key: seq<byte>, draw: nat, draw': nat)
    requires MakeSSHDiskImageFixed(d, tools, key, draw).result.Ok?
    ensures var b := MakeSSHDiskImageFixed(d, tools, key, draw);
      MakeSSHDiskImageFixed(b.disk, tools, key, draw') == Built(b.disk, 0, Ok(KeyImagePath(tools.md5(key))))
  {
    if MakeSSHDiskImageFixed(d, tools, key, draw).ran != 0 {
      KeyImageKept(d, tools, key, draw);
    }
  }
}
