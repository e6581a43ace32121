/** The VM side of the control plane: the start-up that builds the shared
    root filesystem when it is missing, the boot configuration each VM is
    given, and the create-VM request that ties the key image to it. */
module Vm {
  import opened Base
  import opened Text
  import opened GoPath
  import opened Fs
  import Decimal
  import Naming
  import Overlay
  import Image

  // ---------------------------------------------------------------------
  // Constants of the boot configuration
  // ---------------------------------------------------------------------

  /** VM ids are drawn from [0, IdRange). */
  const IdRange: nat := 10000000

  /** Where the API sockets go. */
  const SocketDir: string := "/tmp/firecracker"

  /** The shared root filesystem, as the start-up looks for it and as the
      root drive names it. */
  const SquashImage: string := "./squash-rootfs.img"
  const RootDriveImage: string := "squash-rootfs.img"

  const KernelImage: string := "vmlinux.bin"
  const LogLevel: string := "Info"

  /** Where the kernel looks for init inside the guest. */
  const InitPath: string := "/sbin/overlay-init"

  /** The kernel command line, one field per element. */
  const KernelFields: seq<string> := [
    "console=ttyS0", "reboot=k", "panic=1", "pci=off", "overlay_root=ram",
    "ssh_disk=/dev/vdb", "init=" + InitPath]

  /** A block device as the Firecracker API describes it. */
  datatype Drive = Drive(id: string, pathOnHost: string, isRoot: bool, readOnly: bool, cache: string, ioEngine: string)

  datatype Machine = Machine(vcpus: nat, memMib: nat, smt: bool, trackDirtyPages: bool)

  /** A network interface configured through CNI. */
  datatype CniIface = CniIface(networkName: string, ifName: string, allowMmds: bool)

  /** The configuration handed to the Firecracker SDK. */
  datatype Config = Config(
    socketPath: string,
    logPath: string,
    logLevel: string,
    kernelImage: string,
    kernelArgs: string,
    drives: seq<Drive>,
    machine: Machine,
    ifaces: seq<CniIface>)

  /** A started VM: its id, its configuration, and the address text it
      reports. */
  datatype Vm = Vm(id: string, config: Config, ip: string)

  /** The disk after a request, and the VM or the panic that ended it. */
  datatype Run = Run(disk: Disk, result: Result<Vm>)

  // ---------------------------------------------------------------------
  // makeVM
  // ---------------------------------------------------------------------

  /** The kernel command line as the configuration carries it. */
  function KernelArgs(): (s: string)
    ensures Split(s, ' ') == KernelFields
  {
    assert forall i :: 0 <= i < |KernelFields| ==> ' ' !in KernelFields[i];
    SplitGlue(KernelFields, ' ');
    Glue(KernelFields, ' ')
  }

  /** `strconv.Itoa(rand.Intn(10000000))`, the random draw given as `roll`. */
  function VmId(roll: nat): (id: string)
    ensures Decimal.Canonical(id)
    ensures Decimal.Atoi(id) == roll % IdRange
    ensures |id| <= 7
  {
    var n := roll % IdRange;
    Decimal.AtoiItoa(n);
    assert Decimal.Pow10(7) == IdRange;
    Decimal.ItoaLength(n, 7);
    Decimal.Itoa(n)
  }

  function OutLog(id: string): string
  {
    "logs/" + id + "-out.log"
  }

  function ErrLog(id: string): string
  {
    "logs/" + id + "-err.log"
  }

  /** `path.Join(socketDir, id + ".sock")`. */
  function SocketPath(socketDir: string, id: string): string
  {
    Join(socketDir, id + ".sock")
  }

  /** The two drives: the shared root filesystem, and the key image. */
  function Drives(keyImage: string): (ds: seq<Drive>)
    ensures |ds| == 2
    ensures forall i :: 0 <= i < |ds| ==> ds[i].readOnly
    ensures forall i :: 0 <= i < |ds| ==> (ds[i].isRoot <==> i == 0)
  {
    [Drive("rootfs", RootDriveImage, true, true, "Unsafe", "Sync"),
     Drive("vol2", keyImage, false, true, "Unsafe", "Sync")]
  }

  /** `makeVM`: draw an id, create the two log files (errors dropped), and
      assemble the configuration. A failed out-log leaves a nil file whose
      name is asked for, which panics. The address is the text of the
      record the CNI plugin keeps of the address it handed out last, read
      as `lastIp`, or empty when it cannot be read. */
  function MakeVM(d: Disk, socketDir: string, keyImage: string, roll: nat, lastIp: Result<seq<byte>>): (r: Run)
    ensures r.result.Err? ==> r.result.error == NilFile
    ensures r.result.Ok? ==> r.result.value.id == VmId(roll)
    ensures r.result.Ok? ==> r.result.value.config.drives == Drives(keyImage)
  {
    var id := VmId(roll);
    var out := Create(d, Locate(OutLog(id)));
    var err := Create(out.disk, Locate(ErrLog(id)));
    if out.out.Fail? then Run(err.disk, Err(NilFile))
    else
      var config := Config(
        SocketPath(socketDir, id), OutLog(id), LogLevel, KernelImage, KernelArgs(),
        Drives(keyImage), Machine(2, 1024, false, false), [CniIface("fcnet", "veth0", true)]);
      Run(err.disk, Ok(Vm(id, config, if lastIp.Ok? then Chars(lastIp.value) else "")))
  }

  // ---------------------------------------------------------------------
  // Facts about makeVM
  // ---------------------------------------------------------------------

  /** Ids come from a range of ten million and are not checked against the
      running VMs: draws equal modulo the range give the same id, others
      different ones. */
  lemma VmIdCollision(a: nat, b: nat)
    ensures VmId(a) == VmId(b) <==> a % IdRange == b % IdRange
  {
    if VmId(a) == VmId(b) {
      Decimal.ItoaInjective(a % IdRange, b % IdRange);
    }
  }

  /** An id followed by a suffix without '/' is a single plain name. */
  lemma IdNamePlain(id: string, suffix: string)
    requires Decimal.Canonical(id)
    requires '/' !in suffix
    ensures Plain(id + suffix)
  {
    var name := id + suffix;
    assert name[0] == id[0];
    assert Decimal.IsDigit(name[0]);
    assert forall i :: 0 <= i < |name| ==> name[i] != '/' by {
      forall i | 0 <= i < |name| ensures name[i] != '/' {
        if i < |id| {
          assert Decimal.IsDigit(id[i]);
        } else {
          assert name[i] == suffix[i - |id|];
        }
      }
    }
  }

  /** The socket is the file `<id>.sock` in the socket directory. */
  lemma SocketInDir(socketDir: string, roll: nat)
    requires socketDir != ""
    ensures Locate(SocketPath(socketDir, VmId(roll))) == Child(Locate(socketDir), VmId(roll) + ".sock")
  {
    IdNamePlain(VmId(roll), ".sock");
    JoinPlain(socketDir, VmId(roll) + ".sock");
  }

  /** Distinct ids give distinct sockets. */
  lemma SocketsDistinct(socketDir: string, a: nat, b: nat)
    requires socketDir != ""
    requires a % IdRange != b % IdRange
    ensures SocketPath(socketDir, VmId(a)) != SocketPath(socketDir, VmId(b))
  {
    SocketInDir(socketDir, a);
    SocketInDir(socketDir, b);
    VmIdCollision(a, b);
    var x, y := VmId(a) + ".sock", VmId(b) + ".sock";
    assert Child(Locate(socketDir), x).segs[|Locate(socketDir).segs|] == x;
    assert x[..|x| - 5] == VmId(a) && y[..|y| - 5] == VmId(b);
  }

  /** The log files are `<id>-out.log` and `<id>-err.log` in logs/. */
  lemma LogKeys(id: string)
    requires Decimal.Canonical(id)
    ensures Locate(OutLog(id)) == PathKey(false, ["logs", id + "-out.log"])
    ensures Locate(ErrLog(id)) == PathKey(false, ["logs", id + "-err.log"])
  {
    LocatePlainName("logs");
    IdNamePlain(id, "-out.log");
    IdNamePlain(id, "-err.log");
    assert OutLog(id) == "logs" + "/" + (id + "-out.log");
    assert ErrLog(id) == "logs" + "/" + (id + "-err.log");
    LocateChild("logs", id + "-out.log");
    LocateChild("logs", id + "-err.log");
  }

  /** Without a logs/ directory the out-log cannot be created and the
      request panics; with one, the configuration logs to the out-log and
      that file exists. */
  lemma VmLogs(d: Disk, socketDir: string, keyImage: string, roll: nat, lastIp: Result<seq<byte>>)
    ensures var r := MakeVM(d, socketDir, keyImage, roll, lastIp);
      && (Walk(d, PathKey(false, ["logs"])) != Found(Dir) ==> r.result == Err(NilFile))
      && (r.result.Ok? ==> r.result.value.config.logPath == OutLog(VmId(roll))
                           && Walk(r.disk, Locate(OutLog(VmId(roll)))).Found?)
  {
    var id := VmId(roll);
    LogKeys(id);
    var ok := Locate(OutLog(id));
    var ek := Locate(ErrLog(id));
    assert Parent(ok) == PathKey(false, ["logs"]);
    CreateSpec(d, ok);
    var out := Create(d, ok);
    if out.out.Pass? {
      assert !Below(ok, ek) by {
        assert ok.segs[1] != ek.segs[1] by {
          assert ok.segs[1][|id| + 1] == 'o' && ek.segs[1][|id| + 1] == 'e';
        }
      }
      WalkPutFrame(out.disk, ek, File([]), ok);
    }
  }

  /** The boot configuration: the kernel and its command line, two drives,
      of which only the first is the root device, both read-only, the root
      drive the shared root filesystem and the second the key image; two
      vCPUs, 1024 MiB, no SMT; one CNI interface. */
  lemma BootConfig(d: Disk, socketDir: string, keyImage: string, roll: nat, lastIp: Result<seq<byte>>)
    requires MakeVM(d, socketDir, keyImage, roll, lastIp).result.Ok?
    ensures var c := MakeVM(d, socketDir, keyImage, roll, lastIp).result.value.config;
      && c.kernelImage == KernelImage && c.logLevel == LogLevel
      && Split(c.kernelArgs, ' ') == KernelFields
      && |c.drives| == 2
      && (forall i :: 0 <= i < 2 ==> c.drives[i].readOnly && (c.drives[i].isRoot <==> i == 0))
      && c.drives[0].id == "rootfs" && c.drives[0].pathOnHost == RootDriveImage
      && c.drives[1].id == "vol2" && c.drives[1].pathOnHost == keyImage
      && c.machine == Machine(2, 1024, false, false)
      && c.ifaces == [CniIface("fcnet", "veth0", true)]
  {
  }

  /** The root drive names the image the start-up builds. */
  lemma RootDriveIsBuiltImage()
    ensures Locate(RootDriveImage) == Locate(SquashImage)
    ensures Locate(SquashImage) == PathKey(false, [RootDriveImage])
  {
    assert '/' !in RootDriveImage;
    assert SquashImage == "./" + RootDriveImage;
    LocateDotSlash(RootDriveImage);
  }

  /** The kernel starts init from where the overlay files put the init
      script: sbin/overlay-init below the root of the image. */
  lemma KernelInitIsOverlayInit()
    ensures KernelFields[|KernelFields| - 1] == "init=" + InitPath
    ensures Locate(InitPath) == Overlay.InitAt(PathKey(true, []))
  {
    var dir, name := "sbin", "overlay-init";
    assert Plain(dir) && Plain(name);
    assert InitPath == "/" + dir + "/" + name;
    LocateRootChild(dir, name);
  }

  /** The device a drive attaches as: Firecracker attaches the drives in
      order as virtio block devices, the first /dev/vda, the next
      /dev/vdb, and so on. */
  function DeviceName(i: nat): (s: string)
    requires i < 26
    ensures |s| == 8 && s[..7] == "/dev/vd"
    ensures 'a' <= s[7] <= 'z'
    ensures s[7] as int == 'a' as int + i
  {
    "/dev/vd" + [('a' as int + i) as char]
  }

  lemma DeviceNameInjective(i: nat, j: nat)
    requires i < 26 && j < 26
    ensures DeviceName(i) == DeviceName(j) <==> i == j
  {
    if DeviceName(i) == DeviceName(j) {
      assert DeviceName(i)[7] == DeviceName(j)[7];
    }
  }

  /** The device the kernel is told holds the SSH key is exactly the one
      the key drive attaches as: among the drives, the non-root one that
      carries the key image. */
  lemma KeyDiskDevice(keyImage: string)
    ensures forall i :: 0 <= i < |Drives(keyImage)| ==>
      (KernelFields[5] == "ssh_disk=" + DeviceName(i) <==>
         Drives(keyImage)[i].pathOnHost == keyImage && !Drives(keyImage)[i].isRoot)
  {
    assert KernelFields[5] == "ssh_disk=" + DeviceName(1);
    forall i | 0 <= i < |Drives(keyImage)|
      ensures KernelFields[5] == "ssh_disk=" + DeviceName(i) <==> i == 1
    {
      DeviceNameInjective(i, 1);
      if KernelFields[5] == "ssh_disk=" + DeviceName(i) {
        assert DeviceName(i) == KernelFields[5][9..] == DeviceName(1);
      }
    }
  }

  /** The address is the CNI record's bytes when it can be read, and empty
      otherwise. */
  lemma VmAddress(d: Disk, socketDir: string, keyImage: string, roll: nat, lastIp: Result<seq<byte>>)
    requires MakeVM(d, socketDir, keyImage, roll, lastIp).result.Ok?
    ensures var ip := MakeVM(d, socketDir, keyImage, roll, lastIp).result.value.ip;
      && (lastIp.Ok? ==> Ascii(ip) == lastIp.value)
      && (lastIp.Err? ==> ip == "")
  {
    if lastIp.Ok? {
      AsciiChars(lastIp.value);
    }
  }

  // ---------------------------------------------------------------------
  // main: start-up and the create-VM request
  // ---------------------------------------------------------------------

  /** The start-up's effect: whether it built the image, and whether it
      exited because the build failed. */
  datatype Boot = Boot(disk: Disk, built: bool, exited: bool)

  /** `main` up to serving: build the shared image only when a stat says it
      does not exist, exit if that fails, then make the socket directory
      (errors dropped). `build` is the build routine; the start-up passes
      main.go's own builder, `StartupBuild`. */
  function Bootstrap(d: Disk, build: Disk -> Changed): (b: Boot)
    ensures b.built <==> Walk(d, Locate(SquashImage)) == Missing
    ensures b.exited ==> b.built
    ensures !b.built ==> b.disk == MkdirAll(d, Locate(SocketDir)).disk
    ensures b.built && !b.exited ==> b.disk == MkdirAll(build(d).disk, Locate(SocketDir)).disk
  {
    var st := Stat(d, Locate(SquashImage));
    if st.Err? && IsNotExist(st.error) then
      var c := build(d);
      if c.out.Fail? then Boot(c.disk, true, true)
      else Boot(MkdirAll(c.disk, Locate(SocketDir)).disk, true, false)
    else Boot(MkdirAll(d, Locate(SocketDir)).disk, false, false)
  }

  /** The base image and init script the start-up builds from. */
  const BaseImage: string := "./bionic.rootfs.base.ext4"
  const InitScript: string := "./overlay-init"

  /** main.go's `buildSquashFSImage` as the start-up calls it: the disk it
      leaves and whether it failed. */
  function BuildStartup(d: Disk, tools: Image.Tools, draw: nat): (c: Changed)
    ensures c.out.Fail? <==> Image.BuildStartupImage(d, tools, BaseImage, InitScript, SquashImage, draw).result.Err?
  {
    var r := Image.BuildStartupImage(d, tools, BaseImage, InitScript, SquashImage, draw);
    Changed(r.disk, if r.result.Ok? then Pass else Fail(r.result.error))
  }

  /** The same, as the build routine `Bootstrap` is given. */
  function StartupBuild(tools: Image.Tools, draw: nat): Disk -> Changed
  {
    d => BuildStartup(d, tools, draw)
  }

  /** With main.go's builder, the start-up exits exactly when the image is
      missing and mounting the base image, copying the init script or
      mksquashfs fails. */
  lemma BootBuildsStartupImage(d: Disk, tools: Image.Tools, draw: nat)
    ensures var m := Image.MountImageToRandomDir(d, tools, BaseImage, draw);
      var prepared := Image.StartupPrepared(m, InitScript);
      Bootstrap(d, StartupBuild(tools, draw)).exited <==>
        && Walk(d, Locate(SquashImage)) == Missing
        && !(&& m.out.Pass?
             && prepared.out.Pass?
             && Image.Squashfs(prepared.disk, tools, Image.TempKey(draw), Locate(SquashImage)).out.Pass?)
  {
    BootExits(d, StartupBuild(tools, draw));
    RootDriveIsBuiltImage();
    Image.StartupBuilt(d, tools, BaseImage, InitScript, SquashImage, draw);
  }

  /** The start-up exits exactly when it builds and the build fails; a
      present image, or a stat error other than not-exist, skips the build
      (where `MakeRootFS` would fail instead). */
  lemma BootExits(d: Disk, build: Disk -> Changed)
    ensures Bootstrap(d, build).exited <==> Walk(d, Locate(SquashImage)) == Missing && build(d).out.Fail?
  {
  }

  /** Once the socket directory can be made, it exists after the start-up. */
  lemma BootSocketDir(d: Disk, build: Disk -> Changed)
    requires !Bootstrap(d, build).exited
    requires var pre := if Bootstrap(d, build).built then build(d).disk else d;
      MkdirAll(pre, Locate(SocketDir)).out.Pass?
    ensures Walk(Bootstrap(d, build).disk, Locate(SocketDir)) == Found(Dir)
  {
    var pre := if Bootstrap(d, build).built then build(d).disk else d;
    MkdirAllSpec(pre, Locate(SocketDir));
  }

  /** The POST /vm handler: make (or find) the key image, panicking on an
      error, then make the VM with it. The panic ends the request only, so
      the next request sees what the failed build left. */
  function HandleCreateVM(d: Disk, tools: Image.Tools, key: seq<byte>, draw: nat, roll: nat, lastIp: Result<seq<byte>>): (r: Run)
    ensures r.result.Ok? ==> r.result.value.config.drives == Drives(Naming.KeyImagePath(tools.md5(key)))
  {
    var img := Image.MakeSSHDiskImage(d, tools, key, draw);
    if img.result.Err? then Run(img.disk, Err(img.result.error))
    else MakeVM(img.disk, SocketDir, img.result.value, roll, lastIp)
  }

  /** Log files do not disturb the key images: they live in logs/. */
  lemma MakeVMKeepsKeyImage(d: Disk, socketDir: string, keyImage: string, roll: nat, lastIp: Result<seq<byte>>, digest: seq<byte>)
    requires Walk(d, Locate(Naming.KeyImagePath(digest))).Found?
    ensures Walk(MakeVM(d, socketDir, keyImage, roll, lastIp).disk, Locate(Naming.KeyImagePath(digest)))
         == Walk(d, Locate(Naming.KeyImagePath(digest)))
  {
    var id := VmId(roll);
    var k := Locate(Naming.KeyImagePath(digest));
    Naming.KeyImageKey(digest);
    LogKeys(id);
    var ok := Locate(OutLog(id));
    var ek := Locate(ErrLog(id));
    assert !Below(k, ok) && !Below(k, ek) by {
      assert k.segs[0] == "ssh_keys" && ok.segs[0] == "logs" && ek.segs[0] == "logs";
    }
    var out := Create(d, ok);
    if out.out.Pass? {
      WalkPutFrame(d, ok, File([]), k);
    }
    if Create(out.disk, ek).out.Pass? {
      WalkPutFrame(out.disk, ek, File([]), k);
    }
  }

  /** A VM that starts gets the key image of its key as its second drive,
      and that image is on disk, unless a stat error other than not-exist
      made the builder take a path that names no file. */
  lemma HandlerAttachesKey(d: Disk, tools: Image.Tools, key: seq<byte>, draw: nat, roll: nat, lastIp: Result<seq<byte>>)
    requires Walk(d, Locate(Naming.KeyImagePath(tools.md5(key)))) != FileOnPath
    requires HandleCreateVM(d, tools, key, draw, roll, lastIp).result.Ok?
    ensures var r := HandleCreateVM(d, tools, key, draw, roll, lastIp);
      && r.result.value.config.drives[1].pathOnHost == Naming.KeyImagePath(tools.md5(key))
      && Walk(r.disk, Locate(Naming.KeyImagePath(tools.md5(key)))).Found?
  {
    var img := Image.MakeSSHDiskImage(d, tools, key, draw);
    if img.ran != 0 {
      Image.KeyImageKept(d, tools, key, draw);
    }
    MakeVMKeepsKeyImage(img.disk, SocketDir, img.result.value, roll, lastIp, tools.md5(key));
  }

  /** A request whose `mkfs.ext4` fails panics, but the zero-filled image
      stays, and the next request for the same key takes it as built: it
      makes the VM at once, handing it the unformatted image as its key
      drive. */
  lemma HandlerReusesUnformattedImage(d: Disk, tools: Image.Tools, key: seq<byte>, draw: nat, draw': nat,
                                      roll: nat, roll': nat, lastIp: Result<seq<byte>>)
    requires Walk(d, PathKey(false, [Naming.KeyDir])) == Found(Dir)
    requires PathKey(false, [Naming.KeyDir, Naming.KeyImageName(tools.md5(key))]) !in d.entries
    requires PathKey(false, [Naming.KeyDir, Naming.KeyImageName(tools.md5(key))]) !in d.faulty
    requires tools.mkfs(Image.Zeros(Image.KeyImageSize)).Err?
    ensures var first := HandleCreateVM(d, tools, key, draw, roll, lastIp);
      var path := Naming.KeyImagePath(tools.md5(key));
      var second := HandleCreateVM(first.disk, tools, key, draw', roll', lastIp);
      && first.result == Err(tools.mkfs(Image.Zeros(Image.KeyImageSize)).error)
      && second == MakeVM(first.disk, SocketDir, path, roll', lastIp)
      && Walk(second.disk, Locate(path)) == Found(File(Image.Zeros(Image.KeyImageSize)))
      && (second.result.Ok? ==> second.result.value.config.drives[1].pathOnHost == path)
  {
    var path := Naming.KeyImagePath(tools.md5(key));
    Image.KeyImageFormatFailure(d, tools, key, draw, draw');
    Naming.KeyImageKey(tools.md5(key));
    var first := Image.MakeSSHDiskImage(d, tools, key, draw);
    MakeVMKeepsKeyImage(first.disk, SocketDir, path, roll', lastIp, tools.md5(key));
  }
}
