# firecracker-cp: a Dafny model of the control plane's decision and naming core

firecracker-cp is a small control plane for Firecracker microVMs, written in Go.

At start-up it builds a shared read-only squashfs root image with main.go's own `buildSquashFSImage`. That builder mounts an ext4 base image, makes the overlay directories and copies in an overlay init script; it writes no `/etc/resolv.conf`. It also makes a directory for the VMs' API sockets.

It then serves `POST /vm`. For each request it builds (or reuses) a small ext4 disk that holds the caller's SSH public key, named after the key's MD5 digest. It then boots a microVM from the shared image plus that disk.

The `image` package has its own `BuildSquashFSImage`, which also writes `/etc/resolv.conf`. It can also build a root image from a container image reference. That image is cached as a squashfs blob named after the reference.

`networking.go` prepares a Linux bridge with an address from an IPAM prefix. It also reads an interface's first IPv4 address.

This project models those decisions over an abstract filesystem:

- which artifact is looked for where;
- when a cached artifact is reused, when it is built, and what a failure at each step leaves on disk;
- what a VM is configured with;
- how addresses are chosen and converted.

It then proves properties of the model.

Modules, in dependency order:

| module | models |
|---|---|
| `Base` | bytes, `Option`/`Result`/`Outcome`, the error values, `errors.Is(err, fs.ErrNotExist)` |
| `Text` | splitting and joining on a separator, `strings.ReplaceAll` on one character |
| `GoPath` | Go's `path.Clean` and `path.Join`, and the cleaned location (`PathKey`) a path names |
| `Hex`, `Decimal` | `hex.EncodeToString` and `strconv.Itoa`, each with its inverse |
| `Fs` | a disk as a map from cleaned paths to files and directories; `os.Stat`, `Create`, `Write`, `WriteFile`, `ReadFile`, `Mkdir`, `MkdirAll`, `RemoveAll`; mounting as grafting a tree |
| `Overlay` | `addRequiredFiles`: the overlay directories, `sbin/overlay-init` and `etc/resolv.conf` |
| `Naming` | the blob name of a container image reference and the key-image name of an SSH key |
| `Image` | `mountImageToRandomDir`, `BuildSquashFSImage`, `MakeRootFS`, `MakeSSHDiskImage`, and main.go's start-up `buildSquashFSImage` |
| `Networking` | `net.IP.To4`/`To16`, dotted-quad `net.ParseIP`, `getInterfaceIpv4Addr`, `claimNextIp`, `newNetwork`, `getBridgeIpV4Addr` |
| `Vm` | `makeVM`'s configuration, `main`'s start-up and the `POST /vm` handler |

External programs and libraries (`mksquashfs`, `mkfs.ext4`, the loopback mount, the container-image puller, MD5) are oracles. They are passed in as function fields of `Image.Tools`.

Nondeterminism is passed in as numbers:

- `draw` names the `os.MkdirTemp` directory `/tmp/<draw>`;
- `roll` is the `rand.Intn` draw;
- `acquired` is the IPAM's answer;
- `lastIp` is the CNI plugin's reservation file.

## Model

| member | source | states |
|---|---|---|
| Naming.BlobName | image/image.go:191-192 | every ':' and '/' of the image reference becomes '-', every other character is kept, the length is kept, and the result contains neither ':' nor '/' |
| Naming.BlobNameIdempotent | image/image.go:191-192 | normalising an already normalised name changes nothing |
| Naming.BlobNameCollision | image/image.go:191-194 | "x:y", "x/y" and "x-y" share one blob name, so distinct references can share a cached blob |
| Naming.BlobNamePlain | image/image.go:191-194 | the blob name is a single path element exactly when the reference is not "", "." or ".." |
| Naming.BlobPathPlain | image/image.go:194 | for such a name, `path.Join("blobs", name)` is "blobs/" + name, the file of that name in blobs/ |
| Naming.BlobPathDegenerate | image/image.go:194 | an empty or "." name makes the blob path blobs/ itself, and ".." makes it "." |
| Naming.BlobPathInjective | image/image.go:194 | distinct plain blob names give distinct blob paths |
| Naming.KeyImagePath | image/image.go:142-144 | the key image path is "ssh_keys/", then lowercase hex of the digest, then ".img" |
| Naming.KeyImageDigest | image/image.go:142-144 | the hex between "ssh_keys/" and ".img" decodes back to the digest |
| Naming.KeyImagePathInjective | image/image.go:142-144 | distinct digests name distinct key images |
| Naming.KeyImagePathLength | image/image.go:142-144 | an MD5 digest names a path 45 characters long |
| Naming.KeyImageKey | image/image.go:144 | the key image is a single file directly inside ssh_keys/ |
| Hex.Encode | image/image.go:143 | the hex text is twice as long as the bytes and uses only lowercase hex digits |
| Hex.DecodeEncode | image/image.go:143 | decoding the hex text gives back the bytes |
| Hex.EncodeInjective | image/image.go:143 | distinct byte strings have distinct hex texts |
| Decimal.Itoa | main.go:274 | the decimal text is non-empty, all digits, and has no leading zero |
| Decimal.AtoiItoa | main.go:274 | reading the decimal text back gives the number |
| Decimal.ItoaAtoi | main.go:274 | every canonical digit string is the text of the number it denotes |
| Decimal.ItoaLength | main.go:274 | a number below 10^k has at most k digits |
| Text.SplitGlue | main.go:291 | joining fields that contain no separator and splitting again gives the fields back |
| Text.GlueSplit | main.go:291 | splitting a string and joining the pieces gives the string back |
| GoPath.Locate | image/image.go:194 | a path names a canonical location, which is rooted exactly when the path starts with '/' |
| GoPath.LocateRender | image/image.go:194 | rendering a canonical location and resolving it again gives the same location |
| GoPath.LocateClean | image/image.go:194 | `path.Clean` does not change the location a path names |
| GoPath.CleanIdempotent | image/image.go:194 | cleaning a cleaned path changes nothing |
| GoPath.JoinPlain | image/image.go:194 | joining a directory and a plain name names that name inside the directory, written as Go's `path.Join` writes it |
| GoPath.LocateJoin | image/image.go:108-110 | joining plain names onto a base names the base extended by those names |
| Fs.Stat | image/image.go:196-200 | stat succeeds exactly when the path resolves, and its error is "not exist" exactly when a component is missing (not when a file stands on the path) |
| Fs.CreateSpec | image/image.go:114-117 | `os.Create` succeeds exactly when the parent is a directory and the path is not a directory, and leaves an empty file |
| Fs.WriteFileSpec | image/image.go:132-135 | `os.WriteFile` succeeds exactly when create and write succeed and leaves the data; a failed write leaves the bytes written before the error, and a failed create changes nothing |
| Fs.ReadDir | main.go:84-88 | `os.ReadDir` succeeds exactly when the path is a directory, and its error is "not exist" exactly when a component is missing |
| Fs.MkdirAllSpec | image/image.go:108-110 | a successful `MkdirAll` leaves a directory at the path |
| Fs.MkdirAll | image/image.go:108-110 | `MkdirAll` keeps every existing entry and adds only directories on the way to the path |
| Fs.MkdirAllPasses | image/image.go:108-110 | below an existing directory whose entries on the way are all directories, `MkdirAll` succeeds |
| Fs.RemoveAll | image/image.go:86 | `os.RemoveAll` removes exactly the entries at or below the path and keeps the rest unchanged |
| Fs.WalkRemoveAllSelf | image/image.go:86 | after `RemoveAll` the path no longer exists |
| Fs.Graft | image/image.go:76-80 | mounting puts a directory at the mount point, holding the tree, and changes nothing outside it |
| Fs.WalkPutFrame | image/image.go:175-185 | writing one path leaves every path not below it resolving as before |
| Fs.PutTwice | image/image.go:182-185 | writing a path twice leaves only the second contents |
| Overlay.AddFilesPass | image/image.go:107-138 | `addRequiredFiles` succeeds exactly when the init script is readable and `sbin/overlay-init` and `etc/resolv.conf` can be created and written under the mount point |
| Overlay.AddedFiles | image/image.go:114-135 | on success `sbin/overlay-init` holds the script's bytes and `etc/resolv.conf` holds "nameserver 8.8.8.8" and a newline |
| Overlay.AddFilesCreateFailure | image/image.go:114-117 | when creating the init file fails, neither file is touched |
| Overlay.AddFilesCopyFailure | image/image.go:121-129 | when reading the script fails the init file is left empty, when writing it fails the init file holds the bytes of the script written before the error, and resolv.conf is not touched |
| Overlay.AddFilesResolvFailure | image/image.go:132-135 | when writing resolv.conf fails, the init file is complete; resolv.conf is unchanged if it could not be created, and otherwise holds the bytes of the nameserver line written before the error |
| Overlay.OverlayDirsMade | image/image.go:108-113 | when everything in the mount point's overlay directories is a directory, overlay/work, overlay/root, mnt and rom are directories afterwards |
| Overlay.ZoneFileKept | image/image.go:107-138 | a file already standing where an overlay directory goes is still there, unchanged, after `addRequiredFiles` |
| Overlay.MkdirErrorDropped | image/image.go:108-113 | a file standing where `mnt` should be makes `MkdirAll` fail, yet the error is dropped: the file stays and success is decided as before |
| Overlay.ZoneUntouched | image/image.go:114-135 | writing the two files changes nothing inside the overlay directories |
| Overlay.MakeDirsAside | image/image.go:108-113 | making the overlay directories changes nothing outside them |
| Image.MountImageToRandomDir | image/image.go:59-90 | on failure the mount point is "" and there is nothing to clean up; on success the mount point is "/tmp/<draw>" and cleanup unmounts that directory |
| Image.MountKeepsTempDir | image/image.go:60-80 | once the temporary directory is made it stays, even when opening or mounting fails; if it cannot be made nothing changes |
| Image.MountFrame | image/image.go:59-90 | mounting changes no relative path (no blob, key image or log) |
| Image.RunCleanup | image/image.go:82-87 | cleanup leaves nothing at or below the temporary directory |
| Image.BuildSquashFSImage | image/image.go:34-56 | it succeeds exactly when the mount, adding the files and mksquashfs all do, returns the output path, and leaves nothing in the temporary directory once the mount succeeded |
| Image.SquashBuiltWhenReady | image/image.go:34-56 | the build succeeds exactly when the mount passes, the mounted tree is ready for the init script and resolv.conf (the script readable, both files creatable and writable), and mksquashfs passes |
| Image.SquashFirstFailure | image/image.go:34-56 | the steps run in order and the first failure ends the build: it stops after step 1 exactly when the mount fails, returning that error and leaving the disk as it was or with only the temporary directory added; after step 2 exactly when adding the files fails, returning that error; otherwise the squash decides the result |
| Image.SquashOutput | image/image.go:47-51 | after a successful build the output path outside the temporary directory holds a file |
| Image.SquashfsSpec | image/image.go:239-243 | mksquashfs succeeds exactly when the tool does and the output can be created and written, and then the output holds the tool's image; a failure leaves the output as it was |
| Image.MakeRootFS | image/image.go:190-248 | a result is always the blob path; at most five steps run; a cache answer runs none and changes nothing; a built success runs all five; an error names the step that failed |
| Image.RootfsFirstFailure | image/image.go:196-243 | when the blob is missing, the build stops after step k exactly when steps 1 to k-1 pass and step k fails; a failed temporary directory changes nothing, a failed pull or extract leaves only the temporary directory, and a failure adding the files or squashing leaves what the preparation left |
| Image.RootfsCacheHit | image/image.go:196-197 | an existing blob is returned at once and nothing changes |
| Image.RootfsStatError | image/image.go:198-199 | a file standing on the blob's path is an "unable to stat" error, with no build |
| Image.RootfsBuildsWhenMissing | image/image.go:196-202 | a build starts exactly when the blob does not exist |
| Image.RootfsStepsRan | image/image.go:203-235 | a built success made the temporary directory, pulled, extracted and added the required files |
| Image.PreparedHoldsFiles | image/image.go:226-235 | the extracted tree holds the init script and resolv.conf before it is squashed |
| Image.RootfsBlobWritten | image/image.go:239-247 | after mksquashfs the blob path holds the squashfs of the extracted root filesystem |
| Image.RootfsIdempotent | image/image.go:190-248 | once a blob is built, the next call, with any tools, script or temporary name, is a cache hit that changes nothing |
| Image.RootfsKey | image/image.go:203-227 | the extracted root filesystem is "rootfs" inside the temporary directory, which is rooted |
| Image.StatErrorsDiffer | image/image.go:146-200 | a file on the path is an error for the blob but counts as "exists" for the key image |
| Image.MakeSSHDiskImage | image/image.go:141-188 | a result is always the digest's key-image path; no step runs exactly when the stat finds something other than not-exist, and then nothing changes; a built success runs all four steps |
| Image.BuildKeyImage | image/image.go:152-187 | between one and four steps run, and a success ran all four and returns the key-image path |
| Image.KeyFileWritten | image/image.go:174-185 | on success `root/.ssh/authorized_keys` in the mounted image holds exactly the key |
| Image.InstallKeyKeeps | image/image.go:168-187 | mounting, adding the key and cleaning up change no existing relative path |
| Image.KeyImageKept | image/image.go:156-187 | once the image file is created it stays on disk whatever fails later |
| Image.KeyImageCachePoisoned | image/image.go:146-187 | as written: after a failure past image creation, the next request finds the half-made image and returns it as ready, running no step |
| Image.KeyImageFormatFailure | image/image.go:146-165 | as written, concretely: with ssh_keys/ present and `mkfs.ext4` failing, the request fails after two steps leaving an all-zero image file, and the next request returns that file as the key image without building |
| Image.MakeSSHDiskImageFixed | image/image.go:141-188 | corrected: same contract as the original, but a failed build removes the image file it created |
| Image.KeyImageFailureRetried | image/image.go:146-187 | corrected: after any failure the key image does not exist, so the next request builds it again |
| Image.KeyImageFixedAgrees | image/image.go:141-188 | wherever the original succeeds, the corrected builder behaves identically |
| Image.KeyImageIdempotent | image/image.go:146-150 | after a successful `MakeSSHDiskImage`, the next call for the same key, with any temporary name, returns the key-image path at once, runs no step and changes nothing |
| Image.KeyImageFixedIdempotent | image/image.go:146-150 | the corrected builder has the same property: after a success, the next call for the same key returns the path at once and changes nothing |
| Networking.To4To16 | networking.go:135 | a 4-byte address widened to 16 bytes narrows back to itself |
| Networking.To16To4 | networking.go:135 | narrowing then widening gives the same 16-byte form as widening directly |
| Networking.To4Cases | networking.go:135 | `To4` succeeds exactly on 4-byte addresses and on 16-byte IPv4-mapped addresses |
| Networking.ParseDotted | networking.go:66 | parsing an IPv4 address's dotted-quad text gives its 16-byte form |
| Networking.DottedParse | networking.go:66 | every text that parses is the dotted quad of the parsed address |
| Networking.FirstIpv4Spec | networking.go:134-138 | the scan finds nothing exactly when no address has an IPv4 form; otherwise it returns the IPv4 form of the first such address |
| Networking.GetInterfaceIpv4Addr | networking.go:122-143 | a missing interface and an address-listing failure are distinct errors; otherwise it succeeds exactly when some address has an IPv4 form, returns the first one as 4 bytes, and otherwise reports "no IPv4 address" |
| Networking.ClaimNextIp | networking.go:58-74 | an IPAM failure is fatal; otherwise the network is always 172.16.0.0/24 |
| Networking.ClaimedAddress | networking.go:62-66 | the claimed address is the acquired IPv4 address in its 16-byte form |
| Networking.NewNetwork | networking.go:76-111 | every failure is fatal, and success is the bridge "firecracker-br" on prefix 172.16.0.0/24 |
| Networking.BridgeGetOrCreate | networking.go:80-90 | the bridge is created exactly when none of that name exists; afterwards it exists unless creating it failed |
| Networking.BridgeReused | networking.go:80-90 | a second start on the host the first one left creates no bridge |
| Networking.BridgeTakesFirstAddress | networking.go:93-108 | a successful start ends by making the prefix, acquiring one address (the only acquisition), giving the bridge that address on 172.16.0.0/24 and bringing the link up |
| Networking.LinkUpAfterLinkIp | networking.go:102-108 | the link is brought up only directly after its address is set |
| Networking.LinkIpErrorIgnored | networking.go:103 | the outcome of setting the bridge's address changes nothing |
| Networking.BridgeIpv4AddrNil | networking.go:113-120 | as written: when the bridge has no IPv4 address, the result is the nil address and the process goes on |
| Networking.BridgeIpv4Addr | networking.go:113-120 | corrected: a lookup failure is fatal, and a success is a 4-byte address |
| Networking.BridgeIpv4AddrAgrees | networking.go:113-143 | the corrected lookup succeeds exactly when the bridge exists and has an IPv4 address, and then agrees with the original |
| Vm.KernelArgs | main.go:291 | the kernel command line splits into exactly the seven boot parameters |
| Vm.KernelInitIsOverlayInit | main.go:291 | the kernel's init= is the file where the image builder put the overlay init |
| Vm.DeviceName | main.go:291-309 | the device of the drive at position i is "/dev/vd" followed by the letter i places after 'a' |
| Vm.DeviceNameInjective | main.go:291-309 | distinct drive positions have distinct device names |
| Vm.KeyDiskDevice | main.go:291-309 | the ssh_disk= kernel parameter names the device of drive i exactly when drive i is the non-root drive holding the key image |
| Vm.VmId | main.go:273-274 | the id is canonical decimal text of the draw modulo 10000000, at most seven digits |
| Vm.VmIdCollision | main.go:274 | two draws give the same VM id exactly when they leave the same remainder on division by 10000000 |
| Vm.SocketInDir | main.go:275-287 | the API socket is the file "<id>.sock" directly inside the socket directory |
| Vm.SocketsDistinct | main.go:274-287 | draws that differ modulo 10000000 give distinct sockets |
| Vm.LogKeys | main.go:280-281 | the logs are "logs/<id>-out.log" and "logs/<id>-err.log" |
| Vm.VmLogs | main.go:280-288 | without a logs/ directory the out-log is nil and reading its name panics; on success the log path is the out-log, and the out-log exists |
| Vm.Drives | main.go:292-310 | two drives, both read-only, and only the first is the root device |
| Vm.MakeVM | main.go:271-344 | it fails only by the nil out-log; otherwise the id comes from the draw and the drives are the shared image and the key image |
| Vm.BootConfig | main.go:286-328 | a VM boots vmlinux.bin at log level Info, with the seven kernel parameters, drives "rootfs" on squash-rootfs.img and "vol2" on the key image, 2 vCPUs, 1024 MiB, no SMT, no dirty-page tracking, and CNI network fcnet on veth0 with MMDS allowed |
| Vm.VmAddress | main.go:341-343 | the address returned is the reservation file's bytes, or "" when it cannot be read |
| Vm.RootDriveIsBuiltImage | main.go:222-295 | the root drive names the same file the start-up builds |
| Vm.Bootstrap | main.go:220-237 | the image is built exactly when the stat says it does not exist; exit only follows a build; without a build the only change is the socket directory |
| Vm.BootExits | main.go:223-233 | the start-up exits exactly when the image is missing and its build fails |
| Vm.BootSocketDir | main.go:236-237 | a start-up that goes on, with `MkdirAll` succeeding, leaves the socket directory in place |
| Vm.BootBuildsStartupImage | main.go:220-233 | with main.go's own builder, the start-up exits exactly when the image is missing and mounting the base image, copying the init script or mksquashfs fails |
| Image.BuildStartupImage | main.go:70-134 | main.go's builder runs at most four steps; a success ran all four and returns the output path; once the mount succeeded nothing is left in the temporary directory |
| Image.StartupBuilt | main.go:70-134 | for a relative output neither directory listing can fail, so the builder succeeds exactly when the mount, the copy of the init script and mksquashfs do |
| Image.StartupListsMount | main.go:84-88 | after a successful mount the mount point can be listed |
| Image.StartupListsSbin | main.go:95-126 | after the init script is copied, sbin/ can still be listed once a relative output is written |
| Image.StartupHoldsScript | main.go:77-110 | the tree main.go's builder squashes holds the init script's bytes at sbin/overlay-init, and etc/resolv.conf is whatever the base image had there |
| Image.SquashfsFrame | main.go:113-117 | mksquashfs changes nothing but its output |
| Overlay.CopyInitParent | main.go:95-110 | after a successful copy, the init file's directory is a directory |
| Overlay.CopyInitSbin | main.go:95-120 | after a successful copy below a mount directory, its sbin/ is a directory |
| Vm.HandleCreateVM | main.go:245-259 | a created VM's drives are the shared image and the key image named after the key's digest, which the as-written key-image builder made or found |
| Vm.MakeVMKeepsKeyImage | main.go:271-344 | making a VM leaves an existing key image exactly as it was |
| Vm.HandlerReusesUnformattedImage | main.go:245-259 | as written: when `mkfs.ext4` fails, the request fails with that error, and the next request for the same key boots a VM on the all-zero image it left, without building |
| Vm.HandlerAttachesKey | main.go:245-259 | when nothing blocks the key image's path, a created VM's second drive is that image and the file exists |

## Left out

- `createTAP` (networking.go:26-56): it consists entirely of netlink calls, with no decision to model.
- The kernel-side effects of `tenus` (creating a bridge, setting its address, bringing it up): their outcomes are parameters of `NetHost`, and the actions are recorded in order.
- The go-ipam library: `NewPrefix` and `AcquireIP` are parameters. Nothing is assumed about which address is handed out.
- `net.ParseCIDR` of the constant "172.16.0.0/24": its result is the constant `PrefixNet`. The IPv6 text forms of `net.ParseIP` are not modelled, because only IPv4 text reaches it.
- The `.(*net.IPNet)` type assertion in `getInterfaceIpv4Addr`: the model takes the addresses as IPs, so the panic on another address type is absent.
- The Firecracker SDK (`NewMachine`, `Start`): `makeVM` ignores its errors, so the model stops at the configuration.
- The HTTP layer: chi routing, JSON binding and rendering.
- Time-seeded randomness: the `rand.Intn` draw and the `MkdirTemp` name are parameters.
- Logging, and `printDir` (it only prints).
- `deleteDirContents`, deferred at shutdown: it runs only after the server stops.
- MD5 itself: it is an oracle giving 16 bytes.
- main.go's `mountImageToRandomDir` (main.go:137-169): it is the same as image/image.go's, so `Image.MountImageToRandomDir` models both.
- main.go's `makeSSHDiskImage` (main.go:171-218): it is the same as image/image.go's `MakeSSHDiskImage` apart from a comment, so `Vm.HandleCreateVM` calls `Image.MakeSSHDiskImage`, the as-written builder, not the corrected one.
- The directory listings' contents in main.go's builder: they are only printed, so only whether `os.ReadDir` fails is modelled.
- Image.MkdirTemp: `os.MkdirTemp` retries with a new random name, up to 10000 times, when the name it drew exists; the model takes `draw` as the name the call settles on, so a `draw` naming an existing entry fails with EEXIST where Go would draw again.
- Image.Squashfs: a failed mksquashfs over an output that already exists is modelled as leaving that output as it was, though mksquashfs may already have overwritten it. `MakeRootFS` and the start-up only squash to a missing output; `BuildSquashFSImage` (image/image.go:34-56) does not check, so for an existing output its failure disk is not promised by the source.
- Symbolic links: the disk holds only files and directories. Go's `os.Stat`, `os.Create`, `os.ReadFile`, `os.WriteFile` and `os.MkdirAll` follow links, and a base image or extracted root filesystem may contain some (`sbin -> usr/sbin`, or `etc/resolv.conf` as a link). Where `addRequiredFiles` and main.go's builder write, and whether they succeed, is stated for link-free trees only; `Overlay.AddFilesPass` is such a statement.
- Relative paths never alias absolute ones: the working directory is not placed in the rooted tree, so a relative name and the absolute name of the same file are different entries. `Image.MountFrame` relies on this.
- File modes and `os.Chmod`; file handles and `Close`.
- The contents of image files: an image's bytes do not reflect writes made into its mount.
- Concurrent requests: the model runs one at a time.
- The CNI reservation file: its read is the parameter `lastIp` of `Vm.MakeVM`, not a file on the modelled disk.
- Pull retries (`Retries: 3`): the puller's outcome is an oracle.
- The extracted root filesystem: `MakeRootFS` leaves its temporary directory behind (the `RemoveAll` is commented out); the model keeps it too.
- Vm.MakeVM: the standard error log is created but its failure is dropped, as in the source; only the out-log's failure is modelled as the panic in `stdout.Name()`.
- Image.MountImageToRandomDir: on an open or mount failure the temporary directory stays behind; the code never removes it.
- Overlay.OverlayDirsMade: the top-level `rom` directory is created, while the comment above `BuildSquashFSImage` (image/image.go:30) says `/mnt/rom`; the model follows the code.

## Findings

| source | as written | input that shows it | evidently intended | confidence | as-written member | corrected member |
|---|---|---|---|---|---|---|
| image/image.go:146-187 (also main.go:176-217) | the image file is created first, and a later failure (mkfs, mount, authorized_keys create or write) returns an error but leaves the file; the next request's stat then finds it and returns it as a finished key image | a key whose `mkfs.ext4` fails once: the second request returns "ssh_keys/<hex>.img" with no filesystem and no key in it | a failed build removes the image file, so the next request builds it again | not executed | Image.KeyImageFormatFailure, Vm.HandlerReusesUnformattedImage | Image.KeyImageFailureRetried |
| networking.go:113-120 | `log.Fatal().Err(err)` without `Msg`/`Send` never emits the event, so the process does not exit and the nil address is returned | a bridge with no IPv4 address: `getInterfaceIpv4Addr` fails and `getBridgeIpV4Addr` returns nil | a lookup failure ends the process | not executed | Networking.BridgeIpv4AddrNil | Networking.BridgeIpv4AddrAgrees |
