/** The names of the two cached artifacts: root-filesystem blobs, named
    after the container image reference, and SSH key disk images, named
    after the MD5 digest of the key. */
module Naming {
  import opened Base
  import opened Text
  import opened GoPath
  import Hex

  /** An MD5 digest: 16 bytes. */
  type Digest = s: seq<byte> | |s| == 16 witness [0, 0, 0, 0, 0, 0, 0, 0, 0, 0, 0, 0, 0, 0, 0, 0]

  /** The directory that holds the root-filesystem blobs. */
  const BlobDir: string := "blobs"

  /** The directory that holds the SSH key images. */
  const KeyDir: string := "ssh_keys"

  /** The file name a container image reference is cached under: every ':'
      and every '/' becomes '-', and every other character stays in place. */
  function BlobName(image: string): (r: string)
    ensures |r| == |image|
    ensures forall i :: 0 <= i < |image| ==>
      r[i] == if image[i] == ':' || image[i] == '/' then '-' else image[i]
    ensures ':' !in r && '/' !in r
  {
    Replace(Replace(image, ':', '-'), '/', '-')
  }

  /** `path.Join("blobs", BlobName(image))`: where the blob is looked for
      and where `mksquashfs` writes it. */
  function BlobPath(image: string): string
  {
    Join(BlobDir, BlobName(image))
  }

  /** `fmt.Sprintf("ssh_keys/%s.img", hex.EncodeToString(digest))`. */
  function KeyImagePath(digest: seq<byte>): (p: string)
    ensures |p| == |KeyDir| + 1 + 2 * |digest| + 4
    ensures p[..|KeyDir| + 1] == KeyDir + "/"
    ensures p[|p| - 4..] == ".img"
    ensures forall i :: |KeyDir| + 1 <= i < |p| - 4 ==> p[i] in Hex.Alphabet
  {
    KeyDir + "/" + KeyImageName(digest)
  }

  /** The file name of a key image: the digest in lowercase hex, then ".img". */
  function KeyImageName(digest: seq<byte>): (n: string)
  {
    Hex.Encode(digest) + ".img"
  }

  // ---------------------------------------------------------------------
  // Blob names
  // ---------------------------------------------------------------------

  /** Normalising twice changes nothing more. */
  lemma BlobNameIdempotent(image: string)
    ensures BlobName(BlobName(image)) == BlobName(image)
  {
    var once := BlobName(image);
    assert forall i :: 0 <= i < |once| ==> BlobName(once)[i] == once[i];
  }

  /** Normalisation is not injective: ':', '/' and '-' are confused, so
      "ubuntu:22.04", "ubuntu/22.04" and "ubuntu-22.04" share one blob. */
  lemma BlobNameCollision(x: string, y: string)
    ensures BlobName(x + ":" + y) == BlobName(x + "/" + y) == BlobName(x + "-" + y)
  {
    var a, b, c := x + ":" + y, x + "/" + y, x + "-" + y;
    assert forall i :: 0 <= i < |a| ==> BlobName(a)[i] == BlobName(b)[i] == BlobName(c)[i] by {
      forall i | 0 <= i < |a| ensures BlobName(a)[i] == BlobName(b)[i] == BlobName(c)[i] {
        if i < |x| {
          assert a[i] == b[i] == c[i] == x[i];
        } else if i > |x| {
          assert a[i] == b[i] == c[i] == y[i - |x| - 1];
        }
      }
    }
  }

  /** The blob name names a single file exactly when the reference is not
      empty, "." or "..". */
  lemma BlobNamePlain(image: string)
    ensures Plain(BlobName(image)) <==> image != "" && image != "." && image != ".."
  {
    var r := BlobName(image);
    if r == "." {
      assert image[0] == '.';
      assert image == ".";
    }
    if r == ".." {
      assert image[0] == '.' && image[1] == '.';
      assert image == "..";
    }
  }

  /** For a plain name, `path.Join("blobs", name)` is the file of that name
      in blobs/. */
  lemma BlobPathPlain(image: string)
    requires Plain(BlobName(image))
    ensures BlobPath(image) == "blobs/" + BlobName(image)
    ensures Locate(BlobPath(image)) == PathKey(false, [BlobDir, BlobName(image)])
  {
    assert Plain(BlobDir);
    JoinPlainNames(BlobDir, BlobName(image));
  }

  /** For the other names: an empty name or "." gives blobs/ itself, and ".."
      the working directory. */
  lemma BlobPathDegenerate(image: string)
    ensures BlobName(image) == "" || BlobName(image) == "." ==> BlobPath(image) == BlobDir
    ensures BlobName(image) == ".." ==> BlobPath(image) == "."
  {
    var name := BlobName(image);
    LocatePlainName(BlobDir);
    if name == "" {
      assert NonEmpty([BlobDir, name]) == [BlobDir];
    } else if name == "." || name == ".." {
      DotJoin(name);
    }
  }

  /** `path.Join("blobs", name)` for `name` "." or "..". */
  lemma DotJoin(name: string)
    requires name == "." || name == ".."
    ensures Join(BlobDir, name) == if name == "." then BlobDir else "."
  {
    assert [BlobDir, name][1..] == [name] && [name][1..] == [];
    assert NonEmpty([name]) == [name] + NonEmpty([]);
    assert NonEmpty([BlobDir, name]) == [BlobDir, name];
    var g := Glue([BlobDir, name], '/');
    assert Glue([name], '/') == name;
    assert g == BlobDir + ['/'] + Glue([name], '/');
    SplitAppend(BlobDir, name, '/');
    SplitNoSep(name, '/');
    SplitNoSep(BlobDir, '/');
    assert Split(g, '/') == [BlobDir, name];
    assert Resolve([BlobDir], false) == [BlobDir];
    assert [BlobDir, name][..1] == [BlobDir];
    assert Glue([BlobDir], '/') == BlobDir;
  }

  /** Distinct plain blob names give distinct blob paths. */
  lemma BlobPathInjective(a: string, b: string)
    requires Plain(BlobName(a)) && Plain(BlobName(b))
    requires BlobPath(a) == BlobPath(b)
    ensures BlobName(a) == BlobName(b)
  {
    BlobPathPlain(a);
    BlobPathPlain(b);
    assert BlobName(a) == BlobPath(a)[6..];
    assert BlobName(b) == BlobPath(b)[6..];
  }

  // ---------------------------------------------------------------------
  // Key image names
  // ---------------------------------------------------------------------

  lemma SlashNotHex()
    ensures '/' !in Hex.Alphabet
  {
  }

  /** The hex digits between "ssh_keys/" and ".img" decode to the digest. */
  lemma KeyImageDigest(digest: seq<byte>)
    ensures var p := KeyImagePath(digest);
      Hex.Decode(p[|KeyDir| + 1..|p| - 4]) == Some(digest)
  {
    var p := KeyImagePath(digest);
    assert p[|KeyDir| + 1..|p| - 4] == Hex.Encode(digest);
    Hex.DecodeEncode(digest);
  }

  /** Distinct digests give distinct key images, and equal keys equal ones. */
  lemma KeyImagePathInjective(a: seq<byte>, b: seq<byte>)
    requires KeyImagePath(a) == KeyImagePath(b)
    ensures a == b
  {
    var ea, eb := Hex.Encode(a), Hex.Encode(b);
    var pa, pb := KeyImagePath(a), KeyImagePath(b);
    assert pa == KeyDir + "/" + ea + ".img";
    assert pb == KeyDir + "/" + eb + ".img";
    assert ea == pa[|KeyDir| + 1..|pa| - 4];
    assert eb == pb[|KeyDir| + 1..|pb| - 4];
    Hex.EncodeInjective(a, b);
  }

  /** A digest names a file 45 characters long. */
  lemma KeyImagePathLength(digest: Digest)
    ensures |KeyImagePath(digest)| == 45
  {
  }

  /** The key image is the file `KeyImageName(digest)` in ssh_keys/. */
  lemma KeyImageKey(digest: seq<byte>)
    ensures Plain(KeyImageName(digest))
    ensures Locate(KeyImagePath(digest)) == PathKey(false, [KeyDir, KeyImageName(digest)])
  {
    var name := KeyImageName(digest);
    SlashNotHex();
    assert '/' !in name by {
      assert forall i :: 0 <= i < |Hex.Encode(digest)| ==> name[i] == Hex.Encode(digest)[i];
      assert name[|name| - 4..] == ".img";
    }
    LocatePlainName(KeyDir);
    assert KeyImagePath(digest) == KeyDir + "/" + name;
    LocateChild(KeyDir, name);
  }
}
