/** The network side of the control plane: Go's IPv4 address forms, the
    first-IPv4 scan over an interface's addresses, and the bridge set-up
    that claims the first address of the pool for the bridge itself. */
module Networking {
  import opened Base
  import opened Text
  import Decimal

  /** A `net.IP`: 4 bytes, 16 bytes, or anything else (nil is empty). */
  type IP = seq<byte>

  /** An IPv4 address as the address pool hands it out. */
  type V4 = s: seq<byte> | |s| == 4 witness [0, 0, 0, 0]

  /** The first twelve bytes of an IPv4-mapped IPv6 address (::ffff:0:0/96,
      section 2.5.5.2 of RFC 4291). */
  const V4InV6Prefix: seq<byte> := [0, 0, 0, 0, 0, 0, 0, 0, 0, 0, 255, 255]

  /** `net.IP.To4`: a 4-byte address as is, the last four bytes of an
      IPv4-mapped 16-byte address, and nil for anything else. */
  function To4(ip: IP): (r: Option<IP>)
    ensures r.Some? ==> |r.value| == 4
  {
    if |ip| == 4 then Some(ip)
    else if |ip| == 16 && ip[..12] == V4InV6Prefix then Some(ip[12..])
    else None
  }

  /** `net.IP.To16`: a 4-byte address in its mapped form, a 16-byte address
      as is, and nil for anything else. */
  function To16(ip: IP): (r: Option<IP>)
    ensures r.Some? ==> |r.value| == 16
  {
    if |ip| == 4 then Some(V4InV6Prefix + ip)
    else if |ip| == 16 then Some(ip)
    else None
  }

  // ---------------------------------------------------------------------
  // The two forms of an IPv4 address
  // ---------------------------------------------------------------------

  /** A 4-byte address survives the trip through its 16-byte form. */
  lemma To4To16(ip: IP)
    requires |ip| == 4
    ensures To16(ip).Some? && To4(To16(ip).value) == Some(ip)
  {
    var wide := V4InV6Prefix + ip;
    assert wide[..12] == V4InV6Prefix && wide[12..] == ip;
  }

  /** An address with an IPv4 form has the same 16-byte form as that IPv4
      form: `To4` loses nothing. */
  lemma To16To4(ip: IP)
    requires To4(ip).Some?
    ensures To16(To4(ip).value) == To16(ip)
  {
    if |ip| == 16 {
      assert V4InV6Prefix + ip[12..] == ip[..12] + ip[12..] == ip;
    }
  }

  /** An address has an IPv4 form exactly when it is 4 bytes long or the
      mapped form of some 4 bytes. */
  lemma To4Cases(ip: IP)
    ensures To4(ip).Some? <==> |ip| == 4 || exists v: seq<byte> :: |v| == 4 && ip == V4InV6Prefix + v
  {
    if |ip| == 16 && ip[..12] == V4InV6Prefix {
      assert ip == V4InV6Prefix + ip[12..];
    }
    if exists v: seq<byte> :: |v| == 4 && ip == V4InV6Prefix + v {
      var v: seq<byte> :| |v| == 4 && ip == V4InV6Prefix + v;
      assert ip[..12] == V4InV6Prefix;
    }
  }

  // ---------------------------------------------------------------------
  // Dotted-quad text
  // ---------------------------------------------------------------------

  /** The dotted-quad text the address pool prints for an IPv4 address. */
  function Dotted(v: V4): (s: string)
  {
    Glue([Decimal.Itoa(v[0]), Decimal.Itoa(v[1]), Decimal.Itoa(v[2]), Decimal.Itoa(v[3])], '.')
  }

  /** One field of dotted-quad text: digits, no leading zero, at most 255. */
  predicate Octet(f: string)
  {
    Decimal.Canonical(f) && Decimal.Atoi(f) <= 255
  }

  /** `net.ParseIP` on text in dotted-quad form: four octets give the
      16-byte mapped form, anything else nil. */
  function ParseIPv4(s: string): (r: Option<IP>)
    ensures r.Some? ==> |r.value| == 16
  {
    var f := Split(s, '.');
    if |f| == 4 && Octet(f[0]) && Octet(f[1]) && Octet(f[2]) && Octet(f[3]) then
      Some(V4InV6Prefix + [Decimal.Atoi(f[0]) as byte, Decimal.Atoi(f[1]) as byte,
                           Decimal.Atoi(f[2]) as byte, Decimal.Atoi(f[3]) as byte])
    else None
  }

  /** A rendered octet is a valid field holding its value. */
  lemma OctetItoa(b: byte)
    ensures Octet(Decimal.Itoa(b)) && Decimal.Atoi(Decimal.Itoa(b)) == b
    ensures '.' !in Decimal.Itoa(b)
  {
    Decimal.AtoiItoa(b);
    var s := Decimal.Itoa(b);
    assert forall i :: 0 <= i < |s| ==> s[i] != '.';
  }

  /** Parsing the printed address gives its 16-byte form. */
  lemma ParseDotted(v: V4)
    ensures ParseIPv4(Dotted(v)) == To16(v)
  {
    var fields := [Decimal.Itoa(v[0]), Decimal.Itoa(v[1]), Decimal.Itoa(v[2]), Decimal.Itoa(v[3])];
    OctetItoa(v[0]);
    OctetItoa(v[1]);
    OctetItoa(v[2]);
    OctetItoa(v[3]);
    SplitGlue(fields, '.');
    assert [v[0], v[1], v[2], v[3]] == v;
  }

  /** Text that parses is the printing of the parsed address: the text form
      is canonical. */
  lemma DottedParse(s: string)
    requires ParseIPv4(s).Some?
    ensures To4(ParseIPv4(s).value).Some?
    ensures Dotted(To4(ParseIPv4(s).value).value) == s
  {
    var f := Split(s, '.');
    var w := ParseIPv4(s).value;
    assert w[..12] == V4InV6Prefix;
    var v := w[12..];
    Decimal.ItoaAtoi(f[0]);
    Decimal.ItoaAtoi(f[1]);
    Decimal.ItoaAtoi(f[2]);
    Decimal.ItoaAtoi(f[3]);
    assert [Decimal.Itoa(v[0]), Decimal.Itoa(v[1]), Decimal.Itoa(v[2]), Decimal.Itoa(v[3])] == f;
    GlueSplit(s, '.');
  }

  // ---------------------------------------------------------------------
  // getInterfaceIpv4Addr
  // ---------------------------------------------------------------------

  /** What the host reports for an interface name: its address list, or the
      error of listing it. A name not in the map has no interface. */
  type Interfaces = map<string, Result<seq<IP>>>

  /** Index `i` holds the first address of `addrs` that has an IPv4 form. */
  predicate FirstMatchAt(addrs: seq<IP>, i: int)
  {
    && 0 <= i < |addrs|
    && To4(addrs[i]).Some?
    && forall j :: 0 <= j < i ==> To4(addrs[j]).None?
  }

  /** The IPv4 form of the first address that has one, by recursion. */
  function FirstIpv4(addrs: seq<IP>): (r: Option<IP>)
    ensures r.Some? ==> |r.value| == 4
  {
    if |addrs| == 0 then None
    else if To4(addrs[0]).Some? then To4(addrs[0])
    else FirstIpv4(addrs[1..])
  }

  /** The recursive scan finds the first match, and finds nothing exactly
      when no address has an IPv4 form. */
  lemma {:induction false} FirstIpv4Spec(addrs: seq<IP>)
    ensures FirstIpv4(addrs).None? <==> forall i :: 0 <= i < |addrs| ==> To4(addrs[i]).None?
    ensures FirstIpv4(addrs).Some? ==>
      exists i :: FirstMatchAt(addrs, i) && FirstIpv4(addrs) == To4(addrs[i])
  {
    if |addrs| > 0 && To4(addrs[0]).None? {
      var rest := addrs[1..];
      FirstIpv4Spec(rest);
      if FirstIpv4(rest).Some? {
        var i :| FirstMatchAt(rest, i) && FirstIpv4(rest) == To4(rest[i]);
        assert FirstMatchAt(addrs, i + 1);
      }
      assert forall i :: 0 < i < |addrs| ==> addrs[i] == rest[i - 1];
    } else if |addrs| > 0 {
      assert FirstMatchAt(addrs, 0);
    }
  }

  /** `getInterfaceIpv4Addr` as a reference definition. */
  function InterfaceIpv4Addr(ifaces: Interfaces, name: string): (r: Result<IP>)
    ensures r.Ok? ==> |r.value| == 4
  {
    if name !in ifaces then Err(NoInterface(name))
    else if ifaces[name].Err? then Err(NoAddresses(name))
    else match FirstIpv4(ifaces[name].value)
      case Some(v) => Ok(v)
      case None => Err(NoIpv4(name))
  }

  /** `getInterfaceIpv4Addr`: look the interface up, list its addresses,
      and take the IPv4 form of the first one that has one. */
  method GetInterfaceIpv4Addr(ifaces: Interfaces, name: string) returns (r: Result<IP>)
    ensures name !in ifaces ==> r == Err(NoInterface(name))
    ensures name in ifaces && ifaces[name].Err? ==> r == Err(NoAddresses(name))
    ensures name in ifaces && ifaces[name].Ok? ==>
      var addrs := ifaces[name].value;
      && (r.Ok? <==> exists i :: 0 <= i < |addrs| && To4(addrs[i]).Some?)
      && (r.Err? ==> r == Err(NoIpv4(name)))
      && (r.Ok? ==> exists i :: FirstMatchAt(addrs, i) && r.value == To4(addrs[i]).value)
    ensures r.Ok? ==> |r.value| == 4
    ensures r == InterfaceIpv4Addr(ifaces, name)
  {
    if name !in ifaces {
      return Err(NoInterface(name));
    }
    if ifaces[name].Err? {
      return Err(NoAddresses(name));
    }
    var addrs := ifaces[name].value;
    var found: Option<IP> := None;
    var i := 0;
    while i < |addrs| && found.None?
      invariant 0 <= i <= |addrs|
      invariant found.None? ==> forall j :: 0 <= j < i ==> To4(addrs[j]).None?
      invariant found.None? ==> FirstIpv4(addrs) == FirstIpv4(addrs[i..])
      invariant found.Some? ==> FirstMatchAt(addrs, i - 1) && found == To4(addrs[i - 1])
      invariant found.Some? ==> FirstIpv4(addrs) == found
    {
      assert addrs[i..][1..] == addrs[i + 1..];
      found := To4(addrs[i]);
      i := i + 1;
    }
    if found.None? {
      return Err(NoIpv4(name));
    }
    return Ok(found.value);
  }

  // ---------------------------------------------------------------------
  // newNetwork and claimNextIp
  // ---------------------------------------------------------------------

  /** The one bridge every VM is attached to. */
  const BridgeName: string := "firecracker-br"

  /** The pool the addresses are drawn from. */
  const PrefixCidr: string := "172.16.0.0/24"

  /** An `*net.IPNet`: a network address and a mask. */
  datatype IPNet = IPNet(ip: IP, mask: IP)

  /** What `net.ParseCIDR` gives for the pool's prefix. */
  const PrefixNet: IPNet := IPNet([172, 16, 0, 0], [255, 255, 255, 0])

  /** An address claimed from the pool, and the network it belongs to. */
  datatype Claim = Claim(ip: IP, net: IPNet)

  /** `claimNextIp`: the pool's answer, printed and parsed back, and the
      pool's network. A pool error ends the process. */
  function ClaimNextIp(acquired: Result<V4>): (r: Result<Claim>)
    ensures r.Ok? <==> acquired.Ok?
    ensures r.Err? ==> r.error == Fatal(acquired.error)
    ensures r.Ok? ==> r.value.net == PrefixNet
  {
    if acquired.Err? then Err(Fatal(acquired.error))
    else
      var parsed := ParseIPv4(Dotted(acquired.value));
      Ok(Claim(if parsed.Some? then parsed.value else [], PrefixNet))
  }

  /** The claimed address is the 16-byte form of the address the pool
      handed out, whose IPv4 form is that address again. */
  lemma ClaimedAddress(acquired: Result<V4>)
    requires acquired.Ok?
    ensures var ip := ClaimNextIp(acquired).value.ip;
      && Some(ip) == To16(acquired.value)
      && To4(ip) == Some(acquired.value)
  {
    ParseDotted(acquired.value);
    To4To16(acquired.value);
  }

  /** The network does not depend on the address: any two claims name the
      same network. */
  lemma ClaimNetworkFixed(a: Result<V4>, b: Result<V4>)
    requires a.Ok? && b.Ok?
    ensures ClaimNextIp(a).value.net == ClaimNextIp(b).value.net
  {
  }

  /** What the host does when asked: which bridges exist, and how the
      bridge creation, the pool, the address claim and the two link calls
      turn out. */
  datatype NetHost = NetHost(
    bridges: set<string>,
    create: Outcome,
    prefix: Outcome,
    acquired: Result<V4>,
    linkIp: Outcome,
    linkUp: Outcome)

  /** The calls `newNetwork` makes that change the host or the pool. */
  datatype NetAction =
    | CreateBridge(name: string)
    | NewPrefix(cidr: string)
    | AcquireIP(cidr: string)
    | SetLinkIp(link: string, ip: IP, net: IPNet)
    | SetLinkUp(link: string)

  /** The network handle: the bridge and the pool's prefix. */
  datatype Network = Network(bridge: string, prefix: string)

  /** The bridges after `newNetwork`, the calls it made in order, and the
      handle or the error that ended the process. */
  datatype Started = Started(bridges: set<string>, actions: seq<NetAction>, result: Result<Network>)

  /** `newNetwork`: reuse the bridge or create it, make the pool, give the
      bridge the first address claimed, and bring the bridge up. The error
      of `SetLinkIp` is dropped; every other error ends the process. */
  function NewNetwork(h: NetHost): (s: Started)
    ensures s.result.Err? ==> s.result.error.Fatal?
    ensures s.result.Ok? ==> s.result.value == Network(BridgeName, PrefixCidr)
  {
    var reuse := BridgeName in h.bridges;
    var made := if reuse then [] else [CreateBridge(BridgeName)];
    if !reuse && h.create.Fail? then Started(h.bridges, made, Err(Fatal(h.create.error)))
    else
      var bridges := h.bridges + {BridgeName};
      var pooled := made + [NewPrefix(PrefixCidr)];
      if h.prefix.Fail? then Started(bridges, pooled, Err(Fatal(h.prefix.error)))
      else
        var claimed := pooled + [AcquireIP(PrefixCidr)];
        var claim := ClaimNextIp(h.acquired);
        if claim.Err? then Started(bridges, claimed, Err(claim.error))
        else
          var up := claimed + [SetLinkIp(BridgeName, claim.value.ip, claim.value.net), SetLinkUp(BridgeName)];
          if h.linkUp.Fail? then Started(bridges, up, Err(Fatal(h.linkUp.error)))
          else Started(bridges, up, Ok(Network(BridgeName, PrefixCidr)))
  }

  /** The bridge is created exactly when the lookup by name fails, and it
      exists afterwards unless its creation failed. */
  lemma BridgeGetOrCreate(h: NetHost)
    ensures var s := NewNetwork(h);
      && (CreateBridge(BridgeName) in s.actions <==> BridgeName !in h.bridges)
      && (s.bridges == h.bridges + {BridgeName} || (BridgeName !in h.bridges && h.create.Fail? && s.bridges == h.bridges))
  {
    var s := NewNetwork(h);
    if BridgeName in h.bridges {
      assert forall a :: a in s.actions ==> !a.CreateBridge?;
    } else {
      assert s.actions[0] == CreateBridge(BridgeName);
    }
  }

  /** Setting up the network again reuses the bridge the first run left. */
  lemma BridgeReused(h: NetHost, h': NetHost)
    requires NewNetwork(h).result.Ok?
    requires h'.bridges == NewNetwork(h).bridges
    ensures CreateBridge(BridgeName) !in NewNetwork(h').actions
  {
    BridgeGetOrCreate(h);
    BridgeGetOrCreate(h');
  }

  /** On success the bridge gets the first and only address claimed from
      the pool, in its 16-byte form and with the pool's network, and only
      then is brought up. */
  lemma BridgeTakesFirstAddress(h: NetHost)
    requires NewNetwork(h).result.Ok?
    ensures h.acquired.Ok?
    ensures var a := NewNetwork(h).actions; var n := |a|;
      && n >= 4
      && a[n - 4] == NewPrefix(PrefixCidr)
      && a[n - 3] == AcquireIP(PrefixCidr)
      && a[n - 2] == SetLinkIp(BridgeName, V4InV6Prefix + h.acquired.value, PrefixNet)
      && a[n - 1] == SetLinkUp(BridgeName)
      && (forall i :: 0 <= i < n - 3 ==> !a[i].AcquireIP?)
  {
    ClaimedAddress(h.acquired);
  }

  /** The bridge is never brought up before it is given its address. */
  lemma LinkUpAfterLinkIp(h: NetHost)
    ensures var a := NewNetwork(h).actions;
      forall i :: 0 <= i < |a| && a[i].SetLinkUp? ==> 0 < i && a[i - 1].SetLinkIp?
  {
  }

  /** The outcome of `SetLinkIp` changes nothing. */
  lemma LinkIpErrorIgnored(h: NetHost, o: Outcome)
    ensures NewNetwork(h.(linkIp := o)) == NewNetwork(h)
  {
  }

  // ---------------------------------------------------------------------
  // getBridgeIpV4Addr
  // ---------------------------------------------------------------------

  /** `getBridgeIpV4Addr` as written: on an error it builds a fatal log
      event but never sends it, so the process goes on and the method
      returns the nil address. */
  function BridgeIpv4AddrAsWritten(ifaces: Interfaces): (ip: IP)
    ensures InterfaceIpv4Addr(ifaces, BridgeName).Ok? ==> |ip| == 4
  {
    var r := InterfaceIpv4Addr(ifaces, BridgeName);
    if r.Err? then [] else r.value
  }

  /** A bridge without an IPv4 address yields the nil address, not an exit. */
  lemma BridgeIpv4AddrNil(ifaces: Interfaces)
    requires BridgeName in ifaces && ifaces[BridgeName].Ok?
    requires forall i :: 0 <= i < |ifaces[BridgeName].value| ==> To4(ifaces[BridgeName].value[i]).None?
    ensures BridgeIpv4AddrAsWritten(ifaces) == []
  {
    FirstIpv4Spec(ifaces[BridgeName].value);
  }

  /** `getBridgeIpV4Addr` with the fatal event sent: an error ends the
      process, so a returned address is always 4 bytes. */
  function BridgeIpv4Addr(ifaces: Interfaces): (r: Result<IP>)
    ensures r.Ok? ==> |r.value| == 4
    ensures r.Err? ==> r.error.Fatal?
  {
    var a := InterfaceIpv4Addr(ifaces, BridgeName);
    if a.Err? then Err(Fatal(a.error)) else Ok(a.value)
  }

  /** The corrected method returns an address exactly when the bridge has
      an IPv4 address, and then the one the code as written returns. */
  lemma BridgeIpv4AddrAgrees(ifaces: Interfaces)
    ensures BridgeIpv4Addr(ifaces).Ok? <==>
      BridgeName in ifaces && ifaces[BridgeName].Ok?
      && exists i :: 0 <= i < |ifaces[BridgeName].value| && To4(ifaces[BridgeName].value[i]).Some?
    ensures BridgeIpv4Addr(ifaces).Ok? ==> BridgeIpv4Addr(ifaces).value == BridgeIpv4AddrAsWritten(ifaces)
  {
    if BridgeName in ifaces && ifaces[BridgeName].Ok? {
      FirstIpv4Spec(ifaces[BridgeName].value);
    }
  }
}
