// The `local-ip` task, which stores a LAN address in the module-level `_ip`,
// and the `js-path` task, which builds the script URLs injected into the
// templates from `_ip`, the dev-server port and a timestamp per script.

module ScriptPaths {
  import opened BuildConfig
  import opened Strings

  datatype Option<T> = None | Some(value: T)

  /** One entry of `os.networkInterfaces()[dev]`. */
  datatype AddressInfo = AddressInfo(family: string, address: string)

  /** One key of the interface table with its entries; the table is a list in
      the order `for…in` visits its keys. */
  datatype NetInterface = NetInterface(name: string, addresses: seq<AddressInfo>)

  predicate IsPrimary(name: string)
  {
    name == "en0" || name == "en1"
  }

  predicate IsIPv4(a: AddressInfo)
  {
    a.family == "IPv4"
  }

  /** `_ip` after the `forEach` over one interface's entries, starting from `ip`. */
  function ScanAddresses(es: seq<AddressInfo>, ip: Option<string>): Option<string>
  {
    if es == [] then ip
    else
      var before := ScanAddresses(es[..|es| - 1], ip);
      if IsIPv4(es[|es| - 1]) then Some(es[|es| - 1].address) else before
  }

  /** `_ip` after the `for…in` loop over the interface table, starting from `ip`. */
  function ScanInterfaces(ifaces: seq<NetInterface>, ip: Option<string>): Option<string>
  {
    if ifaces == [] then ip
    else
      var before := ScanInterfaces(ifaces[..|ifaces| - 1], ip);
      var dev := ifaces[|ifaces| - 1];
      if IsPrimary(dev.name) then ScanAddresses(dev.addresses, before) else before
  }

  /** Entry j of interface i is an IPv4 entry of an interface named en0 or en1. */
  predicate Qualifies(ifaces: seq<NetInterface>, i: int, j: int)
  {
    0 <= i < |ifaces| && IsPrimary(ifaces[i].name) &&
    0 <= j < |ifaces[i].addresses| && IsIPv4(ifaces[i].addresses[j])
  }

  /** The host prefix of the script URLs: empty while no address is known. */
  function Host(ip: Option<string>, port: nat): string
  {
    match ip
    case None => ""
    case Some(a) => "http://" + a + ":" + Decimal(port)
  }

  /** One script URL with its cache-busting query. */
  function ScriptUrl(host: string, file: string, stamp: nat): string
  {
    host + "/js/" + file + ".js?v=" + Decimal(stamp)
  }

  /** The gulpfile's module state: `_ip`, `null` until `local-ip` runs. */
  class Session {
    var ip: Option<string>

    constructor ()
      ensures ip == None
    {
      ip := None;
    }

    /** `local-ip`: skips every interface not named en0 or en1 and lets every
        IPv4 entry of the others overwrite `_ip`. */
    method LocalIp(ifaces: seq<NetInterface>)
      modifies this
      ensures ip == ScanInterfaces(ifaces, old(ip))
    {
      for i := 0 to |ifaces|
        invariant ip == ScanInterfaces(ifaces[..i], old(ip))
      {
        assert ifaces[..i + 1][..i] == ifaces[..i];
        var dev := ifaces[i];
        if dev.name != "en1" && dev.name != "en0" {
          continue;
        }
        ghost var before := ip;
        var es := dev.addresses;
        for j := 0 to |es|
          invariant ip == ScanAddresses(es[..j], before)
        {
          assert es[..j + 1][..j] == es[..j];
          if es[j].family == "IPv4" {
            ip := Some(es[j].address);
          }
        }
        assert es[..|es|] == es;
      }
      assert ifaces[..|ifaces|] == ifaces;
    }

    /** `js-path`: one URL per main script, in order; `stamps[k]` is the clock
        reading taken when entry k is pushed. */
    method JsPath(cfg: Config, stamps: seq<nat>) returns (scripts: seq<string>)
      requires |stamps| == |cfg.mainJsFiles|
      ensures |scripts| == |cfg.mainJsFiles|
      ensures forall k :: 0 <= k < |scripts| ==>
        scripts[k] == ScriptUrl(Host(ip, cfg.localPort), cfg.mainJsFiles[k], stamps[k])
    {
      var host := if ip != None then "http://" + ip.value + ":" + Decimal(cfg.localPort) else "";
      scripts := [];
      for index := 0 to |cfg.mainJsFiles|
        invariant |scripts| == index
        invariant forall k :: 0 <= k < index ==>
          scripts[k] == ScriptUrl(host, cfg.mainJsFiles[k], stamps[k])
      {
        var file := cfg.mainJsFiles[index];
        scripts := scripts + [host + "/js/" + file + ".js?v=" + Decimal(stamps[index])];
      }
    }
  }

  /** The `build` task runs `js-path` without `local-ip`, so `_ip` keeps its
      initial `null` and every URL is the relative `/js/<file>.js?v=<stamp>`. */
  method BuildScripts(cfg: Config, stamps: seq<nat>) returns (scripts: seq<string>)
    requires |stamps| == |cfg.mainJsFiles|
    ensures |scripts| == |cfg.mainJsFiles|
    ensures forall k :: 0 <= k < |scripts| ==>
      scripts[k] == "/js/" + cfg.mainJsFiles[k] + ".js?v=" + Decimal(stamps[k])
  {
    var session := new Session();
    scripts := session.JsPath(cfg, stamps);
  }

  /** Without an IPv4 entry the loop leaves `ip` as it was. */
  lemma {:induction false} ScanAddressesNone(es: seq<AddressInfo>, ip: Option<string>)
    requires forall j :: 0 <= j < |es| ==> !IsIPv4(es[j])
    ensures ScanAddresses(es, ip) == ip
  {
    if es != [] {
      ScanAddressesNone(es[..|es| - 1], ip);
    }
  }

  /** Otherwise it ends with the address of the last IPv4 entry. */
  lemma {:induction false} ScanAddressesLast(es: seq<AddressInfo>, ip: Option<string>, j: nat)
    requires j < |es| && IsIPv4(es[j])
    requires forall j2 :: j < j2 < |es| ==> !IsIPv4(es[j2])
    ensures ScanAddresses(es, ip) == Some(es[j].address)
  {
    if j < |es| - 1 {
      ScanAddressesLast(es[..|es| - 1], ip, j);
    }
  }

  /** With no qualifying entry anywhere, `_ip` is unchanged (it stays `null` on a fresh run). */
  lemma {:induction false} LocalIpUnchanged(ifaces: seq<NetInterface>, ip: Option<string>)
    requires forall i, j :: !Qualifies(ifaces, i, j)
    ensures ScanInterfaces(ifaces, ip) == ip
  {
    if ifaces != [] {
      var n := |ifaces|;
      var front := ifaces[..n - 1];
      forall i, j ensures !Qualifies(front, i, j) {
        assert Qualifies(front, i, j) ==> Qualifies(ifaces, i, j);
      }
      LocalIpUnchanged(front, ip);
      var last := n - 1;
      var dev := ifaces[last];
      if IsPrimary(dev.name) {
        forall j | 0 <= j < |dev.addresses|
          ensures !IsIPv4(dev.addresses[j])
        {
          assert !Qualifies(ifaces, last, j);
        }
        ScanAddressesNone(dev.addresses, ScanInterfaces(front, ip));
      }
    }
  }

  /** `_ip` ends as the address of the qualifying entry that comes last in iteration order. */
  lemma {:induction false} LocalIpPicksLast(ifaces: seq<NetInterface>, ip: Option<string>, i: int, j: int)
    requires Qualifies(ifaces, i, j)
    requires forall i2, j2 :: Qualifies(ifaces, i2, j2) ==> i2 < i || (i2 == i && j2 <= j)
    ensures ScanInterfaces(ifaces, ip) == Some(ifaces[i].addresses[j].address)
  {
    var n := |ifaces|;
    var front := ifaces[..n - 1];
    var dev := ifaces[n - 1];
    if i == n - 1 {
      forall j2 | j < j2 < |dev.addresses|
        ensures !IsIPv4(dev.addresses[j2])
      {
        assert !Qualifies(ifaces, n - 1, j2);
      }
      ScanAddressesLast(dev.addresses, ScanInterfaces(front, ip), j);
    } else {
      assert Qualifies(front, i, j);
      forall i2, j2 | Qualifies(front, i2, j2)
        ensures i2 < i || (i2 == i && j2 <= j)
      {
        assert Qualifies(ifaces, i2, j2);
      }
      LocalIpPicksLast(front, ip, i, j);
      if IsPrimary(dev.name) {
        forall j2 | 0 <= j2 < |dev.addresses|
          ensures !IsIPv4(dev.addresses[j2])
        {
          assert !Qualifies(ifaces, n - 1, j2);
        }
        ScanAddressesNone(dev.addresses, ScanInterfaces(front, ip));
      }
    }
  }

  /** `_ip` only ever takes the address of an IPv4 entry of en0 or en1. */
  lemma {:induction false} LocalIpSource(ifaces: seq<NetInterface>, ip: Option<string>)
    ensures var r := ScanInterfaces(ifaces, ip);
      r == ip || exists i, j :: Qualifies(ifaces, i, j) && r == Some(ifaces[i].addresses[j].address)
  {
    if exists i, j :: Qualifies(ifaces, i, j) {
      var i, j := LastQualifying(ifaces);
      LocalIpPicksLast(ifaces, ip, i, j);
    } else {
      LocalIpUnchanged(ifaces, ip);
    }
  }

  /** The last IPv4 entry of a list that has one. */
  lemma {:induction false} LastIPv4(es: seq<AddressInfo>) returns (j: nat)
    requires exists j :: 0 <= j < |es| && IsIPv4(es[j])
    ensures j < |es| && IsIPv4(es[j])
    ensures forall j2 :: j < j2 < |es| ==> !IsIPv4(es[j2])
  {
    var front := es[..|es| - 1];
    if IsIPv4(es[|es| - 1]) {
      j := |es| - 1;
    } else {
      var j0 :| 0 <= j0 < |es| && IsIPv4(es[j0]);
      assert IsIPv4(front[j0]);
      j := LastIPv4(front);
      assert forall j2 :: j < j2 < |front| ==> front[j2] == es[j2];
    }
  }

  /** The qualifying entry that comes last in iteration order, when there is one. */
  lemma {:induction false} LastQualifying(ifaces: seq<NetInterface>) returns (i: int, j: int)
    requires exists i, j :: Qualifies(ifaces, i, j)
    ensures Qualifies(ifaces, i, j)
    ensures forall i2, j2 :: Qualifies(ifaces, i2, j2) ==> i2 < i || (i2 == i && j2 <= j)
  {
    var last := |ifaces| - 1;
    var dev := ifaces[last];
    if IsPrimary(dev.name) && exists j2 :: 0 <= j2 < |dev.addresses| && IsIPv4(dev.addresses[j2]) {
      i := last;
      j := LastIPv4(dev.addresses);
    } else {
      var front := ifaces[..last];
      var i0, j0 :| Qualifies(ifaces, i0, j0);
      assert Qualifies(front, i0, j0);
      i, j := LastQualifying(front);
      assert Qualifies(ifaces, i, j);
      forall i2, j2 | Qualifies(ifaces, i2, j2)
        ensures i2 < i || (i2 == i && j2 <= j)
      {
        assert Qualifies(front, i2, j2);
      }
    }
  }

  /** Without an address the URLs are relative (`/js/…`); with one they are absolute. */
  lemma ScriptUrlHost(ip: Option<string>, port: nat, file: string, stamp: nat)
    ensures var url := ScriptUrl(Host(ip, port), file, stamp);
      (ip.None? ==> url == "/js/" + file + ".js?v=" + Decimal(stamp)) &&
      (ip.Some? ==> url == "http://" + ip.value + ":" + Decimal(port) + "/js/" + file + ".js?v=" + Decimal(stamp))
  {
  }
}
