/** The identity query: the host name and the IPv4 addresses of every
    interface other than the loopback one, without duplicates and in
    ascending order. */
module HostIdentity {
  import PySorted

  /** `socket.AF_INET` on Linux. */
  const AF_INET: int := 2
  /** Name of the loopback interface, which is skipped. */
  const Loopback: string := "lo"
  /** The single entry reported when the interfaces cannot be listed. */
  const LookupFailed: string := "获取失败"

  /** One address record of an interface (`snicaddr`): its family and address. */
  datatype Snicaddr = Snicaddr(family: int, address: string)

  /** An interface name with its address records. */
  datatype Interface = Interface(name: string, addrs: seq<Snicaddr>)

  /** What `psutil.net_if_addrs()` gave: the interfaces, in iteration order,
      or the exception it raised. */
  datatype Enumeration =
    | Enumerated(interfaces: seq<Interface>)
    | EnumerationFailed(message: string)

  /** The IPv4 addresses among one interface's records, in order. */
  function Ipv4Of(addrs: seq<Snicaddr>): seq<string> {
    if addrs == [] then []
    else
      var last := addrs[|addrs| - 1];
      Ipv4Of(addrs[..|addrs| - 1]) + (if last.family == AF_INET then [last.address] else [])
  }

  /** The list the loop builds before sorting: the IPv4 addresses of every
      non-loopback interface, interface by interface. */
  function Collected(ifaces: seq<Interface>): seq<string> {
    if ifaces == [] then []
    else
      var last := ifaces[|ifaces| - 1];
      Collected(ifaces[..|ifaces| - 1]) + (if last.name == Loopback then [] else Ipv4Of(last.addrs))
  }

  /** Address `a` is an IPv4 address of some interface not named `lo`. */
  ghost predicate Offered(ifaces: seq<Interface>, a: string) {
    exists i, j :: 0 <= i < |ifaces| && 0 <= j < |ifaces[i].addrs| &&
      ifaces[i].name != Loopback && ifaces[i].addrs[j] == Snicaddr(AF_INET, a)
  }

  lemma {:induction false} Ipv4OfExactly(addrs: seq<Snicaddr>, a: string)
    ensures a in Ipv4Of(addrs) <==> Snicaddr(AF_INET, a) in addrs
  {
    if addrs != [] {
      var init := addrs[..|addrs| - 1];
      Ipv4OfExactly(init, a);
      assert addrs == init + [addrs[|addrs| - 1]];
    }
  }

  /** Everything collected is an IPv4 address of a non-loopback interface. */
  lemma {:induction false} CollectedSound(ifaces: seq<Interface>, a: string)
    requires a in Collected(ifaces)
    ensures Offered(ifaces, a)
  {
    var n := |ifaces| - 1;
    var init := ifaces[..n];
    if a in Collected(init) {
      CollectedSound(init, a);
      var i, j :| 0 <= i < |init| && 0 <= j < |init[i].addrs| &&
        init[i].name != Loopback && init[i].addrs[j] == Snicaddr(AF_INET, a);
      assert ifaces[i] == init[i];
    } else {
      Ipv4OfExactly(ifaces[n].addrs, a);
      var j :| 0 <= j < |ifaces[n].addrs| && ifaces[n].addrs[j] == Snicaddr(AF_INET, a);
      assert ifaces[n].name != Loopback;
    }
  }

  /** Every IPv4 address of a non-loopback interface is collected. */
  lemma {:induction false} CollectedComplete(ifaces: seq<Interface>, a: string, i: nat, j: nat)
    requires i < |ifaces| && j < |ifaces[i].addrs|
    requires ifaces[i].name != Loopback && ifaces[i].addrs[j] == Snicaddr(AF_INET, a)
    ensures a in Collected(ifaces)
  {
    var n := |ifaces| - 1;
    var init := ifaces[..n];
    if i < n {
      assert init[i] == ifaces[i];
      CollectedComplete(init, a, i, j);
    } else {
      assert ifaces[n].addrs[j] in ifaces[n].addrs;
      Ipv4OfExactly(ifaces[n].addrs, a);
    }
  }

  /** The collected list holds every IPv4 address of a non-loopback interface
      and nothing else. */
  lemma CollectedExactly(ifaces: seq<Interface>, a: string)
    ensures a in Collected(ifaces) <==> Offered(ifaces, a)
  {
    if a in Collected(ifaces) {
      CollectedSound(ifaces, a);
    }
    if Offered(ifaces, a) {
      var i, j :| 0 <= i < |ifaces| && 0 <= j < |ifaces[i].addrs| &&
        ifaces[i].name != Loopback && ifaces[i].addrs[j] == Snicaddr(AF_INET, a);
      CollectedComplete(ifaces, a, i, j);
    }
  }

  /** `get_hostname_ip()`: the host name as given by the name lookup, and the
      addresses gathered from the interface listing. */
  method GetHostnameIp(host: string, enumeration: Enumeration) returns (hostname: string, ips: seq<string>)
    ensures hostname == host
    ensures enumeration.EnumerationFailed? ==> ips == [LookupFailed]
    ensures enumeration.Enumerated? ==> ips == PySorted.SortedSet(Collected(enumeration.interfaces))
    ensures enumeration.Enumerated? ==> PySorted.StrictlyAscending(ips)
    ensures enumeration.Enumerated? ==> forall a :: a in ips <==> Offered(enumeration.interfaces, a)
  {
    hostname := host;
    ips := [];
    match enumeration
    case EnumerationFailed(_) =>
      ips := ips + [LookupFailed];
    case Enumerated(ifaces) =>
      var i := 0;
      while i < |ifaces|
        invariant 0 <= i <= |ifaces|
        invariant ips == Collected(ifaces[..i])
      {
        assert ifaces[..i + 1][..i] == ifaces[..i];
        var iface := ifaces[i];
        if iface.name != Loopback {
          var addrs := iface.addrs;
          var j := 0;
          while j < |addrs|
            invariant 0 <= j <= |addrs|
            invariant ips == Collected(ifaces[..i]) + Ipv4Of(addrs[..j])
          {
            assert addrs[..j + 1][..j] == addrs[..j];
            if addrs[j].family == AF_INET {
              ips := ips + [addrs[j].address];
            }
            j := j + 1;
          }
          assert addrs[..j] == addrs;
        }
        i := i + 1;
      }
      assert ifaces[..i] == ifaces;
      ips := PySorted.SortedSet(ips);
      forall a ensures a in ips <==> Offered(ifaces, a) {
        CollectedExactly(ifaces, a);
      }
  }
}
