/** The systemd-networkd backend's view of the links: which interfaces are
  * virtual, which link stands for the wired and the Wi-Fi device, and the
  * state recomputed from their operational states and addresses. */
module NetworkNetworkd {
  import opened Common
  import opened NetworkTypes
  import Strs

  const VirtualPrefixes: seq<string> :=
    ["lo", "docker", "veth", "virbr", "br-", "vnet", "tun", "tap",
     "vboxnet", "vmnet", "kube", "cni", "flannel", "cali"]

  /** `isVirtualInterface`: loopback, container, bridge, tunnel and VM
    * interfaces, by name prefix. */
  predicate IsVirtualInterface(name: string)
    ensures IsVirtualInterface(name) ==> |name| >= 2 && name[0] != 'e' && name[0] != 'w'
  {
    assert forall k :: 0 <= k < |VirtualPrefixes| ==>
             |VirtualPrefixes[k]| >= 2 && VirtualPrefixes[k][0] != 'e' && VirtualPrefixes[k][0] != 'w';
    Strs.HasAnyPrefix(name, VirtualPrefixes)
  }

  predicate IsWiFiName(name: string)
  {
    Strs.HasPrefix(name, "wlan") || Strs.HasPrefix(name, "wlp")
  }

  /** A link counts as up when it is routable or has a carrier. */
  predicate IsUp(opState: string)
  {
    opState == "routable" || opState == "carrier"
  }

  datatype Link = Link(name: string, path: string, opState: string)

  /** A link that may stand for the Wi-Fi device (`wifi`) or the wired one. */
  predicate Candidate(l: Link, wifi: bool)
  {
    !IsVirtualInterface(l.name) && IsWiFiName(l.name) == wifi
  }

  /** The link the selection loop ends with, over the links in iteration
    * order: a candidate replaces the choice when nothing is chosen yet or
    * when it is up. */
  function Pick(ls: seq<Link>, wifi: bool): (r: Option<nat>)
    ensures r.Some? ==> r.value < |ls|
  {
    if |ls| == 0 then None
    else
      var prev := Pick(ls[..|ls| - 1], wifi);
      var l := ls[|ls| - 1];
      if Candidate(l, wifi) && (prev.None? || IsUp(l.opState)) then Some(|ls| - 1) else prev
  }

  /** One more link: it becomes the choice when it is a candidate and
    * nothing is chosen yet or it is up. */
  lemma PickSnoc(ls: seq<Link>, l: Link, wifi: bool)
    ensures Pick(ls + [l], wifi)
            == if Candidate(l, wifi) && (Pick(ls, wifi).None? || IsUp(l.opState)) then Some(|ls|) else Pick(ls, wifi)
  {
    var s := ls + [l];
    assert s[..|s| - 1] == ls && s[|s| - 1] == l;
  }

  /** There is a choice iff there is a candidate. */
  lemma {:induction false} PickNoneIff(ls: seq<Link>, wifi: bool)
    ensures Pick(ls, wifi).None? <==> forall i :: 0 <= i < |ls| ==> !Candidate(ls[i], wifi)
  {
    if |ls| > 0 {
      var init := ls[..|ls| - 1];
      PickNoneIff(init, wifi);
      assert forall i :: 0 <= i < |init| ==> init[i] == ls[i];
    }
  }

  /** The choice is a candidate, and when it is up no later candidate
    * is up. */
  lemma {:induction false} PickUpIsLast(ls: seq<Link>, wifi: bool)
    ensures Pick(ls, wifi).Some? ==>
              var k := Pick(ls, wifi).value;
              Candidate(ls[k], wifi)
              && (IsUp(ls[k].opState) ==>
                    forall i :: k < i < |ls| ==> !(Candidate(ls[i], wifi) && IsUp(ls[i].opState)))
  {
    if |ls| > 0 {
      var init := ls[..|ls| - 1];
      PickUpIsLast(init, wifi);
      assert forall i :: 0 <= i < |init| ==> init[i] == ls[i];
    }
  }

  /** A choice that is down is the first candidate, and no candidate is
    * up. */
  lemma {:induction false} PickDownIsFirst(ls: seq<Link>, wifi: bool)
    ensures Pick(ls, wifi).Some? ==>
              var k := Pick(ls, wifi).value;
              !IsUp(ls[k].opState) ==>
                forall i :: 0 <= i < |ls| && i != k ==>
                  !(Candidate(ls[i], wifi) && IsUp(ls[i].opState)) && (Candidate(ls[i], wifi) ==> k < i)
  {
    if |ls| > 0 {
      var init := ls[..|ls| - 1];
      PickDownIsFirst(init, wifi);
      PickNoneIff(init, wifi);
      PickUpIsLast(init, wifi);
      assert forall i :: 0 <= i < |init| ==> init[i] == ls[i];
    }
  }

  /** The choice is the last candidate that is up; when none is up, it is
    * the first candidate; and there is a choice iff there is a candidate. */
  lemma PickIsLastUpOrFirst(ls: seq<Link>, wifi: bool)
    ensures Pick(ls, wifi).None? <==> forall i :: 0 <= i < |ls| ==> !Candidate(ls[i], wifi)
    ensures Pick(ls, wifi).Some? ==>
              var k := Pick(ls, wifi).value;
              Candidate(ls[k], wifi)
              && (IsUp(ls[k].opState) ==>
                    forall i :: k < i < |ls| ==> !(Candidate(ls[i], wifi) && IsUp(ls[i].opState)))
              && (!IsUp(ls[k].opState) ==>
                    forall i :: 0 <= i < |ls| && i != k ==>
                      !(Candidate(ls[i], wifi) && IsUp(ls[i].opState)) && (Candidate(ls[i], wifi) ==> k < i))
  {
    PickNoneIff(ls, wifi);
    PickUpIsLast(ls, wifi);
    PickDownIsFirst(ls, wifi);
  }

  /** The wired connection listed for a link. */
  function WiredOfLink(l: Link): (c: WiredConnection)
    ensures c.ID == l.name && c.UUID == "wired:" + l.name && c.IsActive == IsUp(l.opState)
  {
    WiredConnection(l.path, l.name, "wired:" + l.name, "ethernet", IsUp(l.opState))
  }

  /** The wired connections: one per link that is neither virtual nor
    * Wi-Fi, in iteration order. */
  function WiredOf(ls: seq<Link>): seq<WiredConnection>
  {
    if |ls| == 0 then []
    else WiredOf(ls[..|ls| - 1]) + (if Candidate(ls[|ls| - 1], false) then [WiredOfLink(ls[|ls| - 1])] else [])
  }

  /** Every listed wired connection comes from a wired candidate link, and
    * every wired candidate is listed. */
  lemma {:induction false} WiredOfLinks(ls: seq<Link>)
    ensures forall c :: c in WiredOf(ls) ==> exists i :: 0 <= i < |ls| && Candidate(ls[i], false) && c == WiredOfLink(ls[i])
    ensures forall i :: 0 <= i < |ls| && Candidate(ls[i], false) ==> WiredOfLink(ls[i]) in WiredOf(ls)
  {
    if |ls| > 0 {
      var init := ls[..|ls| - 1];
      WiredOfLinks(init);
      assert forall i :: 0 <= i < |init| ==> init[i] == ls[i];
    }
  }

  /** The first address of an interface, when it has any. */
  function FirstAddr(addrs: map<string, seq<string>>, ifname: string): Option<string>
  {
    if ifname in addrs && |addrs[ifname]| > 0 then Some(addrs[ifname][0]) else None
  }

  /** A link's operational state after a property read that may fail. */
  function Refreshed(l: Link, read: Option<string>): Link
  {
    if !IsVirtualInterface(l.name) && read.Some? then l.(opState := read.value) else l
  }

  class SystemdNetworkdBackend {
    var state: BackendState
    /** The links in map iteration order, which Go leaves unspecified. */
    var links: seq<Link>

    constructor (s: BackendState, ls: seq<Link>)
      ensures state == s && links == ls
    {
      state, links := s, ls;
    }

    /** `updateState`: rereads each non-virtual link's operational state
      * (`opReads[i]`, `None` when the read fails), picks the wired and the
      * Wi-Fi link, lists the wired connections, resets the connection
      * fields and sets them again from the chosen links and their
      * addresses. Ethernet sets the status first; Wi-Fi only while the
      * status is still disconnected and the link has an address. */
    method UpdateState(opReads: seq<Option<string>>, addrs: map<string, seq<string>>)
      requires |opReads| == |links|
      modifies this
      ensures |links| == |old(links)|
      ensures forall i :: 0 <= i < |links| ==> links[i] == Refreshed(old(links)[i], opReads[i])
      ensures state == StateAfter(old(state), links, addrs)
    {
      var refreshed, wiredIface, wifiIface := RefreshAndPick(links, opReads);
      links := refreshed;
      var wiredConns := WiredConnections(links);

      var status, ethConnected, ethIP, wifiConnected, wifiIP := StatusDisconnected, false, "", false, "";
      var ethDevice, wifiDevice := state.EthernetDevice, state.WiFiDevice;
      if wiredIface.Some? {
        var w := links[wiredIface.value];
        ethDevice := w.name;
        if IsUp(w.opState) {
          ethConnected, status := true, StatusEthernet;
          var a := FirstAddr(addrs, w.name);
          if a.Some? {
            ethIP := a.value;
          }
        }
      }
      if wifiIface.Some? {
        var w := links[wifiIface.value];
        wifiDevice := w.name;
        if IsUp(w.opState) {
          wifiConnected := true;
          var a := FirstAddr(addrs, w.name);
          if a.Some? {
            wifiIP := a.value;
            if status == StatusDisconnected {
              status := StatusWiFi;
            }
          }
        }
      }
      state := state.(NetworkStatus := status, EthernetConnected := ethConnected, EthernetIP := ethIP,
                      EthernetDevice := ethDevice, WiFiConnected := wifiConnected, WiFiIP := wifiIP,
                      WiFiDevice := wifiDevice, WiredConnections := wiredConns);
    }
  }

  /** The state `updateState` leaves: the wired connections of the links;
    * the chosen links' names as devices; a chosen link that is up as
    * connected, with its first address; and the status ethernet when the
    * wired link is up, else Wi-Fi when the Wi-Fi link is up with an
    * address, else disconnected. Every other field is kept. */
  function StateAfter(s: BackendState, ls: seq<Link>, addrs: map<string, seq<string>>): (t: BackendState)
    ensures t.NetworkStatus == StatusEthernet <==> t.EthernetConnected
    ensures t.NetworkStatus == StatusWiFi <==>
              !t.EthernetConnected && t.WiFiConnected && Pick(ls, true).Some?
              && FirstAddr(addrs, ls[Pick(ls, true).value].name).Some?
    ensures t.EthernetConnected <==> Pick(ls, false).Some? && IsUp(ls[Pick(ls, false).value].opState)
    ensures t.WiFiConnected <==> Pick(ls, true).Some? && IsUp(ls[Pick(ls, true).value].opState)
    ensures !t.EthernetConnected ==> t.EthernetIP == ""
    ensures !t.WiFiConnected ==> t.WiFiIP == ""
    ensures t.WiredConnections == WiredOf(ls)
    ensures t.WiFiNetworks == s.WiFiNetworks && t.IsConnecting == s.IsConnecting && t.LastError == s.LastError
  {
    var wired, wifi := Pick(ls, false), Pick(ls, true);
    var ethUp := wired.Some? && IsUp(ls[wired.value].opState);
    var wifiUp := wifi.Some? && IsUp(ls[wifi.value].opState);
    var ethAddr := if ethUp then FirstAddr(addrs, ls[wired.value].name) else None;
    var wifiAddr := if wifiUp then FirstAddr(addrs, ls[wifi.value].name) else None;
    s.(WiredConnections := WiredOf(ls),
       EthernetDevice := if wired.Some? then ls[wired.value].name else s.EthernetDevice,
       EthernetConnected := ethUp,
       EthernetIP := if ethAddr.Some? then ethAddr.value else "",
       WiFiDevice := if wifi.Some? then ls[wifi.value].name else s.WiFiDevice,
       WiFiConnected := wifiUp,
       WiFiIP := if wifiAddr.Some? then wifiAddr.value else "",
       NetworkStatus := if ethUp then StatusEthernet else if wifiAddr.Some? then StatusWiFi else StatusDisconnected)
  }

  /** The first loop of `updateState`: refresh the operational states and
    * pick the wired and the Wi-Fi link. */
  method RefreshAndPick(ls: seq<Link>, opReads: seq<Option<string>>)
    returns (refreshed: seq<Link>, wired: Option<nat>, wifi: Option<nat>)
    requires |opReads| == |ls|
    ensures |refreshed| == |ls|
    ensures forall i :: 0 <= i < |ls| ==> refreshed[i] == Refreshed(ls[i], opReads[i])
    ensures wired == Pick(refreshed, false) && wifi == Pick(refreshed, true)
  {
    refreshed, wired, wifi := [], None, None;
    var i := 0;
    while i < |ls|
      invariant 0 <= i <= |ls|
      invariant |refreshed| == i
      invariant forall j :: 0 <= j < i ==> refreshed[j] == Refreshed(ls[j], opReads[j])
      invariant wired == Pick(refreshed, false) && wifi == Pick(refreshed, true)
    {
      var l;
      l, wired, wifi := RefreshOne(ls[i], opReads[i], i, wired, wifi);
      PickSnoc(refreshed, l, false);
      PickSnoc(refreshed, l, true);
      refreshed := refreshed + [l];
      i := i + 1;
    }
  }

  /** One pass of the first loop: refresh the link and let it replace the
    * wired or the Wi-Fi choice. */
  method RefreshOne(l0: Link, read: Option<string>, i: nat, wired0: Option<nat>, wifi0: Option<nat>)
    returns (l: Link, wired: Option<nat>, wifi: Option<nat>)
    ensures l == Refreshed(l0, read)
    ensures wired == if Candidate(l, false) && (wired0.None? || IsUp(l.opState)) then Some(i) else wired0
    ensures wifi == if Candidate(l, true) && (wifi0.None? || IsUp(l.opState)) then Some(i) else wifi0
  {
    l, wired, wifi := l0, wired0, wifi0;
    if !IsVirtualInterface(l.name) {
      if read.Some? {
        l := l.(opState := read.value);
      }
      if IsWiFiName(l.name) {
        if wifi.None? || IsUp(l.opState) {
          wifi := Some(i);
        }
      } else if wired.None? || IsUp(l.opState) {
        wired := Some(i);
      }
    }
  }

  /** The second loop of `updateState`: the wired connections. */
  method WiredConnections(ls: seq<Link>) returns (conns: seq<WiredConnection>)
    ensures conns == WiredOf(ls)
  {
    conns := [];
    var i := 0;
    while i < |ls|
      invariant 0 <= i <= |ls|
      invariant conns == WiredOf(ls[..i])
    {
      assert ls[..i + 1][..i] == ls[..i];
      if Candidate(ls[i], false) {
        conns := conns + [WiredOfLink(ls[i])];
      }
      i := i + 1;
    }
    assert ls[..i] == ls;
  }

  /** No listed prefix starts with `e` or `w`, so Ethernet and Wi-Fi
    * names are never virtual. */
  lemma PhysicalNamesNotVirtual(name: string)
    requires |name| > 0 && (name[0] == 'e' || name[0] == 'w')
    ensures !IsVirtualInterface(name)
  {
    forall k | 0 <= k < |VirtualPrefixes|
      ensures !Strs.HasPrefix(name, VirtualPrefixes[k])
    {
      assert VirtualPrefixes[k][0] != name[0];
    }
  }

  /** Container, bridge and loopback interfaces are virtual. */
  lemma VirtualExamples()
    ensures IsVirtualInterface("lo") && IsVirtualInterface("docker0") && IsVirtualInterface("br-1a2b")
  {
    assert Strs.HasPrefix("lo", VirtualPrefixes[0]);
    assert Strs.HasPrefix("docker0", VirtualPrefixes[1]);
    assert Strs.HasPrefix("br-1a2b", VirtualPrefixes[4]);
  }
}
