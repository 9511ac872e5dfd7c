/** The address, name and interface of every merged client, and every column that a sync stores. */
module LanClientRows {
  import opened Text
  import opened Units
  import opened LanClients
  import opened LanClientTheorems

  // ---------- Words ----------

  lemma LowerTwice(s: string)
    ensures Lower(Lower(s)) == Lower(s)
  {
    forall i | 0 <= i < |s| ensures Lower(Lower(s))[i] == Lower(s)[i] { }
  }

  lemma {:induction false} TrimTwice(s: string)
    ensures TrimSpace(TrimSpace(s)) == TrimSpace(s)
    decreases |s|
  {
    if s != "" && IsSpace(s[0]) { TrimTwice(s[1..]); }
    else if s != "" && IsSpace(s[|s| - 1]) { TrimTwice(s[..|s| - 1]); }
  }

  // ---------- The MAC is the key's ----------

  ghost predicate MacMatches(key: string, c: Client) {
    if MacKey(key) then key == "mac:" + c.mac else c.mac == ""
  }

  ghost predicate MacsMatch(t: Clients) {
    forall k :: k in t ==> MacMatches(k, t[k])
  }

  lemma NormalMacIsLower(net: Net, text: string)
    ensures Lower(NormalMac(net, text)) == NormalMac(net, text)
  {
    if net.mac(TrimSpace(text)).Some? { LowerTwice(net.mac(TrimSpace(text)).value); }
  }

  lemma KeyHoldsMac(net: Net, text: string, ip: string, c: Client)
    requires c.mac == NormalMac(net, text)
    ensures MacMatches(Key(net, c.mac, ip), c)
  {
    NormalMacIsLower(net, text);
    KeyKinds(net, c.mac, ip);
    hide NormalMac, MacKey, Lower;
  }

  lemma LeaseMacs(net: Net, t: Clients, l: Lease)
    requires MacsMatch(t)
    ensures MacsMatch(AddLease(net, t, l))
  {
    var ip := TrimSpace(l.ip);
    KeyHoldsMac(net, l.mac, ip, Client(NormalMac(net, l.mac), ip, CleanHostname(l.hostname), "", "dhcp", "lease", false));
    hide MacMatches, NormalMac, TrimSpace, CleanHostname, Key;
  }

  lemma OtherMacs(t: Clients, t': Clients, key: string)
    requires MacsMatch(t) && t'.Keys <= t.Keys + {key} && forall k :: k in t && k in t' && k != key ==> t'[k] == t[k]
    requires key in t' ==> MacMatches(key, t'[key])
    ensures MacsMatch(t')
  {
  }

  lemma NeighbourMacs(net: Net, t: Clients, n: Neighbour)
    requires MacsMatch(t)
    ensures MacsMatch(AddNeighbour(net, t, n))
  {
    var key, t' := NeighbourKey(net, n), AddNeighbour(net, t, n);
    KeyHoldsMac(net, n.mac, TrimSpace(n.ip), Client(NormalMac(net, n.mac), "", "", "", "", "", false));
    if key in t' && key in t { assert t'[key].mac == t[key].mac && MacMatches(key, t[key]); }
    hide NormalMac, TrimSpace, Key, MacKey, WanInterface, ActiveState, PreferredIp;
    OtherMacs(t, t', key);
  }

  lemma StationMacs(net: Net, t: Clients, s: Station)
    requires MacsMatch(t)
    ensures MacsMatch(AddStation(net, t, s))
  {
    var key, t' := StationKey(net, s), AddStation(net, t, s);
    KeyHoldsMac(net, s.mac, "", Client(NormalMac(net, s.mac), "", "", "", "", "", false));
    if key in t' && key in t { assert t'[key].mac == t[key].mac && MacMatches(key, t[key]); }
    hide NormalMac, TrimSpace, Key, MacKey;
    OtherMacs(t, t', key);
  }

  lemma ProbeMacs(net: Net, t: Clients, p: Probe)
    requires MacsMatch(t)
    ensures MacsMatch(AddProbe(net, t, p))
  {
    var key, t' := ProbeKey(net, p), AddProbe(net, t, p);
    KeyHoldsMac(net, p.mac, TrimSpace(p.ip), Client(NormalMac(net, p.mac), "", "", "", "", "", false));
    if key in t' && key in t { assert t'[key].mac == t[key].mac && MacMatches(key, t[key]); }
    hide NormalMac, TrimSpace, Key, MacKey, Reachable;
    OtherMacs(t, t', key);
  }

  lemma {:induction false} LeasesMacs(net: Net, ls: seq<Lease>)
    ensures MacsMatch(AddLeases(net, ls))
  {
    if ls != [] {
      LeasesMacs(net, ls[..|ls| - 1]);
      LeaseMacs(net, AddLeases(net, ls[..|ls| - 1]), ls[|ls| - 1]);
    }
  }

  lemma {:induction false} NeighboursMacs(net: Net, t: Clients, ns: seq<Neighbour>)
    requires MacsMatch(t)
    ensures MacsMatch(AddNeighbours(net, t, ns))
  {
    if ns != [] {
      NeighboursMacs(net, t, ns[..|ns| - 1]);
      NeighbourMacs(net, AddNeighbours(net, t, ns[..|ns| - 1]), ns[|ns| - 1]);
    }
  }

  lemma {:induction false} StationsMacs(net: Net, t: Clients, ss: seq<Station>)
    requires MacsMatch(t)
    ensures MacsMatch(AddStations(net, t, ss))
  {
    if ss != [] {
      StationsMacs(net, t, ss[..|ss| - 1]);
      StationMacs(net, AddStations(net, t, ss[..|ss| - 1]), ss[|ss| - 1]);
    }
  }

  lemma {:induction false} ProbesMacs(net: Net, t: Clients, ps: seq<Probe>)
    requires MacsMatch(t)
    ensures MacsMatch(AddProbes(net, t, ps))
  {
    if ps != [] {
      ProbesMacs(net, t, ps[..|ps| - 1]);
      ProbeMacs(net, AddProbes(net, t, ps[..|ps| - 1]), ps[|ps| - 1]);
    }
  }

  /** A client known by its MAC has that MAC, and any other has none. */
  lemma MergedMacsMatch(net: Net, inv: Inventory)
    ensures MacsMatch(Merged(net, inv))
  {
    LeasesMacs(net, inv.leases);
    var t1 := AddLeases(net, inv.leases);
    NeighboursMacs(net, t1, inv.neighbours);
    var t2 := AddNeighbours(net, t1, inv.neighbours);
    StationsMacs(net, t2, inv.stations);
    ProbesMacs(net, AddStations(net, t2, inv.stations), inv.probes);
  }

  // ---------- Host name, interface and address ----------

  function HostOf(t: Clients, key: string): string { if key in t then t[key].hostname else "" }
  function IfaceOf(t: Clients, key: string): string { if key in t then t[key].iface else "" }

  /** The last lease of the key. */
  ghost predicate IsLastLease(net: Net, ls: seq<Lease>, key: string, i: nat) {
    i < |ls| && LeaseKey(net, ls[i]) == key && forall j :: i < j < |ls| ==> LeaseKey(net, ls[j]) != key
  }

  lemma {:induction false} LeaseFields(net: Net, ls: seq<Lease>, key: string, i: nat)
    requires key != "" && IsLastLease(net, ls, key, i)
    ensures var t := AddLeases(net, ls);
      key in t && t[key].hostname == CleanHostname(ls[i].hostname) && t[key].ip == TrimSpace(ls[i].ip) && t[key].iface == ""
  {
    hide LeaseKey, NormalMac, TrimSpace, CleanHostname;
    var last := |ls| - 1;
    if i < last {
      assert forall j :: 0 <= j < last ==> ls[..last][j] == ls[j];
      LeaseFields(net, ls[..last], key, i);
    }
  }

  lemma {:induction false} NoLeaseNoFields(net: Net, ls: seq<Lease>, key: string)
    requires forall j :: 0 <= j < |ls| ==> LeaseKey(net, ls[j]) != key
    ensures key !in AddLeases(net, ls)
  {
    hide LeaseKey, NormalMac, TrimSpace, CleanHostname;
    if ls != [] {
      assert forall j :: 0 <= j < |ls| - 1 ==> ls[..|ls| - 1][j] == ls[j];
      NoLeaseNoFields(net, ls[..|ls| - 1], key);
    }
  }

  /** A neighbour off the WAN with the key, active or not. */
  predicate Near(net: Net, n: Neighbour, key: string) {
    !WanInterface(TrimSpace(n.iface)) && NeighbourKey(net, n) == key
  }

  ghost predicate LastNear(net: Net, ns: seq<Neighbour>, key: string, text: string) {
    exists i :: 0 <= i < |ns| && Near(net, ns[i], key) && text == TrimSpace(ns[i].iface) && forall j :: i < j < |ns| ==> !Near(net, ns[j], key)
  }

  /** What the neighbours do to the name, interface and address of one client. */
  ghost predicate NearEffect(net: Net, ns: seq<Neighbour>, key: string, t: Clients, t': Clients) {
    && HostOf(t', key) == HostOf(t, key)
    && (key in t' ==> LastNear(net, ns, key, t'[key].iface) || (t'[key].iface == IfaceOf(t, key) && forall j :: 0 <= j < |ns| ==> !Near(net, ns[j], key)))
    && (key in t && Firm(net, t[key].ip) ==> key in t' && t'[key].ip == t[key].ip)
  }

  /** An address that no neighbour replaces: trimmed, present and not IPv6. */
  predicate Firm(net: Net, ip: string) {
    ip != "" && TrimSpace(ip) == ip && !net.ip(ip).V6?
  }

  /** Of two addresses the current one is kept, unless it is missing, or is IPv6 and the other IPv4. */
  lemma PreferredIpIsExact(net: Net, current: string, candidate: string)
    ensures var r, a, b := PreferredIp(net, current, candidate), TrimSpace(current), TrimSpace(candidate);
      && (a == "" ==> r == b)
      && (a != "" && net.ip(a).V6? && net.ip(b).V4? ==> r == net.ip(b).text)
      && (a != "" && !(net.ip(a).V6? && net.ip(b).V4?) ==> r == a)
  {
    hide TrimSpace;
  }

  lemma OneNear(net: Net, t: Clients, n: Neighbour, key: string)
    requires key != ""
    ensures var t' := AddNeighbour(net, t, n);
      && HostOf(t', key) == HostOf(t, key) && (key in t ==> key in t')
      && (key in t' ==> t'[key].iface == if Near(net, n, key) then TrimSpace(n.iface) else IfaceOf(t, key))
      && (key in t && Firm(net, t[key].ip) ==> t'[key].ip == t[key].ip)
  {
    if key in t { PreferredIpIsExact(net, t[key].ip, TrimSpace(n.ip)); }
    hide WanInterface, ActiveState, PreferredIp, NormalMac, Key, TrimSpace, Upper, Lower;
  }

  lemma NearMore(net: Net, ns: seq<Neighbour>, n: Neighbour, key: string, t: Clients, t1: Clients, t2: Clients)
    requires NearEffect(net, ns, key, t, t1)
    requires HostOf(t2, key) == HostOf(t1, key) && (key in t1 ==> key in t2)
    requires key in t2 ==> t2[key].iface == if Near(net, n, key) then TrimSpace(n.iface) else IfaceOf(t1, key)
    requires key in t1 && Firm(net, t1[key].ip) ==> t2[key].ip == t1[key].ip
    requires key in t2 && !Near(net, n, key) ==> key in t1
    ensures NearEffect(net, ns + [n], key, t, t2)
  {
    hide Near, TrimSpace, Firm;
    var all := ns + [n];
    assert all[|ns|] == n && forall j :: 0 <= j < |ns| ==> all[j] == ns[j];
    if key in t2 {
      if Near(net, n, key) {
        assert LastNear(net, all, key, t2[key].iface);
      } else if LastNear(net, ns, key, t1[key].iface) {
        var i :| 0 <= i < |ns| && Near(net, ns[i], key) && t1[key].iface == TrimSpace(ns[i].iface) && forall j :: i < j < |ns| ==> !Near(net, ns[j], key);
        assert Near(net, all[i], key) && forall j :: i < j < |all| ==> !Near(net, all[j], key);
      } else {
        assert forall j :: 0 <= j < |all| ==> !Near(net, all[j], key);
      }
    }
  }

  lemma NearNeeded(net: Net, t: Clients, n: Neighbour, key: string)
    requires key in AddNeighbour(net, t, n) && key !in t
    ensures Near(net, n, key)
  {
    hide ActiveState, PreferredIp, NormalMac, Key, TrimSpace, Upper, Lower, WanInterface;
  }

  lemma {:induction false} AfterNear(net: Net, t: Clients, ns: seq<Neighbour>, key: string)
    requires key != ""
    ensures NearEffect(net, ns, key, t, AddNeighbours(net, t, ns))
  {
    hide AddNeighbour, AddNeighbours, Near, NearEffect, Firm, TrimSpace, HostOf, IfaceOf;
    NeighboursUnfold(net, t, ns, key);
    if ns != [] {
      var rest, n := ns[..|ns| - 1], ns[|ns| - 1];
      AfterNear(net, t, rest, key);
      var t1 := AddNeighbours(net, t, rest);
      var t2 := AddNeighbour(net, t1, n);
      OneNear(net, t1, n, key);
      if key in t2 && key !in t1 { NearNeeded(net, t1, n, key); }
      NearMore(net, rest, n, key, t, t1, t2);
      assert ns == rest + [n];
    }
  }

  lemma NeighboursUnfold(net: Net, t: Clients, ns: seq<Neighbour>, key: string)
    ensures ns != [] ==> AddNeighbours(net, t, ns) == AddNeighbour(net, AddNeighbours(net, t, ns[..|ns| - 1]), ns[|ns| - 1])
    ensures ns == [] ==> NearEffect(net, ns, key, t, AddNeighbours(net, t, ns))
  {
    hide AddNeighbour, Near, Firm;
  }

  ghost predicate LastStation(net: Net, ss: seq<Station>, key: string, text: string) {
    exists i :: 0 <= i < |ss| && StationKey(net, ss[i]) == key && text == TrimSpace(ss[i].iface) && forall j :: i < j < |ss| ==> StationKey(net, ss[j]) != key
  }

  ghost predicate StationEffect(net: Net, ss: seq<Station>, key: string, t: Clients, t': Clients) {
    && HostOf(t', key) == HostOf(t, key)
    && (if exists i :: 0 <= i < |ss| && StationKey(net, ss[i]) == key then LastStation(net, ss, key, IfaceOf(t', key)) else IfaceOf(t', key) == IfaceOf(t, key))
    && (key in t ==> key in t' && t'[key].ip == t[key].ip)
  }

  lemma OneStation(net: Net, t: Clients, s: Station, key: string)
    requires key != ""
    ensures var t' := AddStation(net, t, s);
      && HostOf(t', key) == HostOf(t, key) && (key in t ==> key in t' && t'[key].ip == t[key].ip)
      && IfaceOf(t', key) == if StationKey(net, s) == key then TrimSpace(s.iface) else IfaceOf(t, key)
  {
    hide StationKey, NormalMac, TrimSpace;
  }

  lemma StationMore(net: Net, ss: seq<Station>, s: Station, key: string, t: Clients, t1: Clients, t2: Clients)
    requires StationEffect(net, ss, key, t, t1)
    requires HostOf(t2, key) == HostOf(t1, key) && (key in t1 ==> key in t2 && t2[key].ip == t1[key].ip)
    requires IfaceOf(t2, key) == if StationKey(net, s) == key then TrimSpace(s.iface) else IfaceOf(t1, key)
    ensures StationEffect(net, ss + [s], key, t, t2)
  {
    hide StationKey, TrimSpace;
    var all := ss + [s];
    assert all[|ss|] == s && forall j :: 0 <= j < |ss| ==> all[j] == ss[j];
    if StationKey(net, s) == key {
      assert LastStation(net, all, key, IfaceOf(t2, key));
    } else if exists i :: 0 <= i < |ss| && StationKey(net, ss[i]) == key {
      var text := IfaceOf(t1, key);
      var i :| 0 <= i < |ss| && StationKey(net, ss[i]) == key && text == TrimSpace(ss[i].iface) && forall j :: i < j < |ss| ==> StationKey(net, ss[j]) != key;
      assert StationKey(net, all[i]) == key && forall j :: i < j < |all| ==> StationKey(net, all[j]) != key;
      assert LastStation(net, all, key, text);
    } else {
      assert forall j :: 0 <= j < |all| ==> StationKey(net, all[j]) != key;
    }
  }

  lemma {:induction false} AfterStationFields(net: Net, t: Clients, ss: seq<Station>, key: string)
    requires key != ""
    ensures StationEffect(net, ss, key, t, AddStations(net, t, ss))
  {
    hide AddStation, AddStations, StationEffect, TrimSpace, StationKey, HostOf, IfaceOf;
    StationsUnfold(net, t, ss, key);
    if ss != [] {
      var rest, s := ss[..|ss| - 1], ss[|ss| - 1];
      AfterStationFields(net, t, rest, key);
      var t1 := AddStations(net, t, rest);
      OneStation(net, t1, s, key);
      StationMore(net, rest, s, key, t, t1, AddStation(net, t1, s));
      assert ss == rest + [s];
    }
  }

  lemma StationsUnfold(net: Net, t: Clients, ss: seq<Station>, key: string)
    ensures ss != [] ==> AddStations(net, t, ss) == AddStation(net, AddStations(net, t, ss[..|ss| - 1]), ss[|ss| - 1])
    ensures ss == [] ==> StationEffect(net, ss, key, t, AddStations(net, t, ss))
  {
    hide AddStation, StationKey;
  }

  lemma {:induction false} AfterProbeFields(net: Net, t: Clients, ps: seq<Probe>, key: string)
    ensures var t' := AddProbes(net, t, ps);
      HostOf(t', key) == HostOf(t, key) && IfaceOf(t', key) == IfaceOf(t, key) && (key in t ==> key in t' && t'[key].ip == t[key].ip)
  {
    hide ProbeKey, NormalMac, TrimSpace, Reachable;
    if ps != [] { AfterProbeFields(net, t, ps[..|ps| - 1], key); }
  }

  lemma MergedSteps(net: Net, inv: Inventory, key: string)
    requires key != ""
    ensures var t1 := AddLeases(net, inv.leases);
      var t2 := AddNeighbours(net, t1, inv.neighbours);
      var t3 := AddStations(net, t2, inv.stations);
      var t4 := Merged(net, inv);
      && NearEffect(net, inv.neighbours, key, t1, t2) && StationEffect(net, inv.stations, key, t2, t3)
      && HostOf(t4, key) == HostOf(t3, key) && IfaceOf(t4, key) == IfaceOf(t3, key) && (key in t3 ==> key in t4 && t4[key].ip == t3[key].ip)
  {
    var t1 := AddLeases(net, inv.leases);
    var t2 := AddNeighbours(net, t1, inv.neighbours);
    AfterNear(net, t1, inv.neighbours, key);
    AfterStationFields(net, t2, inv.stations, key);
    AfterProbeFields(net, AddStations(net, t2, inv.stations), inv.probes, key);
    hide NearEffect, StationEffect, AddLeases, AddNeighbours, AddStations, AddProbes;
  }

  /** The host name is that of the last lease of the key; without a lease there is none. */
  lemma HostNamesAreExact(net: Net, inv: Inventory, key: string, i: nat)
    requires key != "" && (IsLastLease(net, inv.leases, key, i) || forall j :: 0 <= j < |inv.leases| ==> LeaseKey(net, inv.leases[j]) != key)
    ensures HostOf(Merged(net, inv), key) == if IsLastLease(net, inv.leases, key, i) then CleanHostname(inv.leases[i].hostname) else ""
  {
    MergedSteps(net, inv, key);
    if IsLastLease(net, inv.leases, key, i) { LeaseFields(net, inv.leases, key, i); } else { NoLeaseNoFields(net, inv.leases, key); }
    hide Merged, AddLeases, AddNeighbours, AddStations, LastNear, LastStation, Near, Firm, IsLastLease, CleanHostname;
  }

  /** The interface is that of the last station of the key, else of the last neighbour off the WAN, if any. */
  lemma InterfacesAreExact(net: Net, inv: Inventory, key: string)
    requires key != "" && key in Merged(net, inv)
    ensures var iface := Merged(net, inv)[key].iface;
      if OnWifi(net, inv, key) then LastStation(net, inv.stations, key, iface)
      else LastNear(net, inv.neighbours, key, iface) || iface == ""
    ensures !OnWifi(net, inv, key) && (Leased(net, inv, key) || (MacKey(key) && Attested(net, inv, key))) && Merged(net, inv)[key].iface == "" ==>
      LastNear(net, inv.neighbours, key, "") || forall j :: 0 <= j < |inv.neighbours| ==> !Near(net, inv.neighbours[j], key)
  {
    MergedSteps(net, inv, key);
    LeaseIfaces(net, inv.leases, key);
    AfterLeases(net, inv.leases, key);
    AfterNeighbours(net, AddLeases(net, inv.leases), inv.neighbours, key);
    WifiByIndex(net, inv, key);
    hide Merged, AddLeases, AddNeighbours, AddStations, LastNear, LastStation, Near, Firm, OnWifi, MacKey, Attests, StationKey, LeaseKey, LastAttests;
  }

  lemma WifiByIndex(net: Net, inv: Inventory, key: string)
    ensures OnWifi(net, inv, key) <==> exists i :: 0 <= i < |inv.stations| && StationKey(net, inv.stations[i]) == key
  {
    hide StationKey;
    if i :| 0 <= i < |inv.stations| && StationKey(net, inv.stations[i]) == key { assert inv.stations[i] in inv.stations; }
  }

  lemma {:induction false} LeaseIfaces(net: Net, ls: seq<Lease>, key: string)
    ensures IfaceOf(AddLeases(net, ls), key) == ""
  {
    hide LeaseKey, NormalMac, TrimSpace, CleanHostname;
    if ls != [] { LeaseIfaces(net, ls[..|ls| - 1], key); }
  }

  /** A leased address that is present and not IPv6 is the client's address, whatever neighbours report. */
  lemma LeasedAddressStays(net: Net, inv: Inventory, key: string, i: nat)
    requires key != "" && IsLastLease(net, inv.leases, key, i)
    requires var ip := TrimSpace(inv.leases[i].ip); ip != "" && !net.ip(ip).V6?
    ensures key in Merged(net, inv) && Merged(net, inv)[key].ip == TrimSpace(inv.leases[i].ip)
  {
    TrimTwice(inv.leases[i].ip);
    MergedSteps(net, inv, key);
    LeaseFields(net, inv.leases, key, i);
    hide Merged, AddLeases, AddNeighbours, AddStations, LastNear, LastStation, Near, IsLastLease, TrimSpace, StationKey;
  }

  // ---------- Stored rows ----------

  /** A column takes what was observed, and keeps what it had where nothing was. */
  ghost predicate Column(stored: string, observed: string, before: string) {
    if observed == "" then stored == before else stored == observed
  }

  /** The row that stood before the upsert, if any: not swept for its WAN interface or for being unexplained. */
  ghost predicate Survives(rows: Rows, key: string) {
    && key in rows && !WanName(Lower(rows[key].iface)) && (rows[key].lastSeen.Some? || rows[key].confirmation == "lease")
  }

  /** Every column of an observed client after a sync. */
  lemma ObservedRowIsExact(net: Net, rows: Rows, inv: Inventory, now: int, key: string)
    requires key in Merged(net, inv)
    ensures key in Synced(net, rows, inv, now)
    ensures var c, row := Merged(net, inv)[key], Synced(net, rows, inv, now)[key];
      && row.lastChecked == now
      && row.firstSeen == (if Survives(rows, key) then rows[key].firstSeen else now)
      && row.lastSeen == (if c.confirmed then Some(now) else if Survives(rows, key) then rows[key].lastSeen else None)
      && Column(row.mac, c.mac, if Survives(rows, key) then rows[key].mac else "")
      && Column(row.ip, c.ip, if Survives(rows, key) then rows[key].ip else "")
      && Column(row.hostname, c.hostname, if Survives(rows, key) then rows[key].hostname else "")
      && Column(row.iface, c.iface, if Survives(rows, key) then rows[key].iface else "")
      && Column(row.connection, c.connection, if Survives(rows, key) then rows[key].connection else "")
      && Column(row.confirmation, c.confirmation, if Survives(rows, key) then rows[key].confirmation else "")
  {
    hide Merged, WanName, Lower;
  }

  /** A client that is not observed keeps its row, or loses it. */
  lemma UnobservedRowStays(net: Net, rows: Rows, inv: Inventory, now: int, key: string)
    requires key !in Merged(net, inv) && key in Synced(net, rows, inv, now)
    ensures Survives(rows, key) && Synced(net, rows, inv, now)[key] == rows[key]
  {
    hide Merged, WanName, Lower;
  }

  // ---------- Words that decide ----------

  ghost predicate Starts(name: string, prefix: string) {
    |prefix| <= |name| && name[..|prefix|] == prefix
  }

  /** An interface is on the WAN side exactly under these names and prefixes, in any case. */
  lemma WanNamesAreListed(iface: string)
    ensures WanInterface(iface) <==>
      var name := Lower(TrimSpace(iface));
      name in ["wan", "wan6"] || exists p :: p in ["pppoe-wan", "wan.", "wan_", "wwan"] && Starts(name, p)
  {
    hide Lower, TrimSpace;
    var name, list := Lower(TrimSpace(iface)), ["pppoe-wan", "wan.", "wan_", "wwan"];
    assert list[0] in list && list[1] in list && list[2] in list && list[3] in list;
    assert forall p: string :: p <= name <==> Starts(name, p);
  }

  /** A neighbour is active exactly in three states, and a probe answers exactly when it says true, in any case. */
  lemma StatesAreListed(state: string, p: Probe)
    ensures ActiveState(state) <==> Upper(TrimSpace(state)) in ["DELAY", "PROBE", "REACHABLE"]
    ensures Reachable(p) <==> Lower(p.reachable) == ['t', 'r', 'u', 'e']
  {
    hide Upper, Lower, TrimSpace;
  }

  /** A host name is the trimmed text, at most 253 characters of it, and nothing for an asterisk. */
  lemma HostNamesAreClean(text: string)
    ensures var name, r := TrimSpace(text), CleanHostname(text);
      && |r| <= 253 && (r == "" <==> name == "" || name == "*")
      && (name != "*" ==> r <= name && (|r| == |name| || |r| == 253))
  {
    hide TrimSpace;
  }

  /** A key tells a MAC from an IPv4 address, and there is one exactly for either. */
  lemma KeysAreExact(net: Net, mac: string, ip: string)
    ensures Key(net, mac, ip) == "" <==> mac == "" && !net.ip(ip).V4?
    ensures mac != "" ==> Starts(Key(net, mac, ip), "mac:") && Key(net, mac, ip)[4..] == Lower(mac)
    ensures mac == "" && net.ip(ip).V4? ==> Starts(Key(net, mac, ip), "ip:") && Key(net, mac, ip)[3..] == net.ip(ip).text
  {
    hide Lower;
  }
}
