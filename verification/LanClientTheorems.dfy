/** What the merge of LAN clients means, without its passes, and what the stored rows say over every run of syncs. */
module LanClientTheorems {
  import opened Text
  import opened Units
  import opened LanClients

  // ---------- The meaning of an inventory ----------

  ghost predicate Leased(net: Net, inv: Inventory, key: string) {
    exists l :: l in inv.leases && LeaseKey(net, l) == key
  }

  /** An active neighbour off the WAN with this key. */
  predicate Attests(net: Net, n: Neighbour, key: string) {
    !WanInterface(TrimSpace(n.iface)) && NeighbourKey(net, n) == key && ActiveState(Upper(TrimSpace(n.state)))
  }

  ghost predicate Attested(net: Net, inv: Inventory, key: string) {
    exists n :: n in inv.neighbours && Attests(net, n, key)
  }

  ghost predicate OnWifi(net: Net, inv: Inventory, key: string) {
    exists s :: s in inv.stations && StationKey(net, s) == key
  }

  ghost predicate Probed(net: Net, inv: Inventory, key: string) {
    exists p :: p in inv.probes && Reachable(p) && ProbeKey(net, p) == key
  }

  predicate MacKey(key: string) {
    "mac:" <= key
  }

  /** The clients of an inventory. A neighbour without a MAC only counts for a leased address. */
  ghost predicate Present(net: Net, inv: Inventory, key: string) {
    key != ""
    && (Leased(net, inv, key) || (MacKey(key) && Attested(net, inv, key)) || OnWifi(net, inv, key) || Probed(net, inv, key))
  }

  ghost predicate Alive(net: Net, inv: Inventory, key: string) {
    key != ""
    && (((MacKey(key) || Leased(net, inv, key)) && Attested(net, inv, key)) || OnWifi(net, inv, key) || Probed(net, inv, key))
  }

  // ---------- Pass by pass ----------

  lemma KeyKinds(net: Net, mac: string, ip: string)
    ensures MacKey(Key(net, mac, ip)) <==> mac != ""
  {
    if mac == "" && net.ip(ip).V4? {
      assert ("ip:" + net.ip(ip).text)[0] == 'i';
    }
  }

  lemma {:induction false} AfterLeases(net: Net, ls: seq<Lease>, key: string)
    ensures var t := AddLeases(net, ls);
      (key in t <==> key != "" && exists l :: l in ls && LeaseKey(net, l) == key)
      && (key in t ==> !t[key].confirmed && t[key].confirmation == "lease" && t[key].connection == "dhcp")
  {
    if ls != [] {
      var rest, l := ls[..|ls| - 1], ls[|ls| - 1];
      assert ls == rest + [l];
      hide LeaseKey, NormalMac, TrimSpace, CleanHostname;
      AfterLeases(net, rest, key);
    }
  }

  function NeighbourText(n: Neighbour): string {
    "neighbor:" + Lower(Upper(TrimSpace(n.state)))
  }

  /** The text of the last attesting neighbour. */
  ghost predicate LastAttests(net: Net, ns: seq<Neighbour>, key: string, text: string) {
    exists i :: 0 <= i < |ns| && Attests(net, ns[i], key) && text == NeighbourText(ns[i])
                && forall j :: i < j < |ns| ==> !Attests(net, ns[j], key)
  }

  /** What neighbours `ns` make of one client: `t` before them, `t'` after. */
  ghost predicate NeighbourEffect(net: Net, ns: seq<Neighbour>, key: string, t: Clients, t': Clients) {
    var seen := exists n :: n in ns && Attests(net, n, key);
    (key in t' <==> key in t || (MacKey(key) && seen))
    && (key in t' ==>
          (t'[key].confirmed <==> seen || (key in t && t[key].confirmed))
          && (if seen then t'[key].connection == "wired" && LastAttests(net, ns, key, t'[key].confirmation)
              else t'[key].connection == t[key].connection && t'[key].confirmation == t[key].confirmation))
  }

  /** What one neighbour makes of one client. */
  ghost predicate OneNeighbourEffect(net: Net, n: Neighbour, key: string, t: Clients, t': Clients) {
    (key in t' <==> key in t || (MacKey(key) && Attests(net, n, key)))
    && (key in t' ==>
          (t'[key].confirmed <==> Attests(net, n, key) || (key in t && t[key].confirmed))
          && (if Attests(net, n, key) then t'[key].connection == "wired" && t'[key].confirmation == NeighbourText(n)
              else t'[key].connection == t[key].connection && t'[key].confirmation == t[key].confirmation))
  }

  lemma NeighbourStep(net: Net, t: Clients, n: Neighbour, key: string)
    requires key != ""
    ensures OneNeighbourEffect(net, n, key, t, AddNeighbour(net, t, n))
  {
    KeyKinds(net, NormalMac(net, n.mac), TrimSpace(n.ip));
    hide MacKey, NormalMac, WanInterface, ActiveState, TrimSpace, Upper, Lower, PreferredIp;
  }

  lemma LastStays(net: Net, ns: seq<Neighbour>, n: Neighbour, key: string, text: string)
    requires LastAttests(net, ns, key, text) && !Attests(net, n, key)
    ensures LastAttests(net, ns + [n], key, text)
  {
    hide Attests, NeighbourText;
    var i :| 0 <= i < |ns| && Attests(net, ns[i], key) && text == NeighbourText(ns[i])
             && forall j :: i < j < |ns| ==> !Attests(net, ns[j], key);
    assert (ns + [n])[i] == ns[i];
  }

  lemma OneMoreNeighbour(net: Net, ns: seq<Neighbour>, n: Neighbour, key: string, t: Clients, t1: Clients, t2: Clients)
    requires NeighbourEffect(net, ns, key, t, t1) && OneNeighbourEffect(net, n, key, t1, t2)
    ensures NeighbourEffect(net, ns + [n], key, t, t2)
  {
    hide Attests, MacKey, NeighbourText, LastAttests;
    var all := ns + [n];
    assert (exists m :: m in all && Attests(net, m, key)) <==> Attests(net, n, key) || exists m :: m in ns && Attests(net, m, key) by {
      assert n in all && forall m :: m in all <==> m in ns || m == n;
    }
    if key in t2 {
      if Attests(net, n, key) {
        LastIsNew(net, ns, n, key);
      } else if exists m :: m in ns && Attests(net, m, key) {
        LastStays(net, ns, n, key, t1[key].confirmation);
      }
    }
  }

  lemma LastIsNew(net: Net, ns: seq<Neighbour>, n: Neighbour, key: string)
    requires Attests(net, n, key)
    ensures LastAttests(net, ns + [n], key, NeighbourText(n))
  {
    hide Attests, NeighbourText;
    assert (ns + [n])[|ns|] == n;
  }

  lemma {:induction false} AfterNeighbours(net: Net, t: Clients, ns: seq<Neighbour>, key: string)
    requires key != ""
    ensures NeighbourEffect(net, ns, key, t, AddNeighbours(net, t, ns))
  {
    if ns != [] {
      var rest, n := ns[..|ns| - 1], ns[|ns| - 1];
      AfterNeighbours(net, t, rest, key);
      NeighbourStep(net, AddNeighbours(net, t, rest), n, key);
      OneMoreNeighbour(net, rest, n, key, t, AddNeighbours(net, t, rest), AddNeighbour(net, AddNeighbours(net, t, rest), n));
      assert AddNeighbours(net, t, ns) == AddNeighbour(net, AddNeighbours(net, t, rest), n);
      hide AddNeighbour, AddNeighbours, NeighbourEffect;
      assert ns == rest + [n];
    }
  }

  lemma {:induction false} AfterStations(net: Net, t: Clients, ss: seq<Station>, key: string)
    requires key != ""
    ensures var t' := AddStations(net, t, ss);
      var seen := exists s :: s in ss && StationKey(net, s) == key;
      (key in t' <==> key in t || seen)
      && (key in t' ==> if seen then t'[key].confirmed && t'[key].confirmation == "wifi" && t'[key].connection == "wifi" else t'[key] == t[key])
  {
    hide StationKey, NormalMac, TrimSpace;
    if ss != [] {
      var rest, s := ss[..|ss| - 1], ss[|ss| - 1];
      assert ss == rest + [s];
      AfterStations(net, t, rest, key);
    }
  }

  lemma {:induction false} AfterProbes(net: Net, t: Clients, ps: seq<Probe>, key: string)
    requires key != ""
    ensures var t' := AddProbes(net, t, ps);
      var seen := exists p :: p in ps && Reachable(p) && ProbeKey(net, p) == key;
      (key in t' <==> key in t || seen)
      && (key in t' ==>
            if seen then
              t'[key].confirmed && t'[key].confirmation == "active_probe"
              && t'[key].connection == (if key in t && t[key].connection !in {"", "dhcp"} then t[key].connection else "wired")
            else t'[key] == t[key])
  {
    hide ProbeKey, NormalMac, TrimSpace, Reachable;
    if ps != [] {
      var rest, p := ps[..|ps| - 1], ps[|ps| - 1];
      assert ps == rest + [p];
      AfterProbes(net, t, rest, key);
    }
  }

  lemma {:induction false} NoEmptyKey(net: Net, inv: Inventory)
    ensures "" !in Merged(net, inv)
  {
    AfterLeases(net, inv.leases, "");
    NoEmptyNeighbour(net, AddLeases(net, inv.leases), inv.neighbours);
    var t := AddNeighbours(net, AddLeases(net, inv.leases), inv.neighbours);
    NoEmptyStation(net, t, inv.stations);
    NoEmptyProbe(net, AddStations(net, t, inv.stations), inv.probes);
  }

  lemma {:induction false} NoEmptyNeighbour(net: Net, t: Clients, ns: seq<Neighbour>)
    requires "" !in t
    ensures "" !in AddNeighbours(net, t, ns)
  {
    if ns != [] { NoEmptyNeighbour(net, t, ns[..|ns| - 1]); }
  }

  lemma {:induction false} NoEmptyStation(net: Net, t: Clients, ss: seq<Station>)
    requires "" !in t
    ensures "" !in AddStations(net, t, ss)
  {
    if ss != [] { NoEmptyStation(net, t, ss[..|ss| - 1]); }
  }

  lemma {:induction false} NoEmptyProbe(net: Net, t: Clients, ps: seq<Probe>)
    requires "" !in t
    ensures "" !in AddProbes(net, t, ps)
  {
    if ps != [] { NoEmptyProbe(net, t, ps[..|ps| - 1]); }
  }

  // ---------- The merge refines its meaning ----------

  /** Which clients exist, which are confirmed, how they connect and what a confirmation says. */
  lemma MergeIsExact(net: Net, inv: Inventory, key: string)
    ensures key in Merged(net, inv) <==> Present(net, inv, key)
    ensures key in Merged(net, inv) ==>
      var c := Merged(net, inv)[key];
      (c.confirmed <==> Alive(net, inv, key))
      && c.connection == (if OnWifi(net, inv, key) then "wifi" else if Alive(net, inv, key) then "wired" else "dhcp")
      && (Probed(net, inv, key) ==> c.confirmation == "active_probe")
      && (!Probed(net, inv, key) && OnWifi(net, inv, key) ==> c.confirmation == "wifi")
      && (!Probed(net, inv, key) && !OnWifi(net, inv, key) && Alive(net, inv, key) ==>
            LastAttests(net, inv.neighbours, key, c.confirmation))
      && (!Alive(net, inv, key) ==> c.confirmation == "lease")
  {
    if key == "" {
      NoEmptyKey(net, inv);
    } else {
      var t1 := AddLeases(net, inv.leases);
      var t2 := AddNeighbours(net, t1, inv.neighbours);
      var t3 := AddStations(net, t2, inv.stations);
      AfterLeases(net, inv.leases, key);
      AfterNeighbours(net, t1, inv.neighbours, key);
      AfterStations(net, t2, inv.stations, key);
      AfterProbes(net, t3, inv.probes, key);
      hide AddLeases, AddNeighbours, AddStations, AddProbes, MacKey, Attests, LastAttests, LeaseKey, StationKey, ProbeKey, Reachable;
    }
  }

  /** The same observations, in any order and however often repeated. */
  ghost predicate SameObservations(a: Inventory, b: Inventory) {
    (forall l :: l in a.leases <==> l in b.leases)
    && (forall n :: n in a.neighbours <==> n in b.neighbours)
    && (forall s :: s in a.stations <==> s in b.stations)
    && (forall p :: p in a.probes <==> p in b.probes)
  }

  lemma SameMeaning(net: Net, a: Inventory, b: Inventory, key: string)
    requires SameObservations(a, b)
    ensures Present(net, a, key) == Present(net, b, key) && Alive(net, a, key) == Alive(net, b, key)
    ensures OnWifi(net, a, key) == OnWifi(net, b, key)
  {
    hide Attests, LeaseKey, StationKey, ProbeKey, Reachable, MacKey;
  }

  /** Existence, confirmation and connection do not depend on the order of the observations. */
  lemma OrderDoesNotMatter(net: Net, a: Inventory, b: Inventory)
    requires SameObservations(a, b)
    ensures Merged(net, a).Keys == Merged(net, b).Keys
    ensures forall k :: k in Merged(net, a) ==>
      Merged(net, a)[k].confirmed == Merged(net, b)[k].confirmed && Merged(net, a)[k].connection == Merged(net, b)[k].connection
  {
    forall k: string
      ensures k in Merged(net, a) <==> k in Merged(net, b)
      ensures k in Merged(net, a) ==>
        Merged(net, a)[k].confirmed == Merged(net, b)[k].confirmed && Merged(net, a)[k].connection == Merged(net, b)[k].connection
    {
      hide Merged, Present, Alive, SameObservations, OnWifi, Probed;
      SameMeaning(net, a, b, k);
      MergeIsExact(net, a, k);
      MergeIsExact(net, b, k);
    }
  }

  // ---------- Runs ----------

  datatype Sync = Sync(inv: Inventory, now: int)

  ghost predicate IsRun(net: Net, states: seq<Rows>, syncs: seq<Sync>) {
    |states| == |syncs| + 1 && states[0] == map[]
    && (forall i :: 0 <= i < |syncs| ==> states[i + 1] == Synced(net, states[i], syncs[i].inv, syncs[i].now))
    && (forall i, j :: 0 <= i < j < |syncs| ==> syncs[i].now <= syncs[j].now)
  }

  /** What a row says is backed by an earlier sync. */
  ghost predicate Backed(net: Net, syncs: seq<Sync>, key: string, row: Row) {
    (exists i :: 0 <= i < |syncs| && syncs[i].now == row.firstSeen && Present(net, syncs[i].inv, key))
    && (exists i :: 0 <= i < |syncs| && syncs[i].now == row.lastChecked && Present(net, syncs[i].inv, key))
    && (row.lastSeen.Some? ==> exists i :: 0 <= i < |syncs| && syncs[i].now == row.lastSeen.value && Alive(net, syncs[i].inv, key))
    && (row.lastSeen.None? ==>
          row.confirmation == "lease"
          && exists i :: 0 <= i < |syncs| && syncs[i].now == row.lastChecked && Leased(net, syncs[i].inv, key))
  }

  lemma BackedLonger(net: Net, syncs: seq<Sync>, more: Sync, key: string, row: Row)
    requires Backed(net, syncs, key, row)
    ensures Backed(net, syncs + [more], key, row)
  {
    hide Present, Alive, Leased;
    var all := syncs + [more];
    assert forall i :: 0 <= i < |syncs| ==> all[i] == syncs[i];
  }

  lemma NewRowIsBacked(net: Net, syncs: seq<Sync>, s: Sync, key: string)
    requires key in Merged(net, s.inv)
    ensures Backed(net, syncs + [s], key, NewRow(Merged(net, s.inv)[key], s.now))
  {
    MergeIsExact(net, s.inv, key);
    assert !Alive(net, s.inv, key) ==> Leased(net, s.inv, key);
    hide Present, Alive, Leased, Merged;
    assert (syncs + [s])[|syncs|] == s;
  }

  lemma UpdatedRowIsBacked(net: Net, syncs: seq<Sync>, s: Sync, key: string, row: Row)
    requires key in Merged(net, s.inv) && Backed(net, syncs, key, row)
    ensures Backed(net, syncs + [s], key, UpdatedRow(row, Merged(net, s.inv)[key], s.now))
  {
    MergeIsExact(net, s.inv, key);
    assert !Alive(net, s.inv, key) ==> Leased(net, s.inv, key);
    BackedLonger(net, syncs, s, key, row);
    hide Present, Alive, Leased, Merged;
    assert (syncs + [s])[|syncs|] == s;
  }

  lemma SyncIsBacked(net: Net, rows: Rows, syncs: seq<Sync>, s: Sync, key: string)
    requires key in rows ==> Backed(net, syncs, key, rows[key])
    requires key in Synced(net, rows, s.inv, s.now)
    ensures Backed(net, syncs + [s], key, Synced(net, rows, s.inv, s.now)[key])
  {
    hide Backed, Merged, NewRow, UpdatedRow;
    if key in Merged(net, s.inv) {
      NewRowIsBacked(net, syncs, s, key);
      if key in rows { UpdatedRowIsBacked(net, syncs, s, key, rows[key]); }
    } else {
      BackedLonger(net, syncs, s, key, rows[key]);
    }
  }

  /** In every run each stored row is backed; in particular a client never seen alive has confirmation "lease". */
  lemma {:induction false} RowsAreBacked(net: Net, states: seq<Rows>, syncs: seq<Sync>, key: string)
    requires IsRun(net, states, syncs) && key in states[|syncs|]
    ensures Backed(net, syncs, key, states[|syncs|][key])
  {
    hide Backed, Synced;
    var n := |syncs| - 1;
    var before, earlier := states[n], syncs[..n];
    assert syncs == earlier + [syncs[n]];
    if key in before {
      RowsAreBacked(net, states[..n + 1], earlier, key);
    }
    SyncIsBacked(net, before, earlier, syncs[n], key);
  }

  /** A sync leaves exactly its own clients and the earlier ones that are neither on the WAN, unexplained nor stale. */
  lemma SyncKeepsExactly(net: Net, rows: Rows, s: Sync, key: string)
    ensures key in Synced(net, rows, s.inv, s.now) <==>
      Present(net, s.inv, key)
      || (key in rows && !WanName(Lower(rows[key].iface))
          && (rows[key].lastSeen.Some? || (rows[key].confirmation == "lease" && rows[key].lastChecked >= s.now - DAY)))
  {
    MergeIsExact(net, s.inv, key);
    hide Merged, Present, WanName, Lower;
  }

  /** After every sync a client never seen alive has confirmation "lease", whatever rows were there before. */
  lemma UnseenMeansLease(net: Net, rows: Rows, s: Sync, key: string)
    requires key in Synced(net, rows, s.inv, s.now) && Synced(net, rows, s.inv, s.now)[key].lastSeen.None?
    ensures Synced(net, rows, s.inv, s.now)[key].confirmation == "lease"
  {
    MergeIsExact(net, s.inv, key);
    hide Merged, Present, Alive, WanName, Lower;
  }
}
