/**
 The clients of a device's LAN, merged from DHCP leases, kernel neighbours, Wi-Fi stations
 and reachability probes, and the stored rows that a merge updates.
 */
module LanClients {
  import opened Text
  import opened Units

  // ---------- Observations ----------

  datatype Address = NotAnAddress | V4(text: string) | V6

  /** How the network library reads addresses: a normalised MAC, and an IP with its canonical IPv4 text. */
  datatype Net = Net(mac: string -> Option<string>, ip: string -> Address)

  datatype Lease = Lease(mac: string, ip: string, hostname: string)
  datatype Neighbour = Neighbour(iface: string, mac: string, ip: string, state: string)
  datatype Station = Station(mac: string, iface: string)
  datatype Probe = Probe(mac: string, ip: string, reachable: string)
  datatype Inventory = Inventory(leases: seq<Lease>, neighbours: seq<Neighbour>, stations: seq<Station>, probes: seq<Probe>)

  datatype Client = Client(
    mac: string, ip: string, hostname: string, iface: string, connection: string, confirmation: string, confirmed: bool)

  type Clients = map<string, Client>

  function Lower(s: string): string {
    seq(|s|, i requires 0 <= i < |s| => if 'A' <= s[i] <= 'Z' then s[i] + ('a' - 'A') else s[i])
  }

  function Upper(s: string): string {
    seq(|s|, i requires 0 <= i < |s| => if 'a' <= s[i] <= 'z' then s[i] - ('a' - 'A') else s[i])
  }

  function NormalMac(net: Net, text: string): string {
    var mac := net.mac(TrimSpace(text));
    if mac.Some? then Lower(mac.value) else ""
  }

  /** Clients are known by MAC, or by IPv4 address where there is none; anything else has no key. */
  function Key(net: Net, mac: string, ip: string): string {
    if mac != "" then "mac:" + Lower(mac)
    else if net.ip(ip).V4? then "ip:" + net.ip(ip).text
    else ""
  }

  predicate ActiveState(state: string) {
    Upper(TrimSpace(state)) in {"REACHABLE", "DELAY", "PROBE"}
  }

  predicate WanName(name: string) {
    name == "wan" || name == "wan6" || "wan." <= name || "wan_" <= name || "pppoe-wan" <= name || "wwan" <= name
  }

  predicate WanInterface(iface: string) {
    WanName(Lower(TrimSpace(iface)))
  }

  function PreferredIp(net: Net, current: string, candidate: string): string {
    var now, next := TrimSpace(current), TrimSpace(candidate);
    if now == "" then next
    else if net.ip(now).V6? && net.ip(next).V4? then net.ip(next).text
    else now
  }

  const HOSTNAME_LIMIT: nat := 253

  function CleanHostname(text: string): string {
    var name := TrimSpace(text);
    if name == "*" then "" else if |name| > HOSTNAME_LIMIT then name[..HOSTNAME_LIMIT] else name
  }

  function LeaseKey(net: Net, l: Lease): string { Key(net, NormalMac(net, l.mac), TrimSpace(l.ip)) }
  function NeighbourKey(net: Net, n: Neighbour): string { Key(net, NormalMac(net, n.mac), TrimSpace(n.ip)) }
  function StationKey(net: Net, s: Station): string { Key(net, NormalMac(net, s.mac), "") }
  function ProbeKey(net: Net, p: Probe): string { Key(net, NormalMac(net, p.mac), TrimSpace(p.ip)) }

  predicate Reachable(p: Probe) {
    Lower(p.reachable) == "true"
  }

  // ---------- The four passes, one observation at a time ----------

  function AddLease(net: Net, t: Clients, l: Lease): Clients {
    var key := LeaseKey(net, l);
    if key == "" then t
    else t[key := Client(NormalMac(net, l.mac), TrimSpace(l.ip), CleanHostname(l.hostname), "", "dhcp", "lease", false)]
  }

  function AddNeighbour(net: Net, t: Clients, n: Neighbour): Clients {
    var iface, key := TrimSpace(n.iface), NeighbourKey(net, n);
    var mac, ip := NormalMac(net, n.mac), TrimSpace(n.ip);
    var state := Upper(TrimSpace(n.state));
    if WanInterface(iface) || key == "" || (key !in t && (mac == "" || !ActiveState(state))) then t
    else
      var item := if key in t then t[key] else Client(mac, ip, "", "", "", "", false);
      var seen := item.(ip := PreferredIp(net, item.ip, ip), iface := iface);
      t[key := if ActiveState(state) then seen.(confirmed := true, confirmation := "neighbor:" + Lower(state), connection := "wired") else seen]
  }

  function AddStation(net: Net, t: Clients, s: Station): Clients {
    var key := StationKey(net, s);
    if key == "" then t
    else
      var item := if key in t then t[key] else Client(NormalMac(net, s.mac), "", "", "", "", "", false);
      t[key := item.(iface := TrimSpace(s.iface), connection := "wifi", confirmation := "wifi", confirmed := true)]
  }

  function AddProbe(net: Net, t: Clients, p: Probe): Clients {
    var key := ProbeKey(net, p);
    if !Reachable(p) || key == "" then t
    else
      var item := if key in t then t[key] else Client(NormalMac(net, p.mac), TrimSpace(p.ip), "", "", "", "", false);
      t[key := item.(confirmed := true, confirmation := "active_probe",
                     connection := if item.connection in {"", "dhcp"} then "wired" else item.connection)]
  }

  function AddLeases(net: Net, ls: seq<Lease>): Clients {
    if ls == [] then map[] else AddLease(net, AddLeases(net, ls[..|ls| - 1]), ls[|ls| - 1])
  }

  function AddNeighbours(net: Net, t: Clients, ns: seq<Neighbour>): Clients {
    if ns == [] then t else AddNeighbour(net, AddNeighbours(net, t, ns[..|ns| - 1]), ns[|ns| - 1])
  }

  function AddStations(net: Net, t: Clients, ss: seq<Station>): Clients {
    if ss == [] then t else AddStation(net, AddStations(net, t, ss[..|ss| - 1]), ss[|ss| - 1])
  }

  function AddProbes(net: Net, t: Clients, ps: seq<Probe>): Clients {
    if ps == [] then t else AddProbe(net, AddProbes(net, t, ps[..|ps| - 1]), ps[|ps| - 1])
  }

  function Merged(net: Net, inv: Inventory): Clients {
    AddProbes(net, AddStations(net, AddNeighbours(net, AddLeases(net, inv.leases), inv.neighbours), inv.stations), inv.probes)
  }

  // ---------- The loops ----------

  method LeasePass(net: Net, ls: seq<Lease>) returns (byKey: Clients)
    ensures byKey == AddLeases(net, ls)
  {
    byKey := map[];
    for i := 0 to |ls|
      invariant byKey == AddLeases(net, ls[..i])
    {
      assert ls[..i + 1][..i] == ls[..i];
      var mac, ip := NormalMac(net, ls[i].mac), TrimSpace(ls[i].ip);
      var key := Key(net, mac, ip);
      if key == "" { continue; }
      byKey := byKey[key := Client(mac, ip, CleanHostname(ls[i].hostname), "", "dhcp", "lease", false)];
    }
    assert ls[..|ls|] == ls;
  }

  method NeighbourPass(net: Net, t: Clients, ns: seq<Neighbour>) returns (byKey: Clients)
    ensures byKey == AddNeighbours(net, t, ns)
  {
    hide ActiveState, WanInterface, Key, NormalMac, PreferredIp, TrimSpace;
    byKey := t;
    for i := 0 to |ns|
      invariant byKey == AddNeighbours(net, t, ns[..i])
    {
      assert ns[..i + 1][..i] == ns[..i];
      var iface := TrimSpace(ns[i].iface);
      if WanInterface(iface) { continue; }
      var mac, ip := NormalMac(net, ns[i].mac), TrimSpace(ns[i].ip);
      var key := Key(net, mac, ip);
      if key == "" { continue; }
      var state := Upper(TrimSpace(ns[i].state));
      if key !in byKey {
        if mac == "" || !ActiveState(state) { continue; }
        byKey := byKey[key := Client(mac, ip, "", "", "", "", false)];
      }
      var item := byKey[key];
      item := item.(ip := PreferredIp(net, item.ip, ip), iface := iface);
      if ActiveState(state) {
        item := item.(confirmed := true, confirmation := "neighbor:" + Lower(state), connection := "wired");
      }
      byKey := byKey[key := item];
    }
    assert ns[..|ns|] == ns;
  }

  method StationPass(net: Net, t: Clients, ss: seq<Station>) returns (byKey: Clients)
    ensures byKey == AddStations(net, t, ss)
  {
    hide Key, NormalMac, TrimSpace;
    byKey := t;
    for i := 0 to |ss|
      invariant byKey == AddStations(net, t, ss[..i])
    {
      assert ss[..i + 1][..i] == ss[..i];
      var mac := NormalMac(net, ss[i].mac);
      var key := Key(net, mac, "");
      if key == "" { continue; }
      if key !in byKey {
        byKey := byKey[key := Client(mac, "", "", "", "", "", false)];
      }
      byKey := byKey[key := byKey[key].(iface := TrimSpace(ss[i].iface), connection := "wifi", confirmation := "wifi", confirmed := true)];
    }
    assert ss[..|ss|] == ss;
  }

  method ProbePass(net: Net, t: Clients, ps: seq<Probe>) returns (byKey: Clients)
    ensures byKey == AddProbes(net, t, ps)
  {
    hide Key, NormalMac, TrimSpace, Lower;
    byKey := t;
    for i := 0 to |ps|
      invariant byKey == AddProbes(net, t, ps[..i])
    {
      assert ps[..i + 1][..i] == ps[..i];
      if !Reachable(ps[i]) { continue; }
      var mac, ip := NormalMac(net, ps[i].mac), TrimSpace(ps[i].ip);
      var key := Key(net, mac, ip);
      if key == "" { continue; }
      if key !in byKey {
        byKey := byKey[key := Client(mac, ip, "", "", "", "", false)];
      }
      var item := byKey[key].(confirmed := true, confirmation := "active_probe");
      if item.connection == "" || item.connection == "dhcp" {
        item := item.(connection := "wired");
      }
      byKey := byKey[key := item];
    }
    assert ps[..|ps|] == ps;
  }

  // ---------- Stored rows ----------

  datatype Row = Row(
    mac: string, ip: string, hostname: string, iface: string, connection: string, confirmation: string,
    firstSeen: int, lastSeen: Option<int>, lastChecked: int)

  type Rows = map<string, Row>

  function OrElse(text: string, other: string): string {
    if text != "" then text else other
  }

  function NewRow(c: Client, now: int): Row {
    Row(c.mac, c.ip, c.hostname, c.iface, c.connection, c.confirmation, now, if c.confirmed then Some(now) else None, now)
  }

  function UpdatedRow(row: Row, c: Client, now: int): Row {
    Row(OrElse(c.mac, row.mac), OrElse(c.ip, row.ip), OrElse(c.hostname, row.hostname), OrElse(c.iface, row.iface),
        OrElse(c.connection, row.connection), OrElse(c.confirmation, row.confirmation),
        row.firstSeen, if c.confirmed then Some(now) else row.lastSeen, now)
  }

  /** The row that an upsert of `c` leaves. */
  function Upserted(rows: Rows, key: string, c: Client, now: int): Row {
    if key in rows then UpdatedRow(rows[key], c, now) else NewRow(c, now)
  }

  /** Rows on a WAN interface go, and so do rows never seen alive that a lease does not account for. */
  function Swept(rows: Rows): Rows {
    map k | k in rows && !WanName(Lower(rows[k].iface)) && (rows[k].lastSeen.Some? || rows[k].confirmation == "lease") :: rows[k]
  }

  function WithClients(rows: Rows, clients: Clients, now: int): Rows {
    map k | k in rows.Keys + clients.Keys :: if k in clients then Upserted(rows, k, clients[k], now) else rows[k]
  }

  function Recent(rows: Rows, now: int): Rows {
    map k | k in rows && (rows[k].lastSeen.Some? || rows[k].lastChecked >= now - DAY) :: rows[k]
  }

  function Synced(net: Net, rows: Rows, inv: Inventory, now: int): Rows {
    Recent(WithClients(Swept(rows), Merged(net, inv), now), now)
  }

  /** The table after upserting all clients but those in `todo`. */
  ghost predicate Upserting(rows: Rows, clients: Clients, now: int, todo: set<string>, table: Rows) {
    todo <= clients.Keys
    && table.Keys == rows.Keys + (clients.Keys - todo)
    && forall k :: k in table ==> table[k] == if k in clients && k !in todo then Upserted(rows, k, clients[k], now) else rows[k]
  }

  lemma UpsertOne(rows: Rows, clients: Clients, now: int, todo: set<string>, table: Rows, key: string)
    requires Upserting(rows, clients, now, todo, table) && key in todo
    ensures Upserting(rows, clients, now, todo - {key}, table[key := Upserted(table, key, clients[key], now)])
  {
    hide NewRow, UpdatedRow;
    assert Upserted(table, key, clients[key], now) == Upserted(rows, key, clients[key], now);
    hide Upserted;
  }

  lemma UpsertDone(rows: Rows, clients: Clients, now: int, table: Rows)
    requires Upserting(rows, clients, now, {}, table)
    ensures table == WithClients(rows, clients, now)
  {
    hide Upserted;
    assert table.Keys == WithClients(rows, clients, now).Keys;
  }

  /** Upserts the clients one by one, in whatever order the map yields them. */
  method UpsertClients(rows: Rows, clients: Clients, now: int) returns (table: Rows)
    ensures table == WithClients(rows, clients, now)
  {
    table := rows;
    var todo := clients.Keys;
    assert clients.Keys - todo == {};
    while todo != {}
      invariant Upserting(rows, clients, now, todo, table)
      decreases |todo|
    {
      hide WithClients, Upserted;
      var key :| key in todo;
      UpsertOne(rows, clients, now, todo, table, key);
      table := table[key := Upserted(table, key, clients[key], now)];
      todo := todo - {key};
    }
    UpsertDone(rows, clients, now, table);
  }

  class LanStore {
    var rows: map<string, Rows>

    constructor ()
      ensures rows == map[]
    {
      rows := map[];
    }

    function RowsOf(device: string): Rows
      reads this
    {
      if device in rows then rows[device] else map[]
    }

    /** Merges an inventory into the device's rows; one that cannot be read changes nothing. */
    method SyncLANClients(net: Net, device: string, inventory: Option<Inventory>, now: int)
      modifies this
      ensures RowsOf(device) ==
        if inventory.Some? then Synced(net, old(RowsOf(device)), inventory.value, now) else old(RowsOf(device))
      ensures forall d :: d != device ==> RowsOf(d) == old(RowsOf(d))
    {
      hide Swept, Recent, WithClients, AddLeases, AddNeighbours, AddStations, AddProbes;
      if inventory.None? { return; }
      var inv := inventory.value;
      var byKey := LeasePass(net, inv.leases);
      byKey := NeighbourPass(net, byKey, inv.neighbours);
      byKey := StationPass(net, byKey, inv.stations);
      byKey := ProbePass(net, byKey, inv.probes);
      var table := UpsertClients(Swept(RowsOf(device)), byKey, now);
      rows := rows[device := Recent(table, now)];
    }
  }
}
