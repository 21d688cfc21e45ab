/** The subnets that reach the other routers: at quiescence the matrix a router draws holds, for every link,
    what an interface or a neighbour list says, and for a host network the subnet of its interface. */
module LinkSubnets {
  import opened Common
  import opened Graphs
  import opened LinkState
  import opened Flooding
  import opened Advertising
  import opened GraphDrawing
  import opened RoutingTable
  import opened Convergence

  /** Router y advertises a link to r under this subnet: one of its interfaces has the address that marks
      host network r, or one of its neighbours is r. */
  ghost predicate Says(net: Net, y: U32, r: U32, subnet: int) {
    y in net.routers && exists a :: Advertises(net.routers[y].ifaces, a) && a.rid == r && a.subnet == subnet
  }

  /** What x has stored about the link from i to j is what another router says of it now. */
  lemma StoredSubnetIsSaid(owner: Owner, nets: seq<Net>, idx: Index, x: U32, i: int, j: int)
    requires Run(owner, nets) && Quiet(nets[|nets| - 1]) && x in nets[|nets| - 1].routers
    requires DbNames(idx, nets[|nets| - 1].routers[x].db, i, j)
    ensures var net := nets[|nets| - 1];
      exists y, r :: y != x && Joins(idx, y, r, i, j) && Says(net, y, r, DbSubnet(idx, net.routers[x].db, i, j))
  {
    var net := nets[|nets| - 1];
    var db := net.routers[x].db;
    DbSubnetIs(idx, db, i, j);
    var e, k :| LastInDb(idx, db, i, j, e, k) && DbSubnet(idx, db, i, j) == db[e].adv[k].subnet;
    StoredIsCurrent(owner, nets, x, db[e]);
    NotOwn(owner, nets, x, db[e]);
    AdvertisementIff(net.routers[db[e].rid].ifaces, db[e].adv[k]);
    hide DbSubnet, LastInDb, Advertises;
    assert Says(net, db[e].rid, db[e].adv[k].rid, db[e].adv[k].subnet);
  }

  lemma NotOwn(owner: Owner, nets: seq<Net>, x: U32, e: Lsu)
    requires Run(owner, nets) && x in nets[|nets| - 1].routers && e in nets[|nets| - 1].routers[x].db
    ensures e.rid != x
  {
    RunKeepsInv(owner, nets);
    assert RouterOk(owner, nets[|nets| - 1], x);
  }

  /** What another router says is stored. */
  lemma SaidIsStored(owner: Owner, nets: seq<Net>, idx: Index, x: U32, y: U32, r: U32, subnet: int)
    requires Run(owner, nets) && Quiet(nets[|nets| - 1]) && x in nets[|nets| - 1].routers && x != y
    requires Says(nets[|nets| - 1], y, r, subnet) && y in idx && r in idx
    ensures DbNames(idx, nets[|nets| - 1].routers[x].db, idx[y], idx[r])
  {
    var net := nets[|nets| - 1];
    var a :| Advertises(net.routers[y].ifaces, a) && a.rid == r && a.subnet == subnet;
    AdvertisementIff(net.routers[y].ifaces, a);
    assert Connected(net, y, x);
    var c :| Chain(net, y, x, c);
    FloodingConverges(owner, nets, y, x, c);
    var e := Stored(net.routers[x].db, y).value;
    var n :| 0 <= n < |net.routers[x].db| && net.routers[x].db[n] == e;
    var k :| 0 <= k < |e.adv| && e.adv[k] == a;
    assert RowNames(idx, e.rid, e.adv, idx[y], idx[r]);
  }

  /** Every nonzero subnet in a router's matrix is one that another router says of this link. */
  lemma QuietSubnetIsSaid(owner: Owner, nets: seq<Net>, idx: Index, n: nat, x: U32, sm: Matrix, i: nat, j: nat)
    requires Run(owner, nets) && Quiet(nets[|nets| - 1]) && x in nets[|nets| - 1].routers
    requires SubnetsFor(idx, n, nets[|nets| - 1].routers[x].db, sm) && i < n && j < n && sm[i][j] != 0
    ensures var net := nets[|nets| - 1];
      exists y, r :: y != x && (Joins(idx, y, r, i, j) || Joins(idx, y, r, j, i)) && Says(net, y, r, sm[i][j])
  {
    var db := nets[|nets| - 1].routers[x].db;
    var d :| IsDbSubnets(idx, n, db, d) && IsMirror(d, sm);
    assert sm[i][j] == Mirrored(d, i, j);
    DbSubnetIs(idx, db, i, j);
    DbSubnetIs(idx, db, j, i);
    if sm[i][j] == DbSubnet(idx, db, i, j) {
      StoredSubnetIsSaid(owner, nets, idx, x, i, j);
    } else {
      StoredSubnetIsSaid(owner, nets, idx, x, j, i);
    }
  }

  // ---- host networks

  /** The address that marks the host network with this identity. */
  ghost predicate Marks(ip: U32, r: U32) { (ip == LAN_IP1 && r == 101) || (ip == LAN_IP2 && r == 102) }

  /** All interfaces at this address have this subnet. */
  ghost predicate OnSubnet(ifaces: seq<Iface>, ip: U32, subnet: U32) {
    forall k | 0 <= k < |ifaces| && ifaces[k].ip == ip :: ifaces[k].subnet == subnet
  }

  /** Only the owner of the marking address says anything of a host network, and only its interface's subnet. */
  lemma HostNetworkIsSaid(owner: Owner, net: Net, y: U32, ip: U32, r: U32, subnet: U32, z: U32, v: U32, s: int)
    requires Inv(owner, net) && Marks(ip, r) && r !in net.routers && ip in owner && owner[ip] == y
    requires y in net.routers && OnSubnet(net.routers[y].ifaces, ip, subnet)
    requires Says(net, z, v, s) && (v == r || z == r)
    ensures z == y && v == r && s == subnet
  {
    var ifs := net.routers[z].ifaces;
    var a :| Advertises(ifs, a) && a.rid == v && a.subnet == s;
    forall k, i {
      OnlyRoutersAreNeighbours(owner, net, z, a, k, i);
    }
    assert RouterOk(owner, net, z);
    var k :| OfLanAt(a, ifs, k);
    assert ifs[k].ip == ip;
  }

  lemma OnlyRoutersAreNeighbours(owner: Owner, net: Net, z: U32, a: Lsa, k: int, i: int)
    requires Inv(owner, net) && z in net.routers
    ensures OfNbrAt(a, net.routers[z].ifaces, k, i) ==> a.rid in net.routers
  {
    var ifs := net.routers[z].ifaces;
    if OfNbrAt(a, ifs, k, i) {
      assert RouterOk(owner, net, z) && NbrOk(owner, net, z, ifs[k].nbrs[i]);
    }
  }

  /** At quiescence every other router's matrix holds, between the router on a host network and that network,
      the subnet of the interface that is on it. */
  lemma HostSubnetIsDrawn(owner: Owner, nets: seq<Net>, idx: Index, n: nat, x: U32, sm: Matrix,
                          y: U32, k: nat, r: U32)
    requires Run(owner, nets)
    requires var net := nets[|nets| - 1];
      && Quiet(net) && Numbered(idx, n, net) && x in net.routers && y in net.routers && x != y
      && SubnetsFor(idx, n, net.routers[x].db, sm) && r !in net.routers && y in idx && r in idx
      && k < |net.routers[y].ifaces| && Marks(net.routers[y].ifaces[k].ip, r)
      && OnSubnet(net.routers[y].ifaces, net.routers[y].ifaces[k].ip, net.routers[y].ifaces[k].subnet)
    ensures |sm| == n && |sm[idx[y]]| == n && |sm[idx[r]]| == n
    ensures sm[idx[y]][idx[r]] == sm[idx[r]][idx[y]] == nets[|nets| - 1].routers[y].ifaces[k].subnet
  {
    var net := nets[|nets| - 1];
    var f := net.routers[y].ifaces[k];
    var i, j, db := idx[y], idx[r], net.routers[x].db;
    RunKeepsInv(owner, nets);
    assert RouterOk(owner, net, y);
    SlotSays(net, y, k, r);
    SaidIsStored(owner, nets, idx, x, y, r, f.subnet);
    StoredSubnetIsSaid(owner, nets, idx, x, i, j);
    var z, v :| z != x && Joins(idx, z, v, i, j) && Says(net, z, v, DbSubnet(idx, db, i, j));
    HostNetworkIsSaid(owner, net, y, f.ip, r, f.subnet, z, v, DbSubnet(idx, db, i, j));
    NotSaidBack(owner, nets, idx, n, x, y, k, r);
    var d :| IsDbSubnets(idx, n, db, d) && IsMirror(d, sm);
    assert sm[i][j] == Mirrored(d, i, j) && sm[j][i] == Mirrored(d, j, i);
  }

  lemma SlotSays(net: Net, y: U32, k: nat, r: U32)
    requires y in net.routers && k < |net.routers[y].ifaces| && Marks(net.routers[y].ifaces[k].ip, r)
    ensures Says(net, y, r, net.routers[y].ifaces[k].subnet)
  {
    var f := net.routers[y].ifaces[k];
    var a := Lsa(f.subnet, f.mask, r);
    assert OfLanAt(a, net.routers[y].ifaces, k);
  }

  /** A host network says nothing itself. */
  lemma NotSaidBack(owner: Owner, nets: seq<Net>, idx: Index, n: nat, x: U32, y: U32, k: nat, r: U32)
    requires Run(owner, nets)
    requires var net := nets[|nets| - 1];
      && Quiet(net) && Numbered(idx, n, net) && x in net.routers && y in net.routers
      && r !in net.routers && y in idx && r in idx
    ensures DbSubnet(idx, nets[|nets| - 1].routers[x].db, idx[r], idx[y]) == 0
  {
    var db := nets[|nets| - 1].routers[x].db;
    DbSubnetIs(idx, db, idx[r], idx[y]);
    if DbNames(idx, db, idx[r], idx[y]) {
      StoredSubnetIsSaid(owner, nets, idx, x, idx[r], idx[y]);
    }
  }
}
