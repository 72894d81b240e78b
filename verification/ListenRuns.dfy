/** A configuration read from its first listen directive to its last: which servers an address has, which of
    them is its default one, and which directives cannot stand together. */
module ListenRuns {
  import opened Listening
  import opened Wrappers

  /** A directive adds its address, or its server to an address that is listed. */
  function Next(addrs: seq<Addr>, d: Directive): Option<seq<Addr>> {
    var i := Place(addrs, d.opt.ip);
    if i == |addrs| then Some(addrs + [Addr(d.opt, d.server, [d.server])])
    else if Clash(addrs[i], d.server, d.opt) then None
    else Some(addrs[i := Merged(addrs[i], d.server, d.opt)])
  }

  function AddAll(ds: seq<Directive>): Option<seq<Addr>> {
    if ds == [] then Some([])
    else
      match AddAll(ds[..|ds| - 1])
      case None => None
      case Some(addrs) => Next(addrs, ds[|ds| - 1])
  }

  /** The directives for one address, in order. */
  function For(ds: seq<Directive>, ip: int): seq<Directive> {
    if ds == [] then []
    else For(ds[..|ds| - 1], ip) + if ds[|ds| - 1].opt.ip == ip then [ds[|ds| - 1]] else []
  }

  lemma {:induction false} ForPush(ds: seq<Directive>, d: Directive, ip: int)
    ensures For(ds + [d], ip) == For(ds, ip) + if d.opt.ip == ip then [d] else []
  {
    assert (ds + [d])[..|ds|] == ds;
  }

  predicate Conflict(d: Directive, e: Directive) {
    d.server == e.server || (d.opt.given && e.opt.given) || (d.opt.defaultServer && e.opt.defaultServer)
  }

  ghost predicate Compatible(ds: seq<Directive>) {
    forall i, j | 0 <= i < j < |ds| && ds[i].opt.ip == ds[j].opt.ip :: !Conflict(ds[i], ds[j])
  }

  /** Options but for the two flags that any directive may set. */
  function Core(opt: Opt): Opt {
    opt.(defaultServer := false, proxyProtocol := false)
  }

  /** What the directives for an address make of it. */
  ghost predicate Result(own: seq<Directive>, a: Addr) {
    && own != [] && |a.servers| == |own|
    && (forall i | 0 <= i < |own| :: a.servers[i] == own[i].server)
    && (a.opt.defaultServer <==> exists i | 0 <= i < |own| :: own[i].opt.defaultServer)
    && (forall i | 0 <= i < |own| && own[i].opt.defaultServer :: a.defaultServer == own[i].server)
    && (!a.opt.defaultServer ==> a.defaultServer == own[0].server)
    && (a.opt.proxyProtocol <==> exists i | 0 <= i < |own| :: own[i].opt.proxyProtocol)
    && (a.opt.given <==> exists i | 0 <= i < |own| :: own[i].opt.given)
    && (forall i | 0 <= i < |own| && own[i].opt.given :: Core(a.opt) == Core(own[i].opt))
    && (!a.opt.given ==> Core(a.opt) == Core(own[0].opt))
  }

  /** The clash is seen on what was gathered. */
  lemma {:induction false} ClashSeen(own: seq<Directive>, a: Addr, d: Directive)
    requires Result(own, a)
    ensures Clash(a, d.server, d.opt) <==> exists i | 0 <= i < |own| :: Conflict(own[i], d)
  {
    if d.server in a.servers {
      var i :| 0 <= i < |a.servers| && a.servers[i] == d.server;
      assert Conflict(own[i], d);
    }
    forall i | 0 <= i < |own| && Conflict(own[i], d) ensures Clash(a, d.server, d.opt) {
      assert a.servers[i] == own[i].server;
    }
    if d.opt.given && a.opt.given {
      var i :| 0 <= i < |own| && own[i].opt.given;
      assert Conflict(own[i], d);
    }
    if d.opt.defaultServer && a.opt.defaultServer {
      var i :| 0 <= i < |own| && own[i].opt.defaultServer;
      assert Conflict(own[i], d);
    }
  }

  lemma {:induction false} MergedResult(own: seq<Directive>, a: Addr, d: Directive)
    requires Result(own, a) && !Clash(a, d.server, d.opt)
    ensures Result(own + [d], Merged(a, d.server, d.opt))
  {
    var all, m := own + [d], Merged(a, d.server, d.opt);
    assert all[|own|] == d;
    assert forall i | 0 <= i < |own| :: all[i] == own[i];
    assert d.opt.defaultServer ==> all[|own|].opt.defaultServer;
    assert d.opt.proxyProtocol ==> all[|own|].opt.proxyProtocol;
    assert d.opt.given ==> all[|own|].opt.given;
    forall i | 0 <= i < |own| && own[i].opt.defaultServer ensures all[i].opt.defaultServer {
    }
    forall i | 0 <= i < |own| && own[i].opt.proxyProtocol ensures all[i].opt.proxyProtocol {
    }
    forall i | 0 <= i < |own| && own[i].opt.given ensures all[i].opt.given {
    }
  }

  lemma {:induction false} NewIsUnique(addrs: seq<Addr>, a: Addr, addrs1: seq<Addr>)
    requires UniqueIps(addrs) && Place(addrs, a.opt.ip) == |addrs| && addrs1 == addrs + [a]
    ensures UniqueIps(addrs1)
    ensures forall b <- addrs1 :: b == a || (b in addrs && b.opt.ip != a.opt.ip)
  {
    assert forall i | 0 <= i < |addrs| :: addrs1[i] == addrs[i];
  }

  lemma {:induction false} FirstResult(d: Directive)
    ensures Result([d], Addr(d.opt, d.server, [d.server]))
  {
    assert [d][0] == d;
  }

  /** The addresses listed are those of the directives, each as its directives make it. */
  ghost predicate Gathered(ds: seq<Directive>, addrs: seq<Addr>) {
    && UniqueIps(addrs)
    && (forall a <- addrs :: Result(For(ds, a.opt.ip), a))
    && (forall ip: int :: For(ds, ip) != [] ==> Place(addrs, ip) < |addrs|)
  }

  lemma {:induction false} NewGathered(ds: seq<Directive>, addrs: seq<Addr>, d: Directive, addrs1: seq<Addr>)
    requires Gathered(ds, addrs) && Place(addrs, d.opt.ip) == |addrs|
    requires addrs1 == addrs + [Addr(d.opt, d.server, [d.server])]
    ensures Gathered(ds + [d], addrs1)
  {
    ForPush(ds, d, d.opt.ip);
    assert [] + [d] == [d];
    FirstResult(d);
    OthersKept(ds, addrs, d);
    NewIsUnique(addrs, Addr(d.opt, d.server, [d.server]), addrs1);
    AllPlaced(ds, addrs, d, addrs1, |addrs|);
  }

  lemma {:induction false} OthersKept(ds: seq<Directive>, addrs: seq<Addr>, d: Directive)
    requires forall a <- addrs :: Result(For(ds, a.opt.ip), a)
    ensures forall a <- addrs | a.opt.ip != d.opt.ip :: Result(For(ds + [d], a.opt.ip), a)
  {
    forall a <- addrs | a.opt.ip != d.opt.ip ensures For(ds + [d], a.opt.ip) == For(ds, a.opt.ip) {
      ForPush(ds, d, a.opt.ip);
    }
  }

  /** The list has an address for every directive, the one of the latest at `i`. */
  lemma {:induction false} AllPlaced(ds: seq<Directive>, addrs: seq<Addr>, d: Directive, addrs1: seq<Addr>, i: nat)
    requires forall ip: int :: For(ds, ip) != [] ==> Place(addrs, ip) < |addrs|
    requires |addrs| <= |addrs1| && i < |addrs1| && addrs1[i].opt.ip == d.opt.ip
    requires forall j | 0 <= j < |addrs| :: addrs1[j].opt.ip == addrs[j].opt.ip
    ensures forall ip: int :: For(ds + [d], ip) != [] ==> Place(addrs1, ip) < |addrs1|
  {
    forall ip: int | For(ds + [d], ip) != [] ensures Place(addrs1, ip) < |addrs1| {
      ForPush(ds, d, ip);
      if ip != d.opt.ip {
        assert addrs1[Place(addrs, ip)].opt.ip == ip;
      }
    }
  }

  lemma {:induction false} JoinGathered(ds: seq<Directive>, addrs: seq<Addr>, d: Directive, i: nat, addrs1: seq<Addr>)
    requires Gathered(ds, addrs) && i == Place(addrs, d.opt.ip) < |addrs| && !Clash(addrs[i], d.server, d.opt)
    requires addrs1 == addrs[i := Merged(addrs[i], d.server, d.opt)]
    ensures Gathered(ds + [d], addrs1)
  {
    var m := Merged(addrs[i], d.server, d.opt);
    assert addrs[i] in addrs;
    JoinResult(ds, addrs[i], d, m);
    OthersKept(ds, addrs, d);
    forall a <- addrs1 ensures a == m || (a in addrs && a.opt.ip != d.opt.ip) {
      var j :| 0 <= j < |addrs1| && addrs1[j] == a;
    }
    AllPlaced(ds, addrs, d, addrs1, i);
  }

  lemma {:induction false} JoinResult(ds: seq<Directive>, a: Addr, d: Directive, m: Addr)
    requires Result(For(ds, a.opt.ip), a) && d.opt.ip == a.opt.ip
    requires !Clash(a, d.server, d.opt) && m == Merged(a, d.server, d.opt)
    ensures m.opt.ip == a.opt.ip && Result(For(ds + [d], m.opt.ip), m)
  {
    ForPush(ds, d, a.opt.ip);
    MergedResult(For(ds, a.opt.ip), a, d);
  }

  lemma {:induction false} ForIsOwn(ds: seq<Directive>, ip: int)
    ensures forall e <- For(ds, ip) :: e in ds && e.opt.ip == ip
    ensures forall e <- ds | e.opt.ip == ip :: e in For(ds, ip)
  {
    if ds != [] {
      var front := ds[..|ds| - 1];
      ForIsOwn(front, ip);
      assert ds == front + [ds[|ds| - 1]];
    }
  }

  lemma {:induction false} CompatiblePush(ds: seq<Directive>, d: Directive)
    ensures Compatible(ds + [d]) <==> Compatible(ds) && forall e <- For(ds, d.opt.ip) :: !Conflict(e, d)
  {
    var all := ds + [d];
    ForIsOwn(ds, d.opt.ip);
    assert forall i | 0 <= i < |ds| :: all[i] == ds[i];
    if Compatible(all) {
      forall e <- For(ds, d.opt.ip) ensures !Conflict(e, d) {
        var i :| 0 <= i < |ds| && ds[i] == e;
        assert all[i] == e && all[|ds|] == d;
      }
    }
  }

  /** A run is accepted exactly if no two of its directives for one address conflict. */
  lemma {:induction false} RunGathered(ds: seq<Directive>)
    ensures AddAll(ds).Some? <==> Compatible(ds)
    ensures AddAll(ds).Some? ==> Gathered(ds, AddAll(ds).value)
  {
    if ds != [] {
      var front, d := ds[..|ds| - 1], ds[|ds| - 1];
      assert ds == front + [d];
      RunGathered(front);
      CompatiblePush(front, d);
      if AddAll(front).Some? {
        RunStep(front, AddAll(front).value, d);
      }
    }
  }

  lemma {:induction false} RunStep(ds: seq<Directive>, addrs: seq<Addr>, d: Directive)
    requires Gathered(ds, addrs)
    ensures Next(addrs, d).Some? <==> forall e <- For(ds, d.opt.ip) :: !Conflict(e, d)
    ensures Next(addrs, d).Some? ==> Gathered(ds + [d], Next(addrs, d).value)
  {
    var i := Place(addrs, d.opt.ip);
    if i == |addrs| {
      NewGathered(ds, addrs, d, Next(addrs, d).value);
    } else {
      var own := For(ds, d.opt.ip);
      assert addrs[i] in addrs;
      ClashSeen(own, addrs[i], d);
      if Clash(addrs[i], d.server, d.opt) {
        var k :| 0 <= k < |own| && Conflict(own[k], d);
        assert own[k] in own;
      } else {
        JoinGathered(ds, addrs, d, i, Next(addrs, d).value);
      }
    }
  }

  /** A configuration is accepted exactly if no two of its directives for one address conflict: they name the same
      server, both give options, or both claim the default. Then every address is listed once, with its servers in
      order, and its default server is the one that claims to be, or else the first. */
  lemma {:induction false} ListenRun(ds: seq<Directive>)
    ensures AddAll(ds).Some? <==> Compatible(ds)
    ensures AddAll(ds).Some? ==> Configured(ds, AddAll(ds).value)
  {
    RunGathered(ds);
    if AddAll(ds).Some? {
      forall d <- ds ensures exists a <- AddAll(ds).value :: a.opt.ip == d.opt.ip {
        ForIsOwn(ds, d.opt.ip);
        assert AddAll(ds).value[Place(AddAll(ds).value, d.opt.ip)].opt.ip == d.opt.ip;
      }
    }
  }

  ghost predicate Configured(ds: seq<Directive>, addrs: seq<Addr>) {
    && UniqueIps(addrs)
    && (forall a <- addrs :: Result(For(ds, a.opt.ip), a))
    && (forall d <- ds :: exists a <- addrs :: a.opt.ip == d.opt.ip)
  }

  /** The directives given one by one. */
  method ReadListens(ds: seq<Directive>) returns (ok: bool, port: Port)
    ensures ok <==> Compatible(ds)
    ensures ok ==> Configured(ds, port.addrs)
  {
    port := new Port();
    var i := 0;
    while i < |ds|
      invariant 0 <= i <= |ds| && port.Valid() && fresh(port)
      invariant AddAll(ds[..i]) == Some(port.addrs)
    {
      AddOne(ds, i, port.addrs);
      ok := port.AddListen(ds[i].server, ds[i].opt);
      if !ok {
        return;
      }
      i := i + 1;
    }
    assert ds[..i] == ds;
    ListenRun(ds);
    ok := true;
  }

  /** One more directive; the whole configuration is refused with it. */
  lemma {:induction false} AddOne(ds: seq<Directive>, i: nat, addrs: seq<Addr>)
    requires i < |ds| && AddAll(ds[..i]) == Some(addrs)
    ensures AddAll(ds[..i + 1]) == Next(addrs, ds[i])
    ensures Next(addrs, ds[i]).None? ==> !Compatible(ds)
  {
    assert ds[..i + 1][..i] == ds[..i] && ds[..i + 1][i] == ds[i];
    ListenRun(ds[..i + 1]);
    if !Compatible(ds[..i + 1]) {
      var k, j :| 0 <= k < j < i + 1 && ds[..i + 1][k].opt.ip == ds[..i + 1][j].opt.ip
                  && Conflict(ds[..i + 1][k], ds[..i + 1][j]);
      assert ds[k] == ds[..i + 1][k] && ds[j] == ds[..i + 1][j];
    }
  }
}
