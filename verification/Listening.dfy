/** The addresses of one port: how listen directives collect them, and how they are grouped into sockets. */
module Listening {
  /** listen options; the wildcard address is the one a socket may be bound to for all others. */
  datatype Opt = Opt(ip: int, wildcard: bool, bind: bool, given: bool, defaultServer: bool, proxyProtocol: bool)

  datatype Addr = Addr(opt: Opt, defaultServer: int, servers: seq<int>)

  /** A listen directive of a server. */
  datatype Directive = Directive(server: int, opt: Opt)

  // --------------------------------------------------------- collecting

  ghost predicate UniqueIps(addrs: seq<Addr>) {
    forall i, j | 0 <= i < j < |addrs| :: addrs[i].opt.ip != addrs[j].opt.ip
  }

  ghost predicate UniqueServers(a: Addr) {
    forall i, j | 0 <= i < j < |a.servers| :: a.servers[i] != a.servers[j]
  }

  /** The address after another listen directive for it; none of the three duplicates may occur. */
  function Merged(a: Addr, server: int, opt: Opt): Addr {
    Addr((if opt.given then opt else a.opt).(defaultServer := a.opt.defaultServer || opt.defaultServer,
                                           proxyProtocol := a.opt.proxyProtocol || opt.proxyProtocol),
         if opt.defaultServer then server else a.defaultServer,
         a.servers + [server])
  }

  predicate Clash(a: Addr, server: int, opt: Opt) {
    server in a.servers || (opt.given && a.opt.given) || (opt.defaultServer && a.opt.defaultServer)
  }

  /** The first address with an ip, or |addrs|. */
  function Place(addrs: seq<Addr>, ip: int): (i: nat)
    ensures i <= |addrs| && (i < |addrs| ==> addrs[i].opt.ip == ip)
    ensures forall j | 0 <= j < i :: addrs[j].opt.ip != ip
  {
    if addrs == [] || addrs[0].opt.ip == ip then 0 else 1 + Place(addrs[1..], ip)
  }

  class Port {
    var addrs: seq<Addr>

    constructor ()
      ensures addrs == []
    {
      addrs := [];
    }

    ghost predicate Valid()
      reads this
    {
      UniqueIps(addrs) && forall a <- addrs :: UniqueServers(a)
    }

    /** add_addresses and add_address: an address is listed once, with its servers. After a failure the
        configuration is given up. */
    method AddListen(server: int, opt: Opt) returns (ok: bool)
      requires Valid()
      modifies this
      ensures ok ==> Valid()
      ensures ok <==> forall a <- old(addrs) | a.opt.ip == opt.ip :: !Clash(a, server, opt)
      ensures ok ==> |addrs| == |old(addrs)| + if exists a <- old(addrs) :: a.opt.ip == opt.ip then 0 else 1
      ensures ok && (forall a <- old(addrs) :: a.opt.ip != opt.ip) ==>
                addrs == old(addrs) + [Addr(opt, server, [server])]
      ensures ok ==> forall i | 0 <= i < |old(addrs)| ::
                addrs[i] == if old(addrs)[i].opt.ip == opt.ip then Merged(old(addrs)[i], server, opt) else old(addrs)[i]
      ensures var p := Place(old(addrs), opt.ip);
              if p == |old(addrs)| then ok && addrs == old(addrs) + [Addr(opt, server, [server])]
              else
                && ok == !Clash(old(addrs)[p], server, opt)
                && (ok ==> addrs == old(addrs)[p := Merged(old(addrs)[p], server, opt)])
    {
      var i := 0;
      while i < |addrs|
        invariant i <= |addrs| && addrs == old(addrs)
        invariant forall j | 0 <= j < i :: addrs[j].opt.ip != opt.ip
      {
        if addrs[i].opt.ip == opt.ip {
          ok := Join(i, server, opt);
          return;
        }
        i := i + 1;
      }
      addrs := addrs + [Addr(opt, server, [server])];
      ok := true;
    }

    /** A further listen directive for a listed address. */
    method Join(i: nat, server: int, opt: Opt) returns (ok: bool)
      requires Valid() && i < |addrs| && addrs[i].opt.ip == opt.ip
      modifies this
      ensures ok <==> !Clash(old(addrs)[i], server, opt)
      ensures ok ==> Valid() && addrs == old(addrs)[i := Merged(old(addrs)[i], server, opt)]
    {
      var a := addrs[i];
      MergedValid(addrs, i, server, opt);
      if server in a.servers {
        return false;
      }
      var b := a.(servers := a.servers + [server]);
      var defaultServer, proxyProtocol := a.opt.defaultServer, opt.proxyProtocol || a.opt.proxyProtocol;
      if opt.given {
        if a.opt.given {
          return false;
        }
        b := b.(opt := opt);
      }
      if opt.defaultServer {
        if defaultServer {
          return false;
        }
        defaultServer := true;
        b := b.(defaultServer := server);
      }
      b := b.(opt := b.opt.(defaultServer := defaultServer, proxyProtocol := proxyProtocol));
      addrs := addrs[i := b];
      ok := true;
    }
  }

  lemma MergedValid(addrs: seq<Addr>, i: nat, server: int, opt: Opt)
    requires UniqueIps(addrs) && (forall a <- addrs :: UniqueServers(a)) && i < |addrs| && addrs[i].opt.ip == opt.ip
    ensures !Clash(addrs[i], server, opt) ==>
              UniqueIps(addrs[i := Merged(addrs[i], server, opt)])
              && forall a <- addrs[i := Merged(addrs[i], server, opt)] :: UniqueServers(a)
  {
    var m := Merged(addrs[i], server, opt);
    if !Clash(addrs[i], server, opt) {
      assert UniqueServers(addrs[i]) && UniqueServers(m);
      forall a <- addrs[i := m] ensures UniqueServers(a) {
        assert a == m || a in addrs;
      }
    }
  }

  // ----------------------------------------------------------- grouping

  /** ngx_rtmp_cmp_conf_addrs */
  function Compare(a: Addr, b: Addr): int {
    if a.opt.wildcard then 1
    else if b.opt.wildcard then -1
    else if a.opt.bind && !b.opt.bind then -1
    else if !a.opt.bind && b.opt.bind then 1
    else 0
  }

  /** What sorting leaves: no address stands before one that it has to follow. */
  ghost predicate Ordered(addrs: seq<Addr>) {
    forall i, j | 0 <= i < j < |addrs| :: Compare(addrs[i], addrs[j]) <= 0
  }

  /** A listening socket: the address it is bound to, and the addresses it serves. */
  datatype Group = Group(bound: Addr, members: seq<Addr>)

  function Members(groups: seq<Group>): seq<Addr> {
    if groups == [] then [] else Members(groups[..|groups| - 1]) + groups[|groups| - 1].members
  }

  lemma MembersPush(groups: seq<Group>, g: Group)
    ensures Members(groups + [g]) == Members(groups) + g.members
  {
    assert (groups + [g])[..|groups|] == groups;
  }

  /** The list as it is bound: the wildcard is bound in any case. */
  function Bound(addrs: seq<Addr>): (r: seq<Addr>)
    requires addrs != []
    ensures |r| == |addrs|
  {
    var n := |addrs| - 1;
    if addrs[n].opt.wildcard then addrs[n := addrs[n].(opt := addrs[n].opt.(bind := true))] else addrs
  }

  /** Each socket is bound to the last address it serves; without a wildcard it serves no other, and an
      address that is not bound explicitly is left to the wildcard. */
  ghost predicate GoodGroup(g: Group, wildcard: bool) {
    && g.members != [] && g.bound == g.members[|g.members| - 1]
    && (|g.members| > 1 ==> g.bound.opt.wildcard)
    && (wildcard ==> g.bound.opt.bind && forall i | 0 <= i < |g.members| - 1 :: !g.members[i].opt.bind)
  }

  /** The next socket, over the addresses from `base` to `at`. */
  lemma NextGroup(addrs: seq<Addr>, base: nat, at: nat, wildcard: bool)
    requires base <= at < |addrs| && SortedByBind(addrs, wildcard)
    requires wildcard ==> addrs[at].opt.bind
    requires at > base ==> wildcard && forall k | base <= k < at :: !addrs[k].opt.bind
    ensures GoodGroup(Group(addrs[at], addrs[base..at + 1]), wildcard)
    ensures at > base ==> at == |addrs| - 1
    ensures addrs[..base] + addrs[base..at + 1] == addrs[..at + 1]
  {
    if at > base {
      assert !addrs[base].opt.bind;
    }
  }

  lemma BoundOrder(addrs: seq<Addr>)
    requires addrs != [] && Ordered(addrs)
    ensures SortedByBind(Bound(addrs), addrs[|addrs| - 1].opt.wildcard)
  {
    var b, n := Bound(addrs), |addrs| - 1;
    forall k | 0 <= k < n ensures !b[k].opt.wildcard {
      assert Compare(addrs[k], addrs[n]) <= 0;
    }
    forall k, j | 0 <= k < j < n && !b[k].opt.bind ensures !b[j].opt.bind {
      assert Compare(addrs[k], addrs[j]) <= 0;
    }
  }

  ghost predicate SortedByBind(addrs: seq<Addr>, wildcard: bool) {
    var n := |addrs| - 1;
    && addrs != [] && wildcard == addrs[n].opt.wildcard && (wildcard ==> addrs[n].opt.bind)
    && (forall k | 0 <= k < n :: !addrs[k].opt.wildcard)
    && (forall k | 0 <= k < n && !addrs[k].opt.bind :: forall j | k < j < n :: !addrs[j].opt.bind)
  }

  /** A socket for the addresses from `base` to `at`. */
  method OpenSocket(addrs: seq<Addr>, base: nat, at: nat, wildcard: bool, groups: seq<Group>) returns (more: seq<Group>)
    requires SortedByBind(addrs, wildcard) && base <= at < |addrs|
    requires forall g <- groups :: GoodGroup(g, wildcard)
    requires Members(groups) == addrs[..base] && (wildcard ==> addrs[at].opt.bind)
    requires at > base ==> wildcard && forall k | base <= k < at :: !addrs[k].opt.bind
    ensures forall g <- more :: GoodGroup(g, wildcard)
    ensures Members(more) == addrs[..at + 1] && (at > base ==> at == |addrs| - 1)
  {
    var g := Group(addrs[at], addrs[base..at + 1]);
    NextGroup(addrs, base, at, wildcard);
    MembersPush(groups, g);
    more := groups + [g];
  }

  /** ngx_rtmp_init_listening: `i` moves over implicit addresses, `base` and `last` over sockets. */
  method InitListening(addrs0: seq<Addr>) returns (groups: seq<Group>)
    requires addrs0 != [] && Ordered(addrs0)
    ensures Members(groups) == Bound(addrs0)
    ensures forall g <- groups :: GoodGroup(g, addrs0[|addrs0| - 1].opt.wildcard)
  {
    var addrs := Bound(addrs0);
    var n := |addrs|;
    var wildcard := addrs[n - 1].opt.wildcard;
    BoundOrder(addrs0);
    groups := [];
    var base: nat, i: nat, last: nat := 0, 0, n;
    while i < last
      invariant base + last == n
      invariant forall g <- groups :: GoodGroup(g, wildcard)
      invariant Members(groups) == if i < last then addrs[..base] else addrs
      invariant i > 0 && i < last ==> wildcard && forall k | base <= k < base + i :: !addrs[k].opt.bind
      decreases last - i
    {
      if wildcard && !addrs[base + i].opt.bind {
        i := i + 1;
      } else {
        groups := OpenSocket(addrs, base, base + i, wildcard, groups);
        base, last := base + 1, last - 1;
      }
    }
  }
}
