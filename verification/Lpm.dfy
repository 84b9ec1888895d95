/** The longest-prefix-match policy tables of the XDP program and how they are filled. */
module Lpm {
  import opened Core
  import opened Packet

  datatype Action = Pass | Redirect

  /** An IP prefix: the leading bits of its network. */
  datatype Prefix = Prefix(v4: bool, bits: seq<bool>)

  /** The low `n` bits of a number, most significant first. */
  function LowBits(x: nat, n: nat): (r: seq<bool>)
    ensures |r| == n
  {
    if n == 0 then [] else LowBits(x / 2, n - 1) + [x % 2 == 1]
  }

  function Bits(octets: Bytes): (r: seq<bool>)
    ensures |r| == 8 * |octets|
  {
    if |octets| == 0 then [] else LowBits(octets[0], 8) + Bits(octets[1..])
  }

  function AddrBits(ip: IpAddr): (r: seq<bool>) {
    Bits(ip.Octets())
  }

  function Power(n: nat): nat {
    if n == 0 then 1 else 2 * Power(n - 1)
  }

  lemma {:induction false} LowBitsInjective(a: nat, b: nat, n: nat)
    requires a < Power(n) && b < Power(n) && LowBits(a, n) == LowBits(b, n)
    ensures a == b
  {
    if n > 0 {
      var (x, y) := (LowBits(a, n), LowBits(b, n));
      assert x[n - 1] == (a % 2 == 1) && y[n - 1] == (b % 2 == 1);
      assert x[..n - 1] == LowBits(a / 2, n - 1) && y[..n - 1] == LowBits(b / 2, n - 1);
      LowBitsInjective(a / 2, b / 2, n - 1);
    }
  }

  lemma {:induction false} BitsInjective(a: Bytes, b: Bytes)
    requires |a| == |b| && Bits(a) == Bits(b)
    ensures a == b
  {
    if |a| > 0 {
      var (x, y) := (Bits(a), Bits(b));
      assert x[..8] == LowBits(a[0], 8) && y[..8] == LowBits(b[0], 8);
      assert x[8..] == Bits(a[1..]) && y[8..] == Bits(b[1..]);
      Byte8();
      LowBitsInjective(a[0], b[0], 8);
      BitsInjective(a[1..], b[1..]);
      assert a == [a[0]] + a[1..] && b == [b[0]] + b[1..];
    }
  }

  lemma Byte8()
    ensures Power(8) == 256
  {
    assert Power(4) == 16;
    assert Power(5) == 32;
    assert Power(6) == 64;
    assert Power(7) == 128;
  }

  lemma {:induction false} AddrBitsInjective(a: IpAddr, b: IpAddr)
    requires a.V4? == b.V4? && AddrBits(a) == AddrBits(b)
    ensures a == b
  {
    BitsInjective(a.Octets(), b.Octets());
  }

  predicate Contains(prefix: Prefix, ip: IpAddr) {
    prefix.v4 == ip.V4? && prefix.bits <= AddrBits(ip)
  }

  // ---- The trie ----

  type Table = map<seq<bool>, Action>

  /** Lookup among prefixes of at most `n` bits, longest first. */
  function LookupFrom(table: Table, key: seq<bool>, n: nat): (r: Option<Action>)
    requires n <= |key|
  {
    if key[..n] in table then Some(table[key[..n]])
    else if n == 0 then None
    else LookupFrom(table, key, n - 1)
  }

  function Lookup(table: Table, ip: IpAddr): (r: Option<Action>) {
    LookupFrom(table, AddrBits(ip), |AddrBits(ip)|)
  }

  function Networks(prefixes: seq<Prefix>, v4: bool): (r: set<seq<bool>>) {
    set p | p in prefixes && p.v4 == v4 :: p.bits
  }

  function Hosts(addresses: seq<IpAddr>, v4: bool): (r: set<seq<bool>>) {
    set a | a in addresses && a.V4? == v4 :: AddrBits(a)
  }

  function SetAll(table: Table, keys: set<seq<bool>>, action: Action): (r: Table) {
    map k | k in table.Keys + keys :: if k in keys then action else table[k]
  }

  /** What `configure_bpf_maps` leaves in the table of one family: the policy prefixes with one
      action, then the forced-local hosts passing, then the NAT hosts redirected. */
  function PolicyTable(prefixes: seq<Prefix>, action: Action, local: seq<IpAddr>, natHosts: seq<IpAddr>, v4: bool)
    : (r: Table) {
    SetAll(SetAll(SetAll(map[], Networks(prefixes, v4), action), Hosts(local, v4), Pass), Hosts(natHosts, v4), Redirect)
  }

  /** Hosts have full-length keys. */
  lemma {:induction false} HostLength(addresses: seq<IpAddr>, v4: bool, k: seq<bool>)
    requires k in Hosts(addresses, v4)
    ensures |k| == if v4 then 32 else 128
  {
    var a :| a in addresses && a.V4? == v4 && AddrBits(a) == k;
  }

  lemma {:induction false} HostKey(addresses: seq<IpAddr>, ip: IpAddr)
    ensures AddrBits(ip) in Hosts(addresses, ip.V4?) <==> ip in addresses
  {
    if AddrBits(ip) in Hosts(addresses, ip.V4?) {
      var a :| a in addresses && a.V4? == ip.V4? && AddrBits(a) == AddrBits(ip);
      AddrBitsInjective(a, ip);
    }
  }

  /** Below full length only policy prefixes can match, and they all carry the same action. */
  lemma {:induction false} ShortLookup(prefixes: seq<Prefix>, action: Action, local: seq<IpAddr>, natHosts: seq<IpAddr>,
          v4: bool, key: seq<bool>, n: nat)
    requires n < |key| == if v4 then 32 else 128
    ensures LookupFrom(PolicyTable(prefixes, action, local, natHosts, v4), key, n) ==
      if exists m :: 0 <= m <= n && key[..m] in Networks(prefixes, v4) then Some(action) else None
  {
    hide Hosts, Networks;
    var table := PolicyTable(prefixes, action, local, natHosts, v4);
    var k := key[..n];
    assert k !in Hosts(local, v4) by { if k in Hosts(local, v4) { HostLength(local, v4, k); } }
    assert k !in Hosts(natHosts, v4) by { if k in Hosts(natHosts, v4) { HostLength(natHosts, v4, k); } }
    if k !in Networks(prefixes, v4) && n > 0 {
      ShortLookup(prefixes, action, local, natHosts, v4, key, n - 1);
    }
  }

  ghost predicate AnyContains(prefixes: seq<Prefix>, ip: IpAddr) {
    exists p :: p in prefixes && Contains(p, ip)
  }

  lemma {:induction false} NetworkMatch(prefixes: seq<Prefix>, ip: IpAddr)
    ensures AnyContains(prefixes, ip) <==> exists m ::
        0 <= m <= |AddrBits(ip)| && AddrBits(ip)[..m] in Networks(prefixes, ip.V4?)
  {
    var key := AddrBits(ip);
    if AnyContains(prefixes, ip) {
      var p :| p in prefixes && Contains(p, ip);
      assert key[..|p.bits|] == p.bits;
    }
    if exists m :: 0 <= m <= |key| && key[..m] in Networks(prefixes, ip.V4?) {
      var m :| 0 <= m <= |key| && key[..m] in Networks(prefixes, ip.V4?);
      var p :| p in prefixes && p.v4 == ip.V4? && p.bits == key[..m];
      assert Contains(p, ip);
    }
  }

  /** Longest-prefix match over prefixes of one action is any-match, with the NAT hosts and then the
      forced-local hosts laid over it. */
  lemma {:induction false} LookupIsAnyMatch(prefixes: seq<Prefix>, action: Action, local: seq<IpAddr>,
          natHosts: seq<IpAddr>, ip: IpAddr)
    ensures Lookup(PolicyTable(prefixes, action, local, natHosts, ip.V4?), ip) ==
      if ip in natHosts then Some(Redirect)
      else if ip in local then Some(Pass)
      else if AnyContains(prefixes, ip) then Some(action)
      else None
  {
    hide Hosts, Networks, AnyContains;
    var (key, v4) := (AddrBits(ip), ip.V4?);
    assert key[..|key|] == key;
    HostKey(natHosts, ip);
    HostKey(local, ip);
    NetworkMatch(prefixes, ip);
    ShortLookup(prefixes, action, local, natHosts, v4, key, |key| - 1);
    if key !in Networks(prefixes, v4) {
      assert forall m :: 0 <= m <= |key| && key[..m] in Networks(prefixes, v4) ==> m <= |key| - 1;
    } else {
      assert key[..|key|] in Networks(prefixes, v4);
    }
  }

  /** The three loops of `configure_bpf_maps` over one family's table. */
  method Configure(prefixes: seq<Prefix>, action: Action, local: seq<IpAddr>, natHosts: seq<IpAddr>, v4: bool)
          returns (table: Table)
    ensures table == PolicyTable(prefixes, action, local, natHosts, v4)
  {
    table := map[];
    for i := 0 to |prefixes|
      invariant table == SetAll(map[], Networks(prefixes[..i], v4), action)
    {
      assert prefixes[..i + 1] == prefixes[..i] + [prefixes[i]];
      if prefixes[i].v4 == v4 {
        assert Networks(prefixes[..i + 1], v4) == Networks(prefixes[..i], v4) + {prefixes[i].bits};
        SetMore(map[], Networks(prefixes[..i], v4), prefixes[i].bits, action);
        table := table[prefixes[i].bits := action];
      } else {
        assert Networks(prefixes[..i + 1], v4) == Networks(prefixes[..i], v4);
      }
    }
    assert prefixes[..|prefixes|] == prefixes;
    table := SetHosts(table, local, Pass, v4);
    table := SetHosts(table, natHosts, Redirect, v4);
  }

  method SetHosts(start: Table, addresses: seq<IpAddr>, action: Action, v4: bool) returns (table: Table)
    ensures table == SetAll(start, Hosts(addresses, v4), action)
  {
    table := start;
    assert Hosts(addresses[..0], v4) == {};
    for i := 0 to |addresses|
      invariant table == SetAll(start, Hosts(addresses[..i], v4), action)
    {
      assert addresses[..i + 1] == addresses[..i] + [addresses[i]];
      if addresses[i].V4? == v4 {
        assert Hosts(addresses[..i + 1], v4) == Hosts(addresses[..i], v4) + {AddrBits(addresses[i])};
        SetMore(start, Hosts(addresses[..i], v4), AddrBits(addresses[i]), action);
        table := table[AddrBits(addresses[i]) := action];
      } else {
        assert Hosts(addresses[..i + 1], v4) == Hosts(addresses[..i], v4);
      }
    }
    assert addresses[..|addresses|] == addresses;
  }

  lemma SetMore(table: Table, keys: set<seq<bool>>, k: seq<bool>, action: Action)
    ensures SetAll(table, keys + {k}, action) == SetAll(table, keys, action)[k := action]
  {
  }
}
