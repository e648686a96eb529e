/**
 * The binding tables of the network controller. A table holds weak references: a binding
 * is in force as long as somebody holds a strong handle for it, and dead entries are swept
 * by gc. A handle stands for one allocation; `strong` holds it once for each of its holders.
 */
module Bindings {
  import opened Common

  type Handle = nat
  type Ip = nat
  type Port = nat
  type Target = nat   // targets in the order in which a lookup tries them

  datatype Key =
    | DnsKey(package: Option<PackageId>, ip: Ip)
    | MdnsKey(alias: string)
    | VHostKey(port: Port, host: Option<string>, target: Target)

  datatype Tables = Tables(
    dns: map<Option<PackageId>, map<Ip, Handle>>,
    mdns: map<string, Handle>,
    vhost: map<Port, map<Option<string>, map<Target, Handle>>>)

  function Row<K, V>(m: map<K, map<V, Handle>>, k: K): map<V, Handle> {
    if k in m then m[k] else map[]
  }

  function Server(t: Tables, port: Port): map<Option<string>, map<Target, Handle>> {
    if port in t.vhost then t.vhost[port] else map[]
  }

  function Find<K>(m: map<K, Handle>, k: K): Option<Handle> {
    if k in m then Some(m[k]) else None
  }

  function Bound(t: Tables, k: Key): Option<Handle> {
    match k
    case DnsKey(package, ip) => Find(Row(t.dns, package), ip)
    case MdnsKey(alias) => Find(t.mdns, alias)
    case VHostKey(port, host, target) => Find(Row(Server(t, port), host), target)
  }

  // ----- what a lookup sees

  predicate Alive(strong: multiset<Handle>, h: Handle) {
    h in strong
  }

  function InForce(t: Tables, strong: multiset<Handle>, k: Key): Option<Handle> {
    match Bound(t, k)
    case Some(h) => if Alive(strong, h) then Some(h) else None
    case None => None
  }

  // ----- the table rewrites

  function Bind(t: Tables, key: Key, h: Handle): (r: Tables)
    ensures forall k :: Bound(r, k) == if k == key then Some(h) else Bound(t, k)
  {
    match key
    case DnsKey(package, ip) => t.(dns := t.dns[package := Row(t.dns, package)[ip := h]])
    case MdnsKey(alias) => t.(mdns := t.mdns[alias := h])
    case VHostKey(port, host, target) =>
      t.(vhost := t.vhost[port := Server(t, port)[host := Row(Server(t, port), host)[target := h]]])
  }

  function Put<K(!new), V>(m: map<K, map<V, Handle>>, k: K, row: map<V, Handle>): (r: map<K, map<V, Handle>>)
    ensures forall j :: Row(r, j) == if j == k then row else Row(m, j)
  {
    if row == map[] then m - {k} else m[k := row]
  }

  function SweepDns(t: Tables, strong: multiset<Handle>, package: Option<PackageId>, ip: Ip): (r: Tables)
    ensures forall k :: Bound(r, k) == if k == DnsKey(package, ip) then InForce(t, strong, k) else Bound(t, k)
    ensures package in r.dns ==> r.dns[package] != map[]
  {
    var row := Row(t.dns, package);
    var live := if ip in row && !Alive(strong, row[ip]) then row - {ip} else row;
    t.(dns := Put(t.dns, package, live))
  }

  function SweepMdns(t: Tables, strong: multiset<Handle>, alias: string): (r: Tables)
    ensures forall k :: Bound(r, k) == if k == MdnsKey(alias) then InForce(t, strong, k) else Bound(t, k)
  {
    if alias in t.mdns && !Alive(strong, t.mdns[alias]) then t.(mdns := t.mdns - {alias}) else t
  }

  /** All dead targets of the host go, and the server with them if nothing is left on its port. */
  function SweepHost(t: Tables, strong: multiset<Handle>, port: Port, host: Option<string>): (r: Tables)
    ensures forall k :: Bound(r, k) == if k.VHostKey? && k.port == port && k.host == host then InForce(t, strong, k) else Bound(t, k)
    ensures port in r.vhost ==> r.vhost[port] != map[] && (host in r.vhost[port] ==> r.vhost[port][host] != map[])
  {
    var row := Row(Server(t, port), host);
    var live := map x | x in row && Alive(strong, row[x]) :: row[x];
    var server := Put(Server(t, port), host, live);
    t.(vhost := if port !in t.vhost then t.vhost else if server == map[] then t.vhost - {port} else t.vhost[port := server])
  }

  function LiveIn<K>(row: map<K, Handle>, strong: multiset<Handle>): set<K> {
    set k | k in row && Alive(strong, row[k])
  }

  /** The addresses given for a package; nothing at all if it has no row. */
  function Resolve(t: Tables, strong: multiset<Handle>, package: Option<PackageId>): Option<set<Ip>> {
    if package in t.dns then Some(LiveIn(t.dns[package], strong)) else None
  }

  /** No row and a row without live addresses answer with the same addresses. */
  function Addresses(answer: Option<set<Ip>>): set<Ip> {
    if answer.Some? then answer.value else {}
  }

  function Least(s: set<Target>): (r: Option<Target>)
    ensures s == {} ==> r == None
    ensures s != {} ==> r.Some? && IsLeast(s, r.value)
  {
    if s == {} then None else Some(LeastOf(s))
  }

  function LeastOf(s: set<Target>): (r: Target)
    requires s != {}
    ensures IsLeast(s, r)
  {
    HasLeast(s);
    var r :| r in s && IsLeast(s, r);
    r
  }

  predicate IsLeast(s: set<Target>, r: Target) {
    r in s && forall t :: t in s ==> r <= t
  }

  lemma {:induction false} HasLeast(s: set<Target>)
    requires s != {}
    ensures exists r :: IsLeast(s, r)
  {
    var x :| x in s;
    var rest := s - {x};
    assert forall t :: t in s <==> t == x || t in rest;
    if rest == {} {
      assert IsLeast(s, x);
    } else {
      HasLeast(rest);
      var y :| IsLeast(rest, y);
      assert IsLeast(s, if x <= y then x else y);
    }
  }

  /** The target for a connection naming `name`: the first live one for that host, or else, for a bare address, the first live default. */
  function LookUp(t: Tables, strong: multiset<Handle>, port: Port, name: Option<string>, isAddress: bool): Option<Target> {
    var found := Least(LiveIn(Row(Server(t, port), name), strong));
    if found.Some? then found
    else if name.None? || isAddress then Least(LiveIn(Row(Server(t, port), None), strong))
    else None
  }

  /** x is bound and alive under the host, and no target before it is. */
  ghost predicate IsFirst(t: Tables, strong: multiset<Handle>, port: Port, host: Option<string>, x: Target) {
    && InForce(t, strong, VHostKey(port, host, x)).Some?
    && forall y :: InForce(t, strong, VHostKey(port, host, y)).Some? ==> x <= y
  }

  ghost predicate Nothing(t: Tables, strong: multiset<Handle>, port: Port, host: Option<string>) {
    forall x :: InForce(t, strong, VHostKey(port, host, x)) == None
  }

  lemma FirstInRow(t: Tables, strong: multiset<Handle>, port: Port, host: Option<string>)
    ensures var row := LiveIn(Row(Server(t, port), host), strong);
            && (forall x :: x in row <==> InForce(t, strong, VHostKey(port, host, x)).Some?)
            && (Nothing(t, strong, port, host) <==> row == {})
            && (forall x: Target :: Least(row) == Some(x) <==> IsFirst(t, strong, port, host, x))
  {
    var row := LiveIn(Row(Server(t, port), host), strong);
    forall x
      ensures x in row <==> InForce(t, strong, VHostKey(port, host, x)).Some?
    {
    }
    forall x: Target
      ensures Least(row) == Some(x) <==> IsFirst(t, strong, port, host, x)
    {
      if row != {} {
        assert InForce(t, strong, VHostKey(port, host, Least(row).value)).Some?;
      }
    }
  }

  /**
   * A connection is answered by x exactly when x is the first target in force under the name it
   * gives, or, if none is and the name is absent or an address, the first in force under no name.
   */
  lemma LookUpExactly(t: Tables, strong: multiset<Handle>, port: Port, name: Option<string>, isAddress: bool, x: Target)
    ensures LookUp(t, strong, port, name, isAddress) == Some(x) <==>
              || IsFirst(t, strong, port, name, x)
              || (Nothing(t, strong, port, name) && (name == None || isAddress) && IsFirst(t, strong, port, None, x))
  {
    FirstInRow(t, strong, port, name);
    FirstInRow(t, strong, port, None);
  }

  /** An address is given for a package exactly when it is in force. */
  lemma ResolveExactly(t: Tables, strong: multiset<Handle>, package: Option<PackageId>, ip: Ip)
    ensures ip in Addresses(Resolve(t, strong, package)) <==> InForce(t, strong, DnsKey(package, ip)).Some?
  {
  }

  /** Under a name for which a target is in force, a connection is answered by that target or one before it. */
  lemma BoundIsAnswered(t: Tables, strong: multiset<Handle>, port: Port, name: Option<string>, isAddress: bool, x: Target)
    requires InForce(t, strong, VHostKey(port, name, x)).Some?
    ensures var answer := LookUp(t, strong, port, name, isAddress);
            answer.Some? && answer.value <= x && InForce(t, strong, VHostKey(port, name, answer.value)).Some?
  {
    FirstInRow(t, strong, port, name);
  }

  /** Tables with the same bindings in force answer every question alike, but for a package whose bindings are all dead. */
  lemma InForceDecides(t: Tables, u: Tables, strong: multiset<Handle>)
    requires forall k :: InForce(t, strong, k) == InForce(u, strong, k)
    ensures forall port, name, isAddress :: LookUp(t, strong, port, name, isAddress) == LookUp(u, strong, port, name, isAddress)
    ensures forall package :: Addresses(Resolve(t, strong, package)) == Addresses(Resolve(u, strong, package))
    ensures LiveIn(t.mdns, strong) == LiveIn(u.mdns, strong)
  {
    forall port, name
      ensures LiveIn(Row(Server(t, port), name), strong) == LiveIn(Row(Server(u, port), name), strong)
    {
      forall x
        ensures x in LiveIn(Row(Server(t, port), name), strong) <==> x in LiveIn(Row(Server(u, port), name), strong)
      {
        assert InForce(t, strong, VHostKey(port, name, x)) == InForce(u, strong, VHostKey(port, name, x));
      }
    }
    forall package
      ensures Addresses(Resolve(t, strong, package)) == Addresses(Resolve(u, strong, package))
    {
      forall x
        ensures x in Addresses(Resolve(t, strong, package)) <==> x in Addresses(Resolve(u, strong, package))
      {
        assert InForce(t, strong, DnsKey(package, x)) == InForce(u, strong, DnsKey(package, x));
      }
    }
    forall x
      ensures x in LiveIn(t.mdns, strong) <==> x in LiveIn(u.mdns, strong)
    {
      assert InForce(t, strong, MdnsKey(x)) == InForce(u, strong, MdnsKey(x));
    }
  }

  /** u is t less some entries that are not in force. */
  ghost predicate SweptTo(t: Tables, strong: multiset<Handle>, u: Tables) {
    forall k :: Bound(u, k) == Bound(t, k) || (Bound(u, k) == None && InForce(t, strong, k) == None)
  }

  /** Sweeping dead entries changes no lookup, no set of live addresses and no alias in force. */
  lemma SweepChangesNoAnswer(t: Tables, u: Tables, strong: multiset<Handle>)
    requires SweptTo(t, strong, u)
    ensures forall k :: InForce(u, strong, k) == InForce(t, strong, k)
    ensures forall port, name, isAddress :: LookUp(t, strong, port, name, isAddress) == LookUp(u, strong, port, name, isAddress)
    ensures forall package :: Addresses(Resolve(t, strong, package)) == Addresses(Resolve(u, strong, package))
    ensures LiveIn(t.mdns, strong) == LiveIn(u.mdns, strong)
  {
    InForceDecides(t, u, strong);
  }

  // ----- the invariant

  /** Entries belong to their keys, and every live handle is the entry of the key it was issued for. */
  ghost predicate Consistent(t: Tables, strong: multiset<Handle>, issued: map<Handle, Key>) {
    && (forall k :: Bound(t, k).Some? ==> Bound(t, k).value in issued && issued[Bound(t, k).value] == k)
    && (forall h :: Alive(strong, h) ==> h in issued && Bound(t, issued[h]) == Some(h))
  }

  /** Each binding key has at most one live handle. */
  lemma OneLiveHandle(t: Tables, strong: multiset<Handle>, issued: map<Handle, Key>, g: Handle, h: Handle)
    requires Consistent(t, strong, issued) && Alive(strong, g) && Alive(strong, h) && issued[g] == issued[h]
    ensures g == h
  {
  }

  /** A live handle's binding is in its table, and for a vhost the server of its port is there. */
  lemma LiveHandleIsBound(t: Tables, strong: multiset<Handle>, issued: map<Handle, Key>, h: Handle)
    requires Consistent(t, strong, issued) && Alive(strong, h)
    ensures InForce(t, strong, issued[h]) == Some(h)
    ensures issued[h].VHostKey? ==> issued[h].port in t.vhost && issued[h].host in t.vhost[issued[h].port]
  {
  }

  /** The handle for a key: the one in force, or a new one. */
  ghost predicate Obtains(t: Tables, strong: multiset<Handle>, issued: map<Handle, Key>, key: Key, h: Handle, issued': map<Handle, Key>) {
    match InForce(t, strong, key)
    case Some(g) => h == g && issued' == issued
    case None => h !in issued && issued' == issued[h := key]
  }

  /** Binding a key to its live handle, or to a new one, keeps the tables consistent. */
  lemma BindKeepsConsistent(t: Tables, strong: multiset<Handle>, issued: map<Handle, Key>, key: Key, h: Handle, issued': map<Handle, Key>)
    requires Consistent(t, strong, issued) && Obtains(t, strong, issued, key, h, issued')
    ensures Consistent(Bind(t, key, h), strong + multiset{h}, issued')
  {
  }

  /** So does removing dead entries. */
  lemma SweepKeepsConsistent(t: Tables, strong: multiset<Handle>, issued: map<Handle, Key>, u: Tables)
    requires Consistent(t, strong, issued)
    requires SweptTo(t, strong, u)
    ensures Consistent(u, strong, issued)
  {
  }

  class NetController {
    var tables: Tables
    var strong: multiset<Handle>
    var next: Handle
    var announced: set<string>
    ghost var issued: map<Handle, Key>

    ghost predicate Valid()
      reads this
    {
      Consistent(tables, strong, issued) && forall h :: h in issued ==> h < next
    }

    constructor ()
      ensures Valid() && tables == Tables(map[], map[], map[]) && strong == multiset{}
    {
      tables := Tables(map[], map[], map[]);
      strong, next, announced, issued := multiset{}, 0, {}, map[];
    }

    method CloneHandle(h: Handle)
      requires Valid() && Alive(strong, h)
      modifies this`strong
      ensures Valid() && strong == old(strong) + multiset{h}
    {
      strong := strong + multiset{h};
    }

    /** Gives up one hold for each handle of the list. */
    method DropHandles(hs: seq<Handle>)
      requires Valid() && multiset(hs) <= strong
      modifies this`strong
      ensures Valid() && strong + multiset(hs) == old(strong)
    {
      strong := strong - multiset(hs);
      assert forall h :: Alive(strong, h) ==> Alive(old(strong), h);
    }

    /** The effect of an add: the key is bound to the handle, everything else is as before. */
    twostate predicate Added(key: Key, h: Handle)
      reads this
    {
      && tables == Bind(old(tables), key, h) && strong == old(strong) + multiset{h}
      && Obtains(old(tables), old(strong), old(issued), key, h, issued)
    }

    /** The effect of a sweep: dead entries may go and nothing in force changes. */
    twostate predicate Swept()
      reads this
    {
      strong == old(strong) && issued == old(issued) && next == old(next) && SweptTo(old(tables), strong, tables)
    }

    method AddDns(package: Option<PackageId>, ip: Ip) returns (h: Handle)
      requires Valid()
      modifies this
      ensures Valid() && Added(DnsKey(package, ip), h) && announced == old(announced)
    {
      h := AddBinding(DnsKey(package, ip));
    }

    /** The weak reference under the key is upgraded if it is alive, or else replaced by a new handle, and stored again. */
    method AddBinding(key: Key) returns (h: Handle)
      requires Valid()
      modifies this`tables, this`strong, this`next, this`issued
      ensures Valid() && Added(key, h)
    {
      var weak := Bound(tables, key);
      if weak.Some? && Alive(strong, weak.value) {
        h := weak.value;
      } else {
        h := next;
        next := next + 1;
        issued := issued[h := key];
      }
      BindKeepsConsistent(tables, strong, old(issued), key, h, issued);
      strong := strong + multiset{h};
      tables := Bind(tables, key, h);
    }

    method GcDns(package: Option<PackageId>, ip: Ip)
      requires Valid()
      modifies this
      ensures Valid() && Swept() && announced == old(announced)
      ensures InForce(tables, strong, DnsKey(package, ip)) == Bound(tables, DnsKey(package, ip))
      ensures package in tables.dns ==> tables.dns[package] != map[]
    {
      tables := SweepDns(tables, strong, package, ip);
      SweepKeepsConsistent(old(tables), strong, issued, tables);
    }

    /** Restarts the announcer with the aliases in force; without a process nothing is announced. */
    method SyncMdns(ok: bool) returns (r: Result<()>)
      modifies this`announced
      ensures r.Ok? == ok
      ensures forall alias :: alias in announced <==> ok && InForce(tables, strong, MdnsKey(alias)).Some?
    {
      if ok {
        announced := LiveIn(tables.mdns, strong);
        r := Ok(());
      } else {
        announced := {};
        r := Err(Fault("mdns"));
      }
    }

    /** On failure the new hold is given up again, but the table keeps the entry. */
    method AddMdns(alias: string, ok: bool) returns (r: Result<Handle>)
      requires Valid()
      modifies this
      ensures Valid() && r.Ok? == ok
      ensures r.Ok? ==> Added(MdnsKey(alias), r.value) && announced == LiveIn(tables.mdns, strong) && alias in announced
      ensures r.Err? ==> forall k :: InForce(tables, strong, k) == InForce(old(tables), old(strong), k)
      ensures r.Err? ==> strong == old(strong) && forall h :: h in old(issued) ==> h in issued && issued[h] == old(issued)[h]
    {
      var h := AddBinding(MdnsKey(alias));
      assert Bound(tables, MdnsKey(alias)) == Some(h);
      var done := SyncMdns(ok);
      if done.Err? {
        ReleaseAdded(old(tables), old(strong), old(issued), MdnsKey(alias), h, issued);
        DropHandles([h]);
        SameLess(strong, old(strong), multiset{h});
        return Err(done.error);
      }
      r := Ok(h);
    }

    method GcMdns(alias: string, ok: bool) returns (r: Result<()>)
      requires Valid()
      modifies this
      ensures Valid() && Swept() && r.Ok? == ok
      ensures r.Ok? ==> announced == LiveIn(tables.mdns, strong)
      ensures InForce(tables, strong, MdnsKey(alias)) == Bound(tables, MdnsKey(alias))
      ensures tables.dns == old(tables).dns && tables.vhost == old(tables).vhost
    {
      tables := SweepMdns(tables, strong, alias);
      SweepKeepsConsistent(old(tables), strong, issued, tables);
      r := SyncMdns(ok);
    }

    /** A port that cannot be bound fails the call before anything changes. */
    method AddVHost(port: Port, host: Option<string>, target: Target, canBind: bool) returns (r: Result<Handle>)
      requires Valid()
      modifies this
      ensures Valid() && announced == old(announced)
      ensures r.Err? <==> port !in old(tables).vhost && !canBind
      ensures r.Err? ==> tables == old(tables) && strong == old(strong) && issued == old(issued)
      ensures r.Ok? ==> Added(VHostKey(port, host, target), r.value)
    {
      if port !in tables.vhost && !canBind {
        return Err(Fault("bind"));
      }
      var h := AddBinding(VHostKey(port, host, target));
      r := Ok(h);
    }

    method GcVHost(port: Port, host: Option<string>)
      requires Valid()
      modifies this
      ensures Valid() && Swept() && announced == old(announced)
      ensures forall t :: InForce(tables, strong, VHostKey(port, host, t)) == Bound(tables, VHostKey(port, host, t))
      ensures port in tables.vhost ==> tables.vhost[port] != map[] && (host in tables.vhost[port] ==> tables.vhost[port][host] != map[])
    {
      tables := SweepHost(tables, strong, port, host);
      SweepKeepsConsistent(old(tables), strong, issued, tables);
    }
  }

  lemma SameLess<T>(a: multiset<T>, b: multiset<T>, m: multiset<T>)
    requires a + m == b + m
    ensures a == b
  {
    forall x
      ensures a[x] == b[x]
    {
      assert (a + m)[x] == (b + m)[x];
    }
  }

  /** Giving up a hold just obtained leaves in force exactly what was. */
  lemma ReleaseAdded(t: Tables, strong: multiset<Handle>, issued: map<Handle, Key>, key: Key, h: Handle, issued': map<Handle, Key>)
    requires Consistent(t, strong, issued) && Obtains(t, strong, issued, key, h, issued')
    ensures forall k :: InForce(Bind(t, key, h), strong, k) == InForce(t, strong, k)
  {
  }
}

/** A service's share of the bindings. */
module NetServices {
  import opened Common
  import opened Bindings

  type InterfaceId = string

  /** The bindings of one interface on one port: the key's address and the handles obtained. */
  datatype Lan = Lan(iface: InterfaceId, port: Port, key: string, rcs: seq<Handle>)

  /** A service owns its handles; giving up a service consumes it. */
  datatype NetService = NetService(id: PackageId, ip: Ip, dns: Handle, lan: seq<Lan>)

  function LocalAddress(key: string): string {
    key + ".local"
  }

  /** A handle obtained for a LAN binding of this key on this port. */
  ghost predicate LanHandle(issued: map<Handle, Key>, key: string, port: Port, h: Handle) {
    h in issued && (issued[h] == MdnsKey(key) || (issued[h].VHostKey? && issued[h].port == port && issued[h].host == Some(LocalAddress(key))))
  }

  /** Every handle is filed under the key and port it was obtained for. */
  ghost predicate WellFiled(lan: seq<Lan>, issued: map<Handle, Key>) {
    forall i, h :: 0 <= i < |lan| && h in lan[i].rcs ==> LanHandle(issued, lan[i].key, lan[i].port, h)
  }

  ghost function Held(lan: seq<Lan>): multiset<Handle> {
    if lan == [] then multiset{} else Held(lan[..|lan| - 1]) + multiset(lan[|lan| - 1].rcs)
  }

  lemma {:induction false} HeldParts(lan: seq<Lan>, n: nat)
    requires n < |lan|
    ensures Held(lan[..n]) + multiset(lan[n].rcs) == Held(lan[..n + 1])
    ensures Held(lan[..n + 1]) <= Held(lan)
    decreases |lan|
  {
    assert lan[..n + 1][..n] == lan[..n];
    if n + 1 == |lan| {
      assert lan[..n + 1] == lan;
    } else {
      var shorter := lan[..|lan| - 1];
      HeldParts(shorter, n);
      assert shorter[..n + 1] == lan[..n + 1];
    }
  }

  /** There is enough left to give up the next entry. */
  lemma NextHeld(lan: seq<Lan>, n: nat, strong: multiset<Handle>, left: multiset<Handle>)
    requires n < |lan| && Held(lan) <= strong && left + Held(lan[..n]) == strong
    ensures multiset(lan[n].rcs) <= left
  {
    HeldParts(lan, n);
    forall h
      ensures multiset(lan[n].rcs)[h] <= left[h]
    {
      assert Held(lan[..n + 1])[h] <= strong[h] == left[h] + Held(lan[..n])[h];
    }
  }

  /** The handles `gone` were given up, and those that died with it swept if nothing failed. */
  ghost predicate GivenUp(t: Tables, strong: multiset<Handle>, issued: map<Handle, Key>, u: Tables, strong': multiset<Handle>,
                          gone: multiset<Handle>, clean: bool) {
    && strong' + gone == strong && SweptTo(t, strong', u)
    && (clean ==> forall h :: h in gone && !Alive(strong', h) ==> h in issued && Bound(u, issued[h]) == None)
  }

  /** A binding survives if somebody else holds it too. */
  ghost function Survivor(b: Option<Handle>, strong: multiset<Handle>, gone: multiset<Handle>): Option<Handle> {
    if b.Some? && strong[b.value] > gone[b.value] then b else None
  }

  /** In force afterwards is exactly what was in force and has another holder; if nothing failed the rest has lost its entry. */
  lemma GivenUpExactly(t: Tables, strong: multiset<Handle>, issued: map<Handle, Key>, u: Tables, strong': multiset<Handle>,
                       gone: multiset<Handle>, clean: bool)
    requires Consistent(t, strong, issued) && GivenUp(t, strong, issued, u, strong', gone, clean)
    ensures forall k :: InForce(u, strong', k) == Survivor(InForce(t, strong, k), strong, gone)
    ensures clean ==> forall h :: h in gone && strong[h] == gone[h] ==> Bound(u, issued[h]) == None
  {
  }

  lemma GivenUpComposes(t: Tables, s: multiset<Handle>, issued: map<Handle, Key>, u: Tables, s': multiset<Handle>, gone: multiset<Handle>,
                        w: Tables, s'': multiset<Handle>, more: multiset<Handle>, first: bool, second: bool)
    requires GivenUp(t, s, issued, u, s', gone, first) && GivenUp(u, s', issued, w, s'', more, second)
    ensures GivenUp(t, s, issued, w, s'', gone + more, first && second)
  {
  }

  /** The controller's part: the handles are dropped, then the alias and the host are swept. Without an announcer the host is not swept. */
  method RemoveLanBindings(ctrl: NetController, key: string, port: Port, rcs: seq<Handle>, announces: bool) returns (r: Result<()>)
    requires ctrl.Valid() && multiset(rcs) <= ctrl.strong
    requires forall h :: h in rcs ==> LanHandle(ctrl.issued, key, port, h)
    modifies ctrl
    ensures ctrl.Valid() && ctrl.issued == old(ctrl.issued) && r.Ok? == announces
    ensures GivenUp(old(ctrl.tables), old(ctrl.strong), ctrl.issued, ctrl.tables, ctrl.strong, multiset(rcs), r.Ok?)
    ensures r.Err? ==> ctrl.tables.vhost == old(ctrl.tables).vhost
    ensures InForce(ctrl.tables, ctrl.strong, MdnsKey(key)) == Bound(ctrl.tables, MdnsKey(key))
  {
    ghost var t, s, issued := ctrl.tables, ctrl.strong, ctrl.issued;
    ctrl.DropHandles(rcs);
    ghost var s' := ctrl.strong;
    r := ctrl.GcMdns(key, announces);
    if r.Err? {
      return;
    }
    ghost var mid := ctrl.tables;
    ctrl.GcVHost(port, Some(LocalAddress(key)));
    SweptTwice(t, s, issued, s', mid, ctrl.tables, key, port, rcs);
  }

  lemma SweptTwice(t: Tables, s: multiset<Handle>, issued: map<Handle, Key>, s': multiset<Handle>, mid: Tables, u: Tables,
                   key: string, port: Port, rcs: seq<Handle>)
    requires Consistent(t, s, issued) && s' + multiset(rcs) == s
    requires forall h :: h in rcs ==> LanHandle(issued, key, port, h)
    requires SweptTo(t, s', mid) && SweptTo(mid, s', u)
    requires InForce(mid, s', MdnsKey(key)) == Bound(mid, MdnsKey(key))
    requires forall x :: InForce(u, s', VHostKey(port, Some(LocalAddress(key)), x)) == Bound(u, VHostKey(port, Some(LocalAddress(key)), x))
    ensures GivenUp(t, s, issued, u, s', multiset(rcs), true)
    ensures InForce(u, s', MdnsKey(key)) == Bound(u, MdnsKey(key))
  {
    forall k
      ensures Bound(u, k) == Bound(t, k) || (Bound(u, k) == None && InForce(t, s', k) == None)
    {
      assert Bound(mid, k) == Bound(t, k) || (Bound(mid, k) == None && InForce(t, s', k) == None);
      assert Bound(u, k) == Bound(mid, k) || (Bound(u, k) == None && InForce(mid, s', k) == None);
    }
    forall h | h in multiset(rcs) && !Alive(s', h)
      ensures h in issued && Bound(u, issued[h]) == None
    {
      assert h in rcs;
      assert Alive(s, h) && Bound(t, issued[h]) == Some(h);
      var k := issued[h];
      if k.VHostKey? {
        assert k == VHostKey(port, Some(LocalAddress(key)), k.target);
        assert InForce(u, s', VHostKey(port, Some(LocalAddress(key)), k.target)) == Bound(u, k);
      }
      assert Bound(u, k) == Bound(mid, k) || Bound(u, k) == None;
      assert Bound(mid, k) == Bound(t, k) || Bound(mid, k) == None;
    }
  }

  lemma NameGivenUp(t: Tables, s: multiset<Handle>, issued: map<Handle, Key>, s': multiset<Handle>, u: Tables, k: Key, h: Handle)
    requires Consistent(t, s, issued) && Alive(s, h) && issued[h] == k
    requires s' + multiset{h} == s && SweptTo(t, s', u) && InForce(u, s', k) == Bound(u, k)
    ensures GivenUp(t, s, issued, u, s', multiset{h}, true)
  {
  }

  /** The service holds what it lists, and lists every handle under the key it was obtained for. */
  ghost predicate Owns(svc: NetService, strong: multiset<Handle>, issued: map<Handle, Key>) {
    && Held(svc.lan) + multiset{svc.dns} <= strong
    && svc.dns in issued && issued[svc.dns] == DnsKey(Some(svc.id), svc.ip)
    && WellFiled(svc.lan, issued)
  }

  /** Creating a service binds its name to its address. */
  method CreateService(ctrl: NetController, id: PackageId, ip: Ip) returns (svc: NetService)
    requires ctrl.Valid()
    modifies ctrl
    ensures ctrl.Valid() && svc.id == id && svc.ip == ip && svc.lan == []
    ensures Owns(svc, ctrl.strong, ctrl.issued) && ctrl.strong == old(ctrl.strong) + multiset{svc.dns}
    ensures InForce(ctrl.tables, ctrl.strong, DnsKey(Some(id), ip)) == Some(svc.dns)
  {
    var h := ctrl.AddDns(Some(id), ip);
    assert Bound(ctrl.tables, DnsKey(Some(id), ip)) == Some(h);
    svc := NetService(id, ip, h, []);
  }

  /** The first n calls all succeed. */
  predicate AllOf(oks: seq<bool>, n: nat)
    requires n <= |oks|
  {
    n == 0 || (AllOf(oks, n - 1) && oks[n - 1])
  }

  lemma OneMoreGivenUp(lan: seq<Lan>, n: nat, t: Tables, s: multiset<Handle>, issued: map<Handle, Key>, u: Tables, s': multiset<Handle>,
                       w: Tables, s'': multiset<Handle>, first: bool, second: bool)
    requires n < |lan| && GivenUp(t, s, issued, u, s', Held(lan[..n]), first)
    requires GivenUp(u, s', issued, w, s'', multiset(lan[n].rcs), second)
    ensures GivenUp(t, s, issued, w, s'', Held(lan[..n + 1]), first && second)
  {
    GivenUpComposes(t, s, issued, u, s', Held(lan[..n]), w, s'', multiset(lan[n].rcs), first, second);
    HeldParts(lan, n);
  }

  /** The loop over the LAN bindings, which goes on after a failure. */
  method RemoveAllLan(ctrl: NetController, lan: seq<Lan>, announces: seq<bool>) returns (clean: bool)
    requires ctrl.Valid() && Held(lan) <= ctrl.strong && |announces| == |lan|
    requires WellFiled(lan, ctrl.issued)
    modifies ctrl
    ensures ctrl.Valid() && ctrl.issued == old(ctrl.issued)
    ensures clean == AllOf(announces, |announces|)
    ensures GivenUp(old(ctrl.tables), old(ctrl.strong), ctrl.issued, ctrl.tables, ctrl.strong, Held(lan), clean)
  {
    ghost var t, s, issued := ctrl.tables, ctrl.strong, ctrl.issued;
    clean := true;
    for n := 0 to |lan|
      invariant ctrl.Valid() && ctrl.issued == issued
      invariant clean == AllOf(announces, n)
      invariant GivenUp(t, s, issued, ctrl.tables, ctrl.strong, Held(lan[..n]), clean)
    {
      ghost var u, s' := ctrl.tables, ctrl.strong;
      NextHeld(lan, n, s, s');
      var done := RemoveLanBindings(ctrl, lan[n].key, lan[n].port, lan[n].rcs, announces[n]);
      OneMoreGivenUp(lan, n, t, s, issued, u, s', ctrl.tables, ctrl.strong, clean, done.Ok?);
      clean := clean && done.Ok?;
    }
    assert lan[..|lan|] == lan;
  }

  /**
   * Gives up every binding of the service: everything else that was in force still is, and if
   * nothing failed the bindings it alone held are gone from the tables.
   */
  method RemoveAll(ctrl: NetController, svc: NetService, announces: seq<bool>) returns (r: Result<()>)
    requires ctrl.Valid() && Owns(svc, ctrl.strong, ctrl.issued) && |announces| == |svc.lan|
    modifies ctrl
    ensures ctrl.Valid() && ctrl.issued == old(ctrl.issued)
    ensures r.Ok? == AllOf(announces, |announces|)
    ensures var held := Held(svc.lan) + multiset{svc.dns};
            && ctrl.strong + held == old(ctrl.strong)
            && (r.Ok? ==> forall h :: h in held && old(ctrl.strong)[h] == held[h] ==> Bound(ctrl.tables, ctrl.issued[h]) == None)
            && (forall k :: InForce(ctrl.tables, ctrl.strong, k) == Survivor(InForce(old(ctrl.tables), old(ctrl.strong), k), old(ctrl.strong), held))
  {
    ghost var t, s, issued := ctrl.tables, ctrl.strong, ctrl.issued;
    var clean := RemoveAllLan(ctrl, svc.lan, announces);
    ghost var u, s' := ctrl.tables, ctrl.strong;
    NameHeld(svc, s, s');
    ctrl.DropHandles([svc.dns]);
    ghost var s'' := ctrl.strong;
    ctrl.GcDns(Some(svc.id), svc.ip);
    NameGivenUp(u, s', issued, s'', ctrl.tables, DnsKey(Some(svc.id), svc.ip), svc.dns);
    GivenUpComposes(t, s, issued, u, s', Held(svc.lan), ctrl.tables, ctrl.strong, multiset{svc.dns}, clean, true);
    GivenUpExactly(t, s, issued, ctrl.tables, ctrl.strong, Held(svc.lan) + multiset{svc.dns}, clean);
    r := if clean then Ok(()) else Err(Fault("mdns"));
  }

  lemma NameHeld(svc: NetService, strong: multiset<Handle>, left: multiset<Handle>)
    requires Held(svc.lan) + multiset{svc.dns} <= strong && left + Held(svc.lan) == strong
    ensures multiset([svc.dns]) == multiset{svc.dns} && multiset{svc.dns} <= left && Alive(left, svc.dns)
  {
    assert (Held(svc.lan) + multiset{svc.dns})[svc.dns] <= strong[svc.dns] == left[svc.dns] + Held(svc.lan)[svc.dns];
  }

  /** After an add the key is in force, and so is all that was. */
  lemma AddPutsInForce(t: Tables, s: multiset<Handle>, issued: map<Handle, Key>, a: Key, v: Handle, issued': map<Handle, Key>)
    requires Consistent(t, s, issued) && Obtains(t, s, issued, a, v, issued')
    ensures InForce(Bind(t, a, v), s + multiset{v}, a) == Some(v)
    ensures forall k :: InForce(t, s, k).Some? ==> InForce(Bind(t, a, v), s + multiset{v}, k) == InForce(t, s, k)
    ensures v in issued' && issued'[v] == a && forall h :: h in issued ==> h in issued' && issued'[h] == issued[h]
  {
  }

  /** What is in force for many holds decides what is in force for fewer. */
  lemma FewerHolds(t: Tables, u: Tables, many: multiset<Handle>, few: multiset<Handle>)
    requires few <= many && forall k :: InForce(u, many, k) == InForce(t, many, k)
    ensures forall k :: InForce(u, few, k) == InForce(t, few, k)
  {
    forall k
      ensures InForce(u, few, k) == InForce(t, few, k)
    {
      assert InForce(u, many, k) == InForce(t, many, k);
    }
  }

  /** Giving up holds leaves in force what has another holder. */
  lemma SurvivorsRemain(t: Tables, strong: multiset<Handle>, strong': multiset<Handle>, gone: multiset<Handle>)
    requires strong' + gone == strong
    ensures forall k :: InForce(t, strong', k) == Survivor(InForce(t, strong, k), strong, gone)
  {
  }

  /** A LAN binding: a target for the interface's host name and an announcement of its alias. */
  method AddLanBindings(ctrl: NetController, key: string, port: Port, target: Target, canBind: bool, announces: bool) returns (r: Result<(Handle, Handle)>)
    requires ctrl.Valid()
    modifies ctrl
    ensures ctrl.Valid() && forall h :: h in old(ctrl.issued) ==> h in ctrl.issued && ctrl.issued[h] == old(ctrl.issued)[h]
    ensures r.Ok? <==> (port in old(ctrl.tables).vhost || canBind) && announces
    ensures r.Err? ==> ctrl.strong == old(ctrl.strong)
    ensures r.Err? ==> forall k :: InForce(ctrl.tables, ctrl.strong, k) == InForce(old(ctrl.tables), old(ctrl.strong), k)
    ensures r.Ok? ==> ctrl.strong == old(ctrl.strong) + multiset{r.value.0} + multiset{r.value.1}
    ensures r.Ok? ==> LanHandle(ctrl.issued, key, port, r.value.0) && LanHandle(ctrl.issued, key, port, r.value.1)
    ensures r.Ok? ==> InForce(ctrl.tables, ctrl.strong, VHostKey(port, Some(LocalAddress(key)), target)) == Some(r.value.0)
    ensures r.Ok? ==> InForce(ctrl.tables, ctrl.strong, MdnsKey(key)) == Some(r.value.1)
    ensures r.Ok? ==> forall isAddress ::
              var answer := LookUp(ctrl.tables, ctrl.strong, port, Some(LocalAddress(key)), isAddress);
              answer.Some? && answer.value <= target
    ensures r.Ok? ==> forall k :: InForce(old(ctrl.tables), old(ctrl.strong), k).Some? ==>
                        InForce(ctrl.tables, ctrl.strong, k) == InForce(old(ctrl.tables), old(ctrl.strong), k)
  {
    ghost var t, s, issued := ctrl.tables, ctrl.strong, ctrl.issued;
    var host := ctrl.AddVHost(port, Some(LocalAddress(key)), target, canBind);
    if host.Err? {
      return Err(host.error);
    }
    AddPutsInForce(t, s, issued, VHostKey(port, Some(LocalAddress(key)), target), host.value, ctrl.issued);
    ghost var t', s', issued' := ctrl.tables, ctrl.strong, ctrl.issued;
    var alias := ctrl.AddMdns(key, announces);
    if alias.Err? {
      assert multiset([host.value]) == multiset{host.value};
      ctrl.DropHandles([host.value]);
      SameLess(ctrl.strong, s, multiset{host.value});
      ReleaseAdded(t, s, issued, VHostKey(port, Some(LocalAddress(key)), target), host.value, issued');
      FewerHolds(t', ctrl.tables, s', s);
      return Err(alias.error);
    }
    AddPutsInForce(t', s', issued', MdnsKey(key), alias.value, ctrl.issued);
    BoundIsAnswered(ctrl.tables, ctrl.strong, port, Some(LocalAddress(key)), false, target);
    BoundIsAnswered(ctrl.tables, ctrl.strong, port, Some(LocalAddress(key)), true, target);
    r := Ok((host.value, alias.value));
  }

  // ----- the LAN bindings a service has on file

  predicate At(l: Lan, iface: InterfaceId, port: Port) {
    l.iface == iface && l.port == port
  }

  /** The file without its entry for the interface and port. */
  function Others(lan: seq<Lan>, iface: InterfaceId, port: Port): seq<Lan> {
    if lan == [] then []
    else
      var front, last := Others(lan[..|lan| - 1], iface, port), lan[|lan| - 1];
      if At(last, iface, port) then front else front + [last]
  }

  /** The handles on file for the interface and port. */
  function Filed(lan: seq<Lan>, iface: InterfaceId, port: Port): seq<Handle> {
    if lan == [] then []
    else
      var front, last := Filed(lan[..|lan| - 1], iface, port), lan[|lan| - 1];
      if At(last, iface, port) then front + last.rcs else front
  }

  lemma HeldSnoc(lan: seq<Lan>, l: Lan)
    ensures Held(lan + [l]) == Held(lan) + multiset(l.rcs)
  {
  }

  lemma {:induction false} HeldSplits(lan: seq<Lan>, iface: InterfaceId, port: Port)
    ensures Held(lan) == Held(Others(lan, iface, port)) + multiset(Filed(lan, iface, port))
    decreases |lan|
  {
    if lan != [] {
      var front, last := lan[..|lan| - 1], lan[|lan| - 1];
      HeldSplits(front, iface, port);
      if !At(last, iface, port) {
        HeldSnoc(Others(front, iface, port), last);
      }
    }
  }

  /** An interface has one key, made once and kept in the database. */
  ghost predicate KeyOf(lan: seq<Lan>, iface: InterfaceId, key: string) {
    forall i :: 0 <= i < |lan| && lan[i].iface == iface ==> lan[i].key == key
  }

  lemma {:induction false} FileSplits(lan: seq<Lan>, iface: InterfaceId, port: Port, key: string, issued: map<Handle, Key>)
    requires WellFiled(lan, issued) && KeyOf(lan, iface, key)
    ensures WellFiled(Others(lan, iface, port), issued)
    ensures forall h :: h in Filed(lan, iface, port) ==> LanHandle(issued, key, port, h)
    decreases |lan|
  {
    if lan != [] {
      FileSplits(lan[..|lan| - 1], iface, port, key, issued);
    }
  }

  /** Taking the entry off the file and giving up its handles leaves a service that owns what it lists. */
  lemma OwnsOthers(svc: NetService, s: multiset<Handle>, issued: map<Handle, Key>, s': multiset<Handle>, iface: InterfaceId, port: Port, key: string)
    requires Owns(svc, s, issued) && KeyOf(svc.lan, iface, key)
    requires s' + multiset(Filed(svc.lan, iface, port)) == s
    ensures Owns(svc.(lan := Others(svc.lan, iface, port)), s', issued)
  {
    var gone, rest := multiset(Filed(svc.lan, iface, port)), Held(Others(svc.lan, iface, port));
    HeldSplits(svc.lan, iface, port);
    FileSplits(svc.lan, iface, port, key, issued);
    forall h
      ensures (rest + multiset{svc.dns})[h] <= s'[h]
    {
      assert (Held(svc.lan) + multiset{svc.dns})[h] <= s[h] == s'[h] + gone[h];
    }
  }

  function Entry(lan: seq<Lan>, iface: InterfaceId, port: Port, key: string, a: Handle, b: Handle): Lan {
    Lan(iface, port, key, Filed(lan, iface, port) + [a, b])
  }

  /** Putting the entry back with two more handles keeps the file in order. */
  lemma OwnsRefiled(svc: NetService, s: multiset<Handle>, issued: map<Handle, Key>, issued': map<Handle, Key>,
                    iface: InterfaceId, port: Port, key: string, a: Handle, b: Handle)
    requires Owns(svc, s, issued) && KeyOf(svc.lan, iface, key)
    requires forall h :: h in issued ==> h in issued' && issued'[h] == issued[h]
    requires LanHandle(issued', key, port, a) && LanHandle(issued', key, port, b)
    ensures Owns(svc.(lan := Others(svc.lan, iface, port) + [Entry(svc.lan, iface, port, key, a, b)]), s + multiset{a} + multiset{b}, issued')
  {
    HeldRefiled(svc.lan, iface, port, key, a, b);
    WellRefiled(svc.lan, issued, issued', iface, port, key, a, b);
  }

  lemma HeldRefiled(lan: seq<Lan>, iface: InterfaceId, port: Port, key: string, a: Handle, b: Handle)
    ensures Held(Others(lan, iface, port) + [Entry(lan, iface, port, key, a, b)]) == Held(lan) + multiset{a} + multiset{b}
  {
    HeldSplits(lan, iface, port);
    HeldSnoc(Others(lan, iface, port), Entry(lan, iface, port, key, a, b));
  }

  lemma WellRefiled(lan: seq<Lan>, issued: map<Handle, Key>, issued': map<Handle, Key>,
                    iface: InterfaceId, port: Port, key: string, a: Handle, b: Handle)
    requires WellFiled(lan, issued) && KeyOf(lan, iface, key)
    requires forall h :: h in issued ==> h in issued' && issued'[h] == issued[h]
    requires LanHandle(issued', key, port, a) && LanHandle(issued', key, port, b)
    ensures WellFiled(Others(lan, iface, port) + [Entry(lan, iface, port, key, a, b)], issued')
  {
    FileSplits(lan, iface, port, key, issued);
    assert WellFiled(Others(lan, iface, port), issued);
  }

  lemma FiledIsHeld(svc: NetService, s: multiset<Handle>, issued: map<Handle, Key>, iface: InterfaceId, port: Port)
    requires Owns(svc, s, issued)
    ensures multiset(Filed(svc.lan, iface, port)) <= s
  {
    HeldSplits(svc.lan, iface, port);
    forall h
      ensures multiset(Filed(svc.lan, iface, port))[h] <= s[h]
    {
      assert (Held(svc.lan) + multiset{svc.dns})[h] <= s[h];
    }
  }

  /** Adds a LAN binding to the service's file. If that fails, what was on file for it is given up. */
  method AddLan(ctrl: NetController, svc: NetService, iface: InterfaceId, port: Port, key: string, target: Target,
                canBind: bool, announces: bool) returns (r: Result<()>, after: NetService)
    requires ctrl.Valid() && Owns(svc, ctrl.strong, ctrl.issued) && KeyOf(svc.lan, iface, key)
    modifies ctrl
    ensures ctrl.Valid() && Owns(after, ctrl.strong, ctrl.issued)
    ensures r.Ok? <==> (port in old(ctrl.tables).vhost || canBind) && announces
    ensures r.Err? ==> after == svc.(lan := Others(svc.lan, iface, port))
    ensures r.Err? ==> forall k :: InForce(ctrl.tables, ctrl.strong, k) ==
                         Survivor(InForce(old(ctrl.tables), old(ctrl.strong), k), old(ctrl.strong), multiset(Filed(svc.lan, iface, port)))
    ensures r.Ok? ==> exists a: Handle, b: Handle ::
              && after == svc.(lan := Others(svc.lan, iface, port) + [Entry(svc.lan, iface, port, key, a, b)])
              && InForce(ctrl.tables, ctrl.strong, VHostKey(port, Some(LocalAddress(key)), target)) == Some(a)
              && InForce(ctrl.tables, ctrl.strong, MdnsKey(key)) == Some(b)
    ensures r.Ok? ==> forall k :: InForce(old(ctrl.tables), old(ctrl.strong), k).Some? ==>
                        InForce(ctrl.tables, ctrl.strong, k) == InForce(old(ctrl.tables), old(ctrl.strong), k)
  {
    ghost var s, issued := ctrl.strong, ctrl.issued;
    FiledIsHeld(svc, s, issued, iface, port);
    var got := AddLanBindings(ctrl, key, port, target, canBind, announces);
    if got.Err? {
      ctrl.DropHandles(Filed(svc.lan, iface, port));
      SurvivorsRemain(ctrl.tables, s, ctrl.strong, multiset(Filed(svc.lan, iface, port)));
      OwnsOthers(svc, s, issued, ctrl.strong, iface, port, key);
      after := svc.(lan := Others(svc.lan, iface, port));
      r := Err(got.error);
    } else {
      var (a, b) := got.value;
      OwnsRefiled(svc, s, issued, ctrl.issued, iface, port, key, a, b);
      after := svc.(lan := Others(svc.lan, iface, port) + [Entry(svc.lan, iface, port, key, a, b)]);
      r := Ok(());
    }
  }

  /** Takes a LAN binding off the file, under the key it is filed with, and gives it up. */
  method RemoveLan(ctrl: NetController, svc: NetService, iface: InterfaceId, port: Port, key: string, announces: bool)
    returns (r: Result<()>, after: NetService)
    requires ctrl.Valid() && Owns(svc, ctrl.strong, ctrl.issued) && KeyOf(svc.lan, iface, key)
    modifies ctrl
    ensures ctrl.Valid() && ctrl.issued == old(ctrl.issued)
    ensures r.Ok? <==> announces || Filed(svc.lan, iface, port) == []
    ensures after == svc.(lan := Others(svc.lan, iface, port)) && Owns(after, ctrl.strong, ctrl.issued)
    ensures GivenUp(old(ctrl.tables), old(ctrl.strong), ctrl.issued, ctrl.tables, ctrl.strong, multiset(Filed(svc.lan, iface, port)), r.Ok?)
  {
    ghost var s, issued := ctrl.strong, ctrl.issued;
    FiledIsHeld(svc, s, issued, iface, port);
    FileSplits(svc.lan, iface, port, key, issued);
    after := svc.(lan := Others(svc.lan, iface, port));
    var filed := Filed(svc.lan, iface, port);
    r := Ok(());
    if filed != [] {
      r := RemoveLanBindings(ctrl, key, port, filed, announces);
    }
    OwnsOthers(svc, s, issued, ctrl.strong, iface, port, key);
  }
}
