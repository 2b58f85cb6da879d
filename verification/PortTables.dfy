/** The tables that all controls share: port reservations and proxy records. */
module PortTables {

  datatype Kind = Tcp | Udp

  datatype Info = Info(kind: Kind, port: nat)

  /** Port to proxy name, per transport, and proxy name to record. */
  datatype Tables = Tables(tcp: map<nat, string>, udp: map<nat, string>, infos: map<string, Info>)

  function Ports(t: Tables, k: Kind): map<nat, string> {
    if k.Tcp? then t.tcp else t.udp
  }

  function WithPorts(t: Tables, k: Kind, m: map<nat, string>): Tables {
    if k.Tcp? then t.(tcp := m) else t.(udp := m)
  }

  /** The reservation of `p` is in the name `n`. */
  predicate Holds(t: Tables, k: Kind, p: nat, n: string) {
    p in Ports(t, k) && Ports(t, k)[p] == n
  }

  predicate Taken(t: Tables, k: Kind, p: nat, n: string) {
    p in Ports(t, k) && Ports(t, k)[p] != n
  }

  function Register(t: Tables, k: Kind, p: nat, n: string): (t': Tables)
    requires !Taken(t, k, p, n)
    ensures Holds(t', k, p, n) && t'.infos == t.infos
    ensures forall k', p': nat, n' :: (k', p') != (k, p) ==> Holds(t', k', p', n') == Holds(t, k', p', n')
  {
    WithPorts(t, k, Ports(t, k)[p := n])
  }

  function Release(t: Tables, k: Kind, p: nat, n: string): (t': Tables)
    ensures !Holds(t', k, p, n) && t'.infos == t.infos
    ensures forall k', p': nat, n' :: (k', p', n') != (k, p, n) ==> Holds(t', k', p', n') == Holds(t, k', p', n')
  {
    if Holds(t, k, p, n) then WithPorts(t, k, Ports(t, k) - {p}) else t
  }

  function Publish(t: Tables, n: string, info: Info): Tables {
    t.(infos := t.infos[n := info])
  }

  /** Closing the names `ns` gives port `p` back. */
  predicate Freed(t: Tables, ns: set<string>, k: Kind, p: nat, n: string) {
    n in ns && n in t.infos && t.infos[n] == Info(k, p)
  }

  /** Forget a proxy record and give its port back. */
  function CloseName(t: Tables, n: string): (t': Tables)
    ensures t'.infos == t.infos - {n}
    ensures forall k, p: nat, n' :: Holds(t', k, p, n') == (Holds(t, k, p, n') && !Freed(t, {n}, k, p, n'))
  {
    if n in t.infos then
      var i := t.infos[n];
      var u := t.(infos := t.infos - {n});
      assert forall k, p: nat, n' :: Holds(u, k, p, n') == Holds(t, k, p, n');
      Release(u, i.kind, i.port, n)
    else t
  }

  /** What closing every name of a set leaves, in one piece. */
  function CloseNames(t: Tables, ns: set<string>): (t': Tables)
    ensures t'.infos == t.infos - ns
    ensures forall k, p: nat, n :: Holds(t', k, p, n) == (Holds(t, k, p, n) && !Freed(t, ns, k, p, n))
  {
    Tables(map p | p in t.tcp && !Freed(t, ns, Tcp, p, t.tcp[p]) :: t.tcp[p],
           map p | p in t.udp && !Freed(t, ns, Udp, p, t.udp[p]) :: t.udp[p],
           t.infos - ns)
  }

  /** Two tables are equal when they agree on every reservation and record. */
  lemma TablesEqual(a: Tables, b: Tables)
    requires a.infos == b.infos
    requires forall k, p: nat, n :: Holds(a, k, p, n) == Holds(b, k, p, n)
    ensures a == b
  {
    forall p
      ensures p in a.tcp <==> p in b.tcp
      ensures p in a.tcp ==> a.tcp[p] == b.tcp[p]
    {
      if p in a.tcp { assert Holds(a, Tcp, p, a.tcp[p]); }
      if p in b.tcp { assert Holds(b, Tcp, p, b.tcp[p]); }
    }
    forall p
      ensures p in a.udp <==> p in b.udp
      ensures p in a.udp ==> a.udp[p] == b.udp[p]
    {
      if p in a.udp { assert Holds(a, Udp, p, a.udp[p]); }
      if p in b.udp { assert Holds(b, Udp, p, b.udp[p]); }
    }
    assert a.tcp == b.tcp && a.udp == b.udp;
  }

  /** Closing names one at a time, in any order, is closing them together. */
  lemma CloseNamesOneByOne(t: Tables, ns: set<string>, n: string)
    requires n in ns
    ensures CloseNames(CloseName(t, n), ns - {n}) == CloseNames(t, ns)
  {
    TablesEqual(CloseNames(CloseName(t, n), ns - {n}), CloseNames(t, ns));
  }

  lemma CloseNoNames(t: Tables)
    ensures CloseNames(t, {}) == t
  {
    TablesEqual(CloseNames(t, {}), t);
  }

  /** A reservation is undone by its release, and by nothing else. */
  lemma ReleaseUndoesRegister(t: Tables, k: Kind, p: nat, n: string)
    requires p !in Ports(t, k)
    ensures Release(Register(t, k, p, n), k, p, n) == t
  {
    TablesEqual(Release(Register(t, k, p, n), k, p, n), t);
  }
}

/** The server's shared state and a control, as objects. */
module ControlObjects {
  import opened PortTables

  /** Cancellation tokens are numbered; a control keeps the set of those it has
      cancelled. */
  type Token = nat

  datatype Reservation = Ignored | Refused | Accepted

  class ServerShared {
    var tcpPorts: map<nat, string>
    var udpPorts: map<nat, string>
    var proxyInfos: map<string, Info>
    var controls: map<string, ControlState>
    var clientsOnline: int

    ghost function View(): Tables
      reads this
    {
      Tables(tcpPorts, udpPorts, proxyInfos)
    }

    constructor ()
      ensures View() == Tables(map[], map[], map[]) && controls == map[] && clientsOnline == 0
    {
      tcpPorts, udpPorts, proxyInfos, controls, clientsOnline := map[], map[], map[], map[], 0;
    }

    method RegisterProxyPort(k: Kind, port: nat, name: string) returns (ok: bool)
      modifies this`tcpPorts, this`udpPorts
      ensures ok == !Taken(old(View()), k, port, name)
      ensures View() == if ok then Register(old(View()), k, port, name) else old(View())
    {
      var guard := if k.Tcp? then tcpPorts else udpPorts;
      if port in guard {
        if guard[port] != name {
          return false;
        }
        assert guard[port := name] == guard;
        return true;
      }
      if k.Tcp? {
        tcpPorts := tcpPorts[port := name];
      } else {
        udpPorts := udpPorts[port := name];
      }
      return true;
    }

    method ReleaseProxyPort(k: Kind, port: nat, name: string)
      modifies this`tcpPorts, this`udpPorts
      ensures View() == Release(old(View()), k, port, name)
    {
      if k.Tcp? {
        if port in tcpPorts && tcpPorts[port] == name {
          tcpPorts := tcpPorts - {port};
        }
      } else {
        if port in udpPorts && udpPorts[port] == name {
          udpPorts := udpPorts - {port};
        }
      }
    }
  }

  class ControlState {
    const runId: string
    const shared: ServerShared
    var cancelled: bool
    var online: bool
    var proxies: map<string, Token>
    var closed: set<Token>
    /** The work connections in the pool, and whether a caller holds the lock of
        its receiving end. */
    var pooled: seq<nat>
    var receiving: bool

    constructor (runId: string, shared: ServerShared)
      ensures !cancelled && online && proxies == map[] && closed == {} && pooled == [] && !receiving
      ensures this.runId == runId && this.shared == shared
    {
      this.runId, this.shared := runId, shared;
      cancelled, online, proxies, closed, pooled, receiving := false, true, map[], {}, [], false;
    }

    /** The name goes, its token is cancelled, and its record and port go too. */
    method CloseProxy(name: string)
      modifies this`proxies, this`closed
      modifies shared`tcpPorts, shared`udpPorts, shared`proxyInfos
      ensures proxies == old(proxies) - {name}
      ensures closed == old(closed) + (if name in old(proxies) then {old(proxies)[name]} else {})
      ensures shared.View() == if name in old(proxies) then CloseName(old(shared.View()), name) else old(shared.View())
    {
      if name in proxies {
        closed := closed + {proxies[name]};
        proxies := proxies - {name};
        if name in shared.proxyInfos {
          var info := shared.proxyInfos[name];
          shared.proxyInfos := shared.proxyInfos - {name};
          shared.ReleaseProxyPort(info.kind, info.port, name);
        }
      }
    }

    method DropReservation(name: string)
      modifies this`proxies
      ensures proxies == old(proxies) - {name}
    {
      proxies := proxies - {name};
    }

    /** Closes every proxy of the control, in whatever order the map yields them. */
    method CloseAll()
      modifies this`proxies, this`closed
      modifies shared`tcpPorts, shared`udpPorts, shared`proxyInfos
      ensures proxies == map[] && closed == old(closed) + old(proxies).Values
      ensures shared.View() == CloseNames(old(shared.View()), old(proxies).Keys)
    {
      var names := proxies.Keys;
      ghost var goal := CloseNames(shared.View(), names);
      ghost var all := closed + proxies.Values;
      while names != {}
        invariant proxies.Keys == names
        invariant closed + proxies.Values == all
        invariant CloseNames(shared.View(), names) == goal
        decreases |names|
      {
        var n :| n in names;
        CloseNamesOneByOne(shared.View(), names, n);
        ValuesWithout(proxies, n);
        CloseProxy(n);
        names := names - {n};
      }
      CloseNoNames(shared.View());
    }

    /** A request for a proxy: its name is taken, unless the control is gone, the name
        is in use, or the request is for something that is not supported. */
    method Reserve(name: string, token: Token, plain: bool, known: bool, stopped: bool) returns (r: Reservation)
      modifies this`proxies
      ensures r.Ignored? <==> stopped || cancelled
      ensures r.Accepted? <==> !stopped && !cancelled && name !in old(proxies) && plain && known
      ensures proxies == if r.Accepted? then old(proxies)[name := token] else old(proxies)
    {
      if stopped || cancelled {
        return Ignored;
      }
      if name in proxies {
        return Refused;
      }
      ghost var before := proxies;
      proxies := proxies[name := token];
      if !plain || !known {
        DropReservation(name);
        assert proxies == before;
        return Refused;
      }
      return Accepted;
    }

    /** The part of a registration between its configuration and its bind. */
    method Configure(name: string, k: Kind, port: nat, allowed: bool, addrOk: bool) returns (binding: bool)
      modifies this`proxies, shared`tcpPorts, shared`udpPorts
      ensures binding <==> allowed && !Taken(old(shared.View()), k, port, name) && addrOk
      ensures proxies == if binding then old(proxies) else old(proxies) - {name}
      ensures var t := old(shared.View());
              shared.View() == if !allowed || Taken(t, k, port, name) then t
                               else if addrOk then Register(t, k, port, name)
                               else Release(Register(t, k, port, name), k, port, name)
    {
      if !allowed {
        DropReservation(name);
        return false;
      }
      var ok := shared.RegisterProxyPort(k, port, name);
      if !ok {
        DropReservation(name);
        return false;
      }
      if !addrOk {
        shared.ReleaseProxyPort(k, port, name);
        DropReservation(name);
        return false;
      }
      return true;
    }

    /** The bind failed. */
    method BindFailed(name: string, k: Kind, port: nat)
      modifies this`proxies, shared`tcpPorts, shared`udpPorts
      ensures proxies == old(proxies) - {name} && shared.View() == Release(old(shared.View()), k, port, name)
    {
      shared.ReleaseProxyPort(k, port, name);
      DropReservation(name);
    }

    /** The response is out: the proxy is published, or undone if its token has been
        cancelled. */
    method Conclude(name: string, k: Kind, port: nat, tokenCancelled: bool)
      modifies this`proxies, this`closed
      modifies shared`tcpPorts, shared`udpPorts, shared`proxyInfos
      ensures !tokenCancelled ==>
                && proxies == old(proxies) && closed == old(closed)
                && shared.View() == Publish(old(shared.View()), name, Info(k, port))
      ensures tokenCancelled ==>
                && proxies == old(proxies) - {name}
                && closed == old(closed) + (if name in old(proxies) then {old(proxies)[name]} else {})
                && var t := Release(old(shared.View()), k, port, name);
                   shared.View() == if name in old(proxies) then CloseName(t, name) else t
    {
      if tokenCancelled {
        shared.ReleaseProxyPort(k, port, name);
        CloseProxy(name);
      } else {
        shared.proxyInfos := shared.proxyInfos[name := Info(k, port)];
      }
    }

    /** Pooled connections are dropped, unless a caller is receiving. */
    method DrainPool()
      modifies this`pooled
      ensures pooled == if receiving then old(pooled) else []
    {
      if !receiving {
        while pooled != []
          decreases |pooled|
        {
          pooled := pooled[1..];
        }
      }
    }

    /** The registry entry goes only if it is this very object, and the gauge
        moves only the first time. */
    method Teardown()
      modifies this`cancelled, this`proxies, this`closed, this`online, this`pooled
      modifies shared
      ensures cancelled && proxies == map[] && !online && pooled == if receiving then old(pooled) else []
      ensures closed == old(closed) + old(proxies).Values
      ensures shared.View() == CloseNames(old(shared.View()), old(proxies).Keys)
      ensures shared.controls == if runId in old(shared.controls) && old(shared.controls)[runId] == this
                                 then old(shared.controls) - {runId} else old(shared.controls)
      ensures shared.clientsOnline == old(shared.clientsOnline) - (if old(online) then 1 else 0)
    {
      cancelled := true;
      DrainPool();
      CloseAll();
      if runId in shared.controls && shared.controls[runId] == this {
        shared.controls := shared.controls - {runId};
      }
      if online {
        online := false;
        shared.clientsOnline := shared.clientsOnline - 1;
      }
    }
  }

  lemma ValuesWithout(m: map<string, Token>, n: string)
    requires n in m
    ensures {m[n]} + (m - {n}).Values == m.Values
  {
    var m' := m - {n};
    forall v | v in m.Values
      ensures v in {m[n]} + m'.Values
    {
      var k :| k in m && m[k] == v;
      if k != n { assert k in m' && m'[k] == v; }
    }
  }
}
