/**
 * The NUMA-aware queue distribution of app/test-sniffer/lcores.go and the
 * header rewrite its per-lcore loop applies to every received packet.
 *
 * The EAL and ethdev lookups the Go code makes (eal.LcoreToSocket,
 * pid.InfoGet, pid.SocketID, info.NbRxQueues) are parameters: a socket
 * function over lcore ids and a PortInfo per port.
 */
module Lcores {
  import opened Types
  import opened PacketHeaders
  import opened OnesComplement
  import opened WordSums
  import opened Checksum
  import opened ChecksumProofs

  // ---------------------------------------------------------------------------
  // dissectLcores
  // ---------------------------------------------------------------------------

  /** The buckets dissectLcores has built after the given lcores, in loop order. */
  function Dissected(lcores: seq<nat>, socketOf: nat -> nat): map<nat, seq<nat>>
    decreases |lcores|
  {
    if |lcores| == 0 then map[]
    else
      var t := Dissected(lcores[..|lcores| - 1], socketOf);
      var lcore := lcores[|lcores| - 1];
      var socket := socketOf(lcore);
      if socket !in t then t[socket := [lcore]] else t[socket := t[socket] + [lcore]]
  }

  /** The lcores on one socket, in input order: the reference the buckets are checked against. */
  function OnSocket(lcores: seq<nat>, socketOf: nat -> nat, socket: nat): (r: seq<nat>)
    ensures |r| <= |lcores|
    decreases |lcores|
  {
    if |lcores| == 0 then []
    else (if socketOf(lcores[0]) == socket then [lcores[0]] else []) + OnSocket(lcores[1..], socketOf, socket)
  }

  lemma {:induction false} OnSocketSnoc(lcores: seq<nat>, lcore: nat, socketOf: nat -> nat, socket: nat)
    ensures OnSocket(lcores + [lcore], socketOf, socket)
         == OnSocket(lcores, socketOf, socket) + (if socketOf(lcore) == socket then [lcore] else [])
    decreases |lcores|
  {
    if |lcores| > 0 {
      assert (lcores + [lcore])[1..] == lcores[1..] + [lcore];
      OnSocketSnoc(lcores[1..], lcore, socketOf, socket);
    }
  }

  /** An lcore is on a socket's list exactly when it is an input lcore of that socket. */
  lemma {:induction false} OnSocketMembers(lcores: seq<nat>, socketOf: nat -> nat, socket: nat, lcore: nat)
    ensures lcore in OnSocket(lcores, socketOf, socket) <==> lcore in lcores && socketOf(lcore) == socket
    decreases |lcores|
  {
    if |lcores| > 0 {
      OnSocketMembers(lcores[1..], socketOf, socket, lcore);
      assert lcores == [lcores[0]] + lcores[1..];
    }
  }

  /**
   * dissectLcores partitions its input: a socket has a bucket exactly when
   * some input lcore is on it, and the bucket lists that socket's lcores in
   * input order.
   */
  lemma {:induction false} DissectedIsPartition(lcores: seq<nat>, socketOf: nat -> nat)
    ensures var t := Dissected(lcores, socketOf);
      forall socket :: (socket in t <==> OnSocket(lcores, socketOf, socket) != [])
                       && (socket in t ==> t[socket] == OnSocket(lcores, socketOf, socket))
    decreases |lcores|
  {
    if |lcores| > 0 {
      var init, lcore := lcores[..|lcores| - 1], lcores[|lcores| - 1];
      assert lcores == init + [lcore];
      DissectedIsPartition(init, socketOf);
      forall socket {
        OnSocketSnoc(init, lcore, socketOf, socket);
      }
    }
  }

  /** Every input lcore sits in the bucket of its own socket, and in no other. */
  lemma EachLcoreInItsBucket(lcores: seq<nat>, socketOf: nat -> nat, lcore: nat, socket: nat)
    requires lcore in lcores
    ensures var t := Dissected(lcores, socketOf);
      socketOf(lcore) in t && lcore in t[socketOf(lcore)]
      && (socket in t && lcore in t[socket] ==> socket == socketOf(lcore))
  {
    DissectedIsPartition(lcores, socketOf);
    OnSocketMembers(lcores, socketOf, socketOf(lcore), lcore);
    OnSocketMembers(lcores, socketOf, socket, lcore);
  }

  /** dissectLcores (app/test-sniffer/lcores.go:30-44). */
  method DissectLcores(lcores: seq<nat>, socketOf: nat -> nat) returns (table: map<nat, seq<nat>>)
    ensures table == Dissected(lcores, socketOf)
  {
    table := map[];
    for i := 0 to |lcores|
      invariant table == Dissected(lcores[..i], socketOf)
    {
      var lcore := lcores[i];
      var socket := socketOf(lcore);
      assert lcores[..i + 1][..i] == lcores[..i];
      if socket !in table {
        table := table[socket := [lcore]];
      } else {
        table := table[socket := table[socket] + [lcore]];
      }
    }
    assert lcores[..|lcores|] == lcores;
  }

  // ---------------------------------------------------------------------------
  // distributeQueuesPort and DistributeQueues
  // ---------------------------------------------------------------------------

  /** PortQueue: the port and the RX/TX queues an lcore serves. */
  datatype PortQueue = PortQueue(pid: nat, rxQid: u16, txQid: u16)

  /** What the ethdev queries report for a port: whether InfoGet failed, SocketID and NbRxQueues. */
  datatype PortInfo = PortInfo(infoFailed: bool, socket: int, nbRxQueues: u16)

  /** The errors distributeQueuesPort returns: InfoGet's error, os.ErrInvalid, os.ErrNotExist, os.ErrClosed, or too few lcores. */
  datatype QueueError = InfoGetFailed | ErrInvalid | ErrNotExist | ErrClosed | TooFewLcores(pid: nat, nrx: u16, available: nat)

  /** The two Go maps the distribution mutates: the per-socket lcore pools and the lcore table. */
  datatype Distribution = Distribution(lcoreMap: map<nat, seq<nat>>, table: map<nat, PortQueue>)

  /** The checks of distributeQueuesPort (app/test-sniffer/lcores.go:68-90), in their order. */
  function PortCheck(pid: nat, info: PortInfo, lcoreMap: map<nat, seq<nat>>): Option<QueueError>
  {
    if info.infoFailed then Some(InfoGetFailed)
    else if info.socket < 0 then Some(ErrInvalid)
    else if info.socket as nat !in lcoreMap then Some(ErrNotExist)
    else if info.nbRxQueues == 0 then Some(ErrClosed)
    else if info.nbRxQueues as int > |lcoreMap[info.socket as nat]| then
      Some(TooFewLcores(pid, info.nbRxQueues, |lcoreMap[info.socket as nat]|))
    else None
  }

  /** The table after lcores[i] has been given RX queue i of pid, for i in order. */
  function Assigned(table: map<nat, PortQueue>, pid: nat, lcores: seq<nat>): map<nat, PortQueue>
    requires |lcores| <= 0x1_0000
    decreases |lcores|
  {
    if |lcores| == 0 then table
    else Assigned(table, pid, lcores[..|lcores| - 1])[lcores[|lcores| - 1] := PortQueue(pid, |lcores| - 1, 0)]
  }

  /** distributeQueuesPort (app/test-sniffer/lcores.go:65-104) as a function of the maps before the call. */
  function DistributePort(pid: nat, info: PortInfo, d: Distribution): (Option<QueueError>, Distribution)
  {
    var err := PortCheck(pid, info, d.lcoreMap);
    if err.Some? then (err, d)
    else
      var socket := info.socket as nat;
      var pool := d.lcoreMap[socket];
      var nrx := info.nbRxQueues as nat;
      (None, Distribution(d.lcoreMap[socket := pool[nrx..]], Assigned(d.table, pid, pool[..nrx])))
  }

  /** The loop of DistributeQueues (app/test-sniffer/lcores.go:56-62): ports in order, stopping at the first error. */
  function DistributeAll(ports: seq<nat>, info: nat -> PortInfo, d: Distribution): (Option<QueueError>, Distribution)
    decreases |ports|
  {
    if |ports| == 0 then (None, d)
    else
      var (err, d1) := DistributePort(ports[0], info(ports[0]), d);
      if err.Some? then (err, d1) else DistributeAll(ports[1..], info, d1)
  }

  /**
   * Given distinct lcores, queue i of the port goes to lcores[i], the table
   * gains exactly those lcores and keeps every other entry.
   */
  lemma {:induction false} AssignedMeaning(table: map<nat, PortQueue>, pid: nat, lcores: seq<nat>)
    requires |lcores| <= 0x1_0000
    requires forall i, j | 0 <= i < j < |lcores| :: lcores[i] != lcores[j]
    ensures var t := Assigned(table, pid, lcores);
      && t.Keys == table.Keys + (set l | l in lcores)
      && (forall i | 0 <= i < |lcores| :: t[lcores[i]] == PortQueue(pid, i, 0))
      && (forall l | l in table && l !in lcores :: t[l] == table[l])
    decreases |lcores|
  {
    if |lcores| > 0 {
      var init := lcores[..|lcores| - 1];
      AssignedMeaning(table, pid, init);
      assert forall l :: l in lcores <==> l in init || l == lcores[|lcores| - 1];
    }
  }

  /** Every entry Assigned adds names the port, a TX queue of 0 and an lcore from the list. */
  lemma {:induction false} AssignedFromPool(table: map<nat, PortQueue>, pid: nat, lcores: seq<nat>)
    requires |lcores| <= 0x1_0000
    ensures var t := Assigned(table, pid, lcores);
      forall l | l in t :: (l in table && t[l] == table[l]) || (l in lcores && t[l].pid == pid && t[l].txQid == 0)
    decreases |lcores|
  {
    if |lcores| > 0 {
      AssignedFromPool(table, pid, lcores[..|lcores| - 1]);
    }
  }

  /**
   * A port that fails a check changes neither map; a port that passes takes
   * the first nrx lcores of its socket's pool, leaves the rest as the pool,
   * and gives each taken lcore a queue of that port with TX queue 0.
   */
  lemma DistributePortMeaning(pid: nat, info: PortInfo, d: Distribution)
    ensures var (err, d1) := DistributePort(pid, info, d);
      && (err.Some? ==> d1 == d)
      && (err.None? <==> !info.infoFailed && info.socket >= 0 && info.socket as nat in d.lcoreMap
                         && 0 < info.nbRxQueues as int <= |d.lcoreMap[info.socket as nat]|)
      && (err.None? ==>
            var pool := d.lcoreMap[info.socket as nat];
            && d1.lcoreMap == d.lcoreMap[info.socket as nat := pool[info.nbRxQueues..]]
            && forall l | l in d1.table ::
                 (l in d.table && d1.table[l] == d.table[l])
                 || (l in pool[..info.nbRxQueues] && d1.table[l].pid == pid && d1.table[l].txQid == 0))
  {
    var (err, d1) := DistributePort(pid, info, d);
    if err.None? {
      var pool := d.lcoreMap[info.socket as nat];
      AssignedFromPool(d.table, pid, pool[..info.nbRxQueues]);
    }
  }

  /** Each lcore of the pools belongs to the socket of its pool. */
  ghost predicate PoolsOnSockets(lcoreMap: map<nat, seq<nat>>, socketOf: nat -> nat)
  {
    forall socket, l | socket in lcoreMap && l in lcoreMap[socket] :: socketOf(l) == socket
  }

  /**
   * NUMA locality: when the pools hold only lcores of their own socket,
   * every table entry the distribution adds maps an lcore to a port on the
   * lcore's socket, with TX queue 0; the pools keep that property.
   */
  lemma {:induction false} DistributeAllLocal(ports: seq<nat>, info: nat -> PortInfo, d: Distribution, socketOf: nat -> nat)
    requires PoolsOnSockets(d.lcoreMap, socketOf)
    ensures var (err, d1) := DistributeAll(ports, info, d);
      && PoolsOnSockets(d1.lcoreMap, socketOf)
      && forall l | l in d1.table ::
           (l in d.table && d1.table[l] == d.table[l])
           || (info(d1.table[l].pid).socket == socketOf(l) && d1.table[l].txQid == 0)
    decreases |ports|
  {
    if |ports| > 0 {
      var pid := ports[0];
      DistributePortMeaning(pid, info(pid), d);
      var (err, d1) := DistributePort(pid, info(pid), d);
      if err.None? {
        var socket := info(pid).socket as nat;
        var pool := d.lcoreMap[socket];
        assert forall l | l in pool[info(pid).nbRxQueues..] :: l in pool;
        assert forall l | l in pool[..info(pid).nbRxQueues] :: l in pool;
        assert PoolsOnSockets(d1.lcoreMap, socketOf);
        DistributeAllLocal(ports[1..], info, d1, socketOf);
      }
    }
  }

  /** The pools dissectLcores builds hold only lcores of their own socket. */
  lemma DissectedOnSockets(lcores: seq<nat>, socketOf: nat -> nat)
    ensures PoolsOnSockets(Dissected(lcores, socketOf), socketOf)
  {
    var t := Dissected(lcores, socketOf);
    DissectedIsPartition(lcores, socketOf);
    forall socket, l | socket in t && l in t[socket]
      ensures socketOf(l) == socket
    {
      OnSocketMembers(lcores, socketOf, socket, l);
    }
  }

  /** No element occurs twice. */
  ghost predicate NoDup(s: seq<nat>)
  {
    forall i, j | 0 <= i < j < |s| :: s[i] != s[j]
  }

  /** No two lcores of the table serve the same port and queues. */
  ghost predicate Injective(table: map<nat, PortQueue>)
  {
    forall l1, l2 | l1 in table && l2 in table && l1 != l2 :: table[l1] != table[l2]
  }

  /** Some lcore of the table serves pq. */
  ghost predicate Held(table: map<nat, PortQueue>, pq: PortQueue)
  {
    exists l :: l in table && table[l] == pq
  }

  /**
   * The pools can be handed out without clashes: no pool repeats an lcore,
   * no lcore is in two pools, and no pooled lcore already has a table entry.
   */
  ghost predicate PoolsSeparate(d: Distribution)
  {
    && (forall s | s in d.lcoreMap :: NoDup(d.lcoreMap[s]))
    && (forall s1, s2, l | s1 in d.lcoreMap && s2 in d.lcoreMap && s1 != s2 && l in d.lcoreMap[s1] :: l !in d.lcoreMap[s2])
    && (forall s, l | s in d.lcoreMap && l in d.lcoreMap[s] :: l !in d.table)
  }

  /**
   * Assigning distinct lcores without entries to the queues of a port the
   * table does not serve yet: queue i is served by lcores[i], every earlier
   * entry is kept, and no two lcores serve the same queue.
   */
  lemma AssignedCovers(table: map<nat, PortQueue>, pid: nat, lcores: seq<nat>)
    requires |lcores| <= 0x1_0000 && NoDup(lcores) && Injective(table)
    requires forall l | l in lcores :: l !in table
    requires forall l | l in table :: table[l].pid != pid
    ensures var t := Assigned(table, pid, lcores);
      && Injective(t)
      && (forall l | l in table :: l in t && t[l] == table[l])
      && (forall q: u16 | q < |lcores| :: Held(t, PortQueue(pid, q, 0)))
      && (forall l | l in t && l !in table :: l in lcores && t[l].pid == pid && t[l].rxQid < |lcores| && t[l].txQid == 0)
  {
    var t := Assigned(table, pid, lcores);
    AssignedMeaning(table, pid, lcores);
    forall q: u16 | q < |lcores|
      ensures Held(t, PortQueue(pid, q, 0))
    {
      assert t[lcores[q]] == PortQueue(pid, q, 0);
    }
    forall l | l in t && l !in table
      ensures t[l].pid == pid && t[l].rxQid < |lcores| && t[l].txQid == 0
    {
      var i :| 0 <= i < |lcores| && lcores[i] == l;
    }
    forall l1, l2 | l1 in t && l2 in t && l1 != l2
      ensures t[l1] != t[l2]
    {
      if l1 !in table && l2 !in table {
        var i :| 0 <= i < |lcores| && lcores[i] == l1;
        var j :| 0 <= j < |lcores| && lcores[j] == l2;
      }
    }
  }

  /** Taking the first n lcores of a pool into the table leaves the pools separate. */
  lemma TakeKeepsSeparate(d: Distribution, socket: nat, n: nat, table: map<nat, PortQueue>)
    requires PoolsSeparate(d) && socket in d.lcoreMap && n <= |d.lcoreMap[socket]|
    requires table.Keys == d.table.Keys + (set l | l in d.lcoreMap[socket][..n])
    ensures PoolsSeparate(Distribution(d.lcoreMap[socket := d.lcoreMap[socket][n..]], table))
  {
    var pool := d.lcoreMap[socket];
    var m := d.lcoreMap[socket := pool[n..]];
    forall l | l in pool[n..]
      ensures l in pool && l !in pool[..n]
    {
      var j :| 0 <= j < |pool[n..]| && pool[n..][j] == l;
      assert pool[n + j] == l;
    }
    forall s, l | s in m && l in m[s]
      ensures l !in table
    {
      assert l in d.lcoreMap[s];
      if s != socket {
        assert forall k | k in pool[..n] :: k in pool;
      }
    }
  }

  /**
   * One successful port on separate pools: every RX queue of the port is
   * served by a new lcore, no earlier entry is overwritten, no two lcores
   * serve the same queue, and the pools stay separate.
   */
  lemma DistributePortCovers(pid: nat, info: PortInfo, d: Distribution)
    requires PoolsSeparate(d) && Injective(d.table)
    requires forall l | l in d.table :: d.table[l].pid != pid
    ensures var (err, d1) := DistributePort(pid, info, d);
      err.None? ==>
        && PoolsSeparate(d1) && Injective(d1.table)
        && (forall l | l in d.table :: l in d1.table && d1.table[l] == d.table[l])
        && (forall q: u16 | q < info.nbRxQueues :: Held(d1.table, PortQueue(pid, q, 0)))
        && (forall l | l in d1.table && l !in d.table ::
              d1.table[l].pid == pid && d1.table[l].rxQid < info.nbRxQueues && d1.table[l].txQid == 0)
  {
    var (err, d1) := DistributePort(pid, info, d);
    if err.None? {
      var socket := info.socket as nat;
      var pool := d.lcoreMap[socket];
      var taken := pool[..info.nbRxQueues];
      assert forall l | l in taken :: l in pool;
      AssignedMeaning(d.table, pid, taken);
      AssignedCovers(d.table, pid, taken);
      TakeKeepsSeparate(d, socket, info.nbRxQueues as nat, d1.table);
    }
  }

  /**
   * What serving the ports turns table d into d1: no two lcores serve the
   * same queues, no entry of d is overwritten, every RX queue of every port
   * is served, and every new entry is an RX queue of one of the ports with
   * TX queue 0.
   */
  ghost predicate Extends(d: Distribution, d1: Distribution, ports: seq<nat>, info: nat -> PortInfo)
  {
    && Injective(d1.table)
    && (forall l | l in d.table :: l in d1.table && d1.table[l] == d.table[l])
    && (forall p, q: u16 | p in ports && q < info(p).nbRxQueues :: Held(d1.table, PortQueue(p, q, 0)))
    && (forall l | l in d1.table && l !in d.table ::
          d1.table[l].pid in ports && d1.table[l].rxQid < info(d1.table[l].pid).nbRxQueues && d1.table[l].txQid == 0)
  }

  /** Serving the first port and then the rest serves all of them. */
  lemma ExtendsCompose(ports: seq<nat>, info: nat -> PortInfo, d: Distribution, d1: Distribution, d2: Distribution)
    requires |ports| > 0 && Extends(d, d1, ports[..1], info) && Extends(d1, d2, ports[1..], info)
    ensures Extends(d, d2, ports, info)
  {
    forall p, q: u16 | p in ports && q < info(p).nbRxQueues
      ensures Held(d2.table, PortQueue(p, q, 0))
    {
      if p == ports[0] {
        assert p in ports[..1];
        assert Held(d1.table, PortQueue(p, q, 0));
        var l :| l in d1.table && d1.table[l] == PortQueue(p, q, 0);
        assert d2.table[l] == PortQueue(p, q, 0);
      } else {
        assert p in ports[1..];
      }
    }
    forall l | l in d2.table && l !in d.table
      ensures d2.table[l].pid in ports
    {
      assert forall x | x in ports[..1] || x in ports[1..] :: x in ports;
    }
  }

  /**
   * DistributeQueues' promise over the port loop: on success, for distinct
   * ports and separate pools, the table extends the old one by exactly the
   * RX queues of the ports, each served by one lcore.
   */
  lemma {:induction false} DistributeAllCovers(ports: seq<nat>, info: nat -> PortInfo, d: Distribution)
    requires PoolsSeparate(d) && Injective(d.table) && NoDup(ports)
    requires forall l | l in d.table :: d.table[l].pid !in ports
    ensures var (err, d1) := DistributeAll(ports, info, d);
      err.None? ==> Extends(d, d1, ports, info)
    decreases |ports|
  {
    if |ports| > 0 {
      var pid := ports[0];
      DistributePortCovers(pid, info(pid), d);
      var (err, d1) := DistributePort(pid, info(pid), d);
      if err.None? {
        assert ports[..1] == [pid];
        assert Extends(d, d1, ports[..1], info);
        assert forall l | l in d1.table :: d1.table[l].pid !in ports[1..];
        DistributeAllCovers(ports[1..], info, d1);
        var (err2, d2) := DistributeAll(ports[1..], info, d1);
        if err2.None? {
          ExtendsCompose(ports, info, d, d1, d2);
        }
      }
    }
  }

  /** A socket's list of distinct lcores repeats none of them. */
  lemma {:induction false} OnSocketNoDup(lcores: seq<nat>, socketOf: nat -> nat, socket: nat)
    requires NoDup(lcores)
    ensures NoDup(OnSocket(lcores, socketOf, socket))
    decreases |lcores|
  {
    if |lcores| > 0 {
      var rest := OnSocket(lcores[1..], socketOf, socket);
      OnSocketNoDup(lcores[1..], socketOf, socket);
      OnSocketMembers(lcores[1..], socketOf, socket, lcores[0]);
      var r := OnSocket(lcores, socketOf, socket);
      if socketOf(lcores[0]) == socket {
        assert r == [lcores[0]] + rest;
        forall i, j | 0 <= i < j < |r|
          ensures r[i] != r[j]
        {
          if i == 0 {
            assert r[j] == rest[j - 1];
          }
        }
      }
    }
  }

  /** The pools dissectLcores builds from distinct lcores are separate, before any port is served. */
  lemma DissectedSeparate(lcores: seq<nat>, socketOf: nat -> nat)
    requires NoDup(lcores)
    ensures PoolsSeparate(Distribution(Dissected(lcores, socketOf), map[]))
  {
    var t := Dissected(lcores, socketOf);
    DissectedIsPartition(lcores, socketOf);
    forall s | s in t
      ensures NoDup(t[s])
    {
      OnSocketNoDup(lcores, socketOf, s);
    }
    forall s1, s2, l | s1 in t && s2 in t && s1 != s2 && l in t[s1]
      ensures l !in t[s2]
    {
      OnSocketMembers(lcores, socketOf, s1, l);
      OnSocketMembers(lcores, socketOf, s2, l);
    }
  }

  /**
   * What DistributeQueues promises, for distinct ports and distinct lcores:
   * on success every RX queue q < NbRxQueues of every port is served by
   * exactly one lcore, and the table holds nothing but those queues, each
   * with TX queue 0.
   */
  lemma DistributeQueuesCovers(ports: seq<nat>, info: nat -> PortInfo, lcores: seq<nat>, socketOf: nat -> nat)
    requires NoDup(ports) && NoDup(lcores)
    ensures var (e, d) := DistributeAll(ports, info, Distribution(Dissected(lcores, socketOf), map[]));
      e.None? ==>
        && (forall p, q: u16 | p in ports && q < info(p).nbRxQueues :: Held(d.table, PortQueue(p, q, 0)))
        && (forall l1, l2 | l1 in d.table && l2 in d.table && d.table[l1] == d.table[l2] :: l1 == l2)
        && (forall l | l in d.table ::
              d.table[l].pid in ports && d.table[l].rxQid < info(d.table[l].pid).nbRxQueues && d.table[l].txQid == 0)
  {
    DissectedSeparate(lcores, socketOf);
    DistributeAllCovers(ports, info, Distribution(Dissected(lcores, socketOf), map[]));
  }

  /** A PortQueue table under construction, and the lcore pools it draws from. */
  class Distributor {
    var lcoreMap: map<nat, seq<nat>>
    var table: map<nat, PortQueue>

    function State(): Distribution
      reads this
    {
      Distribution(lcoreMap, table)
    }

    constructor (pools: map<nat, seq<nat>>)
      ensures State() == Distribution(pools, map[])
    {
      lcoreMap := pools;
      table := map[];
    }

    /**
     * distributeQueuesPort (app/test-sniffer/lcores.go:65-104): after the
     * checks, pop nrx lcores off the socket's pool one at a time, giving
     * the i-th popped lcore RX queue i.
     */
    method DistributeQueuesPort(pid: nat, info: PortInfo) returns (err: Option<QueueError>)
      modifies this
      ensures (err, State()) == DistributePort(pid, info, old(State()))
    {
      err := PortCheck(pid, info, lcoreMap);
      if err.Some? {
        return;
      }
      var socket := info.socket as nat;
      var nrx := info.nbRxQueues;
      ghost var pool := lcoreMap[socket];
      ghost var map0, table0 := lcoreMap, table;
      var lcores := lcoreMap[socket];
      var i: u16 := 0;
      while i < nrx
        invariant 0 <= i <= nrx
        invariant lcores == pool[i..]
        invariant lcoreMap == if i == 0 then map0 else map0[socket := pool[i..]]
        invariant table == Assigned(table0, pid, pool[..i])
      {
        var lcore := lcores[0];
        lcores := lcores[1..];
        lcoreMap := lcoreMap[socket := lcores];
        assert pool[..i + 1][..i] == pool[..i];
        table := table[lcore := PortQueue(pid, i, 0)];
        i := i + 1;
      }
    }
  }

  /**
   * DistributeQueues (app/test-sniffer/lcores.go:52-63): dissect the lcores,
   * distribute each port in order and return no table on the first error.
   */
  method DistributeQueues(ports: seq<nat>, info: nat -> PortInfo, lcores: seq<nat>, socketOf: nat -> nat)
    returns (table: Option<map<nat, PortQueue>>, err: Option<QueueError>)
    ensures var (e, d) := DistributeAll(ports, info, Distribution(Dissected(lcores, socketOf), map[]));
      err == e && table == if e.Some? then None else Some(d.table)
    ensures NoDup(ports) && NoDup(lcores) && table.Some? ==>
      forall p, q: u16 | p in ports && q < info(p).nbRxQueues :: Held(table.value, PortQueue(p, q, 0))
  {
    var pools := DissectLcores(lcores, socketOf);
    var dist := new Distributor(pools);
    ghost var start := dist.State();
    for k := 0 to |ports|
      invariant DistributeAll(ports, info, start) == DistributeAll(ports[k..], info, dist.State())
    {
      assert ports[k..][1..] == ports[k + 1..];
      err := dist.DistributeQueuesPort(ports[k], info(ports[k]));
      if err.Some? {
        return None, err;
      }
    }
    if NoDup(ports) && NoDup(lcores) {
      DistributeQueuesCovers(ports, info, lcores, socketOf);
    }
    return Some(dist.table), None;
  }

  /**
   * Every lcore DistributeQueues puts in its table serves a port on the
   * lcore's own socket, with TX queue 0.
   */
  lemma DistributeQueuesLocal(ports: seq<nat>, info: nat -> PortInfo, lcores: seq<nat>, socketOf: nat -> nat)
    ensures var (e, d) := DistributeAll(ports, info, Distribution(Dissected(lcores, socketOf), map[]));
      forall l | l in d.table :: info(d.table[l].pid).socket == socketOf(l) && d.table[l].txQid == 0
  {
    DissectedOnSockets(lcores, socketOf);
    DistributeAllLocal(ports, info, Distribution(Dissected(lcores, socketOf), map[]), socketOf);
  }

  // ---------------------------------------------------------------------------
  // The reflect rewrite of LcoreFunc
  // ---------------------------------------------------------------------------

  /**
   * The headers the rewrite touches: Ethernet, the fixed IPv4 header and the
   * 8 bytes at L4, which the code reads as an ICMP or a UDP header.
   */
  datatype Headers = Headers(ether: EtherHdr, ipv4: IPv4Hdr, l4: seq<u8>)

  /** The ICMP checksum reads TotalLength - 28 payload bytes from Data. */
  predicate PayloadCovers(h: Headers, payload: seq<u8>)
  {
    h.ipv4.nextProtoId == ICMPNumber ==> IPv4ICMPDataLength(h.ipv4) <= |payload|
  }

  /**
   * The rewrite of LcoreFunc (app/test-sniffer/lcores.go:156-173) on a
   * packet parsed as IPv4: swap the MAC and IPv4 addresses; for ICMP turn
   * the message into an echo reply and store its checksum over the payload
   * at Data; for UDP swap the ports; then store the header checksum.
   */
  method Reflect(h: Headers, payload: seq<u8>) returns (r: Headers)
    requires |h.l4| == ICMPLen && PayloadCovers(h, payload)
    ensures |r.l4| == ICMPLen
    ensures r.ether == h.ether.(dAddr := h.ether.sAddr, sAddr := h.ether.dAddr)
    ensures r.ipv4.(hdrChecksum := 0) == h.ipv4.(srcAddr := h.ipv4.dstAddr, dstAddr := h.ipv4.srcAddr, hdrChecksum := 0)
    ensures Internet(EncodeIPv4(r.ipv4)) == 0
    ensures h.ipv4.nextProtoId == ICMPNumber ==>
      && r.l4[0] == ICMPTypeEchoResponse && r.l4[1] == h.l4[1] && r.l4[4..] == h.l4[4..]
      && Internet(r.l4 + payload[..IPv4ICMPDataLength(h.ipv4)]) == 0
    ensures h.ipv4.nextProtoId == UDPNumber ==> r.l4 == h.l4[2..4] + h.l4[..2] + h.l4[4..]
    ensures h.ipv4.nextProtoId != ICMPNumber && h.ipv4.nextProtoId != UDPNumber ==> r.l4 == h.l4
  {
    var ether := h.ether;
    var tmpMac := ether.sAddr;
    ether := ether.(sAddr := ether.dAddr);
    ether := ether.(dAddr := tmpMac);
    var ipv4 := h.ipv4;
    var tmpIP := ipv4.srcAddr;
    ipv4 := ipv4.(srcAddr := ipv4.dstAddr);
    ipv4 := ipv4.(dstAddr := tmpIP);
    var l4 := h.l4;
    if ipv4.nextProtoId == ICMPNumber {
      var icmp := DecodeICMP(l4);
      icmp := icmp.(icmpType := ICMPTypeEchoResponse);
      var c := CalculateIPv4ICMPChecksum(ipv4, icmp, payload);
      IPv4ICMPChecksumVerifies(ipv4, icmp, payload);
      icmp := icmp.(cksum := SwapBytesUint16(c));
      l4 := EncodeICMP(icmp);
      ICMPRoundTrip(icmp, l4);
      EchoReplyBytes(h.l4, l4);
    } else if ipv4.nextProtoId == UDPNumber {
      var udp := DecodeUDP(l4);
      var tmpPort := udp.srcPort;
      udp := udp.(srcPort := udp.dstPort);
      udp := udp.(dstPort := tmpPort);
      l4 := EncodeUDP(udp);
      PortsSwappedBytes(h.l4);
    }
    var ipCsum := CalculateIPv4Checksum(ipv4);
    IPv4ChecksumVerifies(ipv4);
    ipv4 := ipv4.(hdrChecksum := SwapBytesUint16(ipCsum));
    r := Headers(ether, ipv4, l4);
  }

  /** Re-encoding an ICMP header changes only the fields set: type and checksum. */
  lemma EchoReplyBytes(b: seq<u8>, r: seq<u8>)
    requires |b| == ICMPLen && |r| == ICMPLen
    requires DecodeICMP(r).identifier == DecodeICMP(b).identifier
    requires DecodeICMP(r).seqNum == DecodeICMP(b).seqNum && DecodeICMP(r).code == DecodeICMP(b).code
    requires r == EncodeICMP(DecodeICMP(r))
    ensures r[1] == b[1] && r[4..] == b[4..]
  {
    ICMPRoundTrip(DecodeICMP(b), b);
    Bytes16OfLoad(b[4], b[5]);
    Bytes16OfLoad(b[6], b[7]);
    Bytes16OfLoad(r[4], r[5]);
    Bytes16OfLoad(r[6], r[7]);
  }

  /** Swapping the two port fields of a decoded UDP header swaps the first two byte pairs. */
  lemma PortsSwappedBytes(b: seq<u8>)
    requires |b| == UDPLen
    ensures var u := DecodeUDP(b);
      EncodeUDP(u.(srcPort := u.dstPort, dstPort := u.srcPort)) == b[2..4] + b[..2] + b[4..]
  {
    Bytes16OfLoad(b[0], b[1]);
    Bytes16OfLoad(b[2], b[3]);
    Bytes16OfLoad(b[4], b[5]);
    Bytes16OfLoad(b[6], b[7]);
  }
}
