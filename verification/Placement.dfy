/** Which servers back up which: placement at registration, and routing around
    crashed servers. */
module Placement {
  import opened Collections

  /** A registered storage server; -1 stands for a missing backup. */
  datatype Server = Server(name: string, first: int, second: int, up: bool)

  /** The servers in order of registration and the full copies ordered so far,
      each from one server to another. */
  datatype Registry = Registry(servers: seq<Server>, orders: seq<(nat, nat)>)

  datatype Event =
    | Register(name: string)
    | Crash(server: nat)
    | Recover(server: nat)

  function Known(servers: seq<Server>, name: string, k: nat): (i: int)
    requires k <= |servers|
    ensures -1 <= i < |servers|
    ensures i >= 0 ==> servers[i].name == name
    ensures i == -1 ==> forall j | k <= j < |servers| :: servers[j].name != name
    decreases |servers| - k
  {
    if k == |servers| then -1 else if servers[k].name == name then k else Known(servers, name, k + 1)
  }

  function SetUp(servers: seq<Server>, i: nat, up: bool): seq<Server>
    requires i < |servers|
  {
    servers[i := servers[i].(up := up)]
  }

  function SetBackups(servers: seq<Server>, i: nat, first: int, second: int): seq<Server>
    requires i < |servers|
  {
    servers[i := servers[i].(first := first, second := second)]
  }

  /** The third server makes all three back each other up; a later one is
      backed up by its two predecessors. */
  function Placed(r: Registry): Registry {
    var n := |r.servers| - 1;
    if n == 2 then
      var s0 := SetBackups(r.servers, 0, 1, 2);
      var s1 := SetBackups(s0, 1, 0, 2);
      Registry(SetBackups(s1, 2, 0, 1), r.orders + [(0, 1), (0, 2), (1, 2), (1, 0), (1, 2), (2, 0), (2, 1)])
    else if n > 2 then
      Registry(SetBackups(r.servers, n, n - 1, n - 2), r.orders + [(n, n - 1), (n, n - 2), (n - 1, n), (n - 2, n)])
    else r
  }

  /** A known name is a server that comes back; a new one is placed while there is room. */
  function Registered(r: Registry, max: nat, name: string): Registry {
    var i := Known(r.servers, name, 0);
    if i != -1 then r.(servers := SetUp(r.servers, i, true))
    else if |r.servers| >= max then r
    else Placed(r.(servers := r.servers + [Server(name, -1, -1, true)]))
  }

  function Next(r: Registry, max: nat, e: Event): Registry {
    match e
    case Register(name) => Registered(r, max, name)
    case Crash(i) => if i < |r.servers| then r.(servers := SetUp(r.servers, i, false)) else r
    case Recover(i) => if i < |r.servers| then r.(servers := SetUp(r.servers, i, true)) else r
  }

  function After(r: Registry, max: nat, run: seq<Event>): Registry
    decreases |run|
  {
    if run == [] then r else After(Next(r, max, run[0]), max, run[1..])
  }

  /** Server `i` has two distinct backups other than itself, and a full copy to each was ordered. */
  predicate BackedUp(r: Registry, i: nat)
    requires i < |r.servers|
  {
    var s := r.servers[i];
    && 0 <= s.first < |r.servers| && 0 <= s.second < |r.servers|
    && s.first != i && s.second != i && s.first != s.second
    && (i, s.first) in r.orders && (i, s.second) in r.orders
  }

  predicate Alone(s: Server) {
    s.first == -1 && s.second == -1
  }

  ghost predicate Inv(r: Registry) {
    && (forall i, j | 0 <= i < j < |r.servers| :: r.servers[i].name != r.servers[j].name)
    && (forall i | 0 <= i < |r.servers| ::
          if |r.servers| >= 3 then BackedUp(r, i) else Alone(r.servers[i]))
  }

  lemma {:induction false} UpKeeps(r: Registry, i: nat, up: bool)
    requires Inv(r) && i < |r.servers|
    ensures Inv(r.(servers := SetUp(r.servers, i, up)))
  {
    var t := r.(servers := SetUp(r.servers, i, up));
    forall j | 0 <= j < |r.servers|
      ensures if |r.servers| >= 3 then BackedUp(t, j) else Alone(t.servers[j])
    {
      assert if |r.servers| >= 3 then BackedUp(r, j) else Alone(r.servers[j]);
    }
  }

  /** The seven copies of the first placement cover all six pairs. */
  lemma {:induction false} FirstPlacement(r: Registry)
    requires |r.servers| == 3
    ensures |Placed(r).servers| == 3 && forall i | 0 <= i < 3 :: BackedUp(Placed(r), i)
  {
    var t := Placed(r);
    var more := [(0, 1), (0, 2), (1, 2), (1, 0), (1, 2), (2, 0), (2, 1)];
    var n := |r.orders|;
    assert t.orders == r.orders + more;
    assert t.orders[n] == (0, 1) && t.orders[n + 1] == (0, 2) && t.orders[n + 3] == (1, 0);
    assert t.orders[n + 4] == (1, 2) && t.orders[n + 5] == (2, 0) && t.orders[n + 6] == (2, 1);
    assert BackedUp(t, 0) && BackedUp(t, 1) && BackedUp(t, 2);
  }

  lemma {:induction false} LaterPlacement(r: Registry, name: string)
    requires Inv(r) && |r.servers| >= 3
    ensures var t := Placed(r.(servers := r.servers + [Server(name, -1, -1, true)]));
            |t.servers| == |r.servers| + 1 && forall i | 0 <= i < |t.servers| :: BackedUp(t, i)
  {
    var t := Placed(r.(servers := r.servers + [Server(name, -1, -1, true)]));
    var n, m := |r.servers|, |r.orders|;
    assert t.orders[m] == (n, n - 1) && t.orders[m + 1] == (n, n - 2);
    forall i | 0 <= i < |t.servers|
      ensures BackedUp(t, i)
    {
      assert i < n ==> BackedUp(r, i) && t.servers[i] == r.servers[i];
    }
  }

  lemma {:induction false} PlacedNames(r: Registry)
    ensures |Placed(r).servers| == |r.servers|
    ensures forall i | 0 <= i < |r.servers| :: Placed(r).servers[i].name == r.servers[i].name
  {
  }

  lemma {:induction false} RegisterKeeps(r: Registry, max: nat, name: string)
    requires Inv(r)
    ensures Inv(Registered(r, max, name))
  {
    var i := Known(r.servers, name, 0);
    if i != -1 {
      UpKeeps(r, i, true);
    } else if |r.servers| < max {
      var grown := r.(servers := r.servers + [Server(name, -1, -1, true)]);
      PlacedNames(grown);
      if |grown.servers| == 3 {
        FirstPlacement(grown);
      } else if |grown.servers| > 3 {
        LaterPlacement(r, name);
      }
    }
  }

  lemma {:induction false} RunKeeps(r: Registry, max: nat, run: seq<Event>)
    requires Inv(r)
    ensures Inv(After(r, max, run))
    decreases |run|
  {
    if run != [] {
      match run[0] {
        case Register(name) => RegisterKeeps(r, max, name);
        case Crash(i) => if i < |r.servers| { UpKeeps(r, i, false); }
        case Recover(i) => if i < |r.servers| { UpKeeps(r, i, true); }
      }
      RunKeeps(Next(r, max, run[0]), max, run[1..]);
    }
  }

  /** Copies go between two different registered servers. */
  ghost predicate OrdersOk(r: Registry) {
    forall k | 0 <= k < |r.orders| ::
      r.orders[k].0 < |r.servers| && r.orders[k].1 < |r.servers| && r.orders[k].0 != r.orders[k].1
  }

  lemma {:induction false} RunOrders(r: Registry, max: nat, run: seq<Event>)
    requires OrdersOk(r)
    ensures OrdersOk(After(r, max, run))
    decreases |run|
  {
    if run != [] {
      RunOrders(Next(r, max, run[0]), max, run[1..]);
    }
  }

  /** Over every history of registrations, crashes and recoveries, and for every
      table size: from the third server on each has its two backups. */
  lemma {:induction false} EveryServerBackedUp(max: nat, run: seq<Event>, i: nat)
    requires var r := After(Registry([], []), max, run); |r.servers| >= 3 && i < |r.servers|
    ensures BackedUp(After(Registry([], []), max, run), i)
  {
    RunKeeps(Registry([], []), max, run);
  }

  /** A server that comes back is up again, and nothing else changes. */
  lemma {:induction false} ComesBack(r: Registry, max: nat, i: nat)
    requires Inv(r) && i < |r.servers|
    ensures var t := Registered(r, max, r.servers[i].name);
            && t.orders == r.orders && |t.servers| == |r.servers| && t.servers[i].up
            && forall k | 0 <= k < |r.servers| ::
                 && t.servers[k].name == r.servers[k].name
                 && t.servers[k].first == r.servers[k].first && t.servers[k].second == r.servers[k].second
                 && (k != i ==> t.servers[k].up == r.servers[k].up)
  {
  }

  /** A new server is stored last and is up, as long as there is room. */
  lemma {:induction false} NewcomerStored(r: Registry, max: nat, name: string)
    requires forall k | 0 <= k < |r.servers| :: r.servers[k].name != name
    ensures var t := Registered(r, max, name);
            if |r.servers| >= max then t == r
            else
              && |t.servers| == |r.servers| + 1 && t.servers[|r.servers|].name == name && t.servers[|r.servers|].up
              && forall k | 0 <= k < |r.servers| ::
                   t.servers[k].name == r.servers[k].name && t.servers[k].up == r.servers[k].up
  {
  }

  /** Crash and recovery concern one server and only whether it is up. */
  lemma {:induction false} CrashAndRecover(r: Registry, max: nat, i: nat)
    requires i < |r.servers|
    ensures !Next(r, max, Crash(i)).servers[i].up && Next(r, max, Recover(i)).servers[i].up
    ensures forall e | e in {Crash(i), Recover(i)} ::
              var t := Next(r, max, e);
              && t.orders == r.orders && |t.servers| == |r.servers|
              && t.servers[i].(up := r.servers[i].up) == r.servers[i]
              && forall k | 0 <= k < |r.servers| && k != i :: t.servers[k] == r.servers[k]
  {
  }

  /** The servers next to each other in the order of registration, at a distance
      of one or two. */
  predicate Near(i: int, j: int) {
    i != j && -2 <= i - j <= 2
  }

  /** The two backups of a server: the first three back each other up, a later
      one is backed up by its two predecessors, the nearer one first. */
  function FirstOf(i: nat): int {
    if i == 0 then 1 else if i <= 2 then 0 else i - 1
  }

  function SecondOf(i: nat): int {
    if i <= 1 then 2 else if i == 2 then 1 else i - 2
  }

  ghost predicate PlacedAsWritten(r: Registry) {
    if |r.servers| < 3 then r.orders == []
    else
      && (forall i | 0 <= i < |r.servers| ::
            r.servers[i].first == FirstOf(i) && r.servers[i].second == SecondOf(i))
      && (forall i: nat, j: nat :: (i, j) in r.orders <==> i < |r.servers| && j < |r.servers| && Near(i, j))
  }

  /** The copies ordered with the third server: every pair of the three. */
  lemma {:induction false} FirstOrders(more: seq<(nat, nat)>, i: nat, j: nat)
    requires |more| == 7
    requires more[0] == (0, 1) && more[1] == (0, 2) && more[2] == (1, 2) && more[3] == (1, 0)
    requires more[4] == (1, 2) && more[5] == (2, 0) && more[6] == (2, 1)
    ensures (i, j) in more <==> i < 3 && j < 3 && Near(i, j)
  {
  }

  lemma {:induction false} FirstAsWritten(r: Registry)
    requires |r.servers| == 3 && r.orders == []
    ensures PlacedAsWritten(Placed(r))
  {
    forall i: nat, j: nat
      ensures (i, j) in Placed(r).orders <==> i < 3 && j < 3 && Near(i, j)
    {
      FirstOrders(Placed(r).orders, i, j);
    }
  }

  lemma {:induction false} LaterOrders(n: nat, more: seq<(nat, nat)>, i: nat, j: nat)
    requires |more| == 4 && n >= 3
    requires more[0] == (n, n - 1) && more[1] == (n, n - 2) && more[2] == (n - 1, n) && more[3] == (n - 2, n)
    ensures (i, j) in more || (i < n && j < n && Near(i, j)) <==> i < n + 1 && j < n + 1 && Near(i, j)
  {
  }

  lemma {:induction false} LaterAsWritten(r: Registry, name: string)
    requires |r.servers| >= 3 && PlacedAsWritten(r)
    ensures PlacedAsWritten(Placed(r.(servers := r.servers + [Server(name, -1, -1, true)])))
  {
    var n := |r.servers|;
    var t := Placed(r.(servers := r.servers + [Server(name, -1, -1, true)]));
    var more: seq<(nat, nat)> := [(n, n - 1), (n, n - 2), (n - 1, n), (n - 2, n)];
    assert t.orders == r.orders + more;
    forall i: nat, j: nat
      ensures (i, j) in t.orders <==> i < n + 1 && j < n + 1 && Near(i, j)
    {
      LaterOrders(n, more, i, j);
    }
  }

  lemma {:induction false} StepAsWritten(r: Registry, max: nat, e: Event)
    requires PlacedAsWritten(r)
    ensures PlacedAsWritten(Next(r, max, e))
  {
    if e.Register? && Known(r.servers, e.name, 0) == -1 && |r.servers| < max {
      var grown := r.(servers := r.servers + [Server(e.name, -1, -1, true)]);
      if |grown.servers| == 3 {
        FirstAsWritten(grown);
      } else if |grown.servers| > 3 {
        LaterAsWritten(r, e.name);
      }
    }
  }

  lemma {:induction false} RunAsWritten(r: Registry, max: nat, run: seq<Event>)
    requires PlacedAsWritten(r)
    ensures PlacedAsWritten(After(r, max, run))
    decreases |run|
  {
    if run != [] {
      StepAsWritten(r, max, run[0]);
      RunAsWritten(Next(r, max, run[0]), max, run[1..]);
    }
  }

  /** After every history with three servers or more, each has the backups written
      down for its place, and a full copy was ordered between two servers if and
      only if they are near each other. */
  lemma {:induction false} PlacementExact(max: nat, run: seq<Event>, i: nat, j: nat)
    requires |After(Registry([], []), max, run).servers| >= 3
    ensures var r := After(Registry([], []), max, run);
            && (i < |r.servers| ==> r.servers[i].first == FirstOf(i) && r.servers[i].second == SecondOf(i))
            && ((i, j) in r.orders <==> i < |r.servers| && j < |r.servers| && Near(i, j))
  {
    RunAsWritten(Registry([], []), max, run);
  }

  /** The servers that are down. */
  function Down(r: Registry): set<nat> {
    set i: nat | i < |r.servers| && !r.servers[i].up
  }

  /** `redundantSS`. */
  function Redundant(r: Registry, i: nat): int
    requires Inv(r) && i < |r.servers|
  {
    var s := r.servers[i];
    assert |r.servers| >= 3 ==> BackedUp(r, i);
    if s.up then i
    else if s.first != -1 && r.servers[s.first].up then s.first
    else if s.second != -1 && r.servers[s.second].up then s.second
    else -1
  }

  /** No server is found exactly when the server and both its backups are down,
      or it is down and has none; a server that is found is up. */
  lemma {:induction false} RedundantExact(r: Registry, i: nat)
    requires Inv(r) && i < |r.servers|
    ensures Redundant(r, i) == -1 <==>
            if |r.servers| >= 3 then {i, r.servers[i].first, r.servers[i].second} <= Down(r) else i in Down(r)
    ensures Redundant(r, i) != -1 ==>
              0 <= Redundant(r, i) < |r.servers| && r.servers[Redundant(r, i)].up
  {
    var s := r.servers[i];
    assert if |r.servers| >= 3 then BackedUp(r, i) else Alone(s);
    if |r.servers| >= 3 {
      var three: set<int> := {i, s.first, s.second};
      assert three <= Down(r) <==> i in Down(r) && s.first in Down(r) && s.second in Down(r);
    }
  }

  /** The answer is the first live one of the server, its first backup and its second. */
  lemma {:induction false} FirstLive(r: Registry, i: nat)
    requires Inv(r) && i < |r.servers|
    ensures var s, found := r.servers[i], Redundant(r, i);
            var live := (k: int) => 0 <= k < |r.servers| && r.servers[k].up;
            && (found == i <==> s.up)
            && (!s.up && live(s.first) ==> found == s.first)
            && (!s.up && !live(s.first) && live(s.second) ==> found == s.second)
            && found in {i, s.first, s.second, -1}
  {
    assert if |r.servers| >= 3 then BackedUp(r, i) else Alone(r.servers[i]);
  }

  /** Two-crash routing: in every reachable state with three servers or more, of
      which at most two are down, a live server is found. */
  lemma {:induction false} TwoCrashes(max: nat, run: seq<Event>, i: nat)
    requires var r := After(Registry([], []), max, run);
             |r.servers| >= 3 && i < |r.servers| && |Down(r)| <= 2
    ensures var r := After(Registry([], []), max, run);
            Inv(r) && 0 <= Redundant(r, i) < |r.servers| && r.servers[Redundant(r, i)].up
  {
    RunKeeps(Registry([], []), max, run);
    var r := After(Registry([], []), max, run);
    var s := r.servers[i];
    assert BackedUp(r, i);
    RedundantExact(r, i);
    ThreeMembers(i, s.first, s.second, Down(r));
  }

  lemma {:induction false} ThreeMembers(a: nat, b: nat, c: nat, down: set<nat>)
    requires a != b && a != c && b != c && |down| <= 2
    ensures !({a, b, c} <= down)
  {
    assert |{a, b, c}| == 3;
    if {a, b, c} <= down {
      SubsetSize({a, b, c}, down);
    }
  }

  /** The table itself, of fixed size.  The index counts every new server, also
      those for which there was no room. */
  class Table {
    const servers: array<Server>
    var index: nat
    var orders: seq<(nat, nat)>

    ghost function Count(): (n: nat)
      reads this
      ensures n <= servers.Length && n <= index
    {
      if index <= servers.Length then index else servers.Length
    }

    ghost function View(): Registry
      reads this, servers
    {
      Registry(servers[..Count()], orders)
    }

    constructor (max: nat)
      ensures View() == Registry([], []) && index == 0 && servers.Length == max && fresh(servers)
    {
      servers := new Server[max](_ => Server("", -1, -1, false));
      index, orders := 0, [];
    }

    /** `create_backup_helper` orders a full copy. */
    method CreateBackup(source: nat, dest: nat)
      modifies this`orders
      ensures orders == old(orders) + [(source, dest)]
    {
      orders := orders + [(source, dest)];
    }

    method Assign(i: nat, first: int, second: int)
      requires i < index <= servers.Length
      modifies servers
      ensures View() == old(View()).(servers := SetBackups(old(View()).servers, i, first, second))
    {
      servers[i] := servers[i].(first := first, second := second);
    }

    method OrderFirst()
      modifies this`orders
      ensures orders == old(orders) + [(0, 1), (0, 2), (1, 2), (1, 0), (1, 2), (2, 0), (2, 1)]
    {
      CreateBackup(0, 1);
      CreateBackup(0, 2);
      CreateBackup(1, 2);
      CreateBackup(1, 0);
      CreateBackup(1, 2);
      CreateBackup(2, 0);
      CreateBackup(2, 1);
    }

    /** The first three servers back each other up. */
    method PlaceFirst()
      requires index == 3 <= servers.Length
      modifies this`orders, servers
      ensures View() == Placed(old(View()))
    {
      Assign(0, 1, 2);
      Assign(1, 0, 2);
      Assign(2, 0, 1);
      OrderFirst();
    }

    /** A later server is backed up by its two predecessors. */
    method PlaceLater()
      requires 3 < index <= servers.Length
      modifies this`orders, servers
      ensures View() == Placed(old(View()))
    {
      var n := index - 1;
      Assign(n, n - 1, n - 2);
      CreateBackup(n, n - 1);
      CreateBackup(n, n - 2);
      CreateBackup(n - 1, n);
      CreateBackup(n - 2, n);
    }

    /** The placement after the server in the last slot was stored. */
    method Place()
      requires 1 <= index <= servers.Length
      modifies this`orders, servers
      ensures View() == Placed(old(View()))
    {
      if index == 3 {
        PlaceFirst();
      } else if index > 3 {
        PlaceLater();
      }
    }

    /** `register_storage_server` from the name check on. */
    method Register(name: string)
      modifies this, servers
      ensures View() == Registered(old(View()), servers.Length, name)
      ensures index == if Known(old(View()).servers, name, 0) != -1 then old(index) else old(index) + 1
    {
      var count := if index <= servers.Length then index else servers.Length;
      ghost var now := View().servers;
      assert now == servers[..count];
      var i := 0;
      while i < count
        invariant 0 <= i <= count
        invariant Known(now, name, 0) == Known(now, name, i)
      {
        if servers[i].name == name {
          servers[i] := servers[i].(up := true);
          return;
        }
        i := i + 1;
      }
      index := index + 1;
      if index <= servers.Length {
        servers[index - 1] := Server(name, -1, -1, true);
        assert View().servers == now + [Server(name, -1, -1, true)];
        Place();
      }
    }

    /** `redundantSS`, where `up` is what a ping tells. */
    method RedundantSS(i: nat) returns (found: int)
      requires Inv(View()) && i < Count()
      ensures found == Redundant(View(), i)
    {
      var s := servers[i];
      assert View().servers[i] == s;
      assert Count() >= 3 ==> BackedUp(View(), i);
      if s.up {
        return i;
      }
      if s.first != -1 && servers[s.first].up {
        return s.first;
      }
      if s.second != -1 && servers[s.second].up {
        return s.second;
      }
      return -1;
    }
  }
}
