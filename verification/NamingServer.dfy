/** The naming server's tables, updated in place: the LRU cache and the heap
    trie of every registered storage server.  Every operation refines
    `Metadata.Apply`, so the results of that module hold of these objects. */
module NamingServer {
  import opened Paths
  import opened Tries
  import opened Cache
  import opened Metadata
  import opened Listing
  import opened Reassembly
  import opened Indexer
  import opened TrieTables
  import opened Ownership
  import opened Uncached

  /** What arrives at the naming server; a listing comes in pieces. */
  datatype Request =
    | Locate(path: string)
    | Make(path: string, ok: bool)
    | Unmake(path: string, ok: bool)
    | Enrol(chunks: seq<string>, root: string)
    | Relist(server: nat, chunks: seq<string>)

  ghost function Listed(chunks: seq<string>): set<Path> {
    AddLines({[]}, Receive("", chunks).lines)
  }

  ghost function AsCommand(r: Request): Command {
    match r
    case Locate(path) => Command.Lookup(path)
    case Make(path, ok) => Command.Create(path, ok)
    case Unmake(path, ok) => Command.Remove(path, ok)
    case Enrol(chunks, root) => Command.Register(root, Listed(chunks))
    case Relist(i, chunks) => Command.Reindex(i, Listed(chunks))
  }

  ghost function AsCommands(rs: seq<Request>): seq<Command> {
    if rs == [] then [] else [AsCommand(rs[0])] + AsCommands(rs[1..])
  }

  /** The limits of the fixed-size arrays, and one root folder per server. */
  ghost predicate Servable(s: State, r: Request) {
    match r
    case Locate(_) => true
    case Make(path, _) => |Parse(path)| < MAX_PATH
    case Unmake(path, ok) => ok ==> 3 <= |Parse(path)| < MAX_PATH
    case Enrol(chunks, root) =>
      && Shallow(Receive("", chunks).lines) && Rooted(Listed(chunks), root)
      && (root in s.roots || |s.tries| < MAX_STORAGE_SERVERS)
    case Relist(i, chunks) =>
      i < |s.tries| && i < |s.roots| && Shallow(Receive("", chunks).lines) && Rooted(Listed(chunks), s.roots[i])
  }

  /** A request's effect and the server picked, in the terms of the operations. */
  ghost function Effect(s: State, capacity: nat, r: Request): State {
    match r
    case Locate(path) => Touch(s, capacity, path)
    case Make(path, ok) => Created(s, capacity, path, ok)
    case Unmake(path, ok) => RemovedState(s, capacity, path, ok)
    case Enrol(chunks, root) => Registered(s, root, Listed(chunks))
    case Relist(i, chunks) => Reindexed(s, i, Listed(chunks))
  }

  ghost function Picked(s: State, r: Request): int {
    match r
    case Locate(path) => Answer(s, path)
    case Make(path, _) => if Refused(CutLast(path)) then -1 else Answer(s, CutLast(path))
    case Unmake(path, _) => if Refused(path) then -1 else Answer(s, path)
    case Enrol(_, _) => -1
    case Relist(_, _) => -1
  }

  lemma {:induction false} EffectIsApply(s: State, capacity: nat, r: Request)
    ensures Effect(s, capacity, r) == Apply(s, capacity, AsCommand(r))
    ensures Picked(s, r) == Owner(s, AsCommand(r))
  {
  }

  ghost predicate AllServable(s: State, capacity: nat, rs: seq<Request>)
    decreases |rs|
  {
    rs == [] || (Servable(s, rs[0]) && AllServable(Apply(s, capacity, AsCommand(rs[0])), capacity, rs[1..]))
  }

  /** After `k` requests the rest leads to the same state and the same picks;
      stated so that it is opened in the lemmas below only. */
  ghost predicate OnTheWay(start: State, capacity: nat, rs: seq<Request>, k: nat, s: State, picked: seq<int>) {
    k <= |rs| &&
    forall rest {:trigger AllServable(s, capacity, rest)} | rest == rs[k..] ::
      && AllServable(s, capacity, rest)
      && Run(s, capacity, AsCommands(rest)) == Run(start, capacity, AsCommands(rs))
      && picked + Owners(s, capacity, AsCommands(rest)) == Owners(start, capacity, AsCommands(rs))
  }

  lemma {:induction false} ServeStart(s: State, capacity: nat, rs: seq<Request>)
    requires AllServable(s, capacity, rs)
    ensures OnTheWay(s, capacity, rs, 0, s, [])
  {
    assert rs[0..] == rs;
  }

  lemma {:induction false} ServeStep(start: State, capacity: nat, rs: seq<Request>, k: nat, s: State, picked: seq<int>)
    requires k < |rs| && OnTheWay(start, capacity, rs, k, s, picked)
    ensures Servable(s, rs[k])
    ensures OnTheWay(start, capacity, rs, k + 1, Effect(s, capacity, rs[k]), picked + [Picked(s, rs[k])])
  {
    assert AllServable(s, capacity, rs[k..]);
    EffectIsApply(s, capacity, rs[k]);
    assert rs[k..][0] == rs[k] && rs[k..][1..] == rs[k + 1..];
    assert AsCommands(rs[k..])[1..] == AsCommands(rs[k + 1..]);
  }

  lemma {:induction false} ServeEnd(start: State, capacity: nat, rs: seq<Request>, s: State, picked: seq<int>)
    requires OnTheWay(start, capacity, rs, |rs|, s, picked)
    ensures s == Run(start, capacity, AsCommands(rs)) && picked == Owners(start, capacity, AsCommands(rs))
  {
    assert rs[|rs|..] == [] && AllServable(s, capacity, rs[|rs|..]);
  }

  predicate IndicesOk(q: seq<Entry>, n: nat) {
    forall k | 0 <= k < |q| :: 0 <= q[k].index < n
  }

  lemma {:induction false} AddIndex(q: seq<Entry>, n: nat, capacity: nat, key: string, i: int)
    requires IndicesOk(q, n) && 0 <= i < n
    ensures IndicesOk(AddedTo(q, capacity, key, i), n)
  {
  }

  lemma {:induction false} DeleteIndex(q: seq<Entry>, n: nat, key: string)
    requires IndicesOk(q, n)
    ensures IndicesOk(Deleted(q, key), n)
  {
  }

  lemma {:induction false} LookupIndex(q: seq<Entry>, n: nat, capacity: nat, key: string, found: int)
    requires IndicesOk(q, n) && -1 <= found < n
    ensures IndicesOk(LookedUp(q, capacity, key, found), n)
  {
    if Find(q, key) == -1 && found != -1 {
      AddIndex(q, n, capacity, key, found);
    }
  }

  class Server {
    const cache: LRUCache
    const table: TrieTable

    /** Cached indices denote registered servers. */
    ghost predicate Valid()
      reads this, cache, cache.queue, table, table.foot
    {
      && cache.Valid() && table.Valid() && IndicesOk(cache.View(), |table.tries|)
      && cache !in table.foot && cache.queue !in table.foot
    }

    ghost function View(): State
      requires cache.Valid()
      reads cache, cache.queue, table
    {
      State(table.sets, table.roots, cache.View())
    }

    constructor ()
      ensures Valid() && View() == State([], [], [])
      ensures fresh(cache) && fresh(cache.queue) && fresh(table) && cache.queue.Length == 3
    {
      cache := new LRUCache(3);
      table := new TrieTable();
    }

    /** `search_storage_server`. */
    method SearchStorageServer(path: string) returns (r: int)
      requires Valid()
      modifies cache, cache.queue
      ensures Valid() && r == Answer(old(View()), path) && -1 <= r < |table.tries|
      ensures View() == Touch(old(View()), cache.queue.Length, path)
    {
      var i := cache.Search(path);
      if i != -1 {
        r := cache.queue[i].index;
        cache.MoveToBack(i);
      } else {
        r := table.Search(path);
        if r != -1 {
          cache.Add(path, r);
        }
      }
      LookupIndex(old(cache.View()), |table.tries|, cache.queue.Length, path, FirstMatch(table.sets, Parse(path)));
    }

    /** The create branch of `process_client`. */
    method Create(path: string, ok: bool) returns (i: int)
      requires Valid() && |Parse(path)| < MAX_PATH
      modifies cache, cache.queue, table, table.foot
      ensures Valid() && fresh(table.foot - old(table.foot))
      ensures View() == Created(old(View()), cache.queue.Length, path, ok)
      ensures i == if Refused(CutLast(path)) then -1 else Answer(old(View()), CutLast(path))
    {
      var parent := CutLast(path);
      if Refused(parent) {
        return -1;
      }
      i := SearchStorageServer(parent);
      if i != -1 {
        AddIndex(cache.View(), |table.tries|, cache.queue.Length, path, i);
        cache.Add(path, i);
        if ok {
          table.AddAt(i, path);
        }
      }
    }

    /** The remove branch of `process_client`. */
    method Remove(path: string, ok: bool) returns (i: int)
      requires Valid() && (ok ==> 3 <= |Parse(path)| < MAX_PATH)
      modifies cache, cache.queue, table, table.foot
      ensures Valid() && fresh(table.foot - old(table.foot))
      ensures View() == RemovedState(old(View()), cache.queue.Length, path, ok)
      ensures i == if Refused(path) then -1 else Answer(old(View()), path)
    {
      if Refused(path) {
        return -1;
      }
      i := SearchStorageServer(path);
      if i != -1 {
        DeleteIndex(cache.View(), |table.tries|, path);
        cache.Delete(path);
        if ok {
          table.DeleteAt(i, path);
        }
      }
    }

    method Register(chunks: seq<string>, ghost root: string)
      requires Valid() && Shallow(Receive("", chunks).lines)
      requires Rooted(AddLines({[]}, Receive("", chunks).lines), root)
      requires root in table.roots || |table.tries| < MAX_STORAGE_SERVERS
      modifies table
      ensures Valid() && fresh(table.foot - old(table.foot))
      ensures View() == Registered(old(View()), root, AddLines({[]}, Receive("", chunks).lines))
    {
      ghost var q := cache.View();
      ghost var ps := AddLines({[]}, Receive("", chunks).lines);
      table.Register(chunks, root);
      assert cache.View() == q && IndicesOk(q, |table.tries|);
      assert View() == Registered(old(View()), root, ps);
    }

    method Reindex(i: nat, chunks: seq<string>)
      requires Valid() && i < |table.tries| && Shallow(Receive("", chunks).lines)
      requires Rooted(AddLines({[]}, Receive("", chunks).lines), table.roots[i])
      modifies table
      ensures Valid() && fresh(table.foot - old(table.foot))
      ensures View() == Reindexed(old(View()), i, AddLines({[]}, Receive("", chunks).lines))
    {
      ghost var q := cache.View();
      ghost var ps := AddLines({[]}, Receive("", chunks).lines);
      table.ReindexAt(i, chunks);
      assert cache.View() == q && IndicesOk(q, |table.tries|);
      assert View() == Reindexed(old(View()), i, ps);
    }

    /** One request: the new state and the server that was picked. */
    method Handle(r: Request) returns (i: int)
      requires Valid() && Servable(View(), r)
      modifies cache, cache.queue, table, table.foot
      ensures Valid() && fresh(table.foot - old(table.foot))
      ensures View() == Effect(old(View()), cache.queue.Length, r)
      ensures i == Picked(old(View()), r)
    {
      i := -1;
      match r
      case Locate(path) => i := SearchStorageServer(path);
      case Make(path, ok) => i := Create(path, ok);
      case Unmake(path, ok) => i := Remove(path, ok);
      case Enrol(chunks, root) => Register(chunks, root);
      case Relist(k, chunks) => Reindex(k, chunks);
    }

    method ServeLoop(rs: seq<Request>) returns (picked: seq<int>)
      requires Valid() && AllServable(View(), cache.queue.Length, rs)
      modifies cache, cache.queue, table, table.foot
      ensures Valid() && View() == Run(old(View()), cache.queue.Length, AsCommands(rs))
      ensures picked == Owners(old(View()), cache.queue.Length, AsCommands(rs))
    {
      picked := [];
      var k := 0;
      ghost var start, capacity := View(), cache.queue.Length;
      ServeStart(start, capacity, rs);
      while k < |rs|
        invariant 0 <= k <= |rs| && Valid() && fresh(table.foot - old(table.foot))
        invariant OnTheWay(start, capacity, rs, k, View(), picked)
      {
        ServeStep(start, capacity, rs, k, View(), picked);
        var i := Handle(rs[k]);
        picked := picked + [i];
        k := k + 1;
      }
      ServeEnd(start, capacity, rs, View(), picked);
    }

    /** Every run on cache and heap tries that meets the coherence conditions:
        the servers picked are those that a search without a cache picks, and
        the tables end up the same. */
    method Serve(rs: seq<Request>) returns (picked: seq<int>)
      requires Valid() && Inv(View(), cache.queue.Length)
      requires AllServable(View(), cache.queue.Length, rs)
      requires AdmissibleRun(View(), cache.queue.Length, AsCommands(rs))
      requires SafeRun(View(), cache.queue.Length, AsCommands(rs))
      modifies cache, cache.queue, table, table.foot
      ensures Valid() && Inv(View(), cache.queue.Length)
      ensures picked == PlainOwners(old(Strip(View())), AsCommands(rs))
      ensures Strip(View()) == PlainRun(old(Strip(View())), AsCommands(rs))
    {
      ghost var start, capacity := View(), cache.queue.Length;
      picked := ServeLoop(rs);
      CoherenceExact(start, capacity, AsCommands(rs));
      CacheInvisible(start, capacity, AsCommands(rs));
    }

    /** Every run whatsoever of canonical requests keeps ownership, coherent or not. */
    method ServeAny(rs: seq<Request>) returns (picked: seq<int>)
      requires Valid() && Sound(View())
      requires AllServable(View(), cache.queue.Length, rs)
      requires AdmissibleRun(View(), cache.queue.Length, AsCommands(rs))
      modifies cache, cache.queue, table, table.foot
      ensures Valid() && Sound(View())
      ensures View() == Run(old(View()), cache.queue.Length, AsCommands(rs))
    {
      ghost var start, capacity := View(), cache.queue.Length;
      picked := ServeLoop(rs);
      RunSound(start, capacity, AsCommands(rs));
    }
  }
}
