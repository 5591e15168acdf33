/** The lookup cache of the naming server: a queue of (path, server index)
    entries, least recently used first. */
module Cache {

  datatype Entry = Entry(key: string, index: int)

  function Keys(q: seq<Entry>): seq<string> {
    seq(|q|, i requires 0 <= i < |q| => q[i].key)
  }

  /** `search_cache`: the first slot with this key, or -1. */
  function Find(q: seq<Entry>, key: string): (i: int)
    ensures -1 <= i < |q|
    ensures i == -1 <==> key !in Keys(q)
    ensures i >= 0 ==> q[i].key == key
    ensures forall j :: 0 <= j < i ==> q[j].key != key
  {
    var i := FindFrom(q, key, 0);
    assert i >= 0 ==> Keys(q)[i] == key;
    i
  }

  function FindFrom(q: seq<Entry>, key: string, k: nat): (i: int)
    requires k <= |q|
    ensures -1 <= i < |q| && (i == -1 || k <= i)
    ensures i >= 0 ==> q[i].key == key
    ensures forall j :: k <= j < (if i == -1 then |q| else i) ==> q[j].key != key
    decreases |q| - k
  {
    if k == |q| then -1 else if q[k].key == key then k else FindFrom(q, key, k + 1)
  }

  function Without<T>(q: seq<T>, i: nat): (r: seq<T>)
    requires i < |q|
    ensures |r| == |q| - 1
  {
    q[..i] + q[i + 1..]
  }

  function MovedToBack(q: seq<Entry>, i: nat): (r: seq<Entry>)
    requires i < |q|
  {
    Without(q, i) + [q[i]]
  }

  function Evicted(q: seq<Entry>): seq<Entry> {
    if q == [] then q else q[1..]
  }

  /** The queue after making room for one more entry. */
  function Room(q: seq<Entry>, capacity: nat): seq<Entry> {
    if |q| == capacity then Evicted(q) else q
  }

  /** `add_to_cache` on a cache of the given capacity. */
  function AddedTo(q: seq<Entry>, capacity: nat, key: string, index: int): seq<Entry> {
    Room(q, capacity) + [Entry(key, index)]
  }

  function Deleted(q: seq<Entry>, key: string): seq<Entry> {
    var i := Find(q, key);
    if i == -1 then q else Without(q, i)
  }

  /** One lookup, given what the tries answer for the key. */
  function LookedUp(q: seq<Entry>, capacity: nat, key: string, found: int): seq<Entry> {
    var i := Find(q, key);
    if i != -1 then MovedToBack(q, i)
    else if found != -1 then AddedTo(q, capacity, key, found)
    else q
  }

  /** The fixed-size array and the in-place shifting loops. */
  class LRUCache {
    const queue: array<Entry>
    var size: nat

    ghost predicate Valid()
      reads this, queue
    {
      1 <= queue.Length && size <= queue.Length
    }

    ghost function View(): seq<Entry>
      requires Valid()
      reads this, queue
    {
      queue[..size]
    }

    /** `initialize_cache`. */
    constructor (capacity: nat)
      requires capacity >= 1
      ensures Valid() && View() == [] && queue.Length == capacity && fresh(queue)
    {
      queue := new Entry[capacity](_ => Entry("", -1));
      size := 0;
    }

    method Search(key: string) returns (i: int)
      requires Valid()
      ensures i == Find(View(), key)
    {
      i := 0;
      ghost var q := View();
      while i < size
        invariant 0 <= i <= size
        invariant Find(q, key) == FindFrom(q, key, i)
      {
        if queue[i].key == key {
          return;
        }
        i := i + 1;
      }
      i := -1;
    }

    /** The shifting loop shared by eviction, move-to-back and deletion:
        close the gap at `i`, leaving the last slot free. */
    method ShiftLeft(i: nat)
      requires Valid() && i < size
      modifies queue
      ensures size == old(size)
      ensures queue[..size - 1] == Without(old(View()), i)
    {
      var j := i;
      while j < size - 1
        invariant i <= j <= size - 1
        invariant forall k :: 0 <= k < size ==>
                    queue[k] == if i <= k < j then old(queue[k + 1]) else old(queue[k])
      {
        queue[j] := queue[j + 1];
        j := j + 1;
      }
      ghost var was := old(View());
      assert forall k :: 0 <= k < size ==> was[k] == old(queue[k]);
      assert forall k :: 0 <= k < size - 1 ==> queue[k] == Without(was, i)[k];
    }

    method EvictLru()
      requires Valid()
      modifies this, queue
      ensures Valid() && View() == Evicted(old(View()))
    {
      if size > 0 {
        ShiftLeft(0);
        size := size - 1;
      }
    }

    method Add(key: string, index: int)
      requires Valid()
      modifies this, queue
      ensures Valid() && View() == AddedTo(old(View()), queue.Length, key, index)
    {
      if size == queue.Length {
        EvictLru();
      }
      queue[size] := Entry(key, index);
      size := size + 1;
    }

    method MoveToBack(i: nat)
      requires Valid() && i < size
      modifies queue
      ensures Valid() && View() == MovedToBack(old(View()), i)
    {
      var temp := queue[i];
      ShiftLeft(i);
      queue[size - 1] := temp;
    }

    method Delete(key: string)
      requires Valid()
      modifies this, queue
      ensures Valid() && View() == Deleted(old(View()), key)
    {
      var i := Search(key);
      if i != -1 {
        ShiftLeft(i);
        size := size - 1;
      }
    }
  }
}
