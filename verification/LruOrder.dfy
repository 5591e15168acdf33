/** What the cache holds after any sequence of lookups. */
module LruOrder {
  import opened Collections
  import opened Cache

  /** The distinct keys of a history, ordered by last use. */
  ghost function Recent(h: seq<string>): seq<string> {
    if h == [] then []
    else
      var last := h[|h| - 1];
      Drop(Recent(h[..|h| - 1]), last) + [last]
  }

  ghost function Drop<T>(r: seq<T>, key: T): seq<T> {
    if r == [] then []
    else if r[0] == key then Drop(r[1..], key)
    else [r[0]] + Drop(r[1..], key)
  }

  /** The position of the last use of a key. */
  function LastUse(h: seq<string>, key: string): (p: int)
    ensures -1 <= p < |h|
    ensures p >= 0 ==> h[p] == key
    ensures forall k :: p < k < |h| ==> h[k] != key
  {
    if h == [] then -1
    else if h[|h| - 1] == key then |h| - 1
    else LastUse(h[..|h| - 1], key)
  }

  function Suffix<T>(s: seq<T>, n: nat): seq<T> {
    if |s| <= n then s else s[|s| - n..]
  }

  /** The lookups that the tries answer. */
  function Successes(h: seq<string>, found: string -> int): seq<string> {
    if h == [] then []
    else
      var rest := Successes(h[..|h| - 1], found);
      var last := h[|h| - 1];
      if found(last) == -1 then rest else rest + [last]
  }

  /** The cache after a history of lookups over fixed tries. */
  function AfterLookups(h: seq<string>, found: string -> int, capacity: nat): seq<Entry> {
    if h == [] then []
    else
      var last := h[|h| - 1];
      LookedUp(AfterLookups(h[..|h| - 1], found, capacity), capacity, last, found(last))
  }

  lemma {:induction false} DropMissing<T>(r: seq<T>, key: T)
    requires key !in r
    ensures Drop(r, key) == r
  {
    if r != [] {
      DropMissing(r[1..], key);
    }
  }

  lemma {:induction false} WithoutLater<T>(r: seq<T>, i: nat)
    requires 0 < i < |r|
    ensures Without(r, i) == [r[0]] + Without(r[1..], i - 1)
  {
    assert r[1..][..i - 1] == r[1..i] && r[1..][i..] == r[i + 1..];
  }

  lemma {:induction false} DropAt<T>(r: seq<T>, i: nat)
    requires Distinct(r) && i < |r|
    ensures Drop(r, r[i]) == Without(r, i)
  {
    if i == 0 {
      assert forall k :: 0 <= k < |r| - 1 ==> r[1..][k] == r[k + 1];
      DropMissing(r[1..], r[0]);
    } else {
      DropAt(r[1..], i - 1);
      WithoutLater(r, i);
    }
  }

  lemma {:induction false} DropKeys<T>(r: seq<T>, key: T)
    requires Distinct(r)
    ensures key !in Drop(r, key) && Distinct(Drop(r, key))
    ensures forall k :: k != key ==> (k in Drop(r, key) <==> k in r)
  {
    if key in r {
      var i :| 0 <= i < |r| && r[i] == key;
      DropAt(r, i);
      assert r == r[..i] + [r[i]] + r[i + 1..];
    } else {
      DropMissing(r, key);
    }
  }

  lemma {:induction false} RecentKeys(h: seq<string>)
    ensures Distinct(Recent(h))
    ensures forall k :: k in Recent(h) <==> k in h
  {
    if h != [] {
      var init, last := h[..|h| - 1], h[|h| - 1];
      assert h == init + [last];
      RecentKeys(init);
      DropKeys(Recent(init), last);
    }
  }

  /** Where two entries of a thinned-out list come from. */
  lemma {:induction false} DropOrder<T>(r: seq<T>, key: T, i: nat, j: nat) returns (p: nat, q: nat)
    requires i < j < |Drop(r, key)|
    ensures p < q < |r| && r[p] == Drop(r, key)[i] && r[q] == Drop(r, key)[j]
    decreases |r|
  {
    var rest := r[1..];
    if r[0] == key {
      p, q := DropOrder(rest, key, i, j);
      p, q := p + 1, q + 1;
    } else if i == 0 {
      p := 0;
      q := DropPosition(rest, key, j - 1);
      q := q + 1;
    } else {
      p, q := DropOrder(rest, key, i - 1, j - 1);
      p, q := p + 1, q + 1;
    }
  }

  lemma {:induction false} DropPosition<T>(r: seq<T>, key: T, i: nat) returns (p: nat)
    requires i < |Drop(r, key)|
    ensures p < |r| && r[p] == Drop(r, key)[i]
    decreases |r|
  {
    if r[0] == key {
      p := DropPosition(r[1..], key, i);
      p := p + 1;
    } else if i == 0 {
      p := 0;
    } else {
      p := DropPosition(r[1..], key, i - 1);
      p := p + 1;
    }
  }

  lemma {:induction false} LastUseLater(h: seq<string>, key: string)
    requires h != []
    ensures LastUse(h, key) == if h[|h| - 1] == key then |h| - 1 else LastUse(h[..|h| - 1], key)
  {
  }

  /** `Recent` is what it says: keys are ordered by last use. */
  lemma {:induction false} RecentOrder(h: seq<string>, i: nat, j: nat)
    requires i < j < |Recent(h)|
    ensures LastUse(h, Recent(h)[i]) < LastUse(h, Recent(h)[j])
  {
    var init, last := h[..|h| - 1], h[|h| - 1];
    var r := Recent(init);
    var dropped := Drop(r, last);
    RecentKeys(init);
    DropKeys(r, last);
    assert Recent(h)[i] == dropped[i];
    LastUseLater(h, dropped[i]);
    if j < |dropped| {
      assert Recent(h)[j] == dropped[j];
      LastUseLater(h, dropped[j]);
      var p, q := DropOrder(r, last, i, j);
      RecentOrder(init, p, q);
    } else {
      LastUseLater(h, last);
    }
  }

  ghost function KeysTouched<T>(ks: seq<T>, capacity: nat, key: T): seq<T> {
    if key in ks then Drop(ks, key) + [key]
    else (if |ks| == capacity && ks != [] then ks[1..] else ks) + [key]
  }

  lemma {:induction false} LookedUpKeys(q: seq<Entry>, capacity: nat, key: string, index: int)
    requires Distinct(Keys(q)) && index != -1
    ensures Keys(LookedUp(q, capacity, key, index)) == KeysTouched(Keys(q), capacity, key)
  {
    var i := Find(q, key);
    if i != -1 {
      DropAt(Keys(q), i);
      assert Keys(MovedToBack(q, i)) == Without(Keys(q), i) + [key];
    }
  }

  /** A suffix after one more element. */
  lemma {:induction false} SuffixAppend<T>(w: seq<T>, x: T, off: nat)
    requires off <= |w|
    ensures Suffix(w + [x], |w| + 1 - off) == w[off..] + [x]
  {
    assert (w + [x])[off..] == w[off..] + [x];
    assert off == 0 ==> w[off..] == w;
  }

  lemma {:induction false} WithoutAfter<T>(r: seq<T>, off: nat, i: nat)
    requires off <= i < |r|
    ensures Without(r, i)[off..] == Without(r[off..], i - off)
  {
    assert r[off..][..i - off] == r[off..i] && r[off..][i - off + 1..] == r[i + 1..];
    assert (r[..i] + r[i + 1..])[off..] == r[..i][off..] + r[i + 1..];
    assert r[..i][off..] == r[off..i];
  }

  lemma {:induction false} WithoutBefore<T>(r: seq<T>, off: nat, i: nat)
    requires i < off < |r|
    ensures Without(r, i)[off..] == r[off..][1..]
  {
    assert forall k | 0 <= k < |r| - off - 1 :: Without(r, i)[off..][k] == r[off + k + 1] == r[off..][1..][k];
  }

  lemma {:induction false} DropInSuffix<T>(r: seq<T>, off: nat, i: nat)
    requires Distinct(r) && off <= i < |r|
    ensures r[i] in r[off..] && Drop(r[off..], r[i]) == Without(r[off..], i - off)
  {
    var ks := r[off..];
    assert ks[i - off] == r[i];
    DropAt(ks, i - off);
  }

  lemma {:induction false} BeforeSuffix<T>(r: seq<T>, off: nat, i: nat)
    requires Distinct(r) && i < off <= |r|
    ensures r[i] !in r[off..]
  {
  }

  /** The moved key lies within the suffix. */
  lemma {:induction false} SuffixDropInside<T>(r: seq<T>, off: nat, i: nat)
    requires 1 <= off <= i < |r|
    ensures Suffix(Without(r, i) + [r[i]], |r| - off) == Without(r[off..], i - off) + [r[i]]
  {
    WithoutAfter(r, off, i);
    SuffixAppend(Without(r, i), r[i], off);
  }

  /** The moved key lies before it. */
  lemma {:induction false} SuffixDropBefore<T>(r: seq<T>, off: nat, i: nat)
    requires i < off < |r|
    ensures Suffix(Without(r, i) + [r[i]], |r| - off) == r[off..][1..] + [r[i]]
  {
    WithoutBefore(r, off, i);
    SuffixAppend(Without(r, i), r[i], off);
  }

  lemma {:induction false} TouchedIn<T>(ks: seq<T>, n: nat, key: T)
    requires key in ks
    ensures KeysTouched(ks, n, key) == Drop(ks, key) + [key]
  {
  }

  lemma {:induction false} TouchedOut<T>(ks: seq<T>, n: nat, key: T)
    requires key !in ks && |ks| == n >= 1
    ensures KeysTouched(ks, n, key) == ks[1..] + [key]
  {
  }

  lemma {:induction false} SuffixDropLong<T>(r: seq<T>, off: nat, i: nat)
    requires Distinct(r) && i < |r| && 1 <= off < |r|
    ensures Suffix(Without(r, i) + [r[i]], |r| - off) == KeysTouched(r[off..], |r| - off, r[i])
  {
    if off <= i {
      DropInSuffix(r, off, i);
      TouchedIn(r[off..], |r| - off, r[i]);
      SuffixDropInside(r, off, i);
    } else {
      BeforeSuffix(r, off, i);
      TouchedOut(r[off..], |r| - off, r[i]);
      SuffixDropBefore(r, off, i);
    }
  }

  lemma {:induction false} SuffixDrop<T>(r: seq<T>, n: nat, i: nat)
    requires Distinct(r) && i < |r| && n >= 1
    ensures Suffix(Drop(r, r[i]) + [r[i]], n) == KeysTouched(Suffix(r, n), n, r[i])
  {
    DropAt(r, i);
    if |r| > n {
      SuffixDropLong(r, |r| - n, i);
    } else {
      TouchedIn(r, n, r[i]);
    }
  }

  lemma {:induction false} SuffixTouched<T>(r: seq<T>, n: nat, key: T)
    requires Distinct(r) && n >= 1
    ensures Suffix(Drop(r, key) + [key], n) == KeysTouched(Suffix(r, n), n, key)
  {
    if key in r {
      var i :| 0 <= i < |r| && r[i] == key;
      SuffixDrop(r, n, i);
    } else {
      DropMissing(r, key);
    }
  }

  lemma {:induction false} LookedUpIndices(q: seq<Entry>, found: string -> int, capacity: nat, key: string)
    requires forall i :: 0 <= i < |q| ==> q[i].index == found(q[i].key)
    ensures var t := LookedUp(q, capacity, key, found(key));
            forall i :: 0 <= i < |t| ==> t[i].index == found(t[i].key)
  {
  }

  /** The queue is exactly the last `capacity` distinct successful keys in
      order of last use, each with the index the tries answer. */
  lemma {:induction false} LruExact(h: seq<string>, found: string -> int, capacity: nat)
    requires capacity >= 1
    ensures Keys(AfterLookups(h, found, capacity)) == Suffix(Recent(Successes(h, found)), capacity)
    ensures var q := AfterLookups(h, found, capacity);
            forall i :: 0 <= i < |q| ==> q[i].index == found(q[i].key)
  {
    if h != [] {
      var init, last := h[..|h| - 1], h[|h| - 1];
      LruExact(init, found, capacity);
      var q, s := AfterLookups(init, found, capacity), Successes(init, found);
      LookedUpIndices(q, found, capacity, last);
      RecentKeys(s);
      if found(last) != -1 {
        assert (s + [last])[..|s|] == s;
        LookedUpKeys(q, capacity, last, found(last));
        SuffixTouched(Recent(s), capacity, last);
      } else {
        UnansweredMissing(init, found, capacity, last);
      }
    }
  }

  lemma {:induction false} UnansweredMissing(h: seq<string>, found: string -> int, n: nat, key: string)
    requires found(key) == -1
    ensures key !in Suffix(Recent(Successes(h, found)), n)
  {
    SuccessesAnswered(h, found);
    RecentKeys(Successes(h, found));
    var r := Recent(Successes(h, found));
    assert forall k :: k in Suffix(r, n) ==> k in r;
  }

  lemma {:induction false} SuccessesAnswered(h: seq<string>, found: string -> int)
    ensures forall k :: k in Successes(h, found) ==> found(k) != -1
  {
    if h != [] {
      SuccessesAnswered(h[..|h| - 1], found);
    }
  }
}
