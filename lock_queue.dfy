/** The lock-based queue: a singly linked FIFO with a dummy head node, plus one free
    list of recycled nodes per thread. Every operation runs entirely under one lock, so
    each is modelled as one atomic sequential step; the calling thread's number `id`
    is a parameter.

    C pointers are addresses: the heap is the map `mem` from node addresses to node
    records and address 0 is NULL. */
module LockQueue {
  import opened QueueStats

  type Addr = nat

  const Null: Addr := 0

  datatype Node = Node(value: int, next: Addr)

  /** `s` lists, in order and without repetition, the nodes reached from `start` by
      following `next` until NULL. */
  ghost predicate IsChain(mem: map<Addr, Node>, start: Addr, s: seq<Addr>)
  {
    && (if s == [] then start == Null else start == s[0])
    && (forall i :: 0 <= i < |s| ==> s[i] != Null && s[i] in mem)
    && (forall i :: 0 <= i < |s| - 1 ==> mem[s[i]].next == s[i + 1])
    && (s != [] ==> mem[s[|s| - 1]].next == Null)
    && (forall i, j :: 0 <= i < j < |s| ==> s[i] != s[j])
  }

  /** Dropping the first node of a chain leaves the chain that starts at its successor. */
  lemma ChainPop(mem: map<Addr, Node>, start: Addr, s: seq<Addr>)
    requires IsChain(mem, start, s) && s != []
    ensures IsChain(mem, mem[s[0]].next, s[1..])
  {
  }

  /** Linking a new last node `n` (holding `v`) after the last node of a chain. */
  lemma ChainAppend(mem: map<Addr, Node>, start: Addr, s: seq<Addr>, n: Addr, v: int)
    requires IsChain(mem, start, s) && s != []
    requires n != Null && n !in s
    ensures IsChain(mem[n := Node(v, Null)][s[|s| - 1] := mem[s[|s| - 1]].(next := n)], start, s + [n])
  {
    var mem' := mem[n := Node(v, Null)][s[|s| - 1] := mem[s[|s| - 1]].(next := n)];
    var s' := s + [n];
    forall i | 0 <= i < |s'| - 1
      ensures mem'[s'[i]].next == s'[i + 1]
    {
      if i < |s| - 1 {
        assert s'[i] != s[|s| - 1];
      }
    }
  }

  /** Pushing node `d` onto the front of a chain that does not contain it. */
  lemma ChainPush(mem: map<Addr, Node>, start: Addr, s: seq<Addr>, d: Addr)
    requires IsChain(mem, start, s)
    requires d != Null && d in mem && d !in s
    ensures IsChain(mem[d := mem[d].(next := start)], d, [d] + s)
  {
    var mem' := mem[d := mem[d].(next := start)];
    var s' := [d] + s;
    forall i | 0 <= i < |s'| - 1
      ensures mem'[s'[i]].next == s'[i + 1]
    {
      if i > 0 {
        assert s'[i] == s[i - 1];
      }
    }
    if s != [] {
      assert s'[|s'| - 1] == s[|s| - 1] != d;
    }
  }

  /** A chain survives any heap update that leaves its own nodes alone. */
  lemma ChainFrame(mem: map<Addr, Node>, mem': map<Addr, Node>, start: Addr, s: seq<Addr>)
    requires IsChain(mem, start, s)
    requires forall i :: 0 <= i < |s| ==> s[i] in mem' && mem'[s[i]] == mem[s[i]]
    ensures IsChain(mem', start, s)
  {
  }

  /** The free lists: list `t` starts at `heads[t]` and holds the nodes `free[t]`. */
  ghost predicate FreeLists(mem: map<Addr, Node>, heads: seq<Addr>, free: seq<seq<Addr>>)
  {
    |heads| == |free| && forall t :: 0 <= t < |free| ==> IsChain(mem, heads[t], free[t])
  }

  /** No node is on two lists: `owner` says which one each node is on. */
  ghost predicate Owned(owner: map<Addr, int>, spine: seq<Addr>, free: seq<seq<Addr>>)
  {
    && (forall i :: 0 <= i < |spine| ==> spine[i] in owner && owner[spine[i]] == -1)
    && (forall t, j :: 0 <= t < |free| && 0 <= j < |free[t]| ==>
          free[t][j] in owner && owner[free[t][j]] == t)
  }

  /** The queue's representation invariant, on plain values. */
  ghost predicate Inv(mem: map<Addr, Node>, head: Addr, tail: Addr, heads: seq<Addr>,
                      contents: seq<int>, spine: seq<Addr>, free: seq<seq<Addr>>, owner: map<Addr, int>)
  {
    && |spine| >= 1
    && IsChain(mem, head, spine)
    && tail == spine[|spine| - 1]
    && |contents| == |spine| - 1
    && (forall i :: 0 <= i < |contents| ==> mem[spine[i + 1]].value == contents[i])
    && FreeLists(mem, heads, free)
    && Owned(owner, spine, free)
  }

  /** A heap update at two nodes that lie on no free list keeps every free list. */
  lemma FreeListsFrame(mem: map<Addr, Node>, heads: seq<Addr>, free: seq<seq<Addr>>,
                       a: Addr, x: Node, b: Addr, y: Node)
    requires FreeLists(mem, heads, free)
    requires forall t, j :: 0 <= t < |free| && 0 <= j < |free[t]| ==> free[t][j] != a && free[t][j] != b
    ensures FreeLists(mem[a := x][b := y], heads, free)
  {
    forall t | 0 <= t < |free|
      ensures IsChain(mem[a := x][b := y], heads[t], free[t])
    {
      ChainFrame(mem, mem[a := x][b := y], heads[t], free[t]);
    }
  }

  /** Taking the front node off free list `id` leaves every free list a chain. */
  lemma FreeListPop(mem: map<Addr, Node>, heads: seq<Addr>, free: seq<seq<Addr>>, id: nat)
    requires FreeLists(mem, heads, free) && id < |heads| && free[id] != []
    ensures FreeLists(mem, heads[id := mem[free[id][0]].next], free[id := free[id][1..]])
  {
    ChainPop(mem, heads[id], free[id]);
    var heads', free' := heads[id := mem[free[id][0]].next], free[id := free[id][1..]];
    forall t | 0 <= t < |free'|
      ensures IsChain(mem, heads'[t], free'[t])
    {
      if t != id {
        assert IsChain(mem, heads[t], free[t]);
      }
    }
  }

  /** `enq` keeps the invariant: `n` is the reused front node of free list `id`, or a
      freshly allocated node when that list is empty. */
  lemma EnqInv(mem: map<Addr, Node>, head: Addr, tail: Addr, heads: seq<Addr>,
               contents: seq<int>, spine: seq<Addr>, free: seq<seq<Addr>>, owner: map<Addr, int>,
               id: nat, n: Addr, v: int)
    requires Inv(mem, head, tail, heads, contents, spine, free, owner) && id < |heads|
    requires heads[id] != Null ==> n == heads[id]
    requires heads[id] == Null ==> n != Null && n !in mem
    ensures n != Null && tail in mem
    ensures heads[id] != Null ==> n in mem && free[id] != []
    ensures heads[id] == Null ==> free[id] == []
    ensures
      var reused := heads[id] != Null;
      var heads' := if reused then heads[id := mem[n].next] else heads;
      var free' := if reused then free[id := free[id][1..]] else free;
      Inv(mem[n := Node(v, Null)][tail := mem[tail].(next := n)], head, n, heads',
          contents + [v], spine + [n], free', owner[n := -1])
  {
    var reused := heads[id] != Null;
    assert IsChain(mem, heads[id], free[id]);
    var heads' := if reused then heads[id := mem[n].next] else heads;
    var free' := if reused then free[id := free[id][1..]] else free;
    if reused {
      FreeListPop(mem, heads, free, id);
      assert forall j :: 0 <= j < |free'[id]| ==> free'[id][j] == free[id][j + 1] != n;
    }
    assert n !in spine;
    assert forall t, j :: 0 <= t < |free'| && 0 <= j < |free'[t]| ==> free'[t][j] != n && free'[t][j] != tail by {
      forall t, j | 0 <= t < |free'| && 0 <= j < |free'[t]|
        ensures free'[t][j] != n && free'[t][j] != tail
      {
        if reused && t == id {
          assert free'[t][j] == free[id][j + 1];
        } else {
          assert free'[t][j] == free[t][j];
          assert IsChain(mem, heads[t], free[t]);
        }
      }
    }
    ChainAppend(mem, head, spine, n, v);
    FreeListsFrame(mem, heads', free', n, Node(v, Null), tail, mem[tail].(next := n));
    var mem' := mem[n := Node(v, Null)][tail := mem[tail].(next := n)];
    var spine' := spine + [n];
    forall i | 0 <= i < |contents| + 1
      ensures mem'[spine'[i + 1]].value == (contents + [v])[i]
    {
      if i < |contents| {
        assert spine'[i + 1] == spine[i + 1] != n;
        if spine[i + 1] == tail {
          assert i + 1 == |spine| - 1;
        }
      }
    }
  }

  /** `deq` on a non-empty queue keeps the invariant: the old dummy goes to the front
      of free list `id` and its successor becomes the dummy. */
  lemma DeqInv(mem: map<Addr, Node>, head: Addr, tail: Addr, heads: seq<Addr>,
               contents: seq<int>, spine: seq<Addr>, free: seq<seq<Addr>>, owner: map<Addr, int>,
               id: nat)
    requires Inv(mem, head, tail, heads, contents, spine, free, owner) && id < |heads|
    requires contents != []
    ensures head in mem && mem[head].next in mem && mem[head].next == spine[1]
    ensures Inv(mem[head := mem[head].(next := heads[id])], mem[head].next, tail, heads[id := head],
                contents[1..], spine[1..], free[id := [head] + free[id]], owner[head := id])
  {
    var mem' := mem[head := mem[head].(next := heads[id])];
    var free' := free[id := [head] + free[id]];
    var heads' := heads[id := head];
    assert forall t, j :: 0 <= t < |free| && 0 <= j < |free[t]| ==> free[t][j] != head;
    assert forall j :: 0 <= j < |spine| - 1 ==> spine[1..][j] != head;
    ChainPop(mem, head, spine);
    ChainFrame(mem, mem', spine[1], spine[1..]);
    assert IsChain(mem, heads[id], free[id]);
    ChainPush(mem, heads[id], free[id], head);
    assert FreeLists(mem', heads', free') by {
      forall t | 0 <= t < |free'|
        ensures IsChain(mem', heads'[t], free'[t])
      {
        if t != id {
          assert IsChain(mem, heads[t], free[t]);
          ChainFrame(mem, mem', heads[t], free[t]);
        }
      }
    }
    assert Owned(owner[head := id], spine[1..], free') by {
      forall t, j | 0 <= t < |free'| && 0 <= j < |free'[t]|
        ensures free'[t][j] in owner[head := id] && owner[head := id][free'[t][j]] == t
      {
        if t == id && j > 0 {
          assert free'[t][j] == free[id][j - 1];
        }
      }
    }
  }

  class Queue {
    var head: Addr
    var tail: Addr
    var freelists: array<Addr>
    /** The C heap: every node allocated so far, by address. */
    var mem: map<Addr, Node>

    /** The abstract queue, front first. */
    ghost var contents: seq<int>
    /** The nodes from the dummy `head` to `tail`. */
    ghost var spine: seq<Addr>
    /** The nodes of each thread's free list, front first. */
    ghost var free: seq<seq<Addr>>
    /** Which list a node is on: -1 for the queue, `t` for free list `t`. */
    ghost var owner: map<Addr, int>

    ghost predicate Valid()
      reads this, freelists
    {
      Inv(mem, head, tail, freelists[..], contents, spine, free, owner)
    }

    /** `init`: one dummy node (at address `dummy`, as returned by `malloc`) that is
        both head and tail, its `next` NULL, and `maxThreads` empty free lists. */
    constructor (maxThreads: nat, dummy: Addr)
      requires dummy != Null
      ensures Valid() && fresh(freelists)
      ensures head == tail == dummy && dummy in mem && mem[dummy].next == Null
      ensures freelists.Length == maxThreads && forall t :: 0 <= t < maxThreads ==> freelists[t] == Null
      ensures contents == [] && free == seq(maxThreads, _ => [])
      ensures mem.Keys == {dummy}
    {
      freelists := new Addr[maxThreads](_ => Null);
      mem := map[dummy := Node(0, Null)];
      head, tail := dummy, dummy;
      contents, spine := [], [dummy];
      free := seq(maxThreads, _ => []);
      owner := map[dummy := -1];
    }

    /** `enq`: takes a node from the front of free list `id` when there is one, or
        else the node `malloc` returned (`alloc`, NULL when memory is exhausted), and
        links it, holding `v`, after the tail. */
    method Enq(v: int, id: nat, alloc: Addr) returns (code: int)
      requires Valid() && id < freelists.Length
      requires alloc == Null || alloc !in mem
      modifies this, freelists
      ensures Valid() && freelists == old(freelists) && head == old(head)
      ensures old(free[id]) == [] && alloc == Null ==>
        code == QueueNoMem && contents == old(contents) && tail == old(tail)
        && mem == old(mem) && free == old(free) && freelists[..] == old(freelists[..])
      ensures old(free[id]) != [] || alloc != Null ==>
        && code == QueueOk
        && contents == old(contents) + [v]
        && tail in mem && mem[tail] == Node(v, Null)
        && tail == (if old(free[id]) != [] then old(freelists[id]) else alloc)
        && free == old(free)[id := if old(free[id]) != [] then old(free[id])[1..] else []]
      ensures freelists[..] == old(freelists[..])[id := freelists[id]]
      ensures forall a :: a in mem ==> a in old(mem) || a == alloc
    {
      assert IsChain(mem, freelists[id], free[id]);
      var n: Addr;
      if freelists[id] == Null {
        if alloc == Null {
          return QueueNoMem;
        }
        n := alloc;
      } else {
        n := freelists[id];
      }
      Append(v, id, n);
      code := QueueOk;
    }

    /** The part of `enq` after the node is chosen: `n` leaves the front of free list
        `id` when it came from there, holds `v`, and is linked after the tail. */
    method Append(v: int, id: nat, n: Addr)
      requires Valid() && id < freelists.Length
      requires freelists[id] != Null ==> n == freelists[id]
      requires freelists[id] == Null ==> n != Null && n !in mem
      modifies this, freelists
      ensures Valid() && freelists == old(freelists) && head == old(head)
      ensures contents == old(contents) + [v]
      ensures tail == n && n in mem && mem[n] == Node(v, Null)
      ensures free == old(free)[id := if old(free[id]) != [] then old(free[id])[1..] else []]
      ensures freelists[..] == old(freelists[..])[id := freelists[id]]
      ensures forall a :: a in mem ==> a in old(mem) || a == n
    {
      ghost var heads := freelists[..];
      EnqInv(mem, head, tail, heads, contents, spine, free, owner, id, n, v);
      if freelists[id] != Null {
        freelists[id] := mem[n].next;
        free := free[id := free[id][1..]];
        assert freelists[..] == heads[id := mem[n].next];
      }
      mem := mem[n := Node(v, Null)][tail := mem[tail].(next := n)];
      tail := n;
      spine := spine + [n];
      contents := contents + [v];
      owner := owner[n := -1];
    }

    /** `enq_stats`: `enq`, and one node fewer on the caller's free list when a node
        was reused. */
    method EnqStats(v: int, id: nat, alloc: Addr, s: Stats) returns (code: int, s': Stats)
      requires Valid() && id < freelists.Length
      requires alloc == Null || alloc !in mem
      modifies this, freelists
      ensures Valid() && freelists == old(freelists) && head == old(head)
      ensures old(free[id]) == [] && alloc == Null ==>
        code == QueueNoMem && contents == old(contents) && tail == old(tail)
        && mem == old(mem) && free == old(free) && freelists[..] == old(freelists[..])
      ensures old(free[id]) != [] || alloc != Null ==>
        && code == QueueOk
        && contents == old(contents) + [v]
        && tail in mem && mem[tail] == Node(v, Null)
        && tail == (if old(free[id]) != [] then old(freelists[id]) else alloc)
        && free == old(free)[id := if old(free[id]) != [] then old(free[id])[1..] else []]
      ensures s' == if old(free[id]) != [] then s.(freelistLen := s.freelistLen - 1) else s
      ensures |free[id]| - s'.freelistLen == |old(free[id])| - s.freelistLen
      ensures freelists[..] == old(freelists[..])[id := freelists[id]]
      ensures forall a :: a in mem ==> a in old(mem) || a == alloc
    {
      var reuse := freelists[id] != Null;
      code := Enq(v, id, alloc);
      s' := if reuse then s.(freelistLen := s.freelistLen - 1) else s;
    }

    /** `deq`: on an empty queue, reports QUEUE_EMPTY and changes nothing (the out
        value `v` is returned as it came in); otherwise yields the front element,
        makes its node the new dummy and pushes the old dummy onto free list `id`. */
    method Deq(id: nat, v: int) returns (code: int, v': int)
      requires Valid() && id < freelists.Length
      modifies this, freelists
      ensures Valid() && freelists == old(freelists) && tail == old(tail)
      ensures code == QueueEmpty <==> old(contents) == []
      ensures old(contents) == [] ==>
        v' == v && contents == old(contents) && head == old(head)
        && mem == old(mem) && free == old(free) && freelists[..] == old(freelists[..])
      ensures old(contents) != [] ==>
        && code == QueueOk
        && v' == old(contents)[0]
        && contents == old(contents)[1..]
        && freelists[id] == old(head)
        && free == old(free)[id := [old(head)] + old(free[id])]
      ensures freelists[..] == old(freelists[..])[id := freelists[id]]
      ensures mem.Keys == old(mem.Keys)
    {
      var dummy := head;
      var next := mem[dummy].next;
      assert |spine| > 1 ==> next == spine[1];
      if next == Null {
        return QueueEmpty, v;
      }
      v' := Unlink(id);
      code := QueueOk;
    }

    /** The part of `deq` on a non-empty queue: the first element's node becomes the
        dummy, and the old dummy goes to the front of free list `id`. */
    method Unlink(id: nat) returns (v': int)
      requires Valid() && id < freelists.Length && contents != []
      modifies this, freelists
      ensures Valid() && freelists == old(freelists) && tail == old(tail)
      ensures v' == old(contents)[0] && contents == old(contents)[1..]
      ensures freelists[id] == old(head) && free == old(free)[id := [old(head)] + old(free[id])]
      ensures freelists[..] == old(freelists[..])[id := freelists[id]]
      ensures mem.Keys == old(mem.Keys)
    {
      var dummy := head;
      var next := mem[dummy].next;
      DeqInv(mem, head, tail, freelists[..], contents, spine, free, owner, id);
      v' := mem[next].value;
      head := next;
      mem := mem[dummy := mem[dummy].(next := freelists[id])];
      freelists[id] := dummy;
      free := free[id := [dummy] + free[id]];
      spine := spine[1..];
      contents := contents[1..];
      owner := owner[dummy := id];
    }

    /** `deq_stats`: `deq`, and on success one more node on the caller's free list:
        `freelistLen` and `freelistInsert` go up by one and `freelistMax` follows. */
    method DeqStats(id: nat, v: int, s: Stats) returns (code: int, v': int, s': Stats)
      requires Valid() && id < freelists.Length
      modifies this, freelists
      ensures Valid() && freelists == old(freelists) && tail == old(tail)
      ensures code == QueueEmpty <==> old(contents) == []
      ensures code == QueueEmpty ==>
        v' == v && contents == old(contents) && head == old(head) && s' == s
        && mem == old(mem) && free == old(free) && freelists[..] == old(freelists[..])
      ensures code != QueueEmpty ==>
        && code == QueueOk && v' == old(contents)[0] && contents == old(contents)[1..]
        && freelists[id] == old(head)
        && free == old(free)[id := [old(head)] + old(free[id])]
        && s'.freelistLen == s.freelistLen + 1
        && s'.freelistInsert == s.freelistInsert + 1
        && s'.freelistMax == (if s.freelistLen + 1 > s.freelistMax then s.freelistLen + 1 else s.freelistMax)
        && s' == s.(freelistLen := s'.freelistLen, freelistInsert := s'.freelistInsert, freelistMax := s'.freelistMax)
      ensures s.freelistMax >= s.freelistLen ==> s'.freelistMax >= s'.freelistLen
      ensures |free[id]| - s'.freelistLen == |old(free[id])| - s.freelistLen
      ensures freelists[..] == old(freelists[..])[id := freelists[id]]
      ensures mem.Keys == old(mem.Keys)
    {
      code, v' := Deq(id, v);
      s' := s;
      if code == QueueOk {
        s' := s'.(freelistLen := s'.freelistLen + 1);
        if s'.freelistLen > s'.freelistMax {
          s' := s'.(freelistMax := s'.freelistLen);
        }
        s' := s'.(freelistInsert := s'.freelistInsert + 1);
      }
    }

    /** `len`: walks from the dummy's successor to NULL, counting nodes. */
    method Len() returns (c: nat)
      requires Valid()
      ensures c == |contents|
    {
      var n := mem[head].next;
      c := 0;
      while n != Null
        invariant 0 <= c < |spine|
        invariant n == if c + 1 < |spine| then spine[c + 1] else Null
        decreases |spine| - c
      {
        c := c + 1;
        n := mem[n].next;
      }
    }
  }

  /** Enqueues 0..n-1 as thread 0, each node fresh from `malloc` (addresses from `next` on),
      collecting the return codes. */
  method EnqueueRange(q: Queue, n: nat, next: Addr) returns (next': Addr, codes: seq<int>)
    requires q.Valid() && 0 < q.freelists.Length && q.contents == []
    requires forall a :: a in q.mem ==> 0 < a < next
    modifies q, q.freelists
    ensures q.Valid() && q.freelists == old(q.freelists) && q.contents == seq(n, k => k)
    ensures codes == seq(n, _ => QueueOk)
  {
    next' := next;
    codes := [];
    for i := 0 to n
      invariant q.Valid() && q.freelists == old(q.freelists)
      invariant q.contents == seq(i, k => k)
      invariant forall a :: a in q.mem ==> 0 < a < next'
      invariant codes == seq(i, _ => QueueOk)
    {
      var code := q.Enq(i, 0, next');
      codes := codes + [code];
      next' := next' + 1;
    }
  }

  /** Dequeues n times as thread 0 from a queue holding 0..n-1, collecting the values
      and the return codes. */
  method DequeueAll(q: Queue, n: nat) returns (out: seq<int>, codes: seq<int>)
    requires q.Valid() && 0 < q.freelists.Length && q.contents == seq(n, k => k)
    modifies q, q.freelists
    ensures q.Valid() && q.freelists == old(q.freelists) && q.contents == []
    ensures out == seq(n, k => k)
    ensures codes == seq(n, _ => QueueOk)
  {
    out := [];
    codes := [];
    var v := 0;
    for i := 0 to n
      invariant q.Valid() && q.freelists == old(q.freelists)
      invariant q.contents == seq(n - i, k => k + i)
      invariant out == seq(i, k => k)
      invariant codes == seq(i, _ => QueueOk)
    {
      var code;
      code, v := q.Deq(0, v);
      out := out + [v];
      codes := codes + [code];
    }
  }

  /** Dequeues n times as thread 0 from an empty queue, collecting the return codes. */
  method DequeueEmpty(q: Queue, n: nat) returns (codes: seq<int>)
    requires q.Valid() && 0 < q.freelists.Length && q.contents == []
    modifies q, q.freelists
    ensures q.Valid() && q.freelists == old(q.freelists) && q.contents == []
    ensures codes == seq(n, _ => QueueEmpty)
  {
    codes := [];
    var v := 0;
    for i := 0 to n
      invariant q.Valid() && q.freelists == old(q.freelists) && q.contents == []
      invariant codes == seq(i, _ => QueueEmpty)
    {
      var code;
      code, v := q.Deq(0, v);
      codes := codes + [code];
    }
  }

  /** The sequential test: enqueue 0..n-1, check the length, dequeue n times, check
      the length again, then dequeue n more times on the empty queue. Everything runs
      as thread 0 of a queue with `maxThreads` free lists. */
  method SequentialTest(n: nat, maxThreads: nat)
    returns (enqCodes: seq<int>, lenFull: nat, deqCodes: seq<int>, out: seq<int>, lenEmpty: nat, emptyCodes: seq<int>)
    requires maxThreads >= 1
    ensures enqCodes == seq(n, _ => QueueOk) && deqCodes == seq(n, _ => QueueOk)
    ensures lenFull == n
    ensures out == seq(n, i => i)
    ensures lenEmpty == 0
    ensures emptyCodes == seq(n, _ => QueueEmpty)
  {
    var q := new Queue(maxThreads, 1);
    var next;
    next, enqCodes := EnqueueRange(q, n, 2);
    lenFull := q.Len();
    out, deqCodes := DequeueAll(q, n);
    lenEmpty := q.Len();
    emptyCodes := DequeueEmpty(q, n);
  }
}
