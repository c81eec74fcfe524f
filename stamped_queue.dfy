/** The lock-free queue's stamped pointers: a 16-bit ABA stamp in the top bits of a
    64-bit word and a 48-bit node address in the low bits. Only the packing, the
    initial state and the length walk of a quiescent queue are modelled; the
    compare-and-swap retry loops are not. */
module StampedQueue {

  type Word = bv64

  /** `stamp_t`. */
  type StampBits = bv16

  /** The low 48 bits, where the node address lives. */
  const PointerMask: Word := 0x0000_FFFF_FFFF_FFFF

  /** `stamp`: the stamp shifted into the top 16 bits, or-ed with the address cut to
      its low 48 bits. */
  function Stamp(n: Word, s: StampBits): (sn: Word)
    ensures GetStamp(sn) == s
    ensures GetNode(sn) == n & PointerMask
  {
    ((s as Word) << 48) | (n & PointerMask)
  }

  /** `get_stamp`: the top 16 bits. */
  function GetStamp(sn: Word): StampBits
  {
    (sn >> 48) as StampBits
  }

  /** `get_node`: the low 48 bits. */
  function GetNode(sn: Word): (n: Word)
    ensures n <= PointerMask
    ensures n >> 48 == 0
  {
    sn & PointerMask
  }

  /** An address that fits in 48 bits comes back unchanged: the stamp never leaks
      into the address. */
  lemma NodeRoundTrip(n: Word, s: StampBits)
    requires n <= PointerMask
    ensures GetNode(Stamp(n, s)) == n
  {
  }

  /** Packing is a bijection: a word is recovered from its node and stamp. */
  lemma PackUnpack(sn: Word)
    ensures Stamp(GetNode(sn), GetStamp(sn)) == sn
  {
  }

  /** The stamp is read from the top 16 bits only. */
  lemma StampOnlyTopBits(a: Word, b: Word)
    requires a >> 48 == b >> 48
    ensures GetStamp(a) == GetStamp(b)
  {
  }

  /** `stamp(NULL, 0)`, the empty free list and null-next sentinel, is the zero word. */
  lemma NullSentinel()
    ensures Stamp(0, 0) == 0 && GetNode(0) == 0 && GetStamp(0) == 0
  {
  }

  /** `get_stamp(x) + 1` is computed as an `int` and truncated to `stamp_t` when it is
      passed to `stamp`, so stamps count modulo 2^16. */
  function NextStamp(s: StampBits): (s': StampBits)
    ensures s < 0xFFFF ==> s < s'
    ensures s == 0xFFFF ==> s' == 0
  {
    s + 1
  }

  /** Below 0xFFFF the step is exact: the next stamp is one more, as an integer. */
  lemma NextStampExact(s: StampBits)
    requires s < 0xFFFF
    ensures NextStamp(s) as int == s as int + 1
  {
    var n := NextStamp(s);
    StampBytes(s);
    StampBytes(n);
    if s & 0xFF < 0xFF {
      NoCarry(s);
      SmallIncrement(s & 0xFF);
    } else {
      Carry(s);
      SmallIncrement(s >> 8);
    }
  }

  /** A stamp's value from its two bytes. */
  lemma StampBytes(x: StampBits)
    ensures x as int == (x >> 8) as int * 0x100 + (x & 0xFF) as int
  {
  }

  /** Adding one to a stamp below 0xFF does not carry out of the low byte. */
  lemma SmallIncrement(x: StampBits)
    requires x < 0xFF
    ensures (x + 1) as int == x as int + 1
  {
  }

  /** The increment when the low byte is below 0xFF: the high byte stays. */
  lemma NoCarry(s: StampBits)
    requires s & 0xFF < 0xFF
    ensures NextStamp(s) >> 8 == s >> 8
    ensures NextStamp(s) & 0xFF == (s & 0xFF) + 1
  {
  }

  /** The increment when the low byte is 0xFF: it carries into the high byte. */
  lemma Carry(s: StampBits)
    requires s < 0xFFFF && s & 0xFF == 0xFF
    ensures s >> 8 < 0xFF
    ensures NextStamp(s) >> 8 == (s >> 8) + 1
    ensures NextStamp(s) & 0xFF == 0
  {
  }

  datatype SNode = SNode(value: int, snext: Word)

  /** A node address used as a heap key. */
  datatype Ptr = Ptr(bits: Word)

  /** The queue's shared words, in a state where no operation is in progress. Node
      addresses are 48-bit values; `mem` maps them to nodes. */
  class Queue {
    var head: Word
    var tail: Word
    var freelists: array<Word>
    var mem: map<Ptr, SNode>

    /** The nodes from the dummy (the node `head` points to) to the last node. */
    ghost var spine: seq<Word>

    /** The dummy is the node `head` points to, and each node's `snext` points to the
        next node of `spine`; the last one points to NULL. */
    ghost predicate Quiescent()
      reads this
    {
      && |spine| >= 1
      && GetNode(head) == spine[0]
      && (forall i :: 0 <= i < |spine| ==> spine[i] != 0 && Ptr(spine[i]) in mem)
      && (forall i :: 0 <= i < |spine| - 1 ==> GetNode(mem[Ptr(spine[i])].snext) == spine[i + 1])
      && GetNode(mem[Ptr(spine[|spine| - 1])].snext) == 0
    }

    /** `init`: every free list holds `stamp(NULL, 0)`; one dummy node (at `dummy`, as
        returned by `malloc`; its value is never set in the source and is 0 here)
        with a null next, that head and tail both point to with stamp 0. */
    constructor (maxThreads: nat, dummy: Word)
      requires dummy != 0 && dummy <= PointerMask
      ensures Quiescent() && spine == [dummy] && fresh(freelists)
      ensures freelists.Length == maxThreads
      ensures forall i :: 0 <= i < maxThreads ==> freelists[i] == Stamp(0, 0)
      ensures head == tail == Stamp(dummy, 0)
      ensures GetNode(head) == dummy && GetStamp(head) == 0
      ensures Ptr(dummy) in mem && mem[Ptr(dummy)].snext == Stamp(0, 0)
    {
      var fl := new Word[maxThreads];
      for i := 0 to maxThreads
        invariant forall j :: 0 <= j < i ==> fl[j] == Stamp(0, 0)
      {
        fl[i] := Stamp(0, 0);
      }
      freelists := fl;
      NullSentinel();
      NodeRoundTrip(dummy, 0);
      mem := map[Ptr(dummy) := SNode(0, Stamp(0, 0))];
      head := Stamp(dummy, 0);
      tail := Stamp(dummy, 0);
      spine := [dummy];
    }

    /** `len`: counts the nodes reachable from the dummy's successor. */
    method Len() returns (c: nat)
      requires Quiescent()
      ensures c == |spine| - 1
    {
      var n := GetNode(mem[Ptr(GetNode(head))].snext);
      c := 0;
      while n != 0
        invariant 0 <= c < |spine|
        invariant n == if c + 1 < |spine| then spine[c + 1] else 0
        decreases |spine| - c
      {
        c := c + 1;
        n := GetNode(mem[Ptr(n)].snext);
      }
    }
  }
}
