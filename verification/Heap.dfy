/** The user-level heap: Kernighan and Ritchie's circular, address-ordered free
    list with coalescing on both sides. Addresses and sizes are in units of one
    header. BASE is the address of the static list anchor; the memory that sbrk
    hands out lies above it. */
module Heap {
  import opened Blocks

  const BASE := 1
  const UNIT_BYTES := 8
  const MINCORE := 4096

  datatype Header = Header(ptr: int, size: nat)

  type Memory = map<int, Header>

  // ---- the free list

  ghost function Succ(list: seq<int>, i: nat): (a: int)
    requires i < |list|
  {
    if i + 1 < |list| then list[i + 1] else list[0]
  }

  ghost predicate InMemory(m: Memory, list: seq<int>) {
    forall i :: 0 <= i < |list| ==> list[i] in m
  }

  /** The list is a ring through m in ascending address order that starts at the
      anchor, and its blocks do not overlap. */
  ghost predicate Chain(m: Memory, list: seq<int>) {
    && |list| >= 1 && list[0] == BASE && InMemory(m, list)
    && (forall i :: 0 <= i < |list| ==> LinkAt(m, list, i))
    && Ordered(m, list)
    && m[BASE].size == 0
    && (forall i :: 1 <= i < |list| ==> m[list[i]].size >= 1)
  }

  ghost predicate LinkAt(m: Memory, list: seq<int>, i: nat)
    requires InMemory(m, list) && i < |list|
  {
    m[list[i]].ptr == Succ(list, i)
  }

  ghost predicate Ordered(m: Memory, list: seq<int>)
    requires InMemory(m, list)
  {
    forall i, j :: 0 <= i < j < |list| ==> list[i] < list[j] && list[i] + m[list[i]].size <= list[j]
  }

  ghost predicate Touching(m: Memory, list: seq<int>, i: nat)
    requires InMemory(m, list) && i + 1 < |list|
  {
    list[i] + m[list[i]].size == list[i + 1]
  }

  /** ... and no two free blocks are adjacent. */
  ghost predicate Ring(m: Memory, list: seq<int>) {
    Chain(m, list) && forall i :: 0 <= i < |list| - 1 ==> !Touching(m, list, i)
  }

  /** alloc maps the header address of each block in use to its units. */
  ghost predicate InUseOk(m: Memory, list: seq<int>, alloc: map<int, nat>)
    requires InMemory(m, list)
  {
    && (forall a :: a in alloc ==> a in m && m[a].size == alloc[a] >= 1 && a > BASE)
    && (forall a, b :: a in alloc && b in alloc && a < b ==> a + alloc[a] <= b)
    && (forall a, u :: a in alloc && a <= u < a + alloc[a] ==> !InFree(m, list, u))
  }

  ghost predicate InFree(m: Memory, list: seq<int>, u: int)
    requires InMemory(m, list)
  {
    exists i :: 1 <= i < |list| && list[i] <= u < list[i] + m[list[i]].size
  }

  ghost predicate InAlloc(alloc: map<int, nat>, u: int) {
    exists a :: a in alloc && a <= u < a + alloc[a]
  }

  /** Every unit obtained from sbrk is in a free block or in a block in use, and
      nothing else is. */
  ghost predicate Conserved(m: Memory, list: seq<int>, alloc: map<int, nat>, obtained: iset<int>)
    requires InMemory(m, list)
  {
    forall u :: u in obtained <==> InFree(m, list, u) || InAlloc(alloc, u)
  }

  ghost predicate HeapOk(m: Memory, list: seq<int>, alloc: map<int, nat>, obtained: iset<int>) {
    Ring(m, list) && InUseOk(m, list, alloc) && Conserved(m, list, alloc, obtained)
  }

  /** No unit is in two blocks. */
  lemma Disjoint(m: Memory, list: seq<int>, alloc: map<int, nat>, obtained: iset<int>, u: int)
    requires HeapOk(m, list, alloc, obtained)
    ensures !(InFree(m, list, u) && InAlloc(alloc, u))
    ensures forall i, j :: 1 <= i < j < |list| && list[i] <= u < list[i] + m[list[i]].size ==> u < list[j]
    ensures forall a, b :: a in alloc && b in alloc && a <= u < a + alloc[a] && b <= u < b + alloc[b] ==> a == b
  {
  }

  // ---- the effect of free on the list

  /** Where a block at address b goes: after the last list entry below it. */
  ghost predicate GoesAfter(list: seq<int>, k: nat, b: int) {
    k < |list| && list[k] < b && (k + 1 < |list| ==> b < list[k + 1])
  }

  /** The block b of n units with the list entry k below it. */
  ghost predicate Fits(m: Memory, list: seq<int>, k: nat, b: int, n: nat)
    requires InMemory(m, list)
  {
    && GoesAfter(list, k, b) && n >= 1
    && list[k] + m[list[k]].size <= b
    && (k + 1 < |list| ==> b + n <= list[k + 1])
    && b > BASE
  }

  /** b linked in after entry k, before any merging. */
  ghost function Linked(m: Memory, list: seq<int>, k: nat, b: int): (r: Memory)
    requires k < |list| && InMemory(m, list) && b in m
  {
    m[b := Header(Succ(list, k), m[b].size)][list[k] := Header(b, m[list[k]].size)]
  }

  ghost function Inserted(list: seq<int>, k: nat, b: int): (r: seq<int>)
    requires k < |list|
  {
    list[..k + 1] + [b] + list[k + 1..]
  }

  /** Position i of the longer list, in terms of the shorter one. */
  lemma InsertedAt(list: seq<int>, k: nat, b: int, i: nat)
    requires k < |list| && i <= |list|
    ensures Inserted(list, k, b)[i] == if i <= k then list[i] else if i == k + 1 then b else list[i - 1]
  {
  }

  lemma InsertChain(m: Memory, list: seq<int>, k: nat, b: int)
    requires Chain(m, list) && b in m && Fits(m, list, k, b, m[b].size)
    ensures Chain(Linked(m, list, k, b), Inserted(list, k, b))
  {
    var r, t := Linked(m, list, k, b), Inserted(list, k, b);
    NotListed(m, list, k, b, m[b].size);
    assert InMemory(r, t);
    assert Ordered(r, t) by { InsertOrdered(m, list, k, b); }
    forall i | 0 <= i < |t|
      ensures LinkAt(r, t, i)
    {
      InsertLink(m, list, k, b, i);
    }
    forall i | 1 <= i < |t|
      ensures r[t[i]].size >= 1
    {
      InsertedAt(list, k, b, i);
    }
  }

  lemma NotListed(m: Memory, list: seq<int>, k: nat, b: int, n: nat)
    requires Chain(m, list) && Fits(m, list, k, b, n)
    ensures forall i :: 0 <= i < |list| ==> list[i] != b && (list[i] < b <==> i <= k)
  {
    forall i | 0 <= i < |list|
      ensures list[i] != b && (list[i] < b <==> i <= k)
    {
      assert i < k ==> list[i] < list[k];
      assert k + 1 < i ==> list[k + 1] < list[i];
    }
  }

  lemma InsertLink(m: Memory, list: seq<int>, k: nat, b: int, i: nat)
    requires Chain(m, list) && b in m && Fits(m, list, k, b, m[b].size) && i <= |list|
    requires InMemory(Linked(m, list, k, b), Inserted(list, k, b))
    ensures LinkAt(Linked(m, list, k, b), Inserted(list, k, b), i)
  {
    NotListed(m, list, k, b, m[b].size);
    InsertedAt(list, k, b, i);
    if i < |list| {
      InsertedAt(list, k, b, i + 1);
    }
    if i <= k {
      assert LinkAt(m, list, i);
      assert i < k ==> list[i] < list[k];
    } else if i > k + 1 {
      assert LinkAt(m, list, i - 1);
      assert list[k] < list[i - 1];
    }
  }

  lemma InsertOrdered(m: Memory, list: seq<int>, k: nat, b: int)
    requires Chain(m, list) && b in m && Fits(m, list, k, b, m[b].size)
    requires InMemory(Linked(m, list, k, b), Inserted(list, k, b))
    ensures Ordered(Linked(m, list, k, b), Inserted(list, k, b))
  {
    var r, t := Linked(m, list, k, b), Inserted(list, k, b);
    NotListed(m, list, k, b, m[b].size);
    forall i, j | 0 <= i < j < |t|
      ensures t[i] < t[j] && t[i] + r[t[i]].size <= t[j]
    {
      InsertedAt(list, k, b, i);
      InsertedAt(list, k, b, j);
      if j == k + 1 {
        assert i < k ==> list[i] + m[list[i]].size <= list[k];
      } else if i == k + 1 {
        assert k + 1 < j - 1 ==> list[k + 1] < list[j - 1];
      }
    }
  }

  /** Entry i absorbs its touching successor. */
  ghost function Merged(m: Memory, list: seq<int>, i: nat): (r: Memory)
    requires InMemory(m, list) && i + 1 < |list|
  {
    m[list[i] := Header(m[list[i + 1]].ptr, m[list[i]].size + m[list[i + 1]].size)]
  }

  ghost function Without(list: seq<int>, i: nat): (r: seq<int>)
    requires i < |list|
    ensures |r| == |list| - 1
  {
    list[..i] + list[i + 1..]
  }

  lemma WithoutAt(list: seq<int>, i: nat, j: nat)
    requires i < |list| && j < |list| - 1
    ensures Without(list, i)[j] == list[if j < i then j else j + 1]
  {
  }

  lemma SuccWithout(list: seq<int>, i: nat, j: nat)
    requires 0 < i < |list| && j < |list| - 1
    ensures Succ(Without(list, i), j) == Succ(list, if j + 1 < i then j else j + 1)
  {
    WithoutAt(list, i, 0);
    if j + 1 < |list| - 1 {
      WithoutAt(list, i, j + 1);
    }
  }

  lemma MergeLink(m: Memory, list: seq<int>, i: nat, j: nat)
    requires Chain(m, list) && i + 1 < |list| && j < |list| - 1
    requires InMemory(Merged(m, list, i), Without(list, i + 1))
    ensures LinkAt(Merged(m, list, i), Without(list, i + 1), j)
  {
    var from, at := if j < i then j else j + 1, if j <= i then j else j + 1;
    SuccWithout(list, i + 1, j);
    WithoutAt(list, i + 1, j);
    hide Without, Succ;
    assert LinkAt(m, list, from);
    assert at < i ==> list[at] < list[i];
    assert i < at ==> list[i] < list[at];
  }

  lemma MergeOrdered(m: Memory, list: seq<int>, i: nat)
    requires Chain(m, list) && i + 1 < |list| && Touching(m, list, i)
    requires InMemory(Merged(m, list, i), Without(list, i + 1))
    ensures Ordered(Merged(m, list, i), Without(list, i + 1))
  {
    var r, t := Merged(m, list, i), Without(list, i + 1);
    forall x, y | 0 <= x < y < |t|
      ensures t[x] < t[y] && t[x] + r[t[x]].size <= t[y]
    {
      WithoutAt(list, i + 1, x);
      WithoutAt(list, i + 1, y);
      assert x < i ==> list[x] < list[i];
      assert x > i ==> list[i] < list[x + 1];
    }
  }

  lemma MergeChain(m: Memory, list: seq<int>, i: nat)
    requires Chain(m, list) && i + 1 < |list| && Touching(m, list, i) && i > 0
    ensures InMemory(Merged(m, list, i), Without(list, i + 1)) && Chain(Merged(m, list, i), Without(list, i + 1))
  {
    var r, t := Merged(m, list, i), Without(list, i + 1);
    assert InMemory(r, t);
    MergeOrdered(m, list, i);
    forall j | 0 <= j < |t|
      ensures LinkAt(r, t, j)
    {
      MergeLink(m, list, i, j);
    }
    assert list[0] < list[i];
    forall j | 1 <= j < |t|
      ensures r[t[j]].size >= 1
    {
      WithoutAt(list, i + 1, j);
    }
  }

  // ---- what the blocks cover

  ghost predicate Holds(m: Memory, a: int, u: int)
    requires a in m
  {
    a <= u < a + m[a].size
  }

  /** In terms of one unit and one witness. */
  lemma InFreeAt(m: Memory, list: seq<int>, u: int, i: nat)
    requires InMemory(m, list) && 1 <= i < |list| && Holds(m, list[i], u)
    ensures InFree(m, list, u)
  {
  }

  lemma FreeWitness(m: Memory, list: seq<int>, u: int) returns (i: nat)
    requires InMemory(m, list) && InFree(m, list, u)
    ensures 1 <= i < |list| && Holds(m, list[i], u)
  {
    i :| 1 <= i < |list| && list[i] <= u < list[i] + m[list[i]].size;
  }

  lemma LinkedSizes(m: Memory, list: seq<int>, k: nat, b: int)
    requires k < |list| && InMemory(m, list) && b in m
    ensures forall a, u :: a in m ==> a in Linked(m, list, k, b) && (Holds(Linked(m, list, k, b), a, u) <==> Holds(m, a, u))
    ensures |Inserted(list, k, b)| == |list| + 1
  {
    forall a | a in m
      ensures a in Linked(m, list, k, b) && Linked(m, list, k, b)[a].size == m[a].size
    {
      LinkedSize(m, list, k, b, a);
    }
    hide Linked;
  }

  lemma LinkedSize(m: Memory, list: seq<int>, k: nat, b: int, a: int)
    requires k < |list| && InMemory(m, list) && b in m && a in m
    ensures a in Linked(m, list, k, b) && Linked(m, list, k, b)[a].size == m[a].size
  {
  }

  lemma InsertCoversAt(m: Memory, list: seq<int>, k: nat, b: int, u: int)
    requires k < |list| && InMemory(m, list) && b in m && (k == 0 ==> list[0] == BASE)
    requires InMemory(Linked(m, list, k, b), Inserted(list, k, b))
    ensures InFree(Linked(m, list, k, b), Inserted(list, k, b), u) <==> InFree(m, list, u) || Holds(m, b, u)
  {
    hide InFree, Linked, Inserted, Holds;
    LinkedSizes(m, list, k, b);
    var r, t := Linked(m, list, k, b), Inserted(list, k, b);
    if InFree(r, t, u) {
      var i := FreeWitness(r, t, u);
      InsertedAt(list, k, b, i);
      if i != k + 1 {
        InFreeAt(m, list, u, if i <= k then i else i - 1);
      }
    }
    if InFree(m, list, u) {
      var i := FreeWitness(m, list, u);
      InsertedAt(list, k, b, if i <= k then i else i + 1);
      InFreeAt(r, t, u, if i <= k then i else i + 1);
    }
    if Holds(m, b, u) {
      InsertedAt(list, k, b, k + 1);
      InFreeAt(r, t, u, k + 1);
    }
  }

  lemma MergedSize(m: Memory, list: seq<int>, i: nat, j: nat, u: int)
    requires Chain(m, list) && 0 < i && i + 1 < |list| && Touching(m, list, i) && j < |list|
    ensures Holds(Merged(m, list, i), list[j], u) <==> Holds(m, list[j], u) || (j == i && Holds(m, list[i + 1], u))
  {
    assert j < i ==> list[j] < list[i];
    assert i < j ==> list[i] < list[j];
  }

  lemma MergeCoversAt(m: Memory, list: seq<int>, i: nat, u: int)
    requires Chain(m, list) && 0 < i && i + 1 < |list| && Touching(m, list, i)
    requires InMemory(Merged(m, list, i), Without(list, i + 1))
    ensures InFree(Merged(m, list, i), Without(list, i + 1), u) <==> InFree(m, list, u)
  {
    hide InFree, Merged, Without, Holds, Touching;
    var r, t := Merged(m, list, i), Without(list, i + 1);
    if InFree(r, t, u) {
      var j := FreeWitness(r, t, u);
      var x := if j <= i then j else j + 1;
      WithoutAt(list, i + 1, j);
      MergedSize(m, list, i, x, u);
      InFreeAt(m, list, u, if Holds(m, list[x], u) then x else i + 1);
    }
    if InFree(m, list, u) {
      var j := FreeWitness(m, list, u);
      var x := if j <= i then j else j - 1;
      WithoutAt(list, i + 1, x);
      MergedSize(m, list, i, if j == i + 1 then i else j, u);
      InFreeAt(r, t, u, x);
    }
  }

  /** The linking code of free: b goes after the list entry p. */
  function FreedMemory(m: Memory, p: int, b: int): (r: Memory)
    requires p in m && b in m && m[p].ptr in m
  {
    var q := m[p].ptr;
    var m1 := if b + m[b].size == q then m[b := Header(m[q].ptr, m[b].size + m[q].size)]
              else m[b := Header(q, m[b].size)];
    if p + m1[p].size == b then m1[p := Header(m1[b].ptr, m1[p].size + m1[b].size)]
    else m1[p := Header(b, m1[p].size)]
  }

  /** ... and what it does to the list. */
  ghost function FreedList(m: Memory, list: seq<int>, k: nat, b: int): (r: seq<int>)
    requires InMemory(m, list) && k < |list| && b in m
  {
    var t1 := Inserted(list, k, b);
    var t2 := if k + 1 < |list| && b + m[b].size == list[k + 1] then Without(t1, k + 2) else t1;
    if list[k] + m[list[k]].size == b then Without(t2, k + 1) else t2
  }

  /** First half: b linked in and merged with the block above it if they touch. */
  lemma FreedUp(m: Memory, list: seq<int>, k: nat, b: int) returns (m2: Memory, t2: seq<int>)
    requires Ring(m, list) && b in m && Fits(m, list, k, b, m[b].size)
    ensures t2 == if k + 1 < |list| && b + m[b].size == list[k + 1] then Without(Inserted(list, k, b), k + 2) else Inserted(list, k, b)
    ensures Chain(m2, t2) && k + 1 < |t2| && t2[k] == list[k] && t2[k + 1] == b
    ensures forall u :: InFree(m2, t2, u) <==> InFree(m, list, u) || b <= u < b + m[b].size
    ensures forall i :: 0 <= i < |t2| - 1 && i != k ==> !Touching(m2, t2, i)
    ensures m2[list[k]] == Header(b, m[list[k]].size)
    ensures m2 == if k + 1 < |list| && b + m[b].size == list[k + 1]
                  then m[b := Header(m[list[k + 1]].ptr, m[b].size + m[list[k + 1]].size)][list[k] := Header(b, m[list[k]].size)]
                  else m[b := Header(Succ(list, k), m[b].size)][list[k] := Header(b, m[list[k]].size)]
  {
    FreedInsert(m, list, k, b);
    var m1, t1 := Linked(m, list, k, b), Inserted(list, k, b);
    m2, t2 := m1, t1;
    if k + 1 < |list| && b + m[b].size == list[k + 1] {
      FreedMerge(m1, t1, k, b);
      m2, t2 := Merged(m1, t1, k + 1), Without(t1, k + 2);
      FreedMergeValue(m, list, k, b);
    }
  }

  lemma FreedInsert(m: Memory, list: seq<int>, k: nat, b: int)
    requires Ring(m, list) && b in m && Fits(m, list, k, b, m[b].size)
    ensures var m1, t1 := Linked(m, list, k, b), Inserted(list, k, b);
            && Chain(m1, t1) && |t1| == |list| + 1 && t1[k] == list[k] && t1[k + 1] == b
            && (k + 1 < |list| ==> t1[k + 2] == list[k + 1])
            && (forall u :: InFree(m1, t1, u) <==> InFree(m, list, u) || b <= u < b + m[b].size)
            && (forall i :: 0 <= i < |t1| - 1 && i != k && i != k + 1 ==> !Touching(m1, t1, i))
            && (k + 1 < |list| ==> (Touching(m1, t1, k + 1) <==> b + m[b].size == list[k + 1]))
            && m1[list[k]] == Header(b, m[list[k]].size)
  {
    NotListed(m, list, k, b, m[b].size);
    InsertChain(m, list, k, b);
    InsertTouching(m, list, k, b);
    InsertedAt(list, k, b, k);
    InsertedAt(list, k, b, k + 1);
    if k + 1 < |list| {
      InsertedAt(list, k, b, k + 2);
    }
    var m1, t1 := Linked(m, list, k, b), Inserted(list, k, b);
    forall u
      ensures InFree(m1, t1, u) <==> InFree(m, list, u) || b <= u < b + m[b].size
    {
      InsertCoversAt(m, list, k, b, u);
    }
  }

  lemma FreedMerge(m1: Memory, t1: seq<int>, k: nat, b: int)
    requires Chain(m1, t1) && k + 2 < |t1| && t1[k + 1] == b && Touching(m1, t1, k + 1)
    requires forall i :: 0 <= i < |t1| - 1 && i != k && i != k + 1 ==> !Touching(m1, t1, i)
    ensures var m2, t2 := Merged(m1, t1, k + 1), Without(t1, k + 2);
            && Chain(m2, t2) && k + 1 < |t2| && t2[k] == t1[k] && t2[k + 1] == b
            && (forall u :: InFree(m2, t2, u) <==> InFree(m1, t1, u))
            && (forall i :: 0 <= i < |t2| - 1 && i != k ==> !Touching(m2, t2, i))
  {
    hide Merged, Without, Ordered, LinkAt, InFree, Touching;
    MergeChain(m1, t1, k + 1);
    var m2, t2 := Merged(m1, t1, k + 1), Without(t1, k + 2);
    forall u
      ensures InFree(m2, t2, u) <==> InFree(m1, t1, u)
    {
      MergeCoversAt(m1, t1, k + 1, u);
    }
    forall i | 0 <= i < |t2| - 1 && i != k
      ensures !Touching(m2, t2, i)
    {
      MergeTouchingAt(m1, t1, k + 1, i);
    }
    WithoutAt(t1, k + 2, k);
    WithoutAt(t1, k + 2, k + 1);
  }

  lemma FreedMergeValue(m: Memory, list: seq<int>, k: nat, b: int)
    requires Ring(m, list) && b in m && Fits(m, list, k, b, m[b].size) && k + 1 < |list|
    requires InMemory(Linked(m, list, k, b), Inserted(list, k, b))
    ensures Merged(Linked(m, list, k, b), Inserted(list, k, b), k + 1)
         == m[b := Header(m[list[k + 1]].ptr, m[b].size + m[list[k + 1]].size)][list[k] := Header(b, m[list[k]].size)]
  {
    NotListed(m, list, k, b, m[b].size);
    InsertedAt(list, k, b, k + 1);
    InsertedAt(list, k, b, k + 2);
    assert list[k] < list[k + 1];
  }

  lemma InsertTouching(m: Memory, list: seq<int>, k: nat, b: int)
    requires Ring(m, list) && b in m && Fits(m, list, k, b, m[b].size)
    requires InMemory(Linked(m, list, k, b), Inserted(list, k, b))
    ensures forall i :: 0 <= i < |list| && i != k && i != k + 1 ==> !Touching(Linked(m, list, k, b), Inserted(list, k, b), i)
    ensures k + 1 < |list| && b + m[b].size != list[k + 1] ==> !Touching(Linked(m, list, k, b), Inserted(list, k, b), k + 1)
  {
    NotListed(m, list, k, b, m[b].size);
    forall i | 0 <= i < |list| && i != k
      ensures i != k + 1 || b + m[b].size != list[k + 1] ==> !Touching(Linked(m, list, k, b), Inserted(list, k, b), i)
    {
      InsertedAt(list, k, b, i);
      InsertedAt(list, k, b, i + 1);
      if i < k {
        assert !Touching(m, list, i) && list[i] < list[k];
      } else if i > k + 1 {
        assert !Touching(m, list, i - 1) && list[k] < list[i - 1];
      }
    }
  }

  lemma MergeTouchingAt(m: Memory, list: seq<int>, i: nat, j: nat)
    requires Chain(m, list) && 0 < i && i + 1 < |list| && Touching(m, list, i)
    requires InMemory(Merged(m, list, i), Without(list, i + 1)) && j < |list| - 2
    requires !Touching(m, list, if j < i then j else j + 1)
    ensures !Touching(Merged(m, list, i), Without(list, i + 1), j)
  {
    WithoutAt(list, i + 1, j);
    WithoutAt(list, i + 1, j + 1);
    assert j < i ==> list[j] < list[i];
    assert j > i ==> list[i] < list[j + 1];
  }

  /** Some free block has at least n units. */
  ghost predicate HasFit(m: Memory, list: seq<int>, n: nat)
    requires InMemory(m, list)
  {
    exists i :: 1 <= i < |list| && m[list[i]].size >= n
  }

  /** free's linking code keeps a ring without adjacent free blocks, and covers
      what the list and the block covered before. */
  lemma FreedRing(m: Memory, list: seq<int>, k: nat, b: int)
    requires Ring(m, list) && b in m && Fits(m, list, k, b, m[b].size) && Succ(list, k) in m && m[list[k]].ptr in m
    ensures var r, t := FreedMemory(m, list[k], b), FreedList(m, list, k, b);
            && Ring(r, t) && list[k] in t && HasFit(r, t, m[b].size)
            && forall u :: InFree(r, t, u) <==> InFree(m, list, u) || b <= u < b + m[b].size
  {
    hide FreedMemory, FreedList, Merged, Without, Ordered, LinkAt, InFree;
    var m2, t2 := FreedUp(m, list, k, b);
    FreedIs(m, list, k, b, m2, t2);
    if list[k] + m[list[k]].size == b {
      FreedDown(m2, t2, k);
      FitMore(Merged(m2, t2, k), Without(t2, k + 1), m2[b].size, m[b].size);
    } else {
      assert HasFit(m2, t2, m[b].size) by { assert m2[t2[k + 1]].size >= m[b].size; }
    }
  }

  lemma FreedIs(m: Memory, list: seq<int>, k: nat, b: int, m2: Memory, t2: seq<int>)
    requires Ring(m, list) && b in m && Fits(m, list, k, b, m[b].size) && m[list[k]].ptr in m
    requires t2 == if k + 1 < |list| && b + m[b].size == list[k + 1] then Without(Inserted(list, k, b), k + 2) else Inserted(list, k, b)
    requires InMemory(m2, t2) && k + 1 < |t2| && t2[k] == list[k] && t2[k + 1] == b
    requires m2 == if k + 1 < |list| && b + m[b].size == list[k + 1]
                   then m[b := Header(m[list[k + 1]].ptr, m[b].size + m[list[k + 1]].size)][list[k] := Header(b, m[list[k]].size)]
                   else m[b := Header(Succ(list, k), m[b].size)][list[k] := Header(b, m[list[k]].size)]
    ensures m2[b].size >= m[b].size && m2[list[k]].size == m[list[k]].size
    ensures var down := list[k] + m[list[k]].size == b;
            && (down ==> k > 0)
            && FreedMemory(m, list[k], b) == (if down then Merged(m2, t2, k) else m2)
            && FreedList(m, list, k, b) == (if down then Without(t2, k + 1) else t2)
  {
    hide Without, Inserted;
    assert LinkAt(m, list, k);
    var q := Succ(list, k);
    assert q == BASE || (k + 1 < |list| && q == list[k + 1]);
    assert m2[b] == if b + m[b].size == q then Header(m[q].ptr, m[b].size + m[q].size) else Header(q, m[b].size);
  }

  /** Second half: the block below b absorbs it. */
  lemma FreedDown(m2: Memory, t2: seq<int>, k: nat)
    requires Chain(m2, t2) && 0 < k && k + 1 < |t2| && Touching(m2, t2, k)
    requires forall i :: 0 <= i < |t2| - 1 && i != k ==> !Touching(m2, t2, i)
    ensures var r, t := Merged(m2, t2, k), Without(t2, k + 1);
            && Ring(r, t) && t2[k] in t && HasFit(r, t, m2[t2[k + 1]].size)
            && forall u :: InFree(r, t, u) <==> InFree(m2, t2, u)
  {
    hide Without, Ordered, LinkAt, InFree, Touching;
    var r, t := Merged(m2, t2, k), Without(t2, k + 1);
    MergeChain(m2, t2, k);
    forall u
      ensures InFree(r, t, u) <==> InFree(m2, t2, u)
    {
      MergeCoversAt(m2, t2, k, u);
    }
    forall i | 0 <= i < |t| - 1
      ensures !Touching(r, t, i)
    {
      MergeTouchingAt(m2, t2, k, i);
    }
    WithoutAt(t2, k + 1, k);
    assert t[k] == t2[k];
    assert r[t[k]].size >= m2[t2[k + 1]].size;
  }

  // ---- whole heaps

  /** Freeing a block whose units are in no free block and no other block. */
  lemma FreedHeap(m: Memory, list: seq<int>, k: nat, b: int, alloc: map<int, nat>, obtained: iset<int>)
    requires Ring(m, list) && b in m && Fits(m, list, k, b, m[b].size)
    requires InUseOk(m, list, alloc) && b !in alloc && m[list[k]].ptr in m
    requires forall a, u :: a in alloc && a <= u < a + alloc[a] ==> !Holds(m, b, u)
    requires forall u :: u in obtained <==> InFree(m, list, u) || Holds(m, b, u) || InAlloc(alloc, u)
    ensures HeapOk(FreedMemory(m, list[k], b), FreedList(m, list, k, b), alloc, obtained)
    ensures list[k] in FreedList(m, list, k, b) && HasFit(FreedMemory(m, list[k], b), FreedList(m, list, k, b), m[b].size)
  {
    assert LinkAt(m, list, k);
    FreedRing(m, list, k, b);
    var r, t := FreedMemory(m, list[k], b), FreedList(m, list, k, b);
    forall a | a in alloc
      ensures a in r && r[a] == m[a]
    {
      if a == list[k] {
        ListedNotAlloc(m, list, alloc, k);
      }
    }
    forall a, u | a in alloc && a <= u < a + alloc[a]
      ensures !InFree(r, t, u)
    {
      assert !InFree(m, list, u) && !Holds(m, b, u);
    }
  }

  lemma ListedNotAlloc(m: Memory, list: seq<int>, alloc: map<int, nat>, k: nat)
    requires Chain(m, list) && InUseOk(m, list, alloc) && k < |list|
    ensures list[k] !in alloc
  {
    if k > 0 && list[k] in alloc {
      InFreeAt(m, list, list[k], k);
    }
  }

  /** The block to be freed fits between its neighbours in the list. */
  lemma SpotFits(m: Memory, list: seq<int>, alloc: map<int, nat>, k: nat, b: int)
    requires Chain(m, list) && InUseOk(m, list, alloc) && b in alloc && GoesAfter(list, k, b)
    ensures Fits(m, list, k, b, m[b].size)
  {
    assert m[b].size == alloc[b] >= 1;
    if list[k] + m[list[k]].size > b {
      assert k > 0;
      InFreeAt(m, list, b, k);
    }
    if k + 1 < |list| && b + m[b].size > list[k + 1] {
      InFreeAt(m, list, list[k + 1], k + 1);
    }
  }

  /** Taking the whole entry j > 0 off the list. */
  ghost function Unlinked(m: Memory, list: seq<int>, j: nat): (r: Memory)
    requires InMemory(m, list) && 0 < j < |list|
  {
    m[list[j - 1] := Header(m[list[j]].ptr, m[list[j - 1]].size)]
  }

  lemma UnlinkLink(m: Memory, list: seq<int>, j: nat, i: nat)
    requires Chain(m, list) && 0 < j < |list| && i < |list| - 1
    requires InMemory(Unlinked(m, list, j), Without(list, j))
    ensures LinkAt(Unlinked(m, list, j), Without(list, j), i)
  {
    WithoutAt(list, j, i);
    if i + 1 < |list| - 1 {
      WithoutAt(list, j, i + 1);
    }
    assert LinkAt(m, list, if i < j - 1 then i else i + 1);
    assert i < j - 1 ==> list[i] < list[j - 1];
    assert i > j - 1 ==> list[j - 1] < list[i + 1];
  }

  lemma UnlinkGaps(m: Memory, list: seq<int>, j: nat)
    requires Ring(m, list) && 0 < j < |list|
    requires InMemory(Unlinked(m, list, j), Without(list, j))
    ensures Ordered(Unlinked(m, list, j), Without(list, j))
    ensures forall i :: 0 <= i < |list| - 2 ==> !Touching(Unlinked(m, list, j), Without(list, j), i)
  {
    var r, t := Unlinked(m, list, j), Without(list, j);
    forall x, y | 0 <= x < y < |t|
      ensures t[x] < t[y] && t[x] + r[t[x]].size <= t[y]
    {
      WithoutAt(list, j, x);
      WithoutAt(list, j, y);
    }
    forall i | 0 <= i < |t| - 1
      ensures !Touching(r, t, i)
    {
      WithoutAt(list, j, i);
      WithoutAt(list, j, i + 1);
      assert !Touching(m, list, if i < j then i else i + 1);
    }
  }

  lemma UnlinkRing(m: Memory, list: seq<int>, j: nat)
    requires Ring(m, list) && 0 < j < |list|
    ensures Ring(Unlinked(m, list, j), Without(list, j))
  {
    var r, t := Unlinked(m, list, j), Without(list, j);
    assert InMemory(r, t);
    UnlinkGaps(m, list, j);
    forall i | 0 <= i < |t|
      ensures LinkAt(r, t, i)
    {
      UnlinkLink(m, list, j, i);
    }
    forall i | 1 <= i < |t|
      ensures r[t[i]].size >= 1
    {
      WithoutAt(list, j, i);
    }
  }

  lemma UnlinkCovers(m: Memory, list: seq<int>, j: nat, u: int)
    requires Ring(m, list) && 0 < j < |list|
    requires InMemory(Unlinked(m, list, j), Without(list, j))
    ensures InFree(m, list, u) <==> InFree(Unlinked(m, list, j), Without(list, j), u) || Holds(m, list[j], u)
    ensures !(InFree(Unlinked(m, list, j), Without(list, j), u) && Holds(m, list[j], u))
  {
    var r, t := Unlinked(m, list, j), Without(list, j);
    if InFree(m, list, u) {
      var i := FreeWitness(m, list, u);
      if i != j {
        WithoutAt(list, j, if i < j then i else i - 1);
        InFreeAt(r, t, u, if i < j then i else i - 1);
      }
    }
    if InFree(r, t, u) {
      var i := FreeWitness(r, t, u);
      WithoutAt(list, j, i);
      InFreeAt(m, list, u, if i < j then i else i + 1);
      assert list[if i < j then i else i + 1] != list[j];
    }
    if Holds(m, list[j], u) {
      InFreeAt(m, list, u, j);
    }
  }

  /** Handing out a whole free block. */
  lemma TakeWhole(m: Memory, list: seq<int>, alloc: map<int, nat>, obtained: iset<int>, j: nat)
    requires HeapOk(m, list, alloc, obtained) && 0 < j < |list|
    ensures HeapOk(Unlinked(m, list, j), Without(list, j), alloc[list[j] := m[list[j]].size], obtained)
    ensures list[j] !in alloc
  {
    UnlinkRing(m, list, j);
    ListedNotAlloc(m, list, alloc, j);
    ListedNotAlloc(m, list, alloc, j - 1);
    forall u
      ensures InFree(m, list, u) <==> InFree(Unlinked(m, list, j), Without(list, j), u) || Holds(m, list[j], u)
      ensures !(InFree(Unlinked(m, list, j), Without(list, j), u) && Holds(m, list[j], u))
    {
      UnlinkCovers(m, list, j, u);
    }
    TookBlock(m, list, Unlinked(m, list, j), Without(list, j), alloc, obtained, list[j], m[list[j]].size);
  }

  /** A block cut from the free units is apart from all blocks in use. */
  lemma TookBlock(m: Memory, list: seq<int>, r: Memory, t: seq<int>, alloc: map<int, nat>, obtained: iset<int>, b: int, n: nat)
    requires HeapOk(m, list, alloc, obtained) && Ring(r, t) && n >= 1 && b > BASE && b !in alloc
    requires b in r && r[b].size == n
    requires forall a :: a in alloc ==> a in r && r[a].size == m[a].size
    requires forall u :: InFree(m, list, u) <==> InFree(r, t, u) || b <= u < b + n
    requires forall u :: !(InFree(r, t, u) && b <= u < b + n)
    ensures HeapOk(r, t, alloc[b := n], obtained)
  {
    var al := alloc[b := n];
    forall a | a in alloc
      ensures a + alloc[a] <= b || b + n <= a
    {
      assert InFree(m, list, b);
      assert InFree(m, list, a) || !(b <= a < b + n);
    }
    forall a, u | a in al && a <= u < a + al[a]
      ensures !InFree(r, t, u)
    {
      assert a != b ==> !InFree(m, list, u);
    }
    forall u
      ensures InAlloc(al, u) <==> InAlloc(alloc, u) || b <= u < b + n
    {
      if InAlloc(alloc, u) {
        var a :| a in alloc && a <= u < a + alloc[a];
        assert a in al && a <= u < a + al[a];
      }
      if b <= u < b + n {
        assert b in al && b <= u < b + al[b];
      }
    }
  }

  /** Handing out the upper n units of a larger free block. */
  function Split(m: Memory, p: int, n: nat): (r: Memory)
    requires p in m && m[p].size > n
  {
    var q := p + m[p].size - n;
    m[p := Header(m[p].ptr, m[p].size - n)][q := Header(if q in m then m[q].ptr else 0, n)]
  }

  lemma SplitRing(m: Memory, list: seq<int>, j: nat, n: nat)
    requires Ring(m, list) && 0 < j < |list| && m[list[j]].size > n >= 1
    ensures Ring(Split(m, list[j], n), list)
    ensures forall i :: 0 <= i < |list| ==> list[i] != list[j] + m[list[j]].size - n
    ensures forall u :: InFree(m, list, u) <==>
              InFree(Split(m, list[j], n), list, u) || list[j] + m[list[j]].size - n <= u < list[j] + m[list[j]].size
    ensures forall u :: !(InFree(Split(m, list[j], n), list, u) && list[j] + m[list[j]].size - n <= u < list[j] + m[list[j]].size)
  {
    var p := list[j];
    var q := p + m[p].size - n;
    var r := Split(m, p, n);
    forall i | 0 <= i < |list|
      ensures list[i] != q && (i != j ==> list[i] != p)
    {
      assert i < j ==> list[i] < p;
      assert j < i ==> p + m[p].size <= list[i];
    }
    assert InMemory(r, list);
    forall i | 0 <= i < |list|
      ensures LinkAt(r, list, i)
    {
      assert LinkAt(m, list, i);
    }
    forall i | 0 <= i < |list| - 1
      ensures !Touching(r, list, i)
    {
      assert !Touching(m, list, i);
    }
    assert Ordered(r, list);
    forall u
      ensures InFree(m, list, u) <==> InFree(r, list, u) || q <= u < q + n
      ensures !(InFree(r, list, u) && q <= u < q + n)
    {
      SplitCovers(m, list, j, n, u);
    }
  }

  lemma SplitCovers(m: Memory, list: seq<int>, j: nat, n: nat, u: int)
    requires Ring(m, list) && 0 < j < |list| && m[list[j]].size > n >= 1
    requires InMemory(Split(m, list[j], n), list)
    requires forall i :: 0 <= i < |list| ==> list[i] != list[j] + m[list[j]].size - n && (i != j ==> list[i] != list[j])
    ensures var q := list[j] + m[list[j]].size - n;
            && (InFree(m, list, u) <==> InFree(Split(m, list[j], n), list, u) || q <= u < q + n)
            && !(InFree(Split(m, list[j], n), list, u) && q <= u < q + n)
  {
    var q := list[j] + m[list[j]].size - n;
    var r := Split(m, list[j], n);
    if InFree(m, list, u) {
      var i := FreeWitness(m, list, u);
      if !(q <= u < q + n) {
        InFreeAt(r, list, u, i);
      }
    }
    if InFree(r, list, u) {
      var i := FreeWitness(r, list, u);
      InFreeAt(m, list, u, i);
      assert i < j ==> list[i] + m[list[i]].size <= list[j];
      assert i > j ==> list[j] + m[list[j]].size <= list[i];
    }
    if q <= u < q + n {
      InFreeAt(m, list, u, j);
    }
  }

  lemma TakePart(m: Memory, list: seq<int>, alloc: map<int, nat>, obtained: iset<int>, j: nat, n: nat)
    requires HeapOk(m, list, alloc, obtained) && 0 < j < |list| && m[list[j]].size > n >= 1
    ensures var q := list[j] + m[list[j]].size - n;
            q !in alloc && HeapOk(Split(m, list[j], n), list, alloc[q := n], obtained)
  {
    var q := list[j] + m[list[j]].size - n;
    SplitRing(m, list, j, n);
    ListedNotAlloc(m, list, alloc, j);
    assert q !in alloc by {
      InFreeAt(m, list, q, j);
    }
    assert q > BASE by { assert list[0] < list[j]; }
    TookBlock(m, list, Split(m, list[j], n), list, alloc, obtained, q, n);
  }

  // ---- malloc's request in units

  /** The unit count that malloc computes, in 32-bit arithmetic. */
  function Units(nbytes: nat): (n: nat)
    requires nbytes < UINT_LIMIT
    ensures n >= 1
  {
    ((nbytes + UNIT_BYTES - 1) % UINT_LIMIT) / UNIT_BYTES + 1
  }

  /** The block has room for the request, besides its header, exactly when the
      addition does not wrap around. */
  lemma RoomExact(nbytes: nat)
    requires nbytes < UINT_LIMIT
    ensures (Units(nbytes) - 1) * UNIT_BYTES >= nbytes <==> nbytes <= UINT_LIMIT - UNIT_BYTES
    ensures nbytes <= UINT_LIMIT - UNIT_BYTES ==> (Units(nbytes) - 1) * UNIT_BYTES < nbytes + UNIT_BYTES
  {
  }

  /** The argument sbrk receives for nu units: a 32-bit product read as signed. */
  function SbrkBytes(nu: nat): (n: int)
  {
    var n := (nu * UNIT_BYTES) % UINT_LIMIT;
    if n < UINT_LIMIT / 2 then n else n - UINT_LIMIT
  }

  const MAX_UNITS := UINT_LIMIT / 2 / UNIT_BYTES

  /** It is the size asked for exactly when the request is below MAX_UNITS. */
  lemma SbrkExact(nu: nat)
    ensures SbrkBytes(nu) == nu * UNIT_BYTES <==> nu < MAX_UNITS
  {
  }

  /** The 32-bit break, in units. */
  const BREAK_UNITS := 0x2000_0000

  /** Whatever argument it comes out as, adding it to the 32-bit break has the effect
      of adding the size. */
  lemma SbrkAdds(brk: int, nu: nat)
    requires 0 <= brk < BREAK_UNITS
    ensures SbrkBytes(nu) % UNIT_BYTES == 0
    ensures (brk + SbrkBytes(nu) / UNIT_BYTES) % BREAK_UNITS == (brk + nu) % BREAK_UNITS
  {
    var q, r := (nu * UNIT_BYTES) / UINT_LIMIT, (nu * UNIT_BYTES) % UINT_LIMIT;
    assert nu * 8 == 0x1_0000_0000 * q + r;
    var k := nu - 0x2000_0000 * q;
    assert r == 8 * k;
    ModShift(brk + k, q);
    if r < UINT_LIMIT / 2 {
      assert SbrkBytes(nu) == 8 * k;
    } else {
      assert SbrkBytes(nu) == 8 * (k - 0x2000_0000);
      ModShift(brk + k - 0x2000_0000, 1);
    }
  }

  lemma ModShift(a: int, q: int)
    ensures (a + 0x2000_0000 * q) % BREAK_UNITS == a % BREAK_UNITS
  {
    var d, m := a / 0x2000_0000, a % 0x2000_0000;
    assert a + 0x2000_0000 * q == 0x2000_0000 * (d + q) + m;
    ModIs(a + 0x2000_0000 * q, d + q, m);
  }

  lemma ModIs(x: int, d: int, m: int)
    requires x == 0x2000_0000 * d + m && 0 <= m < 0x2000_0000
    ensures x % BREAK_UNITS == m
  {
    var e, n := x / 0x2000_0000, x % 0x2000_0000;
    assert 0x2000_0000 * (d - e) == n - m;
  }

  lemma WrapsBelow(h: int, n: nat)
    requires 0 <= h
    ensures h + n < BREAK_UNITS ==> (h + n) % BREAK_UNITS == h + n
    ensures h + n >= BREAK_UNITS ==> (h + n) % BREAK_UNITS <= h + n - BREAK_UNITS
  {
  }

  /** What morecore asks for. */
  function CoreUnits(nu: nat): (n: nat)
    ensures n >= nu && n >= MINCORE && (n == nu || n == MINCORE)
  {
    if nu < MINCORE then MINCORE else nu
  }

  class Arena {
    var m: Memory
    var freep: int             // 0 before the first call of malloc
    var brk: int               // in units, modulo 2^32 bytes
    ghost var list: seq<int>
    ghost var alloc: map<int, nat>
    ghost var obtained: iset<int>   // what morecore took sbrk to have given

    /** The list and the blocks in use are in order. */
    ghost predicate Sound()
      reads this
    {
      if freep == 0 then list == [] && alloc == map[] && obtained == iset{}
      else HeapOk(m, list, alloc, obtained) && freep in list
    }

    /** ... and the units they are made of are the process's. */
    ghost predicate Valid()
      reads this
    {
      && Sound() && BASE < brk < BREAK_UNITS
      && (forall u :: u in obtained ==> BASE < u < brk)
    }

    constructor ()
      ensures Valid() && alloc == map[] && obtained == iset{} && freep == 0 && brk == BASE + 1
    {
      m, freep, brk, list, alloc, obtained := map[], 0, BASE + 1, [], map[], iset{};
    }

    /** The search loop of free: the entry after which b belongs. It ends after
        at most one round, wherever freep points. */
    method FindSpot(b: int) returns (p: int, ghost k: nat)
      requires freep != 0 && Ring(m, list) && freep in list && b > BASE && b !in list
      ensures GoesAfter(list, k, b) && p == list[k]
    {
      ghost var spot := Spot(m, list, b);
      ghost var i: nat :| i < |list| && list[i] == freep;
      p := freep;
      while true
        invariant i < |list| && p == list[i]
        decreases if i <= spot then spot - i else |list| + spot - i
      {
        assert LinkAt(m, list, i);
        SpotOnly(m, list, spot, b, i);
        var q := m[p].ptr;
        if b > p && b < q {
          break;
        }
        if p >= q && (b > p || b < q) {
          break;
        }
        p := q;
        i := if i + 1 < |list| then i + 1 else 0;
      }
      k := i;
    }

    /** The writes of free once the place is known. */
    method LinkIn(p: int, b: int)
      requires p in m && b in m && m[p].ptr in m && p != b
      modifies this`m
      ensures m == FreedMemory(old(m), p, b)
    {
      var q := m[p].ptr;
      if b + m[b].size == q {
        m := m[b := Header(m[q].ptr, m[b].size + m[q].size)];
      } else {
        m := m[b := Header(q, m[b].size)];
      }
      if p + m[p].size == b {
        m := m[p := Header(m[b].ptr, m[p].size + m[b].size)];
      } else {
        m := m[p := Header(b, m[p].size)];
      }
    }

    /** free: give back the block whose header is at b. */
    method Free(b: int)
      requires Sound() && b in alloc
      modifies this`m, this`freep, this`list, this`alloc
      ensures Sound() && freep != 0 && alloc == old(alloc) - {b}
      ensures HasFit(m, list, old(alloc)[b])
    {
      hide FreedMemory, FreedList, InUseOk, Conserved, HasFit, Chain, Touching;
      NotInList(m, list, alloc, b);
      var p;
      ghost var k;
      p, k := FindSpot(b);
      FreeStep(m, list, alloc, obtained, k, b);
      list := FreedList(m, list, k, b);
      LinkIn(p, b);
      freep := p;
      alloc := alloc - {b};
    }

    /** sbrk: fails (this kernel's never does), or returns the break and adds to it,
        in 32-bit arithmetic and without any test. */
    method Sbrk(bytes: int) returns (ok: bool, a: int)
      requires 0 <= brk < BREAK_UNITS && bytes % UNIT_BYTES == 0
      modifies this`brk
      ensures ok ==> a == old(brk) && brk == (old(brk) + bytes / UNIT_BYTES) % BREAK_UNITS
      ensures !ok ==> brk == old(brk)
      ensures old(Valid()) && 0 <= bytes && old(brk) + bytes / UNIT_BYTES < BREAK_UNITS ==> Valid()
    {
      ok := *;
      a := brk;
      if ok {
        brk := (brk + bytes / UNIT_BYTES) % BREAK_UNITS;
      }
    }

    /** morecore: at least MINCORE units, put on the free list by free itself. The
        process has them exactly when the break does not wrap around. */
    method Morecore(nu: nat) returns (ok: bool, ghost h: int, ghost n: nat)
      requires Valid() && freep != 0 && nu >= 1
      modifies this
      ensures Sound() && freep != 0 && alloc == old(alloc)
      ensures ok ==> h == old(brk) && n == CoreUnits(nu) && brk == (h + n) % BREAK_UNITS
      ensures ok ==> (Valid() <==> h + n < BREAK_UNITS)
      ensures !ok ==> Valid() && obtained == old(obtained) && list == old(list) && m == old(m) && freep == old(freep) && brk == old(brk)
      ensures ok ==> HasFit(m, list, nu) && obtained == old(obtained) + Span(h, n) && old(obtained) !! Span(h, n)
    {
      hide InUseOk, Conserved, Chain, Touching, HasFit;
      HeapParts(m, list, alloc, obtained);
      var size := CoreUnits(nu);
      var hp;
      SbrkAdds(brk, size);
      ok, hp := Sbrk(SbrkBytes(size));
      h, n := hp, size;
      if !ok {
        return;
      }
      FreshBlock(m, list, alloc, obtained, hp, size);
      assert hp + size - 1 in Span(hp, size);
      m := m[hp := Header(if hp in m then m[hp].ptr else 0, size)];
      alloc := alloc[hp := size];
      obtained := obtained + Span(hp, size);
      Free(hp);
      assert alloc == old(alloc);
      HeapParts(m, list, alloc, obtained);
      FitMore(m, list, size, nu);
      WrapsBelow(hp, size);
    }

    /** The search loop of malloc: one round of the list from the entry after
        freep, stopping at the first block with enough units. */
    method Search(nunits: nat) returns (found: bool, prevp: int, p: int, ghost j: nat)
      requires freep != 0 && Ring(m, list) && freep in list && nunits >= 1
      ensures found ==> 0 < j < |list| && p == list[j] && prevp == list[j - 1] && m[p].size >= nunits
      ensures found <==> HasFit(m, list, nunits)
    {
      hide Touching, Ordered, After, Before, Steps;
      ghost var e: nat :| e < |list| && list[e] == freep;
      ghost var seen := 0;
      prevp := freep;
      LinkIs(m, list, e);
      StepsFirst(list, e);
      p := m[prevp].ptr;
      j := After(list, e);
      found := false;
      while true
        invariant j < |list| && p == list[j] && prevp == list[Before(list, j)]
        invariant seen == Steps(list, e, j) && seen < |list|
        invariant PassedOver(m, list, e, seen, nunits)
        decreases |list| - seen
      {
        if m[p].size >= nunits {
          found := true;
          BeforeIs(list, j);
          return;
        }
        PassOne(m, list, e, j, nunits);
        if p == freep {
          AllPassed(m, list, e, j, nunits);
          return;
        }
        LinkIs(m, list, j);
        StepsNext(list, e, j);
        prevp := p;
        p := m[p].ptr;
        j := After(list, j);
        seen := seen + 1;
      }
    }

    /** The tail of malloc: unlink a block that fits exactly, otherwise cut the
        request off the end of a larger one. */
    method Take(nunits: nat, prevp: int, p: int, ghost j: nat) returns (h: int)
      requires Sound() && freep != 0 && nunits >= 1
      requires 0 < j < |list| && p == list[j] && prevp == list[j - 1] && m[p].size >= nunits
      modifies this`m, this`freep, this`list, this`alloc
      ensures Sound() && freep == prevp != 0 && h !in old(alloc) && alloc == old(alloc)[h := nunits]
      ensures BASE <= p <= h && h + nunits == p + old(m[p].size)
    {
      hide InUseOk, Conserved, Chain, Touching, Split, Unlinked, Without;
      HeapParts(m, list, alloc, obtained);
      if m[p].size == nunits {
        UnlinkedIs(m, list, j);
        TakeWhole(m, list, alloc, obtained, j);
        m := m[prevp := Header(m[p].ptr, m[prevp].size)];
        list := Without(list, j);
        h := p;
      } else {
        SplitIs(m, p, nunits);
        TakePart(m, list, alloc, obtained, j, nunits);
        var rest := m[p].size - nunits;
        m := m[p := Header(m[p].ptr, rest)];
        h := p + rest;
        m := m[h := Header(if h in m then m[h].ptr else 0, nunits)];
      }
      alloc := alloc[h := nunits];
      freep := prevp;
    }

    /** malloc: null, or the address after the header of a block that was free.
        Null only when sbrk fails. The heap stays within the process exactly when it
        did not grow or the break did not wrap around. */
    method Malloc(nbytes: nat) returns (ap: int, ghost grew: bool)
      requires Valid() && nbytes < UINT_LIMIT
      modifies this
      ensures Sound() && freep != 0
      ensures Valid() <==> !grew || old(brk) + CoreUnits(Units(nbytes)) < BREAK_UNITS
      ensures ap == 0 ==> alloc == old(alloc) && !grew
      ensures ap != 0 ==> ap - 1 !in old(alloc) && alloc == old(alloc)[ap - 1 := Units(nbytes)]
      ensures ap == 0 || grew ==> old(freep) == 0 || !HasFit(old(m), old(list), Units(nbytes))
      ensures ap != 0 && !grew ==> old(freep) != 0 && HasFit(old(m), old(list), Units(nbytes))
      ensures !grew ==> obtained == old(obtained) && brk == old(brk)
      ensures grew ==> obtained == old(obtained) + Span(old(brk), CoreUnits(Units(nbytes)))
                       && brk == (old(brk) + CoreUnits(Units(nbytes))) % BREAK_UNITS
    {
      hide InUseOk, Conserved, Chain, Touching, HasFit;
      var nunits := Units(nbytes);
      grew := false;
      if freep == 0 {
        StartOk(m);
        m := m[BASE := Header(BASE, 0)];
        freep := BASE;
        list := [BASE];
      }
      var found, prevp, p;
      ghost var j;
      found, prevp, p, j := Search(nunits);
      if !found {
        var ok;
        ghost var h, n;
        ok, h, n := Morecore(nunits);
        if !ok {
          return 0, false;
        }
        grew := true;
        found, prevp, p, j := Search(nunits);
      }
      var h := Take(nunits, prevp, p, j);
      ap := h + 1;
    }
  }

  /** Positions around the ring, and how far i is beyond the entry after e. */
  ghost function After(list: seq<int>, i: nat): (j: nat)
    requires i < |list|
  {
    if i + 1 < |list| then i + 1 else 0
  }

  ghost function Before(list: seq<int>, i: nat): (j: nat)
    requires i < |list|
    ensures j < |list|
  {
    if i > 0 then i - 1 else |list| - 1
  }

  ghost function Steps(list: seq<int>, e: nat, i: nat): (k: nat)
    requires e < |list| && i < |list|
  {
    if i > e then i - e - 1 else i + |list| - e - 1
  }

  lemma LinkIs(m: Memory, list: seq<int>, i: nat)
    requires Chain(m, list) && i < |list|
    ensures After(list, i) < |list| && m[list[i]].ptr == list[After(list, i)]
  {
    assert LinkAt(m, list, i);
  }

  lemma BeforeIs(list: seq<int>, j: nat)
    requires 0 < j < |list|
    ensures Before(list, j) == j - 1
  {
  }

  lemma StepsFirst(list: seq<int>, e: nat)
    requires e < |list|
    ensures After(list, e) < |list| && Before(list, After(list, e)) == e && Steps(list, e, After(list, e)) == 0
  {
  }

  lemma StepsNext(list: seq<int>, e: nat, j: nat)
    requires e < |list| && j < |list| && j != e
    ensures After(list, j) < |list| && Before(list, After(list, j)) == j
    ensures Steps(list, e, After(list, j)) == Steps(list, e, j) + 1 < |list|
  {
  }

  /** The first n entries beyond e are all too small. */
  ghost predicate PassedOver(m: Memory, list: seq<int>, e: nat, n: nat, nunits: nat)
    requires InMemory(m, list) && e < |list|
  {
    forall i :: 0 <= i < |list| && Steps(list, e, i) < n ==> m[list[i]].size < nunits
  }

  lemma PassOne(m: Memory, list: seq<int>, e: nat, j: nat, nunits: nat)
    requires InMemory(m, list) && e < |list| && j < |list| && m[list[j]].size < nunits
    requires PassedOver(m, list, e, Steps(list, e, j), nunits)
    ensures PassedOver(m, list, e, Steps(list, e, j) + 1, nunits)
  {
  }

  lemma AllPassed(m: Memory, list: seq<int>, e: nat, j: nat, nunits: nat)
    requires Ring(m, list) && e < |list| && j < |list| && list[j] == list[e]
    requires PassedOver(m, list, e, Steps(list, e, j) + 1, nunits)
    ensures !HasFit(m, list, nunits)
  {
    assert j == e;
    assert forall i :: 0 <= i < |list| ==> Steps(list, e, i) < |list|;
  }

  ghost predicate Within(u: int, h: int, n: nat) {
    h <= u < h + n
  }

  /** The n units from h on. */
  ghost function Span(h: int, n: nat): (s: iset<int>) {
    iset u | Within(u, h, n)
  }

  lemma HeapParts(m: Memory, list: seq<int>, alloc: map<int, nat>, obtained: iset<int>)
    requires HeapOk(m, list, alloc, obtained)
    ensures InMemory(m, list) && Ring(m, list) && forall i :: 0 <= i < |list| ==> list[i] >= BASE
  {
  }

  lemma UnlinkedIs(m: Memory, list: seq<int>, j: nat)
    requires InMemory(m, list) && 0 < j < |list|
    ensures Unlinked(m, list, j) == m[list[j - 1] := Header(m[list[j]].ptr, m[list[j - 1]].size)]
    ensures list[j - 1] in Without(list, j)
  {
    WithoutAt(list, j, j - 1);
  }

  lemma SplitIs(m: Memory, p: int, n: nat)
    requires p in m && m[p].size > n >= 1
    ensures var rest := m[p].size - n;
            var m1 := m[p := Header(m[p].ptr, rest)];
            var h := p + rest;
            Split(m, p, n) == m1[h := Header(if h in m1 then m1[h].ptr else 0, n)]
  {
  }

  /** The anchor alone is a sound heap with nothing in it. */
  lemma StartOk(m: Memory)
    ensures HeapOk(m[BASE := Header(BASE, 0)], [BASE], map[], iset{})
  {
    var r, list := m[BASE := Header(BASE, 0)], [BASE];
    assert InMemory(r, list);
    assert LinkAt(r, list, 0);
  }

  /** Everything free does to a sound heap leaves it sound, without the block. */
  lemma FreeStep(m: Memory, list: seq<int>, alloc: map<int, nat>, obtained: iset<int>, k: nat, b: int)
    requires HeapOk(m, list, alloc, obtained) && b in alloc && b !in list && GoesAfter(list, k, b)
    ensures InMemory(m, list) && list[k] >= BASE && b in m && m[list[k]].ptr in m
    ensures var r, t := FreedMemory(m, list[k], b), FreedList(m, list, k, b);
            HeapOk(r, t, alloc - {b}, obtained) && list[k] in t && HasFit(r, t, alloc[b])
  {
    hide FreedMemory, FreedList, HasFit;
    SpotFits(m, list, alloc, k, b);
    FreeReady(m, list, alloc, obtained, k, b);
    FreedHeap(m, list, k, b, alloc - {b}, obtained);
  }

  lemma FitMore(m: Memory, list: seq<int>, n: nat, k: nat)
    requires InMemory(m, list) && HasFit(m, list, n) && n >= k
    ensures HasFit(m, list, k)
  {
  }

  lemma NotInList(m: Memory, list: seq<int>, alloc: map<int, nat>, b: int)
    requires Chain(m, list) && InUseOk(m, list, alloc) && b in alloc
    ensures b !in list && b > BASE
  {
    forall k | 0 <= k < |list|
      ensures list[k] != b
    {
      ListedNotAlloc(m, list, alloc, k);
    }
  }

  lemma FreeReady(m: Memory, list: seq<int>, alloc: map<int, nat>, obtained: iset<int>, k: nat, b: int)
    requires HeapOk(m, list, alloc, obtained) && b in alloc && k < |list|
    ensures InUseOk(m, list, alloc - {b}) && m[list[k]].ptr in m
    ensures forall a, u :: a in alloc - {b} && a <= u < a + alloc[a] ==> !Holds(m, b, u)
    ensures forall u :: u in obtained <==> InFree(m, list, u) || Holds(m, b, u) || InAlloc(alloc - {b}, u)
  {
    assert LinkAt(m, list, k);
    var al := alloc - {b};
    forall u
      ensures InAlloc(alloc, u) <==> Holds(m, b, u) || InAlloc(al, u)
    {
      if InAlloc(alloc, u) {
        var a :| a in alloc && a <= u < a + alloc[a];
        assert a != b ==> a in al && a <= u < a + al[a];
      }
      if InAlloc(al, u) {
        var a :| a in al && a <= u < a + al[a];
        assert a in alloc && a <= u < a + alloc[a];
      }
      if Holds(m, b, u) {
        assert b in alloc && b <= u < b + alloc[b];
      }
    }
  }

  /** New memory above everything else may be treated as one more block in use. */
  lemma FreshBlock(m: Memory, list: seq<int>, alloc: map<int, nat>, obtained: iset<int>, h: int, n: nat)
    requires HeapOk(m, list, alloc, obtained) && n >= 1 && h > BASE
    requires forall u :: u in obtained ==> u < h
    ensures var m1 := m[h := Header(if h in m then m[h].ptr else 0, n)];
            && h !in alloc
            && HeapOk(m1, list, alloc[h := n], obtained + Span(h, n))
  {
    var m1 := m[h := Header(if h in m then m[h].ptr else 0, n)];
    var al := alloc[h := n];
    forall a | a in alloc
      ensures a < h && a + alloc[a] <= h
    {
      assert InAlloc(alloc, a + alloc[a] - 1);
    }
    forall i | 0 <= i < |list|
      ensures list[i] < h
    {
      if i > 0 {
        InFreeAt(m, list, list[i], i);
      }
    }
    assert InMemory(m1, list);
    forall i | 0 <= i < |list|
      ensures LinkAt(m1, list, i)
    {
      assert LinkAt(m, list, i);
    }
    forall i | 0 <= i < |list| - 1
      ensures !Touching(m1, list, i)
    {
      assert !Touching(m, list, i);
    }
    assert Ring(m1, list);
    FreshCovers(m, m1, list, alloc, obtained, h, n);
  }

  lemma FreshCovers(m: Memory, m1: Memory, list: seq<int>, alloc: map<int, nat>, obtained: iset<int>, h: int, n: nat)
    requires HeapOk(m, list, alloc, obtained) && n >= 1 && h > BASE && h !in alloc
    requires forall u :: u in obtained ==> u < h
    requires forall a :: a in alloc ==> a + alloc[a] <= h
    requires InMemory(m1, list) && h in m1 && m1[h].size == n && forall a :: a in m && a != h ==> a in m1 && m1[a] == m[a]
    requires forall i :: 0 <= i < |list| ==> list[i] < h
    ensures InUseOk(m1, list, alloc[h := n])
    ensures Conserved(m1, list, alloc[h := n], obtained + Span(h, n))
  {
    var al := alloc[h := n];
    forall u
      ensures InFree(m1, list, u) <==> InFree(m, list, u)
      ensures InAlloc(al, u) <==> InAlloc(alloc, u) || h <= u < h + n
    {
      if InFree(m, list, u) {
        var i := FreeWitness(m, list, u);
        InFreeAt(m1, list, u, i);
      }
      if InFree(m1, list, u) {
        var i := FreeWitness(m1, list, u);
        InFreeAt(m, list, u, i);
      }
      if InAlloc(alloc, u) {
        var a :| a in alloc && a <= u < a + alloc[a];
        assert a in al && a <= u < a + al[a];
      }
      if h <= u < h + n {
        assert h in al && h <= u < h + al[h];
      }
    }
    forall a, u | a in al && a <= u < a + al[a]
      ensures !InFree(m1, list, u)
    {
      assert a == h ==> u !in obtained;
      assert a != h ==> !InFree(m, list, u);
    }
  }

  ghost function Spot(m: Memory, list: seq<int>, b: int): (k: nat)
    requires Chain(m, list) && b > BASE && b !in list
    ensures GoesAfter(list, k, b)
  {
    SpotExists(m, list, b, 0);
    var k: nat :| GoesAfter(list, k, b);
    k
  }

  lemma {:induction false} SpotExists(m: Memory, list: seq<int>, b: int, i: nat)
    requires Chain(m, list) && b !in list && i < |list| && list[i] < b
    ensures exists k: nat :: GoesAfter(list, k, b)
    decreases |list| - i
  {
    if i + 1 < |list| && list[i + 1] < b {
      SpotExists(m, list, b, i + 1);
    } else {
      assert GoesAfter(list, i, b);
    }
  }

  /** The loop test holds at the spot and nowhere else. */
  lemma SpotOnly(m: Memory, list: seq<int>, k: nat, b: int, i: nat)
    requires Chain(m, list) && GoesAfter(list, k, b) && b > BASE && b !in list && i < |list|
    ensures var p, q := list[i], Succ(list, i);
            ((b > p && b < q) || (p >= q && (b > p || b < q))) <==> i == k
  {
    assert i < k ==> list[i] < list[i + 1] && list[i + 1] <= list[k];
    assert k < i ==> list[k] < list[i];
    assert k + 1 < i ==> list[k + 1] < list[i];
    assert i + 1 < |list| ==> list[i] < list[i + 1];
  }

  /** A block as large as all that was obtained leaves nothing free. */
  lemma AllTaken(m: Memory, list: seq<int>, alloc: map<int, nat>, h: int, n: nat, b: int)
    requires HeapOk(m, list, alloc, Span(h, n)) && alloc == map[b := n] && n >= 1
    ensures b == h && InMemory(m, list) && !HasFit(m, list, 1)
  {
    assert b in alloc && alloc[b] == n;
    assert InAlloc(alloc, b) && InAlloc(alloc, b + n - 1);
    assert b in Span(h, n) && b + n - 1 in Span(h, n);
    if HasFit(m, list, 1) {
      var i :| 1 <= i < |list| && m[list[i]].size >= 1;
      InFreeAt(m, list, list[i], i);
    }
  }

  /** Two requests of 2^31 - 16 bytes, each below 2^28 units: unless sbrk fails, the
      second wraps the break around, and its block is not the process's. */
  method TwoLargeRequests() returns (a: Arena, p: int, q: int)
    ensures fresh(a) && a.Sound() && (p != 0 && q != 0 ==> !a.Valid())
  {
    hide HeapOk, HasFit, Span;
    a := new Arena();
    ghost var grew;
    p, grew := a.Malloc(0x7fff_fff0);
    ghost var n := Units(0x7fff_fff0);
    assert n == 0x0fff_ffff == CoreUnits(n);
    q := 0;
    if p != 0 {
      assert a.obtained == Span(2, n) by { Nothing(Span(2, n)); }
      AllTaken(a.m, a.list, a.alloc, 2, n, p - 1);
      NoFitMore(a.m, a.list, n);
      q, grew := a.Malloc(0x7fff_fff0);
    }
  }

  lemma Nothing(s: iset<int>)
    ensures iset{} + s == s
  {
  }

  lemma NoFitMore(m: Memory, list: seq<int>, n: nat)
    requires InMemory(m, list) && !HasFit(m, list, 1) && n >= 1
    ensures !HasFit(m, list, n)
  {
  }
}
