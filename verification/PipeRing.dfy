/** The ring buffer of a pipe: 512 bytes between two 32-bit counters that wrap
    around. */
module PipeRing {

  import opened Blocks

  const PIPESIZE := 512
  const WRAP := UINT_LIMIT

  type Buffer = b: seq<byte> | |b| == PIPESIZE witness seq(PIPESIZE, _ => 0)

  datatype Ring = Ring(data: Buffer, nread: uint, nwrite: uint, readopen: bool, writeopen: bool)

  /** 32-bit addition. */
  function Plus(a: uint, k: nat): (r: uint)
    requires k <= PIPESIZE
  {
    if a + k < WRAP then a + k else a + k - WRAP
  }

  function Used(r: Ring): (n: nat) {
    if r.nread <= r.nwrite then r.nwrite - r.nread else r.nwrite - r.nread + WRAP
  }

  ghost predicate Valid(r: Ring) {
    Used(r) <= PIPESIZE
  }

  /** The two tests the code makes on the counters. */
  predicate Full(r: Ring) {
    r.nwrite == Plus(r.nread, PIPESIZE)
  }

  predicate Empty(r: Ring) {
    r.nread == r.nwrite
  }

  /** They mean what their names say, although 32-bit counters are compared. */
  lemma TestsExact(r: Ring)
    requires Valid(r)
    ensures Full(r) <==> Used(r) == PIPESIZE
    ensures Empty(r) <==> Used(r) == 0
  {
  }

  /** The array index of the byte i places after counter value n. */
  function Index(n: uint, i: nat): (k: nat)
    requires i <= PIPESIZE
    ensures k < PIPESIZE
  {
    Plus(n, i) % PIPESIZE
  }

  lemma IndexIs(n: uint, i: nat)
    requires i <= PIPESIZE
    ensures Index(n, i) == if n % PIPESIZE + i < PIPESIZE then n % PIPESIZE + i else n % PIPESIZE + i - PIPESIZE
  {
  }

  /** The bytes in the pipe, oldest first. */
  ghost function Contents(r: Ring): (s: seq<byte>)
    requires Valid(r)
    ensures |s| == Used(r)
  {
    seq(Used(r), i requires 0 <= i < Used(r) => r.data[Index(r.nread, i)])
  }

  function Put(r: Ring, b: byte): (t: Ring) {
    r.(data := r.data[r.nwrite % PIPESIZE := b], nwrite := Plus(r.nwrite, 1))
  }

  function Take(r: Ring): (t: Ring) {
    r.(nread := Plus(r.nread, 1))
  }

  function Head(r: Ring): (b: byte) {
    r.data[r.nread % PIPESIZE]
  }

  lemma PutAppends(r: Ring, b: byte)
    requires Valid(r) && !Full(r)
    ensures Valid(Put(r, b)) && Used(Put(r, b)) == Used(r) + 1 && Contents(Put(r, b)) == Contents(r) + [b]
  {
    var t := Put(r, b);
    forall i | 0 <= i < Used(t)
      ensures Contents(t)[i] == (Contents(r) + [b])[i]
    {
      IndexIs(r.nread, i);
      WriteIndex(r);
      IndexIs(r.nread, Used(r));
    }
  }

  lemma WriteIndex(r: Ring)
    requires Valid(r)
    ensures r.nwrite % PIPESIZE == Index(r.nread, Used(r))
  {
    assert Plus(r.nread, Used(r)) == r.nwrite;
  }

  lemma TakeRemoves(r: Ring)
    requires Valid(r) && !Empty(r)
    ensures Valid(Take(r)) && Used(Take(r)) == Used(r) - 1 && Contents(r) == [Head(r)] + Contents(Take(r))
  {
    var t := Take(r);
    assert Index(r.nread, 0) == r.nread % PIPESIZE;
    forall i | 0 <= i < Used(t)
      ensures Contents(r)[i + 1] == Contents(t)[i]
    {
      assert Plus(r.nread, i + 1) == Plus(t.nread, i);
    }
    assert Contents(r) == [Head(r)] + Contents(t);
  }

  ghost function Puts(r: Ring, bs: seq<byte>): (t: Ring) {
    if bs == [] then r else Put(Puts(r, bs[..|bs| - 1]), bs[|bs| - 1])
  }

  ghost function Takes(r: Ring, n: nat): (t: Ring) {
    if n == 0 then r else Take(Takes(r, n - 1))
  }

  lemma Regroup(a: seq<byte>, b: byte, c: seq<byte>)
    ensures a + ([b] + c) == (a + [b]) + c
  {
  }

  lemma PutsNone(r: Ring)
    ensures Puts(r, []) == r
  {
  }

  /** One more byte of src, after those from i up to j. */
  lemma PutsMore(r: Ring, src: seq<byte>, i: nat, j: nat, t: Ring)
    requires i <= j < |src| && t == Puts(r, src[i..j]) && Valid(r) && Valid(t) && !Full(t)
    requires Contents(t) == Contents(r) + src[i..j]
    ensures Put(t, src[j]) == Puts(r, src[i..j + 1]) && Valid(Put(t, src[j]))
    ensures Contents(Put(t, src[j])) == Contents(r) + src[i..j + 1]
  {
    hide Contents, Put;
    PutAppends(t, src[j]);
    assert src[i..j + 1] == src[i..j] + [src[j]] && src[i..j + 1][..j - i] == src[i..j];
  }

  /** The fields of struct pipe, changed in place by whoever holds its lock. */
  class Pipe {
    const data: array<byte>
    var nread: uint
    var nwrite: uint
    var readopen: bool
    var writeopen: bool

    ghost function View(): (r: Ring)
      requires data.Length == PIPESIZE
      reads this, data
    {
      Ring(data[..], nread, nwrite, readopen, writeopen)
    }

    constructor ()
      ensures fresh(data) && data.Length == PIPESIZE && Valid(View()) && Contents(View()) == [] && readopen && writeopen
    {
      data := new byte[PIPESIZE];
      nread, nwrite, readopen, writeopen := 0, 0, true, true;
    }

    /** pipewrite between two waits: copy from src[i] on until done or full. */
    method Fill(src: seq<byte>, i: nat) returns (j: nat)
      requires data.Length == PIPESIZE && Valid(View()) && i <= |src|
      modifies this`nwrite, data
      ensures i <= j <= |src| && View() == Puts(old(View()), src[i..j])
      ensures Valid(View()) && Contents(View()) == old(Contents(View())) + src[i..j]
      ensures j < |src| ==> Used(View()) == PIPESIZE
    {
      hide Contents, Puts;
      j := i;
      assert src[i..i] == [] && View() == Puts(View(), []) by { PutsNone(View()); }
      while j < |src| && nwrite != Plus(nread, PIPESIZE)
        invariant i <= j <= |src| && Valid(View()) && View() == Puts(old(View()), src[i..j])
        invariant Contents(View()) == old(Contents(View())) + src[i..j]
      {
        ghost var before := View();
        PutsMore(old(View()), src, i, j, before);
        data[nwrite % PIPESIZE] := src[j];
        nwrite := Plus(nwrite, 1);
        assert View() == Put(before, src[j]);
        j := j + 1;
      }
      TestsExact(View());
    }

    /** piperead after its wait: copy out up to n bytes. */
    method Drain(n: nat) returns (out: seq<byte>)
      requires data.Length == PIPESIZE && Valid(View())
      modifies this`nread
      ensures View() == Takes(old(View()), |out|) && Valid(View())
      ensures old(Contents(View())) == out + Contents(View())
      ensures |out| == if n < old(Used(View())) then n else old(Used(View()))
    {
      hide Contents, Index, Plus, Puts;
      out := [];
      while |out| < n && nread != nwrite
        invariant |out| <= n && Valid(View()) && View() == Takes(old(View()), |out|)
        invariant old(Contents(View())) == out + Contents(View())
      {
        ghost var before := View();
        TakeRemoves(before);
        Regroup(out, Head(before), Contents(Take(before)));
        out := out + [data[nread % PIPESIZE]];
        nread := Plus(nread, 1);
        assert View() == Take(before);
      }
      TestsExact(View());
    }
  }
}
