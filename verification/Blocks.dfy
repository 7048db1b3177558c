/** Disk blocks as byte sequences, and the view of a block as an array of
    32-bit little-endian words that the log header and the index blocks use; and
    the few notions about lists and strings that several modules share. */
module Blocks {

  const BSIZE := 512
  const WORDS := 128
  const UINT_LIMIT := 0x1_0000_0000

  newtype byte = x: int | 0 <= x < 256
  type uint = x: int | 0 <= x < UINT_LIMIT

  type Block = b: seq<byte> | |b| == BSIZE witness seq(BSIZE, _ => 0)

  function ZeroBlock(): (b: Block)
    ensures forall i :: 0 <= i < BSIZE ==> b[i] == 0
  {
    seq(BSIZE, _ => 0)
  }

  /** The word stored at index i, as `((uint*)data)[i]` reads it. */
  function Word(b: Block, i: nat): (w: uint)
    requires i < WORDS
  {
    (b[4 * i] as int) + 0x100 * (b[4 * i + 1] as int) + 0x1_0000 * (b[4 * i + 2] as int) + 0x100_0000 * (b[4 * i + 3] as int)
  }

  function Byte(w: uint, k: nat): (r: byte)
    requires k < 4
  {
    if k == 0 then (w % 0x100) as byte
    else if k == 1 then ((w / 0x100) % 0x100) as byte
    else if k == 2 then ((w / 0x1_0000) % 0x100) as byte
    else (w / 0x100_0000) as byte
  }

  /** The block after `((uint*)data)[i] = w`. */
  function SetWord(b: Block, i: nat, w: uint): (r: Block)
    requires i < WORDS
  {
    b[4 * i := Byte(w, 0)][4 * i + 1 := Byte(w, 1)][4 * i + 2 := Byte(w, 2)][4 * i + 3 := Byte(w, 3)]
  }

  lemma BytesMakeWord(w: uint)
    ensures w == (Byte(w, 0) as int) + 0x100 * (Byte(w, 1) as int) + 0x1_0000 * (Byte(w, 2) as int) + 0x100_0000 * (Byte(w, 3) as int)
  {
    var q := w / 0x100;
    var p := q / 0x100;
    assert w == w % 0x100 + 0x100 * q;
    assert q == q % 0x100 + 0x100 * p;
    assert w / 0x1_0000 == p;
    assert p == p % 0x100 + 0x100 * (p / 0x100);
    assert w / 0x100_0000 == p / 0x100;
  }

  /** Storing a word makes it readable there and disturbs no other word. */
  lemma WordSetWord(b: Block, i: nat, w: uint, j: nat)
    requires i < WORDS && j < WORDS
    ensures Word(SetWord(b, i, w), j) == if j == i then w else Word(b, j)
  {
    BytesMakeWord(w);
  }

  /** The least significant byte of a word comes first. */
  lemma WordLayout(b: Block, i: nat, w: uint)
    requires i < WORDS
    ensures var r := SetWord(b, i, w);
            && r[4 * i] as int == w % 0x100 && r[4 * i + 1] as int == (w / 0x100) % 0x100
            && r[4 * i + 2] as int == (w / 0x1_0000) % 0x100 && r[4 * i + 3] as int == w / 0x100_0000
            && forall x :: 0 <= x < BSIZE && !(4 * i <= x < 4 * i + 4) ==> r[x] == b[x]
  {
  }

  lemma ZeroWords()
    ensures forall i: nat :: i < WORDS ==> Word(ZeroBlock(), i) == 0
  {
  }

  /** No number is listed twice. */
  ghost predicate Distinct(s: seq<nat>) {
    forall i, j :: 0 <= i < j < |s| ==> s[i] != s[j]
  }

  // ---- strings in fixed fields

  /** The C string in a field: the bytes before its first NUL, if it has one. */
  function Text(s: seq<byte>): (t: seq<byte>)
    ensures t <= s
  {
    if s == [] || s[0] == 0 then [] else [s[0]] + Text(s[1..])
  }

  lemma {:induction false} TextIs(s: seq<byte>, k: nat)
    requires k <= |s| && (forall j :: 0 <= j < k ==> s[j] != 0) && (k < |s| ==> s[k] == 0)
    ensures Text(s) == s[..k]
  {
    if k == 0 {
    } else {
      var t := s[1..];
      assert forall j :: 0 <= j < |t| ==> t[j] == s[j + 1];
      TextIs(t, k - 1);
      assert s[..k] == [s[0]] + t[..k - 1];
    }
  }

  lemma {:induction false} TextEnd(s: seq<byte>)
    ensures forall j :: 0 <= j < |Text(s)| ==> s[j] == Text(s)[j] != 0
    ensures |Text(s)| < |s| ==> s[|Text(s)|] == 0
  {
    if s == [] || s[0] == 0 {
    } else {
      TextEnd(s[1..]);
      forall j | 0 <= j < |Text(s)|
        ensures s[j] == Text(s)[j] != 0
      {
        assert j > 0 ==> s[1..][j - 1] == Text(s[1..])[j - 1];
      }
    }
  }
}
