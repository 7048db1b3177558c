/** Directory files: 16-byte entries of an inode number and a 14-byte name. A
    name field ends at its first NUL, if it has one. */
module Dirents {

  import opened Blocks

  const DIRSIZ := 14
  const DIRENT := 16

  type Name = n: seq<byte> | |n| == DIRSIZ witness seq(DIRSIZ, _ => 0)

  datatype Dirent = Dirent(inum: nat, name: Name)

  function NoEntry(): (e: Dirent) {
    Dirent(0, seq(DIRSIZ, _ => 0))
  }

  // ---- names

  /** namecmp: strncmp over the whole field tells whether the texts agree. */
  method Namecmp(p: Name, q: Name) returns (r: int)
    ensures r == 0 <==> Text(p) == Text(q)
  {
    var i := 0;
    while i < DIRSIZ && p[i] != 0 && p[i] == q[i]
      invariant i <= DIRSIZ && forall j :: 0 <= j < i ==> p[j] == q[j] != 0
    {
      i := i + 1;
    }
    TextEnd(p);
    TextEnd(q);
    if i == DIRSIZ {
      assert p == q;
      return 0;
    }
    if p[i] == q[i] {
      TextIs(p, i);
      TextIs(q, i);
      assert p[..i] == q[..i];
    } else if Text(p) == Text(q) {
      SameText(p, q, i);
    }
    r := p[i] as int - q[i] as int;
  }

  lemma SameText(p: Name, q: Name, i: nat)
    requires Text(p) == Text(q) && i < DIRSIZ && forall j :: 0 <= j < i ==> p[j] == q[j] != 0
    ensures p[i] == q[i]
  {
    TextEnd(p);
    TextEnd(q);
  }

  /** strncpy into a name field: the text, then NULs. */
  method Strncpy(t: Name) returns (s: Name)
    ensures Text(s) == Text(t) && forall j :: |Text(t)| <= j < DIRSIZ ==> s[j] == 0
  {
    var out: seq<byte> := [];
    while |out| < DIRSIZ && t[|out|] != 0
      invariant |out| <= DIRSIZ && out == t[..|out|] && forall j :: 0 <= j < |out| ==> t[j] != 0
    {
      out := out + [t[|out|]];
    }
    ghost var k := |out|;
    TextIs(t, k);
    while |out| < DIRSIZ
      invariant k <= |out| <= DIRSIZ && out[..k] == t[..k] && forall j :: k <= j < |out| ==> out[j] == 0
    {
      out := out + [0];
    }
    s := out;
    TextIs(s, k);
  }

  // ---- a directory as a map

  type Directory = seq<Dirent>

  ghost predicate NamedAt(d: Directory, k: nat, text: seq<byte>)
    requires k < |d|
  {
    d[k].inum != 0 && Text(d[k].name) == text
  }

  ghost predicate Has(d: Directory, text: seq<byte>) {
    exists k :: 0 <= k < |d| && NamedAt(d, k, text)
  }

  /** No two entries in use have the same text. */
  ghost predicate Unique(d: Directory) {
    forall j, k :: 0 <= j < |d| && 0 <= k < |d| && d[j].inum != 0 && d[k].inum != 0 && Text(d[j].name) == Text(d[k].name) ==> j == k
  }

  /** The inode number that a text names, or 0. */
  ghost function Find(d: Directory, text: seq<byte>): (i: nat)
    ensures i != 0 <==> Has(d, text)
    ensures Has(d, text) ==> exists k :: 0 <= k < |d| && NamedAt(d, k, text) && i == d[k].inum
  {
    if Has(d, text) then
      var k :| 0 <= k < |d| && NamedAt(d, k, text);
      d[k].inum
    else 0
  }

  lemma FindIs(d: Directory, text: seq<byte>, k: nat)
    requires Unique(d) && k < |d| && NamedAt(d, k, text)
    ensures Find(d, text) == d[k].inum
  {
  }

  /** dirlookup's scan. */
  method Dirlookup(d: Directory, name: Name) returns (k: nat)
    ensures k <= |d| && (k < |d| ==> NamedAt(d, k, Text(name)))
    ensures k == |d| <==> !Has(d, Text(name))
  {
    k := 0;
    while k < |d|
      invariant k <= |d| && forall j :: 0 <= j < k ==> !NamedAt(d, j, Text(name))
    {
      if d[k].inum != 0 {
        var c := Namecmp(name, d[k].name);
        if c == 0 {
          assert NamedAt(d, k, Text(name));
          return;
        }
      }
      k := k + 1;
    }
  }

  /** d with entry e in slot k, or appended. */
  function Placed(d: Directory, k: nat, e: Dirent): (r: Directory)
    requires k <= |d|
  {
    if k < |d| then d[k := e] else d + [e]
  }

  /** dirlink: refuses a name that is there; otherwise the first slot out of use,
      or a new one at the end, takes the entry. */
  method Dirlink(d: Directory, name: Name, inum: nat) returns (ok: bool, r: Directory, k: nat, s: Name)
    requires inum != 0
    ensures ok <==> !Has(d, Text(name))
    ensures !ok ==> r == d
    ensures ok ==> k <= |d| && (k < |d| ==> d[k].inum == 0) && (forall j :: 0 <= j < k ==> d[j].inum != 0)
    ensures ok ==> Text(s) == Text(name) && r == Placed(d, k, Dirent(inum, s))
  {
    r := d;
    k := Dirlookup(d, name);
    s := name;
    if k < |d| {
      return false, r, k, s;
    }
    k := 0;
    while k < |d| && d[k].inum != 0
      invariant k <= |d| && forall j :: 0 <= j < k ==> d[j].inum != 0
    {
      k := k + 1;
    }
    s := Strncpy(name);
    ok, r := true, Placed(d, k, Dirent(inum, s));
  }

  /** dirlink extends the map by exactly one name. */
  lemma PlacedFind(d: Directory, k: nat, e: Dirent, text: seq<byte>)
    requires Unique(d) && k <= |d| && (k < |d| ==> d[k].inum == 0) && e.inum != 0 && !Has(d, Text(e.name))
    ensures Unique(Placed(d, k, e))
    ensures Find(Placed(d, k, e), text) == if text == Text(e.name) then e.inum else Find(d, text)
  {
    var r := Placed(d, k, e);
    forall j | 0 <= j < |d| && d[j].inum != 0
      ensures Text(d[j].name) != Text(e.name)
    {
      assert NamedAt(d, j, Text(d[j].name));
    }
    assert Unique(r);
    forall j | 0 <= j < |r| && NamedAt(r, j, text)
      ensures j == k || NamedAt(d, j, text)
    {
    }
    if text == Text(e.name) {
      FindIs(r, text, k);
    } else if Has(d, text) {
      var j :| 0 <= j < |d| && NamedAt(d, j, text);
      FindIs(d, text, j);
      FindIs(r, text, j);
    }
  }

  /** unlink's clearing of slot k removes exactly its name. */
  lemma ClearedFind(d: Directory, k: nat, text: seq<byte>)
    requires Unique(d) && k < |d| && d[k].inum != 0
    ensures Unique(d[k := NoEntry()])
    ensures Find(d[k := NoEntry()], text) == if text == Text(d[k].name) then 0 else Find(d, text)
  {
    var r := d[k := NoEntry()];
    assert Unique(r);
    if Has(r, text) {
      var j :| 0 <= j < |r| && NamedAt(r, j, text);
      assert NamedAt(d, j, text);
      FindIs(d, text, j);
      FindIs(r, text, j);
    } else if Has(d, text) {
      var j :| 0 <= j < |d| && NamedAt(d, j, text);
      assert j != k ==> NamedAt(r, j, text);
    }
  }

  // ---- bytes

  /** An entry as it lies in the file. */
  function Encode(e: Dirent): (b: seq<byte>)
    requires e.inum < 0x1_0000
    ensures |b| == DIRENT
  {
    [(e.inum % 256) as byte, (e.inum / 256) as byte] + e.name
  }

  function Decode(b: seq<byte>): (e: Dirent)
    requires |b| == DIRENT
  {
    Dirent(b[0] as int + 256 * (b[1] as int), b[2..])
  }

  lemma EncodeDecode(e: Dirent, b: seq<byte>)
    requires e.inum < 0x1_0000 && |b| == DIRENT
    ensures Decode(Encode(e)) == e
    ensures Decode(b).inum < 0x1_0000 && Encode(Decode(b)) == b
  {
    assert Encode(e)[2..] == e.name;
    assert [b[0], b[1]] + b[2..] == b;
  }

  /** The inode number is in the first two bytes, low byte first, the name in the
      fourteen behind them. */
  lemma EntryLayout(e: Dirent)
    requires e.inum < 0x1_0000
    ensures var b := Encode(e);
            b[0] as int == e.inum % 256 && b[1] as int == e.inum / 256 && |e.name| == 14 && forall i :: 0 <= i < 14 ==> b[2 + i] == e.name[i]
  {
  }

  ghost function ReadDir(file: seq<byte>): (d: Directory)
    requires |file| % DIRENT == 0
    ensures |d| == |file| / DIRENT
  {
    seq(|file| / DIRENT, k requires 0 <= k < |file| / DIRENT => Decode(file[k * DIRENT..k * DIRENT + DIRENT]))
  }

  /** Writing the 16 bytes of an entry at its place in the file, or at the end, is
      placing the entry in the directory. */
  lemma WriteEntry(file: seq<byte>, k: nat, e: Dirent)
    requires |file| % DIRENT == 0 && k <= |file| / DIRENT && e.inum < 0x1_0000
    ensures var g := file[..k * DIRENT] + Encode(e) + (if k < |file| / DIRENT then file[k * DIRENT + DIRENT..] else []);
            |g| % DIRENT == 0 && ReadDir(g) == Placed(ReadDir(file), k, e)
  {
    var n := |file| / DIRENT;
    var g := file[..k * DIRENT] + Encode(e) + (if k < n then file[k * DIRENT + DIRENT..] else []);
    assert |g| == if k < n then |file| else |file| + DIRENT;
    forall j | 0 <= j < |g| / DIRENT
      ensures ReadDir(g)[j] == Placed(ReadDir(file), k, e)[j]
    {
      var a := j * DIRENT;
      if j == k {
        assert g[a..a + DIRENT] == Encode(e);
        EncodeDecode(e, Encode(e));
      } else {
        assert j < k ==> a + DIRENT <= k * DIRENT;
        assert j > k ==> k < n && k * DIRENT + DIRENT <= a;
        forall x | a <= x < a + DIRENT
          ensures x < |file| && g[x] == file[x]
        {
          assert j > k ==> g[x] == file[k * DIRENT + DIRENT..][x - k * DIRENT - DIRENT];
        }
        assert g[a..a + DIRENT] == file[a..a + DIRENT];
      }
    }
  }
}
