/** grep's pattern matcher, Kernighan and Pike's, against the languages that
    patterns denote. Strings are C strings without their terminating NUL. */
module Regex {

  const NUL := '\0'

  ghost predicate CString(s: string) {
    NUL !in s
  }

  /** s[i], where the terminating NUL may be read. */
  function At(s: string, i: nat): (c: char)
    requires i <= |s|
  {
    if i < |s| then s[i] else NUL
  }

  // ---- what a pattern means

  datatype Item = One(c: char) | Star(c: char)

  /** A pattern after any leading '^': items, and whether a final '$' ties the
      match to the end of the text. */
  datatype Pattern = Pattern(items: seq<Item>, atEnd: bool)

  ghost function Parse(re: string): (p: Pattern) {
    if re == "" then Pattern([], false)
    else if |re| >= 2 && re[1] == '*' then
      var rest := Parse(re[2..]);
      Pattern([Star(re[0])] + rest.items, rest.atEnd)
    else if re == "$" then Pattern([], true)
    else
      var rest := Parse(re[1..]);
      Pattern([One(re[0])] + rest.items, rest.atEnd)
  }

  ghost predicate Fits(c: char, x: char) {
    c == '.' || c == x
  }

  ghost predicate Piece(item: Item, w: string) {
    match item
    case One(c) => |w| == 1 && Fits(c, w[0])
    case Star(c) => forall i :: 0 <= i < |w| ==> Fits(c, w[i])
  }

  ghost predicate CutAt(items: seq<Item>, w: string, cuts: seq<int>, j: nat)
    requires |cuts| == |items| + 1 && j < |items|
  {
    0 <= cuts[j] <= cuts[j + 1] <= |w| && Piece(items[j], w[cuts[j]..cuts[j + 1]])
  }

  /** w cut into consecutive pieces, one for each item. */
  ghost predicate Cut(items: seq<Item>, w: string, cuts: seq<int>) {
    && |cuts| == |items| + 1 && cuts[0] == 0 && cuts[|items|] == |w|
    && forall j :: 0 <= j < |items| ==> CutAt(items, w, cuts, j)
  }

  ghost predicate InLanguage(items: seq<Item>, w: string) {
    exists cuts :: Cut(items, w, cuts)
  }

  ghost predicate MatchesPrefix(p: Pattern, text: string, n: nat) {
    n <= |text| && (p.atEnd ==> n == |text|) && InLanguage(p.items, text[..n])
  }

  /** Some prefix of the text is in the language of the pattern. */
  ghost predicate Begins(p: Pattern, text: string) {
    exists n: nat :: MatchesPrefix(p, text, n)
  }

  ghost predicate Here(re: string, text: string) {
    Begins(Parse(re), text)
  }

  /** ... of some suffix of the text, or of the text itself under '^'. */
  ghost predicate Matches(re: string, text: string) {
    if re != "" && re[0] == '^' then Here(re[1..], text)
    else exists k :: 0 <= k <= |text| && Here(re, text[k..])
  }

  // ---- languages item by item

  lemma FirstPiece(x: Item, items: seq<Item>, w: string, cuts: seq<int>)
    requires Cut([x] + items, w, cuts)
    ensures 0 <= cuts[1] <= |w| && Piece(x, w[..cuts[1]]) && InLanguage(items, w[cuts[1]..])
  {
    var all := [x] + items;
    assert CutAt(all, w, cuts, 0);
    var k := cuts[1];
    assert w[cuts[0]..k] == w[..k];
    var rest := seq(|items| + 1, j requires 0 <= j < |items| + 1 => cuts[j + 1] - k);
    forall j | 0 <= j < |items|
      ensures CutAt(items, w[k..], rest, j)
    {
      assert CutAt(all, w, cuts, j + 1);
      ShiftDown(all, w, cuts, j);
      assert rest[j] == cuts[j + 1] - k && rest[j + 1] == cuts[j + 2] - k && all[j + 1] == items[j];
      assert w[k..][rest[j]..rest[j + 1]] == w[cuts[j + 1]..cuts[j + 2]];
    }
    assert Cut(items, w[k..], rest);
  }

  /** Cuts ascend. */
  lemma {:induction false} ShiftDown(items: seq<Item>, w: string, cuts: seq<int>, j: nat)
    requires Cut(items, w, cuts) && j + 1 < |cuts|
    ensures cuts[1] <= cuts[j + 1]
  {
    if j > 0 {
      ShiftDown(items, w, cuts, j - 1);
      assert CutAt(items, w, cuts, j);
    }
  }

  lemma AddPiece(x: Item, items: seq<Item>, w: string, k: nat, rest: seq<int>)
    requires k <= |w| && Piece(x, w[..k]) && Cut(items, w[k..], rest)
    ensures InLanguage([x] + items, w)
  {
    var all := [x] + items;
    var cuts := [0] + seq(|rest|, j requires 0 <= j < |rest| => rest[j] + k);
    forall j | 0 <= j < |all|
      ensures CutAt(all, w, cuts, j)
    {
      if j == 0 {
        assert w[0..k] == w[..k];
      } else {
        assert CutAt(items, w[k..], rest, j - 1);
        assert w[k..][rest[j - 1]..rest[j]] == w[cuts[j]..cuts[j + 1]];
      }
    }
    assert Cut(all, w, cuts);
  }

  lemma LanguageFirst(x: Item, items: seq<Item>, w: string)
    ensures InLanguage([x] + items, w) <==> exists k :: 0 <= k <= |w| && Piece(x, w[..k]) && InLanguage(items, w[k..])
  {
    if InLanguage([x] + items, w) {
      var cuts :| Cut([x] + items, w, cuts);
      FirstPiece(x, items, w, cuts);
    }
    if k :| 0 <= k <= |w| && Piece(x, w[..k]) && InLanguage(items, w[k..]) {
      var rest :| Cut(items, w[k..], rest);
      AddPiece(x, items, w, k, rest);
    }
  }

  // ---- Here, case by case as the code distinguishes them

  lemma HereEmpty(text: string)
    ensures Here("", text)
  {
    assert Cut([], text[..0], [0]);
    assert MatchesPrefix(Parse(""), text, 0);
  }

  lemma HereEnd(text: string)
    ensures Here("$", text) <==> text == ""
  {
    var p := Parse("$");
    if text == "" {
      assert Cut([], text[..0], [0]);
      assert MatchesPrefix(p, text, 0);
    }
    if Begins(p, text) {
      var n: nat :| MatchesPrefix(p, text, n);
    }
  }

  /** A first item x before the pattern rest. */
  lemma BeginsItem(x: Item, rest: Pattern, text: string)
    ensures Begins(Pattern([x] + rest.items, rest.atEnd), text)
       <==> exists k :: 0 <= k <= |text| && Piece(x, text[..k]) && Begins(rest, text[k..])
  {
    var p := Pattern([x] + rest.items, rest.atEnd);
    if Begins(p, text) {
      var n: nat :| MatchesPrefix(p, text, n);
      LanguageFirst(x, rest.items, text[..n]);
      var k :| 0 <= k <= n && Piece(x, text[..n][..k]) && InLanguage(rest.items, text[..n][k..]);
      assert text[..n][..k] == text[..k] && text[..n][k..] == text[k..][..n - k];
      assert MatchesPrefix(rest, text[k..], n - k);
    }
    if k :| 0 <= k <= |text| && Piece(x, text[..k]) && Begins(rest, text[k..]) {
      var n: nat :| MatchesPrefix(rest, text[k..], n);
      var m := n + k;
      assert text[..m][..k] == text[..k] && text[..m][k..] == text[k..][..n];
      LanguageFirst(x, rest.items, text[..m]);
      assert MatchesPrefix(p, text, m);
    }
  }

  /** Some number of characters that c fits, then the rest. */
  ghost predicate StarHere(c: char, re: string, text: string) {
    exists k :: 0 <= k <= |text| && Piece(Star(c), text[..k]) && Here(re, text[k..])
  }

  lemma HereStar(c: char, re: string, text: string)
    ensures Here([c, '*'] + re, text) <==> StarHere(c, re, text)
  {
    var all := [c, '*'] + re;
    assert all[2..] == re;
    BeginsItem(Star(c), Parse(re), text);
    if StarHere(c, re, text) {
      var k :| 0 <= k <= |text| && Piece(Star(c), text[..k]) && Here(re, text[k..]);
      assert Begins(Parse(re), text[k..]);
    }
    if Here(all, text) {
      var k :| 0 <= k <= |text| && Piece(Star(c), text[..k]) && Begins(Parse(re), text[k..]);
      assert Here(re, text[k..]);
    }
  }

  lemma HereOne(re: string, text: string)
    requires re != "" && re != "$" && (|re| >= 2 ==> re[1] != '*')
    ensures Here(re, text) <==> text != "" && Fits(re[0], text[0]) && Here(re[1..], text[1..])
  {
    BeginsItem(One(re[0]), Parse(re[1..]), text);
    if Here(re, text) {
      var k :| 0 <= k <= |text| && Piece(One(re[0]), text[..k]) && Begins(Parse(re[1..]), text[k..]);
      assert k == 1;
    }
    if text != "" && Fits(re[0], text[0]) && Here(re[1..], text[1..]) {
      assert Piece(One(re[0]), text[..1]) && Begins(Parse(re[1..]), text[1..]);
    }
  }

  // ---- what this comes to for plain patterns

  /** No character of the pattern has a special meaning. */
  ghost predicate Plain(re: string) {
    forall i :: 0 <= i < |re| ==> re[i] !in "^$.*"
  }

  lemma {:induction false} HerePlain(re: string, text: string)
    requires Plain(re)
    ensures Here(re, text) <==> re <= text
    ensures Here(re + "$", text) <==> re == text
  {
    if re == "" {
      HereEmpty(text);
      assert re + "$" == "$";
      HereEnd(text);
    } else {
      assert (re + "$")[1..] == re[1..] + "$";
      assert (re + "$")[0] == re[0] && (re + "$")[1] != '*';
      HereOne(re, text);
      HereOne(re + "$", text);
      if text != "" {
        HerePlain(re[1..], text[1..]);
        assert re == [re[0]] + re[1..] && text == [text[0]] + text[1..];
      }
    }
  }

  /** A plain pattern matches exactly the texts that contain it; anchored on both
      sides only itself. */
  lemma PlainExact(re: string, text: string)
    requires Plain(re)
    ensures Matches(re, text) <==> exists k :: 0 <= k <= |text| && re <= text[k..]
    ensures Matches("^" + re, text) <==> re <= text
    ensures Matches("^" + re + "$", text) <==> re == text
  {
    HerePlain(re, text);
    assert ("^" + re)[1..] == re;
    assert ("^" + re + "$")[1..] == re + "$";
    forall k | 0 <= k <= |text|
      ensures Here(re, text[k..]) <==> re <= text[k..]
    {
      HerePlain(re, text[k..]);
    }
    if Matches(re, text) {
      var k :| 0 <= k <= |text| && Here(re, text[k..]);
      assert re <= text[k..];
    }
  }

  /** A dot matches every character, and nothing else but one. */
  lemma DotExact(text: string)
    ensures Matches("^.$", text) <==> |text| == 1
  {
    assert "^.$"[1..] == ".$" && ".$"[1..] == "$";
    HereOne(".$", text);
    if text != "" {
      HereEnd(text[1..]);
    }
  }

  /** A starred character matches every run of it, also none. */
  lemma StarExact(c: char, text: string)
    requires c !in "^$.*"
    ensures Matches("^" + [c, '*'] + "$", text) <==> forall i :: 0 <= i < |text| ==> text[i] == c
    ensures Matches("^.*$", text)
  {
    assert ("^" + [c, '*'] + "$")[1..] == [c, '*'] + "$" && "^.*$"[1..] == ['.', '*'] + "$";
    HereStar(c, "$", text);
    HereStar('.', "$", text);
    HereEnd(text[|text|..]);
    assert text[..|text|] == text;
    if StarHere(c, "$", text) {
      var k :| 0 <= k <= |text| && Piece(Star(c), text[..k]) && Here("$", text[k..]);
      HereEnd(text[k..]);
      assert text[..k] == text;
    }
    if forall i :: 0 <= i < |text| ==> text[i] == c {
      assert Piece(Star(c), text[..|text|]) && Here("$", text[|text|..]);
    }
    assert Piece(Star('.'), text[..|text|]) && Here("$", text[|text|..]);
  }

  // ---- the matcher

  /** matchhere: the pattern at the beginning of the text. */
  method MatchHere(re: string, text: string) returns (yes: bool)
    requires CString(re) && CString(text)
    ensures yes <==> Here(re, text)
    decreases |re|, |text|, 0
  {
    if At(re, 0) == NUL {
      HereEmpty(text);
      return true;
    }
    if At(re, 1) == '*' {
      assert re == [re[0], '*'] + re[2..];
      HereStar(re[0], re[2..], text);
      yes := MatchStar(re[0], re[2..], text);
      return;
    }
    if re[0] == '$' && At(re, 1) == NUL {
      assert re == "$";
      HereEnd(text);
      return At(text, 0) == NUL;
    }
    HereOne(re, text);
    if At(text, 0) != NUL && (re[0] == '.' || re[0] == text[0]) {
      yes := MatchHere(re[1..], text[1..]);
      return;
    }
    return false;
  }

  /** matchstar: c* and then the pattern. The loop tries every run length. */
  method MatchStar(c: char, re: string, text: string) returns (yes: bool)
    requires CString(re) && CString(text)
    ensures yes <==> StarHere(c, re, text)
    decreases |re|, |text|, 1
  {
    var i := 0;
    while true
      invariant i <= |text| && Piece(Star(c), text[..i])
      invariant forall k :: 0 <= k < i ==> !Here(re, text[k..])
      decreases |text| - i
    {
      var here := MatchHere(re, text[i..]);
      if here {
        return true;
      }
      if At(text, i) != NUL && (text[i] == c || c == '.') {
        i := i + 1;
      } else {
        StarStops(c, re, text, i);
        return false;
      }
    }
  }

  lemma StarStops(c: char, re: string, text: string, i: nat)
    requires i <= |text| && (i < |text| ==> !Fits(c, text[i])) && forall k :: 0 <= k <= i ==> !Here(re, text[k..])
    ensures !StarHere(c, re, text)
  {
    forall k | i < k <= |text|
      ensures !Piece(Star(c), text[..k])
    {
      assert text[..k][i] == text[i];
    }
  }

  /** match: 1 exactly when the text matches the pattern. */
  method Match(re: string, text: string) returns (yes: bool)
    requires CString(re) && CString(text)
    ensures yes <==> Matches(re, text)
  {
    if At(re, 0) == '^' {
      yes := MatchHere(re[1..], text);
      return;
    }
    var i := 0;
    while true
      invariant i <= |text| && forall k :: 0 <= k < i ==> !Here(re, text[k..])
      decreases |text| - i
    {
      var here := MatchHere(re, text[i..]);
      if here {
        return true;
      }
      if At(text, i) == NUL {
        return false;
      }
      i := i + 1;
    }
  }
}
