/** The shell's lexer and recursive-descent parser on a line of characters with
    a shared cursor, and the pass that cuts the words out of the line in place. */
module Shell {

  import opened ShellGrammar

  const NUL := '\0'

  predicate IsSpace(c: char) {
    c == ' ' || c == '\t' || c == '\r' || c == '\n' || c == '\U{b}'
  }

  predicate IsSymbol(c: char) {
    c == '<' || c == '|' || c == '>' || c == '&' || c == ';' || c == '(' || c == ')'
  }

  predicate IsWordChar(c: char) {
    !IsSpace(c) && !IsSymbol(c)
  }

  // ---- what the lexer sees

  function Skip(s: string): (r: string)
    ensures |r| <= |s| && (r != "" ==> !IsSpace(r[0]))
  {
    if s != "" && IsSpace(s[0]) then Skip(s[1..]) else s
  }

  function WordLen(s: string): (n: nat)
    ensures n <= |s| && (forall i :: 0 <= i < n ==> IsWordChar(s[i])) && (n < |s| ==> !IsWordChar(s[n]))
  {
    if s != "" && IsWordChar(s[0]) then
      var n := WordLen(s[1..]) + 1;
      assert forall i :: 1 <= i < n ==> s[i] == s[1..][i - 1];
      n
    else 0
  }

  /** The length of the token at the start of s. */
  function TokenLen(s: string): (n: nat)
    requires s != "" && !IsSpace(s[0])
    ensures 1 <= n <= |s|
  {
    if s[0] == '>' && |s| >= 2 && s[1] == '>' then 2
    else if IsSymbol(s[0]) then 1
    else WordLen(s)
  }

  function TokenAt(s: string): (t: Token)
    requires s != "" && !IsSpace(s[0])
  {
    if s[0] == '>' && |s| >= 2 && s[1] == '>' then Append
    else if IsSymbol(s[0]) then Sym(s[0])
    else Word(s[..WordLen(s)])
  }

  /** All tokens of s. */
  function Scan(s: string): (ts: seq<Token>)
    decreases |s|
  {
    var r := Skip(s);
    if r == "" then [] else [TokenAt(r)] + Scan(r[TokenLen(r)..])
  }

  lemma {:induction false} SkipTwice(s: string)
    ensures Skip(Skip(s)) == Skip(s) && Scan(Skip(s)) == Scan(s)
    decreases |s|
  {
    if s != "" && IsSpace(s[0]) {
      SkipTwice(s[1..]);
    }
  }

  // ---- a printed line

  function TokenText(t: Token): (s: string) {
    match t
    case Sym(c) => [c]
    case Append => ">>"
    case Word(w) => w
  }

  /** The tokens with blanks before, between and behind them. */
  function Render(ts: seq<Token>, gaps: seq<string>): (s: string)
    requires |gaps| == |ts| + 1
  {
    if ts == [] then gaps[0] else gaps[0] + TokenText(ts[0]) + Render(ts[1..], gaps[1..])
  }

  ghost predicate TokenOk(t: Token) {
    match t
    case Sym(c) => IsSymbol(c)
    case Append => true
    case Word(w) => w != "" && forall i :: 0 <= i < |w| ==> IsWordChar(w[i])
  }

  /** Without a blank in between these would be read as one token. */
  predicate Merges(a: Token, b: Token) {
    (a.Word? && b.Word?) || (a == Sym('>') && (b == Sym('>') || b == Append))
  }

  /** Blanks are spaces, tabs, carriage returns, newlines and vertical tabs, and
      there is one wherever it is needed. */
  ghost predicate GapsOk(ts: seq<Token>, gaps: seq<string>) {
    && |gaps| == |ts| + 1
    && (forall i :: 0 <= i < |gaps| ==> AllBlank(gaps[i]))
    && forall i :: 0 < i < |ts| ==> (Merges(ts[i - 1], ts[i]) ==> gaps[i] != "")
  }

  ghost predicate AllBlank(g: string) {
    forall i :: 0 <= i < |g| ==> g[i] in " \t\r\n\U{b}"
  }

  /** What stands behind token t does not belong to it. */
  predicate Ends(t: Token, rest: string) {
    rest == "" || ((t.Word? ==> !IsWordChar(rest[0])) && (t == Sym('>') ==> rest[0] != '>'))
  }

  lemma TokenFirst(t: Token, rest: string)
    requires TokenOk(t) && Ends(t, rest)
    ensures var s := TokenText(t) + rest;
            s != "" && !IsSpace(s[0]) && TokenAt(s) == t && TokenLen(s) == |TokenText(t)|
  {
    var s := TokenText(t) + rest;
    assert t.Word? ==> s[0] == t.w[0];
    if t.Word? {
      assert forall i :: 0 <= i < |t.w| ==> s[i] == t.w[i];
      assert rest != "" ==> s[|t.w|] == rest[0];
      assert WordLen(s) == |t.w|;
      assert s[..|t.w|] == t.w;
    } else {
      assert t.Sym? && rest != "" ==> s[1] == rest[0];
    }
  }

  lemma {:induction false} SkipGap(g: string, r: string)
    requires AllBlank(g)
    ensures Skip(g + r) == Skip(r)
    decreases |g|
  {
    if g == "" {
      assert g + r == r;
    } else {
      assert (g + r)[1..] == g[1..] + r;
      SkipGap(g[1..], r);
    }
  }

  lemma RenderEnds(t: Token, ts: seq<Token>, gaps: seq<string>)
    requires |gaps| == |ts| + 1 && AllBlank(gaps[0]) && (ts != [] ==> TokenOk(ts[0]) && (Merges(t, ts[0]) ==> gaps[0] != ""))
    ensures Ends(t, Render(ts, gaps))
  {
    var r := Render(ts, gaps);
    if gaps[0] != "" {
      assert r[0] == gaps[0][0];
    } else if ts != [] {
      assert r[0] == TokenText(ts[0])[0];
    }
  }

  /** The lexer takes a line apart into the tokens it was put together from,
      whatever blanks are between them. */
  lemma {:induction false} ScanRender(ts: seq<Token>, gaps: seq<string>)
    requires GapsOk(ts, gaps) && forall i :: 0 <= i < |ts| ==> TokenOk(ts[i])
    ensures Scan(Render(ts, gaps)) == ts
    decreases |ts|
  {
    if ts == [] {
      SkipGap(gaps[0], "");
      assert gaps[0] + "" == gaps[0];
    } else {
      var rest := Render(ts[1..], gaps[1..]);
      var r := TokenText(ts[0]) + rest;
      assert Render(ts, gaps) == gaps[0] + r;
      SkipGap(gaps[0], r);
      RenderEnds(ts[0], ts[1..], gaps[1..]);
      TokenFirst(ts[0], rest);
      assert r[TokenLen(r)..] == rest;
      ScanRender(ts[1..], gaps[1..]);
      assert [ts[0]] + ts[1..] == ts;
    }
  }

  ghost predicate ItemsFine(items: seq<Item>) {
    forall i :: 0 <= i < |items| ==> TokenOk(Word(if items[i].Arg? then items[i].w else items[i].file))
  }

  ghost predicate WordsFine(t: Text) {
    match t
    case Simple(items) => ItemsFine(items)
    case Group(line, redirs) => WordsFine(line) && ItemsFine(redirs)
    case Piped(l, r) => WordsFine(l) && WordsFine(r)
    case Behind(d) => WordsFine(d)
    case Then(l, r) => WordsFine(l) && WordsFine(r)
  }

  lemma {:induction false} SpelledFine(items: seq<Item>)
    requires ItemsFine(items)
    ensures forall i :: 0 <= i < |Spelled(items)| ==> TokenOk(Spelled(items)[i])
  {
    if items != [] {
      assert ItemsFine(items[1..]);
      SpelledFine(items[1..]);
    }
  }

  lemma {:induction false} PrintFine(t: Text)
    requires WordsFine(t)
    ensures forall i :: 0 <= i < |Print(t)| ==> TokenOk(Print(t)[i])
  {
    match t
    case Simple(items) => SpelledFine(items);
    case Group(line, redirs) =>
      PrintFine(line);
      SpelledFine(redirs);
    case Piped(l, r) =>
      PrintFine(l);
      PrintFine(r);
    case Behind(d) => PrintFine(d);
    case Then(l, r) =>
      PrintFine(l);
      PrintFine(r);
  }

  /** However a command is written, and whatever blanks are in the line, parsing the
      line gives the command's meaning. */
  lemma ParsePrinted(t: Text, gaps: seq<string>)
    requires WellFormed(t, LINE) && WordsFine(t) && GapsOk(Print(t), gaps)
    ensures ParseLine(Scan(Render(Print(t), gaps))) == Ok(Meaning(t), [])
  {
    PrintFine(t);
    ScanRender(Print(t), gaps);
    LineBack(t, []);
    assert Print(t) + [] == Print(t);
  }

  // ---- words in the line

  datatype Range = Range(q: nat, e: nat)

  /** A maximal run of word characters. */
  ghost predicate WordAt(s: string, w: Range) {
    && w.q < w.e <= |s| && (forall i :: w.q <= i < w.e ==> IsWordChar(s[i]))
    && (w.e < |s| ==> !IsWordChar(s[w.e]))
  }

  function TextOf(s: string, w: Range): (t: string) {
    if w.q <= w.e <= |s| then s[w.q..w.e] else ""
  }

  function Texts(s: string, ws: seq<Range>): (ts: seq<string>)
    ensures |ts| == |ws| && forall i :: 0 <= i < |ws| ==> ts[i] == TextOf(s, ws[i])
  {
    seq(|ws|, i requires 0 <= i < |ws| => TextOf(s, ws[i]))
  }

  function RedirTexts(s: string, rs: seq<Redirection<Range>>): (ts: seq<Redirection<string>>)
    ensures |ts| == |rs| && forall i :: 0 <= i < |rs| ==> ts[i] == To(TextOf(s, rs[i].file), rs[i].mode)
  {
    seq(|rs|, i requires 0 <= i < |rs| => To(TextOf(s, rs[i].file), rs[i].mode))
  }

  /** The tree with the texts of its words. */
  function Named(s: string, c: Cmd<Range>): (d: Cmd<string>) {
    match c
    case Exec(args) => Exec(Texts(s, args))
    case Redir(b, file, mode) => Redir(Named(s, b), TextOf(s, file), mode)
    case Pipe(l, r) => Pipe(Named(s, l), Named(s, r))
    case List(l, r) => List(Named(s, l), Named(s, r))
    case Back(b) => Back(Named(s, b))
  }

  ghost predicate WordsOk(s: string, c: Cmd<Range>) {
    match c
    case Exec(args) => forall i :: 0 <= i < |args| ==> WordAt(s, args[i])
    case Redir(d, file, _) => WordsOk(s, d) && WordAt(s, file)
    case Pipe(l, r) => WordsOk(s, l) && WordsOk(s, r)
    case List(l, r) => WordsOk(s, l) && WordsOk(s, r)
    case Back(d) => WordsOk(s, d)
  }

  lemma {:induction false} NamedWrap(s: string, c: Cmd<Range>, rs: seq<Redirection<Range>>)
    requires WordsOk(s, c) && forall i :: 0 <= i < |rs| ==> WordAt(s, rs[i].file)
    ensures Named(s, Wrap(c, rs)) == Wrap(Named(s, c), RedirTexts(s, rs)) && WordsOk(s, Wrap(c, rs))
    decreases |rs|
  {
    if rs != [] {
      NamedWrap(s, Redir(c, rs[0].file, rs[0].mode), rs[1..]);
      assert RedirTexts(s, rs)[1..] == RedirTexts(s, rs[1..]);
    }
  }

  // ---- the lexer

  datatype Got = End | Got(t: Token)

  method SkipBlanks(s: string, p: nat) returns (r: nat)
    requires p <= |s|
    ensures p <= r <= |s| && s[r..] == Skip(s[p..])
  {
    r := p;
    while r < |s| && IsSpace(s[r])
      invariant p <= r <= |s| && Skip(s[r..]) == Skip(s[p..])
    {
      assert s[r..][1..] == s[r + 1..];
      r := r + 1;
    }
  }

  /** gettoken's switch: the token that starts at q and where it ends. */
  method TokenHere(s: string, q: nat) returns (t: Token, e: nat)
    requires q < |s| && !IsSpace(s[q])
    ensures q < e <= |s| && t == TokenAt(s[q..]) && e == q + TokenLen(s[q..])
    ensures t.Word? ==> WordAt(s, Range(q, e)) && t.w == s[q..e]
  {
    ghost var x := s[q..];
    assert x[0] == s[q] && (|x| >= 2 ==> x[1] == s[q + 1]);
    e := q + 1;
    if s[q] == '>' {
      t := Sym('>');
      if e < |s| && s[e] == '>' {
        t := Append;
        e := e + 1;
      }
    } else if IsSymbol(s[q]) {
      t := Sym(s[q]);
    } else {
      while e < |s| && !IsSpace(s[e]) && !IsSymbol(s[e])
        invariant q < e <= |s| && forall i :: q <= i < e ==> IsWordChar(s[i])
      {
        e := e + 1;
      }
      WordLenIs(s, q, e);
      t := Word(s[q..e]);
    }
  }

  /** gettoken: the next token, where its word lies, and the cursor behind it and
      behind the blanks that follow. */
  method Gettoken(s: string, p: nat) returns (t: Got, w: Range, r: nat)
    requires p <= |s|
    ensures p <= r <= |s|
    ensures t.End? ==> Scan(s[p..]) == [] && Scan(s[r..]) == []
    ensures t.Got? ==> Scan(s[p..]) == [t.t] + Scan(s[r..]) && p < r
    ensures t.Got? && t.t.Word? ==> WordAt(s, w) && t.t.w == TextOf(s, w)
  {
    hide TokenAt, TokenLen, WordLen, Skip;
    var q := SkipBlanks(s, p);
    SkipTwice(s[p..]);
    w := Range(q, q);
    if q == |s| {
      return End, w, q;
    }
    assert s[q..][0] == s[q];
    var tok, e := TokenHere(s, q);
    w := Range(q, e);
    r := SkipBlanks(s, e);
    SkipTwice(s[e..]);
    assert s[q..][e - q..] == s[e..];
    t := Got(tok);
  }

  lemma WordLenIs(s: string, q: nat, e: nat)
    requires q < e <= |s| && (forall i :: q <= i < e ==> IsWordChar(s[i])) && (e < |s| ==> !IsWordChar(s[e]))
    ensures WordLen(s[q..]) == e - q && s[q..][..e - q] == s[q..e]
  {
    assert forall i :: 0 <= i < |s[q..]| ==> s[q..][i] == s[q + i];
  }

  /** The character that peek looks at. */
  function First(t: Token): (c: char) {
    match t
    case Sym(c) => c
    case Append => '>'
    case Word(w) => if w == "" then ' ' else w[0]
  }

  /** peek: skip blanks and see whether one of toks comes next. */
  method Peek(s: string, p: nat, toks: string) returns (yes: bool, r: nat)
    requires p <= |s|
    ensures p <= r <= |s| && Scan(s[r..]) == Scan(s[p..])
    ensures yes <==> Scan(s[r..]) != [] && First(Scan(s[r..])[0]) in toks
    ensures r < |s| ==> Scan(s[r..]) != []
  {
    r := SkipBlanks(s, p);
    SkipTwice(s[p..]);
    yes := r < |s| && s[r] in toks;
    if r < |s| {
      assert s[r..][0] == s[r];
      FirstIs(s[r..]);
    }
  }

  lemma FirstIs(x: string)
    requires x != "" && !IsSpace(x[0])
    ensures First(TokenAt(x)) == x[0] && Skip(x) == x
  {
  }

  /** Words do not start like symbols. */
  lemma {:induction false} ScanFine(s: string)
    ensures forall i :: 0 <= i < |Scan(s)| ==> TokenOk(Scan(s)[i])
    decreases |s|
  {
    var r := Skip(s);
    if r != "" {
      ScanFine(r[TokenLen(r)..]);
    }
  }

  // ---- the parser

  function MoreRedirs(rs: seq<Redirection<string>>, p: Parsed<seq<Redirection<string>>>): (r: Parsed<seq<Redirection<string>>>) {
    match p
    case Fail => Fail
    case Ok(more, rest) => Ok(rs + more, rest)
  }

  ghost predicate RedirsOk(s: string, rs: seq<Redirection<Range>>) {
    forall i :: 0 <= i < |rs| ==> WordAt(s, rs[i].file)
  }

  /** One round of parseredirs: the symbol and the file name after it. */
  method RedirStep(s: string, p: nat) returns (ok: bool, one: Redirection<Range>, r: nat)
    requires p <= |s| && Scan(s[p..]) != [] && IsRedir(Scan(s[p..])[0])
    ensures p <= r <= |s| && (ok ==> p < r && WordAt(s, one.file))
    ensures Redirs(Scan(s[p..])) == if ok then MoreRedirs([To(TextOf(s, one.file), one.mode)], Redirs(Scan(s[r..]))) else Fail
  {
    hide Scan;
    ghost var here := Scan(s[p..]);
    var t, w, t2, w2;
    t, w, r := Gettoken(s, p);
    ghost var next := Scan(s[r..]);
    t2, w2, r := Gettoken(s, r);
    one := To(w2, ModeOf(t.t));
    assert here == [t.t] + next;
    ok := t2.Got? && t2.t.Word?;
    if ok {
      assert here[2..] == Scan(s[r..]);
    }
  }

  /** parseredirs. */
  method ParseRedirs(s: string, p: nat) returns (ok: bool, rs: seq<Redirection<Range>>, r: nat)
    requires p <= |s|
    ensures p <= r <= |s| && RedirsOk(s, rs)
    ensures Redirs(Scan(s[p..])) == if ok then Ok(RedirTexts(s, rs), Scan(s[r..])) else Fail
  {
    hide Scan;
    ghost var ts := Scan(s[p..]);
    rs, r := [], p;
    assert RedirTexts(s, []) == [];
    MoreNone(Redirs(ts));
    var more;
    more, r := Peek(s, r, "<>");
    ScanFine(s[p..]);
    while more
      invariant p <= r <= |s| && RedirsOk(s, rs)
      invariant Redirs(ts) == MoreRedirs(RedirTexts(s, rs), Redirs(Scan(s[r..])))
      invariant more <==> Scan(s[r..]) != [] && IsRedir(Scan(s[r..])[0])
      decreases |s| - r
    {
      hide Redirs;
      ghost var before := RedirTexts(s, rs);
      var one;
      ok, one, r := RedirStep(s, r);
      if !ok {
        return;
      }
      rs := rs + [one];
      assert RedirTexts(s, rs) == before + [To(TextOf(s, one.file), one.mode)];
      MoreStep(before, To(TextOf(s, one.file), one.mode), Redirs(Scan(s[r..])));
      ScanFine(s[r..]);
      more, r := Peek(s, r, "<>");
    }
    ok := true;
    assert RedirTexts(s, rs) + [] == RedirTexts(s, rs);
  }

  lemma MoreNone(p: Parsed<seq<Redirection<string>>>)
    ensures MoreRedirs([], p) == p
  {
    if p.Ok? {
      assert [] + p.value == p.value;
    }
  }

  lemma MoreStep(rs: seq<Redirection<string>>, one: Redirection<string>, p: Parsed<seq<Redirection<string>>>)
    ensures MoreRedirs(rs, MoreRedirs([one], p)) == MoreRedirs(rs + [one], p)
  {
    if p.Ok? {
      assert rs + ([one] + p.value) == rs + [one] + p.value;
    }
  }

  function MoreArgs(a: seq<string>, rs: seq<Redirection<string>>, p: Parsed<(seq<string>, seq<Redirection<string>>)>)
    : (r: Parsed<(seq<string>, seq<Redirection<string>>)>)
  {
    match p
    case Fail => Fail
    case Ok(more, rest) => Ok((a + more.0, rs + more.1), rest)
  }

  lemma MoreArgsNone(p: Parsed<(seq<string>, seq<Redirection<string>>)>)
    ensures MoreArgs([], [], p) == p
  {
    if p.Ok? {
      assert [] + p.value.0 == p.value.0 && [] + p.value.1 == p.value.1;
    }
  }

  lemma MoreArgsFail(a: seq<string>, rs: seq<Redirection<string>>)
    ensures MoreArgs(a, rs, Fail) == Fail
  {
  }

  /** One more argument, and the redirections behind it. */
  lemma MoreArgsStep(s: string, args: seq<Range>, rs: seq<Redirection<Range>>, w: Range, more: seq<Redirection<Range>>,
                     p: Parsed<(seq<string>, seq<Redirection<string>>)>)
    requires RedirsOk(s, rs) && RedirsOk(s, more) && WordAt(s, w) && forall i :: 0 <= i < |args| ==> WordAt(s, args[i])
    ensures RedirsOk(s, rs + more) && forall i :: 0 <= i < |args + [w]| ==> WordAt(s, (args + [w])[i])
    ensures MoreArgs(Texts(s, args), RedirTexts(s, rs), MoreArgs([TextOf(s, w)], RedirTexts(s, more), p))
         == MoreArgs(Texts(s, args + [w]), RedirTexts(s, rs + more), p)
  {
    var a, b := Texts(s, args), RedirTexts(s, rs);
    assert Texts(s, args + [w]) == a + [TextOf(s, w)];
    assert RedirTexts(s, rs + more) == b + RedirTexts(s, more);
    if p.Ok? {
      assert a + ([TextOf(s, w)] + p.value.0) == a + [TextOf(s, w)] + p.value.0;
      assert b + (RedirTexts(s, more) + p.value.1) == b + RedirTexts(s, more) + p.value.1;
    }
  }

  /** One round of parseexec's loop: an argument and the redirections after it. */
  method ArgStep(s: string, p: nat, n: nat) returns (ok: bool, w: Range, rs: seq<Redirection<Range>>, r: nat)
    requires p <= |s| && Scan(s[p..]) != [] && !IsStop(Scan(s[p..])[0])
    ensures p <= r <= |s| && (ok ==> p < r && WordAt(s, w) && RedirsOk(s, rs) && n + 1 < MAXARGS)
    ensures Args(Scan(s[p..]), n) == if ok then MoreArgs([TextOf(s, w)], RedirTexts(s, rs), Args(Scan(s[r..]), n + 1)) else Fail
  {
    hide Scan, Redirs;
    ghost var here := Scan(s[p..]);
    var t;
    t, w, r := Gettoken(s, p);
    rs := [];
    assert here[1..] == Scan(s[r..]);
    if !t.t.Word? || n + 1 >= MAXARGS {
      return false, w, rs, r;
    }
    ok, rs, r := ParseRedirs(s, r);
  }

  /** parseexec's loop over the arguments. */
  method ParseArgs(s: string, p: nat) returns (ok: bool, args: seq<Range>, rs: seq<Redirection<Range>>, r: nat)
    requires p <= |s|
    ensures p <= r <= |s| && RedirsOk(s, rs) && forall i :: 0 <= i < |args| ==> WordAt(s, args[i])
    ensures Args(Scan(s[p..]), 0) == if ok then Ok((Texts(s, args), RedirTexts(s, rs)), Scan(s[r..])) else Fail
  {
    hide Scan, Args, MoreArgs, RedirsOk;
    ghost var ts := Scan(s[p..]);
    args, rs, r := [], [], p;
    assert Texts(s, []) == [] && RedirTexts(s, []) == [] && RedirsOk(s, []) by { NoRedirs(s); }
    MoreArgsNone(Args(ts, 0));
    ScanFine(s[p..]);
    var stop;
    stop, r := Peek(s, r, "|)&;");
    ok := true;
    while !stop && r < |s|
      invariant p <= r <= |s| && RedirsOk(s, rs) && (forall i :: 0 <= i < |args| ==> WordAt(s, args[i]))
      invariant Args(ts, 0) == MoreArgs(Texts(s, args), RedirTexts(s, rs), Args(Scan(s[r..]), |args|))
      invariant stop <==> Scan(s[r..]) != [] && IsStop(Scan(s[r..])[0])
      invariant r < |s| ==> Scan(s[r..]) != []
      decreases |s| - r
    {
      var w, more;
      ok, w, more, r := ArgStep(s, r, |args|);
      if !ok {
        MoreArgsFail(Texts(s, args), RedirTexts(s, rs));
        return;
      }
      MoreArgsStep(s, args, rs, w, more, Args(Scan(s[r..]), |args| + 1));
      args, rs := args + [w], rs + more;
      ScanFine(s[r..]);
      stop, r := Peek(s, r, "|)&;");
    }
    assert r == |s| ==> Scan(s[r..]) == [] by { ScanEmpty(); assert r == |s| ==> s[r..] == ""; }
    ArgsDone(Texts(s, args), RedirTexts(s, rs), Scan(s[r..]), |args|);
  }

  lemma NoRedirs(s: string)
    ensures RedirsOk(s, []) && RedirTexts(s, []) == []
  {
  }

  lemma ArgsDone(a: seq<string>, rs: seq<Redirection<string>>, ts: seq<Token>, n: nat)
    requires ts == [] || IsStop(ts[0])
    ensures MoreArgs(a, rs, Args(ts, n)) == Ok((a, rs), ts)
  {
    assert a + [] == a && rs + [] == rs;
  }

  lemma ScanEmpty()
    ensures Scan("") == []
  {
  }

  /** The result of a parsing method, in terms of the grammar. */
  ghost predicate Agrees(s: string, ok: bool, c: Cmd<Range>, r: nat, p: Parsed<Cmd<string>>) {
    && r <= |s| && (ok ==> WordsOk(s, c))
    && p == if ok then Ok(Named(s, c), Scan(s[r..])) else Fail
  }

  method DoParseExec(s: string, p: nat) returns (ok: bool, c: Cmd<Range>, r: nat)
    requires p <= |s|
    ensures p <= r && Agrees(s, ok, c, r, ParseExec(Scan(s[p..])))
    decreases |s| - p, 1
  {
    hide Scan, ParseSimple, ParseBlock, Named, WordsOk;
    var block;
    ScanFine(s[p..]);
    block, r := Peek(s, p, "(");
    if block {
      ok, c, r := DoParseBlock(s, r);
    } else {
      ok, c, r := DoParseSimple(s, r);
    }
  }

  method DoParseSimple(s: string, p: nat) returns (ok: bool, c: Cmd<Range>, r: nat)
    requires p <= |s|
    ensures p <= r && Agrees(s, ok, c, r, ParseSimple(Scan(s[p..])))
  {
    hide Scan, Redirs, Args, Wrap;
    var rs, args, more;
    c := Exec([]);
    ok, rs, r := ParseRedirs(s, p);
    if !ok {
      return;
    }
    ok, args, more, r := ParseArgs(s, r);
    if ok {
      c := Wrap(Exec(args), rs + more);
      NamedWrap(s, Exec(args), rs + more);
      assert RedirTexts(s, rs + more) == RedirTexts(s, rs) + RedirTexts(s, more);
    }
  }

  method DoParseBlock(s: string, p: nat) returns (ok: bool, c: Cmd<Range>, r: nat)
    requires p <= |s| && StartsWith(Scan(s[p..]), '(')
    ensures p <= r && Agrees(s, ok, c, r, ParseBlock(Scan(s[p..])))
    decreases |s| - p, 0
  {
    hide Scan, Redirs, ParseLine;
    ghost var here := Scan(s[p..]);
    var t, w, closed;
    t, w, r := Gettoken(s, p);
    assert here[1..] == Scan(s[r..]);
    ok, c, r := DoParseLine(s, r);
    if !ok {
      return;
    }
    ScanFine(s[r..]);
    closed, r := Peek(s, r, ")");
    if !closed {
      return false, c, r;
    }
    ghost var after := Scan(s[r..]);
    t, w, r := Gettoken(s, r);
    assert after[1..] == Scan(s[r..]);
    var rs;
    ok, rs, r := ParseRedirs(s, r);
    if ok {
      NamedWrap(s, c, rs);
      c := Wrap(c, rs);
    }
  }

  method DoParsePipe(s: string, p: nat) returns (ok: bool, c: Cmd<Range>, r: nat)
    requires p <= |s|
    ensures p <= r && Agrees(s, ok, c, r, ParsePipe(Scan(s[p..])))
    decreases |s| - p, 2
  {
    hide Scan, ParseExec;
    ok, c, r := DoParseExec(s, p);
    if !ok {
      return;
    }
    ScanFine(s[r..]);
    var more;
    more, r := Peek(s, r, "|");
    if more {
      ghost var after := Scan(s[r..]);
      var t, w, d;
      t, w, r := Gettoken(s, r);
      assert after[1..] == Scan(s[r..]);
      ok, d, r := DoParsePipe(s, r);
      c := Pipe(c, d);
    }
  }

  method DoParseLine(s: string, p: nat) returns (ok: bool, c: Cmd<Range>, r: nat)
    requires p <= |s|
    ensures p <= r && Agrees(s, ok, c, r, ParseLine(Scan(s[p..])))
    decreases |s| - p, 3
  {
    hide Scan, ParsePipe;
    ok, c, r := DoParsePipe(s, p);
    if !ok {
      return;
    }
    ghost var c0, t0 := Named(s, c), Scan(s[r..]);
    ScanFine(s[r..]);
    var more;
    more, r := Peek(s, r, "&");
    while more
      invariant p <= r <= |s| && WordsOk(s, c) && Backs(Named(s, c), Scan(s[r..])) == Backs(c0, t0)
      invariant more <==> StartsWith(Scan(s[r..]), '&')
      decreases |s| - r
    {
      ghost var after := Scan(s[r..]);
      var t, w;
      t, w, r := Gettoken(s, r);
      assert after[1..] == Scan(s[r..]);
      c := Back(c);
      ScanFine(s[r..]);
      more, r := Peek(s, r, "&");
    }
    ScanFine(s[r..]);
    more, r := Peek(s, r, ";");
    if more {
      ghost var after := Scan(s[r..]);
      var t, w, d;
      t, w, r := Gettoken(s, r);
      assert after[1..] == Scan(s[r..]);
      ok, d, r := DoParseLine(s, r);
      c := List(c, d);
    }
  }

  // ---- cutting the words out

  function WordsOf(c: Cmd<Range>): (ws: set<Range>) {
    match c
    case Exec(args) => set w | w in args
    case Redir(d, file, _) => WordsOf(d) + {file}
    case Pipe(l, r) => WordsOf(l) + WordsOf(r)
    case List(l, r) => WordsOf(l) + WordsOf(r)
    case Back(d) => WordsOf(d)
  }

  ghost predicate EndsAt(c: Cmd<Range>, i: nat) {
    exists w :: w in WordsOf(c) && w.e == i
  }

  lemma {:induction false} WordsAreOk(s: string, c: Cmd<Range>)
    requires WordsOk(s, c)
    ensures forall w :: w in WordsOf(c) ==> WordAt(s, w)
  {
    match c
    case Exec(args) =>
    case Redir(d, file, _) => WordsAreOk(s, d);
    case Pipe(l, r) =>
      WordsAreOk(s, l);
      WordsAreOk(s, r);
    case List(l, r) =>
      WordsAreOk(s, l);
      WordsAreOk(s, r);
    case Back(d) => WordsAreOk(s, d);
  }

  /** A word never ends inside another. */
  lemma EndsOutside(s: string, v: Range, w: Range)
    requires WordAt(s, v) && WordAt(s, w)
    ensures !(v.q <= w.e < v.e)
  {
  }

  /** nulterminate: a NUL behind every word, and nothing else. */
  method Nulterminate(buf: array<char>, c: Cmd<Range>)
    requires forall w :: w in WordsOf(c) ==> w.e < buf.Length
    modifies buf
    ensures forall i :: 0 <= i < buf.Length ==> buf[i] == if EndsAt(c, i) then NUL else old(buf[i])
    decreases c
  {
    match c
    case Exec(args) =>
      var i := 0;
      while i < |args|
        invariant i <= |args|
        invariant forall k :: 0 <= k < buf.Length ==> buf[k] == if (exists j :: 0 <= j < i && args[j].e == k) then NUL else old(buf[k])
      {
        assert args[i] in WordsOf(c);
        buf[args[i].e] := NUL;
        i := i + 1;
      }
      ExecEnds(args);
    case Redir(d, file, mode) =>
      Nulterminate(buf, d);
      buf[file.e] := NUL;
      RedirEnds(d, file, mode);
    case Pipe(l, r) =>
      Nulterminate(buf, l);
      Nulterminate(buf, r);
      BothEnds(l, r);
    case List(l, r) =>
      Nulterminate(buf, l);
      Nulterminate(buf, r);
      BothEnds(l, r);
    case Back(d) =>
      Nulterminate(buf, d);
      assert WordsOf(c) == WordsOf(d);
  }

  lemma ExecEnds(args: seq<Range>)
    ensures forall k: nat :: EndsAt(Exec(args), k) <==> exists j :: 0 <= j < |args| && args[j].e == k
  {
    forall k: nat
      ensures EndsAt(Exec(args), k) <==> exists j :: 0 <= j < |args| && args[j].e == k
    {
      if EndsAt(Exec(args), k) {
        var w :| w in WordsOf(Exec(args)) && w.e == k;
        var j :| 0 <= j < |args| && args[j] == w;
      }
      if j :| 0 <= j < |args| && args[j].e == k {
        assert args[j] in WordsOf(Exec(args));
      }
    }
  }

  lemma RedirEnds(d: Cmd<Range>, file: Range, mode: Mode)
    ensures forall k: nat :: EndsAt(Redir(d, file, mode), k) <==> EndsAt(d, k) || k == file.e
  {
    forall k: nat
      ensures EndsAt(Redir(d, file, mode), k) <==> EndsAt(d, k) || k == file.e
    {
      if EndsAt(d, k) {
        var w :| w in WordsOf(d) && w.e == k;
        assert w in WordsOf(Redir(d, file, mode));
      }
      assert file in WordsOf(Redir(d, file, mode));
    }
  }

  lemma BothEnds(l: Cmd<Range>, r: Cmd<Range>)
    ensures forall k: nat :: EndsAt(Pipe(l, r), k) <==> EndsAt(l, k) || EndsAt(r, k)
    ensures forall k: nat :: EndsAt(List(l, r), k) <==> EndsAt(l, k) || EndsAt(r, k)
  {
    assert forall w :: w in WordsOf(Pipe(l, r)) <==> w in WordsOf(l) || w in WordsOf(r);
    assert forall w :: w in WordsOf(List(l, r)) <==> w in WordsOf(l) || w in WordsOf(r);
  }

  /** The C string that starts at q. */
  ghost function StringAt(b: string, q: nat): (t: string)
    decreases |b| - q
  {
    if q < |b| && b[q] != NUL then [b[q]] + StringAt(b, q + 1) else ""
  }

  /** The tree with its words as the C strings that start where they do. */
  ghost function AsRead(b: string, c: Cmd<Range>): (d: Cmd<string>) {
    match c
    case Exec(args) => Exec(seq(|args|, i requires 0 <= i < |args| => StringAt(b, args[i].q)))
    case Redir(e, file, mode) => Redir(AsRead(b, e), StringAt(b, file.q), mode)
    case Pipe(l, r) => Pipe(AsRead(b, l), AsRead(b, r))
    case List(l, r) => List(AsRead(b, l), AsRead(b, r))
    case Back(e) => Back(AsRead(b, e))
  }

  /** Word w of s stands in b as a C string. */
  ghost predicate CutOut(b: string, s: string, w: Range) {
    w.q <= w.e < |b| && w.e <= |s| && b[w.q..w.e] == s[w.q..w.e] && b[w.e] == NUL && NUL !in b[w.q..w.e]
  }

  lemma {:induction false} StringAtIs(b: string, q: nat, e: nat)
    requires q <= e < |b| && b[e] == NUL && NUL !in b[q..e]
    ensures StringAt(b, q) == b[q..e]
    decreases e - q
  {
    if q < e {
      assert b[q] == b[q..e][0];
      assert b[q + 1..e] == b[q..e][1..];
      StringAtIs(b, q + 1, e);
      assert b[q..e] == [b[q]] + b[q + 1..e];
    }
  }

  lemma {:induction false} AsReadIs(b: string, s: string, c: Cmd<Range>)
    requires forall w :: w in WordsOf(c) ==> CutOut(b, s, w)
    ensures AsRead(b, c) == Named(s, c)
  {
    match c
    case Exec(args) =>
      forall i | 0 <= i < |args|
        ensures StringAt(b, args[i].q) == TextOf(s, args[i])
      {
        assert args[i] in WordsOf(c);
        StringAtIs(b, args[i].q, args[i].e);
      }
      assert AsRead(b, c).args == Named(s, c).args;
    case Redir(e, file, mode) =>
      assert file in WordsOf(c);
      StringAtIs(b, file.q, file.e);
      AsReadIs(b, s, e);
    case Pipe(l, r) =>
      AsReadIs(b, s, l);
      AsReadIs(b, s, r);
    case List(l, r) =>
      AsReadIs(b, s, l);
      AsReadIs(b, s, r);
    case Back(e) =>
      AsReadIs(b, s, e);
  }

  /** parsecmd on a line of n characters: the tree of the grammar, or a syntax
      error; and behind each word of the tree, which is still where it was, the
      line now has a NUL. */
  method ParseCmd(buf: array<char>, n: nat) returns (ok: bool, c: Cmd<Range>)
    requires n < buf.Length && buf[n] == NUL && NUL !in buf[..n]
    modifies buf
    ensures ok <==> ParseLine(Scan(old(buf[..n]))).Ok? && ParseLine(Scan(old(buf[..n]))).rest == []
    ensures !ok ==> buf[..] == old(buf[..])
    ensures ok ==> ParseLine(Scan(old(buf[..n]))) == Ok(Named(old(buf[..n]), c), [])
    ensures ok ==> forall w :: w in WordsOf(c) ==>
              w.q < w.e < buf.Length && buf[w.q..w.e] == old(buf[w.q..w.e]) && buf[w.e] == NUL && NUL !in buf[w.q..w.e]
    ensures ok ==> ParseLine(Scan(old(buf[..n]))) == Ok(AsRead(buf[..], c), [])
  {
    hide Scan, ParseLine, AsRead, Named;
    var s := buf[..n];
    var r;
    ok, c, r := DoParseLine(s, 0);
    assert s[0..] == s;
    if !ok {
      return;
    }
    var some;
    some, r := Peek(s, r, "");
    if r != |s| {
      return false, c;
    }
    assert s[r..] == "";
    ScanEmpty();
    WordsAreOk(s, c);
    Nulterminate(buf, c);
    forall w | w in WordsOf(c)
      ensures w.q < w.e < buf.Length && buf[w.q..w.e] == old(buf[w.q..w.e]) && buf[w.e] == NUL && NUL !in buf[w.q..w.e]
    {
      assert EndsAt(c, w.e);
      forall i | w.q <= i < w.e
        ensures buf[i] == old(buf[i]) == s[i]
      {
        forall v | v in WordsOf(c)
          ensures v.e != i
        {
          EndsOutside(s, w, v);
        }
      }
    }
    forall w | w in WordsOf(c)
      ensures CutOut(buf[..], s, w)
    {
      assert buf[..][w.q..w.e] == buf[w.q..w.e];
    }
    AsReadIs(buf[..], s, c);
  }
}
