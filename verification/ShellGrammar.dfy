/** The shell's command language on tokens: what the recursive-descent parser
    computes, and a printer that it inverts. */
module ShellGrammar {

  const MAXARGS := 10

  datatype Mode = Input | Output

  /** W is a word: its text, or where it lies in the line. */
  datatype Cmd<W> =
    | Exec(args: seq<W>)
    | Redir(cmd: Cmd<W>, file: W, mode: Mode)
    | Pipe(left: Cmd<W>, right: Cmd<W>)
    | List(left: Cmd<W>, right: Cmd<W>)
    | Back(cmd: Cmd<W>)

  datatype Token = Sym(c: char) | Append | Word(w: string)

  datatype Redirection<W> = To(file: W, mode: Mode)

  datatype Parsed<T> = Fail | Ok(value: T, rest: seq<Token>)

  predicate StartsWith(ts: seq<Token>, c: char) {
    ts != [] && ts[0] == Sym(c)
  }

  predicate IsRedir(t: Token) {
    t == Sym('<') || t == Sym('>') || t == Append
  }

  function ModeOf(t: Token): (m: Mode) {
    if t == Sym('<') then Input else Output
  }

  /** What ends the arguments of a command. */
  predicate IsStop(t: Token) {
    t == Sym('|') || t == Sym(')') || t == Sym('&') || t == Sym(';')
  }

  /** Redirections around a command, the first one innermost. */
  function Wrap<W>(c: Cmd<W>, rs: seq<Redirection<W>>): (r: Cmd<W>)
    decreases |rs|
  {
    if rs == [] then c else Wrap(Redir(c, rs[0].file, rs[0].mode), rs[1..])
  }

  // ---- the parser

  function Redirs(ts: seq<Token>): (p: Parsed<seq<Redirection<string>>>)
    ensures p.Ok? ==> |p.rest| <= |ts|
    decreases |ts|
  {
    if ts != [] && IsRedir(ts[0]) then
      if |ts| >= 2 && ts[1].Word? then
        match Redirs(ts[2..])
        case Ok(rs, rest) => Ok([To(ts[1].w, ModeOf(ts[0]))] + rs, rest)
        case Fail => Fail
      else Fail
    else Ok([], ts)
  }

  /** The arguments of a command that has n already, and the redirections among
      them. */
  function Args(ts: seq<Token>, n: nat): (p: Parsed<(seq<string>, seq<Redirection<string>>)>)
    ensures p.Ok? ==> |p.rest| <= |ts|
    decreases |ts|
  {
    if ts == [] || IsStop(ts[0]) then Ok(([], []), ts)
    else if !ts[0].Word? || n + 1 >= MAXARGS then Fail
    else
      match Redirs(ts[1..])
      case Fail => Fail
      case Ok(rs, rest) =>
        match Args(rest, n + 1)
        case Fail => Fail
        case Ok(more, end) => Ok(([ts[0].w] + more.0, rs + more.1), end)
  }

  /** A command with its arguments and redirections. */
  function ParseSimple(ts: seq<Token>): (p: Parsed<Cmd<string>>)
    ensures p.Ok? ==> |p.rest| <= |ts|
  {
    match Redirs(ts)
    case Fail => Fail
    case Ok(rs, rest) =>
      match Args(rest, 0)
      case Fail => Fail
      case Ok(more, end) => Ok(Wrap(Exec(more.0), rs + more.1), end)
  }

  function ParseExec(ts: seq<Token>): (p: Parsed<Cmd<string>>)
    ensures p.Ok? ==> |p.rest| <= |ts|
    decreases |ts|, 1
  {
    if StartsWith(ts, '(') then ParseBlock(ts) else ParseSimple(ts)
  }

  function ParseBlock(ts: seq<Token>): (p: Parsed<Cmd<string>>)
    requires StartsWith(ts, '(')
    ensures p.Ok? ==> |p.rest| < |ts|
    decreases |ts|, 0
  {
    match ParseLine(ts[1..])
    case Fail => Fail
    case Ok(c, rest) =>
      if !StartsWith(rest, ')') then Fail
      else
        match Redirs(rest[1..])
        case Fail => Fail
        case Ok(rs, end) => Ok(Wrap(c, rs), end)
  }

  function ParsePipe(ts: seq<Token>): (p: Parsed<Cmd<string>>)
    ensures p.Ok? ==> |p.rest| <= |ts|
    decreases |ts|, 2
  {
    match ParseExec(ts)
    case Fail => Fail
    case Ok(c, rest) =>
      if !StartsWith(rest, '|') then Ok(c, rest)
      else
        match ParsePipe(rest[1..])
        case Fail => Fail
        case Ok(d, end) => Ok(Pipe(c, d), end)
  }

  /** One Back for each '&' that follows. */
  function Backs(c: Cmd<string>, ts: seq<Token>): (r: (Cmd<string>, seq<Token>))
    ensures |r.1| <= |ts|
    decreases |ts|
  {
    if StartsWith(ts, '&') then Backs(Back(c), ts[1..]) else (c, ts)
  }

  function ParseLine(ts: seq<Token>): (p: Parsed<Cmd<string>>)
    ensures p.Ok? ==> |p.rest| <= |ts|
    decreases |ts|, 3
  {
    match ParsePipe(ts)
    case Fail => Fail
    case Ok(c, rest) =>
      var (b, after) := Backs(c, rest);
      if !StartsWith(after, ';') then Ok(b, after)
      else
        match ParseLine(after[1..])
        case Fail => Fail
        case Ok(d, end) => Ok(List(b, d), end)
  }

  // ---- how a command may be written

  const EXEC := 0
  const PIPE := 1
  const BACK := 2
  const LINE := 3

  /** An argument, or a redirection with '<', '>' or '>>'. */
  datatype Item = Arg(w: string) | From(file: string) | Into(file: string) | Onto(file: string)

  /** A command as it stands in a line: arguments and redirections in any order,
      parentheses wherever they may be. */
  datatype Text =
    | Simple(items: seq<Item>)
    | Group(line: Text, redirs: seq<Item>)
    | Piped(left: Text, right: Text)
    | Behind(cmd: Text)
    | Then(left: Text, right: Text)

  function ItemTokens(i: Item): (ts: seq<Token>) {
    match i
    case Arg(w) => [Word(w)]
    case From(file) => [Sym('<'), Word(file)]
    case Into(file) => [Sym('>'), Word(file)]
    case Onto(file) => [Append, Word(file)]
  }

  function Spelled(items: seq<Item>): (ts: seq<Token>) {
    if items == [] then [] else ItemTokens(items[0]) + Spelled(items[1..])
  }

  /** The tokens of a written command. */
  function Print(t: Text): (ts: seq<Token>) {
    match t
    case Simple(items) => Spelled(items)
    case Group(line, redirs) => [Sym('(')] + Print(line) + [Sym(')')] + Spelled(redirs)
    case Piped(l, r) => Print(l) + [Sym('|')] + Print(r)
    case Behind(d) => Print(d) + [Sym('&')]
    case Then(l, r) => Print(l) + [Sym(';')] + Print(r)
  }

  function ArgsOf(items: seq<Item>): (ws: seq<string>) {
    if items == [] then [] else (if items[0].Arg? then [items[0].w] else []) + ArgsOf(items[1..])
  }

  ghost predicate NoArgs(items: seq<Item>) {
    forall i :: 0 <= i < |items| ==> !items[i].Arg?
  }

  /** What may stand at which level of the grammar, and how many arguments a
      command has room for. */
  ghost predicate WellFormed(t: Text, level: nat) {
    match t
    case Simple(items) => |ArgsOf(items)| < MAXARGS
    case Group(line, redirs) => WellFormed(line, LINE) && NoArgs(redirs)
    case Piped(l, r) => level >= PIPE && WellFormed(l, EXEC) && WellFormed(r, PIPE)
    case Behind(d) => level >= BACK && WellFormed(d, BACK)
    case Then(l, r) => level >= LINE && WellFormed(l, BACK) && WellFormed(r, LINE)
  }

  /** A command under redirections, the last of which is the outermost: '<' is for
      input, '>' and '>>' are for output. */
  function Under(c: Cmd<string>, items: seq<Item>): (r: Cmd<string>) {
    if items == [] then c
    else
      var d := Under(c, items[..|items| - 1]);
      match items[|items| - 1]
      case Arg(_) => d
      case From(file) => Redir(d, file, Input)
      case Into(file) => Redir(d, file, Output)
      case Onto(file) => Redir(d, file, Output)
  }

  /** What a written command means. */
  function Meaning(t: Text): (c: Cmd<string>) {
    match t
    case Simple(items) => Under(Exec(ArgsOf(items)), items)
    case Group(line, redirs) => Under(Meaning(line), redirs)
    case Piped(l, r) => Pipe(Meaning(l), Meaning(r))
    case Behind(d) => Back(Meaning(d))
    case Then(l, r) => List(Meaning(l), Meaning(r))
  }

  // ---- the parser on written commands

  function RedirOf(i: Item): (r: Redirection<string>)
    requires !i.Arg?
  {
    match i
    case From(file) => To(file, Input)
    case Into(file) => To(file, Output)
    case Onto(file) => To(file, Output)
  }

  function RedirsOf(items: seq<Item>): (rs: seq<Redirection<string>>) {
    if items == [] then [] else (if items[0].Arg? then [] else [RedirOf(items[0])]) + RedirsOf(items[1..])
  }

  lemma {:induction false} SpelledJoin(a: seq<Item>, b: seq<Item>)
    ensures Spelled(a + b) == Spelled(a) + Spelled(b)
  {
    if a == [] {
      assert a + b == b;
    } else {
      assert (a + b)[1..] == a[1..] + b;
      SpelledJoin(a[1..], b);
    }
  }

  lemma {:induction false} ArgsJoin(a: seq<Item>, b: seq<Item>)
    ensures ArgsOf(a + b) == ArgsOf(a) + ArgsOf(b)
  {
    if a == [] {
      assert a + b == b;
    } else {
      assert (a + b)[1..] == a[1..] + b;
      ArgsJoin(a[1..], b);
    }
  }

  lemma {:induction false} RedirsJoin(a: seq<Item>, b: seq<Item>)
    ensures RedirsOf(a + b) == RedirsOf(a) + RedirsOf(b)
  {
    if a == [] {
      assert a + b == b;
    } else {
      assert (a + b)[1..] == a[1..] + b;
      RedirsJoin(a[1..], b);
    }
  }

  lemma OneItem(i: Item)
    ensures Spelled([i]) == ItemTokens(i) && ArgsOf([i]) == (if i.Arg? then [i.w] else [])
    ensures RedirsOf([i]) == if i.Arg? then [] else [RedirOf(i)]
  {
    assert [i][1..] == [];
    assert ItemTokens(i) + Spelled([]) == ItemTokens(i);
  }

  lemma {:induction false} WrapLast<W>(c: Cmd<W>, rs: seq<Redirection<W>>, r: Redirection<W>)
    ensures Wrap(c, rs + [r]) == Redir(Wrap(c, rs), r.file, r.mode)
    decreases |rs|
  {
    if rs == [] {
      assert [r][1..] == [];
      assert rs + [r] == [r];
    } else {
      assert (rs + [r])[1..] == rs[1..] + [r];
      WrapLast(Redir(c, rs[0].file, rs[0].mode), rs[1..], r);
    }
  }

  /** The parser's way of wrapping and the meaning agree. */
  lemma {:induction false} UnderIsWrap(c: Cmd<string>, items: seq<Item>)
    ensures Under(c, items) == Wrap(c, RedirsOf(items))
    decreases |items|
  {
    if items != [] {
      var init, last := items[..|items| - 1], items[|items| - 1];
      UnderIsWrap(c, init);
      assert items == init + [last];
      RedirsJoin(init, [last]);
      OneItem(last);
      if last.Arg? {
        assert RedirsOf(init) + [] == RedirsOf(init);
      } else {
        WrapLast(c, RedirsOf(init), RedirOf(last));
      }
    }
  }

  /** How many of the items are redirections before the first argument. */
  function Lead(items: seq<Item>): (n: nat)
    ensures n <= |items| && (n < |items| ==> items[n].Arg?) && forall i :: 0 <= i < n ==> !items[i].Arg?
  {
    if items == [] || items[0].Arg? then 0
    else
      var n := Lead(items[1..]) + 1;
      assert forall i :: 1 <= i < n ==> items[i] == items[1..][i - 1];
      n
  }

  lemma RedirsStep(i: Item, ts: seq<Token>)
    requires !i.Arg? && Redirs(ts).Ok?
    ensures Redirs(ItemTokens(i) + ts) == Ok([RedirOf(i)] + Redirs(ts).value, Redirs(ts).rest)
  {
    var all := ItemTokens(i) + ts;
    assert all[0] == ItemTokens(i)[0] && all[1] == Word(i.file) && all[2..] == ts;
  }

  lemma NoRedirs(ts: seq<Token>)
    requires ts != [] ==> !IsRedir(ts[0])
    ensures Redirs(ts) == Ok([], ts)
  {
  }

  lemma Assoc(a: seq<Token>, b: seq<Token>, c: seq<Token>)
    ensures (a + b) + c == a + (b + c)
  {
  }

  lemma Join(a: seq<Token>, c: char, b: seq<Token>, k: seq<Token>)
    ensures a + [Sym(c)] + b + k == a + ([Sym(c)] + (b + k))
  {
  }

  lemma SpelledFirst(items: seq<Item>, k: seq<Token>)
    requires items != []
    ensures (Spelled(items) + k) != [] && (Spelled(items) + k)[0] == ItemTokens(items[0])[0]
    ensures Spelled(items) + k == ItemTokens(items[0]) + (Spelled(items[1..]) + k)
  {
    Assoc(ItemTokens(items[0]), Spelled(items[1..]), k);
    hide Spelled;
  }

  lemma {:induction false} RedirsLead(items: seq<Item>, k: seq<Token>)
    requires k != [] ==> !IsRedir(k[0])
    ensures Redirs(Spelled(items) + k) == Ok(RedirsOf(items[..Lead(items)]), Spelled(items[Lead(items)..]) + k)
    decreases |items|
  {
    hide Redirs;
    if items == [] {
      assert Spelled(items) + k == k;
      NoRedirs(k);
    } else {
      SpelledFirst(items, k);
      if items[0].Arg? {
        NoRedirs(Spelled(items) + k);
        assert items[..0] == [] && items[0..] == items;
      } else {
        var n := Lead(items[1..]);
        RedirsLead(items[1..], k);
        RedirsStep(items[0], Spelled(items[1..]) + k);
        assert items[..n + 1][1..] == items[1..][..n] && items[n + 1..] == items[1..][n..];
      }
    }
  }

  lemma ArgsStep(w: string, ts: seq<Token>, n: nat)
    requires n + 1 < MAXARGS && Redirs(ts).Ok? && Args(Redirs(ts).rest, n + 1).Ok?
    ensures var more := Args(Redirs(ts).rest, n + 1);
            Args([Word(w)] + ts, n) == Ok(([w] + more.value.0, Redirs(ts).value + more.value.1), more.rest)
  {
    assert ([Word(w)] + ts)[1..] == ts;
  }

  lemma {:induction false} ArgsAre(items: seq<Item>, n: nat, k: seq<Token>)
    requires (items != [] ==> items[0].Arg?) && n + |ArgsOf(items)| < MAXARGS && (k != [] ==> IsStop(k[0]))
    ensures Args(Spelled(items) + k, n) == Ok((ArgsOf(items), RedirsOf(items)), k)
    decreases |items|
  {
    if items == [] {
      assert Spelled(items) + k == k;
      ArgsEnd(k, n);
    } else {
      hide Args, Redirs, Spelled, ArgsOf, RedirsOf, Lead, NoArgs;
      var rest := items[1..];
      var lead, tail := LeadSplit(rest, k);
      FirstArg(items, k);
      ArgsAre(tail, n + 1, k);
      ArgsStep(items[0].w, Spelled(rest) + k, n);
    }
  }

  lemma FirstArg(items: seq<Item>, k: seq<Token>)
    requires items != [] && items[0].Arg?
    ensures ArgsOf(items) == [items[0].w] + ArgsOf(items[1..]) && |ArgsOf(items)| == 1 + |ArgsOf(items[1..])|
    ensures RedirsOf(items) == RedirsOf(items[1..])
    ensures Spelled(items) + k == [Word(items[0].w)] + (Spelled(items[1..]) + k)
  {
    assert [] + RedirsOf(items[1..]) == RedirsOf(items[1..]);
    SpelledFirst(items, k);
  }

  /** The redirections before the first argument, and the rest. */
  lemma LeadSplit(items: seq<Item>, k: seq<Token>) returns (lead: seq<Item>, tail: seq<Item>)
    requires k != [] ==> !IsRedir(k[0])
    ensures |tail| <= |items| && (tail != [] ==> tail[0].Arg?)
    ensures ArgsOf(items) == ArgsOf(tail) && RedirsOf(items) == RedirsOf(lead) + RedirsOf(tail)
    ensures Redirs(Spelled(items) + k) == Ok(RedirsOf(lead), Spelled(tail) + k)
  {
    var m := Lead(items);
    lead, tail := items[..m], items[m..];
    assert items == lead + tail;
    hide ArgsOf, RedirsOf, Lead, Redirs, Spelled;
    ArgsJoin(lead, tail);
    RedirsJoin(lead, tail);
    NoLeadArgs(lead);
    assert [] + ArgsOf(tail) == ArgsOf(tail);
    RedirsLead(items, k);
  }

  lemma {:induction false} NoLeadArgs(items: seq<Item>)
    requires NoArgs(items)
    ensures ArgsOf(items) == []
  {
    if items != [] {
      NoLeadArgs(items[1..]);
    }
  }

  lemma ArgsEnd(k: seq<Token>, n: nat)
    requires k != [] ==> IsStop(k[0])
    ensures Args(k, n) == Ok(([], []), k)
  {
  }

  lemma SimpleBack(items: seq<Item>, k: seq<Token>)
    requires |ArgsOf(items)| < MAXARGS && (k != [] ==> IsStop(k[0]))
    ensures ParseExec(Spelled(items) + k) == Ok(Meaning(Simple(items)), k)
  {
    hide ParseBlock, Redirs, Args, Wrap, Under, Spelled;
    var lead, tail := LeadSplit(items, k);
    ArgsAre(tail, 0, k);
    UnderIsWrap(Exec(ArgsOf(items)), items);
    NotBlock(items, k);
  }

  lemma NotBlock(items: seq<Item>, k: seq<Token>)
    requires k != [] ==> IsStop(k[0])
    ensures !StartsWith(Spelled(items) + k, '(')
  {
    if items == [] {
      assert Spelled(items) + k == k;
    } else {
      SpelledFirst(items, k);
    }
  }

  lemma GroupBack(line: Text, redirs: seq<Item>, k: seq<Token>)
    requires NoArgs(redirs) && (k != [] ==> IsStop(k[0]))
    requires ParseLine(Print(line) + ([Sym(')')] + Spelled(redirs) + k)) == Ok(Meaning(line), [Sym(')')] + Spelled(redirs) + k)
    ensures ParseExec(Print(Group(line, redirs)) + k) == Ok(Meaning(Group(line, redirs)), k)
  {
    hide ParseLine, Redirs, Wrap, Under, Spelled;
    GroupTokens(line, redirs, k);
    RedirsAll(redirs, k);
    UnderIsWrap(Meaning(line), redirs);
  }

  lemma GroupTokens(line: Text, redirs: seq<Item>, k: seq<Token>)
    ensures var ts, after := Print(Group(line, redirs)) + k, [Sym(')')] + Spelled(redirs) + k;
            ts != [] && ts[0] == Sym('(') && ts[1..] == Print(line) + after && after[1..] == Spelled(redirs) + k
  {
    hide Spelled;
    var a, s := [Sym('(')], Spelled(redirs);
    Assoc([Sym(')')], s, k);
    Join(a + Print(line), ')', s, k);
    Assoc(a, Print(line), [Sym(')')] + s + k);
  }

  lemma RedirsAll(redirs: seq<Item>, k: seq<Token>)
    requires NoArgs(redirs) && (k != [] ==> !IsRedir(k[0]))
    ensures Redirs(Spelled(redirs) + k) == Ok(RedirsOf(redirs), k)
  {
    hide Redirs;
    RedirsLead(redirs, k);
    assert Lead(redirs) == |redirs| && redirs[..|redirs|] == redirs;
    assert Spelled([]) + k == k;
  }

  /** Each level of the parser gives back the meaning of what is written there. */
  lemma {:induction false} ExecBack(t: Text, k: seq<Token>)
    requires WellFormed(t, EXEC) && (k != [] ==> IsStop(k[0]))
    ensures ParseExec(Print(t) + k) == Ok(Meaning(t), k)
    decreases t, EXEC
  {
    hide ParseExec, ParseLine;
    match t
    case Simple(items) => SimpleBack(items, k);
    case Group(line, redirs) =>
      LineBack(line, [Sym(')')] + Spelled(redirs) + k);
      GroupBack(line, redirs, k);
  }

  lemma {:induction false} PipeBack(t: Text, k: seq<Token>)
    requires WellFormed(t, PIPE) && (k != [] ==> IsStop(k[0]) && k[0] != Sym('|'))
    ensures ParsePipe(Print(t) + k) == Ok(Meaning(t), k)
    decreases t, PIPE
  {
    hide ParseExec, Meaning;
    if t.Piped? {
      var rest := [Sym('|')] + (Print(t.right) + k);
      ExecBack(t.left, rest);
      Join(Print(t.left), '|', Print(t.right), k);
      PipeBack(t.right, k);
      assert rest[1..] == Print(t.right) + k;
      assert Meaning(t) == Pipe(Meaning(t.left), Meaning(t.right)) by { MeaningIs(t); }
    } else {
      ExecBack(t, k);
    }
  }

  lemma MeaningIs(t: Text)
    ensures t.Piped? ==> Meaning(t) == Pipe(Meaning(t.left), Meaning(t.right))
    ensures t.Behind? ==> Meaning(t) == Back(Meaning(t.cmd))
    ensures t.Then? ==> Meaning(t) == List(Meaning(t.left), Meaning(t.right))
  {
  }

  lemma {:induction false} BacksBack(t: Text, k: seq<Token>)
    requires WellFormed(t, BACK) && (k != [] ==> IsStop(k[0]) && k[0] != Sym('|'))
    ensures var p := ParsePipe(Print(t) + k);
            p.Ok? && Backs(p.value, p.rest) == Backs(Meaning(t), k)
    decreases t, BACK
  {
    hide ParsePipe, Meaning;
    if t.Behind? {
      var rest := [Sym('&')] + k;
      BacksBack(t.cmd, rest);
      assert Print(t) + k == Print(t.cmd) + rest;
      assert rest[1..] == k;
      MeaningIs(t);
    } else {
      PipeBack(t, k);
    }
  }

  /** Whatever way a command is written, parsing gives its meaning. */
  lemma {:induction false} LineBack(t: Text, k: seq<Token>)
    requires WellFormed(t, LINE) && (k != [] ==> k[0] == Sym(')'))
    ensures ParseLine(Print(t) + k) == Ok(Meaning(t), k)
    decreases t, LINE
  {
    hide ParsePipe, Meaning;
    if t.Then? {
      var rest := [Sym(';')] + (Print(t.right) + k);
      BacksBack(t.left, rest);
      Join(Print(t.left), ';', Print(t.right), k);
      LineBack(t.right, k);
      assert rest[1..] == Print(t.right) + k;
      MeaningIs(t);
    } else {
      BacksBack(t, k);
    }
  }

  // ---- whatever parses was written like that

  /** The redirection that two tokens make. */
  function ItemAt(ts: seq<Token>): (i: Item)
    requires |ts| >= 2 && IsRedir(ts[0]) && ts[1].Word?
    ensures !i.Arg? && ItemTokens(i) == ts[..2] && RedirOf(i) == To(ts[1].w, ModeOf(ts[0]))
  {
    var file := ts[1].w;
    if ts[0] == Sym('<') then From(file) else if ts[0] == Append then Onto(file) else Into(file)
  }

  lemma {:induction false} RedirsCome(ts: seq<Token>) returns (items: seq<Item>)
    requires Redirs(ts).Ok?
    ensures NoArgs(items) && ts == Spelled(items) + Redirs(ts).rest && RedirsOf(items) == Redirs(ts).value
    decreases |ts|
  {
    if ts == [] || !IsRedir(ts[0]) {
      items := [];
      NoRedirs(ts);
    } else {
      hide ItemAt, ModeOf, ItemTokens, RedirOf, Spelled, RedirsOf, Redirs;
      RedirsUnfold(ts);
      var more := RedirsCome(ts[2..]);
      var i := ItemAt(ts);
      items := [i] + more;
      SpelledJoin([i], more);
      RedirsJoin([i], more);
      OneItem(i);
      assert ts == ts[..2] + ts[2..];
      Assoc(ts[..2], Spelled(more), Redirs(ts).rest);
    }
  }

  lemma RedirsUnfold(ts: seq<Token>)
    requires Redirs(ts).Ok? && ts != [] && IsRedir(ts[0])
    ensures |ts| >= 2 && ts[1].Word? && Redirs(ts[2..]).Ok?
    ensures Redirs(ts) == Ok([To(ts[1].w, ModeOf(ts[0]))] + Redirs(ts[2..]).value, Redirs(ts[2..]).rest)
  {
    hide ModeOf;
  }

  lemma ArgsUnfold(ts: seq<Token>, n: nat)
    requires Args(ts, n).Ok? && ts != [] && !IsStop(ts[0])
    ensures ts[0].Word? && n + 1 < MAXARGS && Redirs(ts[1..]).Ok? && Args(Redirs(ts[1..]).rest, n + 1).Ok?
    ensures var p, q, more := Args(ts, n), Redirs(ts[1..]), Args(Redirs(ts[1..]).rest, n + 1);
            p.rest == more.rest && p.value.0 == [ts[0].w] + more.value.0 && p.value.1 == q.value + more.value.1
  {
    hide Redirs;
  }

  lemma {:induction false} ArgsCome(ts: seq<Token>, n: nat) returns (items: seq<Item>)
    requires Args(ts, n).Ok? && n < MAXARGS
    ensures var p := Args(ts, n); ts == Spelled(items) + p.rest && ArgsOf(items) == p.value.0 && RedirsOf(items) == p.value.1
    ensures n + |ArgsOf(items)| < MAXARGS
    decreases |ts|
  {
    if ts == [] || IsStop(ts[0]) {
      items := [];
      ArgsEnd(ts, n);
    } else {
      hide Args, Redirs, Spelled, ArgsOf, RedirsOf, NoArgs;
      ArgsUnfold(ts, n);
      var rest := Redirs(ts[1..]).rest;
      var rs := RedirsCome(ts[1..]);
      var more := ArgsCome(rest, n + 1);
      items := ArgsMore(ts[0].w, rs, more);
      var end := Args(ts, n).rest;
      assert ts == [ts[0]] + ts[1..];
      Assoc(Spelled(rs), Spelled(more), end);
      Assoc([ts[0]], Spelled(rs) + Spelled(more), end);
    }
  }

  lemma ArgsMore(w: string, rs: seq<Item>, more: seq<Item>) returns (items: seq<Item>)
    requires NoArgs(rs)
    ensures Spelled(items) == [Word(w)] + (Spelled(rs) + Spelled(more))
    ensures ArgsOf(items) == [w] + ArgsOf(more) && RedirsOf(items) == RedirsOf(rs) + RedirsOf(more)
  {
    items := [Arg(w)] + (rs + more);
    assert items[1..] == rs + more;
    SpelledJoin(rs, more);
    ArgsJoin(rs, more);
    RedirsJoin(rs, more);
    NoLeadArgs(rs);
    assert [] + RedirsOf(rs + more) == RedirsOf(rs + more);
  }

  lemma SimpleUnfold(ts: seq<Token>)
    requires ParseSimple(ts).Ok?
    ensures Redirs(ts).Ok? && Args(Redirs(ts).rest, 0).Ok?
    ensures var p, q, more := ParseSimple(ts), Redirs(ts), Args(Redirs(ts).rest, 0);
            p.rest == more.rest && p.value == Wrap(Exec(more.value.0), q.value + more.value.1)
  {
    hide Redirs, Args, Wrap;
  }

  lemma SimpleCome(ts: seq<Token>) returns (t: Text)
    requires ParseSimple(ts).Ok?
    ensures t.Simple? && WellFormed(t, EXEC) && ts == Print(t) + ParseSimple(ts).rest && Meaning(t) == ParseSimple(ts).value
  {
    hide Redirs, Args, Spelled, Under, Wrap, ArgsOf, RedirsOf, NoArgs, ParseSimple;
    SimpleUnfold(ts);
    var rs := RedirsCome(ts);
    var more := ArgsCome(Redirs(ts).rest, 0);
    t := Simple(rs + more);
    SpelledJoin(rs, more);
    ArgsJoin(rs, more);
    RedirsJoin(rs, more);
    NoLeadArgs(rs);
    assert ArgsOf(rs + more) == ArgsOf(more);
    UnderIsWrap(Exec(ArgsOf(more)), rs + more);
    Assoc(Spelled(rs), Spelled(more), ParseSimple(ts).rest);
  }

  lemma {:induction false} ExecCome(ts: seq<Token>) returns (t: Text)
    requires ParseExec(ts).Ok?
    ensures WellFormed(t, EXEC) && ts == Print(t) + ParseExec(ts).rest && Meaning(t) == ParseExec(ts).value
    decreases |ts|, 1
  {
    if StartsWith(ts, '(') {
      var line := LineCome(ts[1..]);
      var p := ParseLine(ts[1..]);
      var redirs := RedirsCome(p.rest[1..]);
      t := Group(line, redirs);
      UnderIsWrap(Meaning(line), redirs);
      GroupCome(ts, line, redirs, p.rest, Redirs(p.rest[1..]).rest);
    } else {
      t := SimpleCome(ts);
    }
  }

  lemma GroupCome(ts: seq<Token>, line: Text, redirs: seq<Item>, rest: seq<Token>, end: seq<Token>)
    requires StartsWith(ts, '(') && ts[1..] == Print(line) + rest && StartsWith(rest, ')') && rest[1..] == Spelled(redirs) + end
    ensures ts == Print(Group(line, redirs)) + end
  {
    hide Spelled;
    var a, s := [Sym('(')], Spelled(redirs);
    assert ts == a + ts[1..];
    assert rest == [Sym(')')] + rest[1..];
    Assoc(a, Print(line), rest);
    Join(a + Print(line), ')', s, end);
  }

  lemma {:induction false} PipeCome(ts: seq<Token>) returns (t: Text)
    requires ParsePipe(ts).Ok?
    ensures WellFormed(t, PIPE) && ts == Print(t) + ParsePipe(ts).rest && Meaning(t) == ParsePipe(ts).value
    decreases |ts|, 2
  {
    hide ParseExec;
    t := ExecCome(ts);
    Looser(t, EXEC, PIPE);
    var rest := ParseExec(ts).rest;
    if StartsWith(rest, '|') {
      var r := PipeCome(rest[1..]);
      assert rest == [Sym('|')] + rest[1..];
      Join(Print(t), '|', Print(r), ParsePipe(rest[1..]).rest);
      t := Piped(t, r);
    }
  }

  lemma Looser(t: Text, a: nat, b: nat)
    requires WellFormed(t, a) && a <= b
    ensures WellFormed(t, b)
  {
  }

  lemma {:induction false} BacksCome(t: Text, ts: seq<Token>) returns (u: Text)
    requires WellFormed(t, BACK)
    ensures WellFormed(u, BACK) && Print(t) + ts == Print(u) + Backs(Meaning(t), ts).1 && Meaning(u) == Backs(Meaning(t), ts).0
    decreases |ts|
  {
    u := t;
    if StartsWith(ts, '&') {
      u := BacksCome(Behind(t), ts[1..]);
      assert ts == [Sym('&')] + ts[1..];
      assert Print(t) + ts == Print(Behind(t)) + ts[1..];
    }
  }

  lemma {:induction false} LineCome(ts: seq<Token>) returns (t: Text)
    requires ParseLine(ts).Ok?
    ensures WellFormed(t, LINE) && ts == Print(t) + ParseLine(ts).rest && Meaning(t) == ParseLine(ts).value
    decreases |ts|, 3
  {
    hide ParsePipe, Backs;
    t := PipeCome(ts);
    Looser(t, PIPE, BACK);
    var p := ParsePipe(ts);
    t := BacksCome(t, p.rest);
    Looser(t, BACK, LINE);
    var after := Backs(p.value, p.rest).1;
    if StartsWith(after, ';') {
      var r := LineCome(after[1..]);
      assert after == [Sym(';')] + after[1..];
      Join(Print(t), ';', Print(r), ParseLine(after[1..]).rest);
      t := Then(t, r);
    }
  }

  /** The parser accepts exactly the written commands, with their meaning. */
  lemma ParsesExactly(ts: seq<Token>, c: Cmd<string>)
    ensures ParseLine(ts) == Ok(c, []) <==> exists t :: WellFormed(t, LINE) && Print(t) == ts && Meaning(t) == c
  {
    hide ParseLine, WellFormed, Print, Meaning;
    if ParseLine(ts) == Ok(c, []) {
      var t := LineCome(ts);
      assert ts + [] == ts;
    }
    if t :| WellFormed(t, LINE) && Print(t) == ts && Meaning(t) == c {
      LineBack(t, []);
      assert ts + [] == ts;
    }
  }

  // ---- every command can be written

  /** No command has more arguments than the parser has room for. */
  ghost predicate Fits(c: Cmd<string>) {
    match c
    case Exec(args) => |args| < MAXARGS
    case Redir(d, _, _) => Fits(d)
    case Pipe(l, r) => Fits(l) && Fits(r)
    case List(l, r) => Fits(l) && Fits(r)
    case Back(d) => Fits(d)
  }

  /** At every level of the grammar, and each output redirection with '>' or with
      '>>' as append says. */
  lemma {:induction false} CanBeWritten(c: Cmd<string>, level: nat, append: bool) returns (t: Text)
    requires Fits(c) && level <= LINE
    ensures WellFormed(t, level) && Meaning(t) == c
    decreases c, 1, LINE - level
  {
    match c
    case Exec(args) =>
      t := Simple(seq(|args|, i requires 0 <= i < |args| => Arg(args[i])));
      AllArgs(args, t.items);
    case Redir(d, file, mode) =>
      var u := CanBeWritten(d, EXEC, append);
      t := OneMoreRedir(u, if mode == Input then From(file) else if append then Onto(file) else Into(file));
      Looser(t, EXEC, level);
    case _ =>
      t := Compound(c, append);
      if level < LINE {
        t := Group(t, []);
      }
  }

  lemma {:induction false} Compound(c: Cmd<string>, append: bool) returns (t: Text)
    requires Fits(c) && !c.Exec? && !c.Redir?
    ensures WellFormed(t, LINE) && Meaning(t) == c
    decreases c, 0
  {
    match c
    case Pipe(l, r) =>
      var a := CanBeWritten(l, EXEC, append);
      var b := CanBeWritten(r, PIPE, append);
      t := Piped(a, b);
    case List(l, r) =>
      var a := CanBeWritten(l, BACK, append);
      var b := CanBeWritten(r, LINE, append);
      t := Then(a, b);
    case Back(d) =>
      var a := CanBeWritten(d, BACK, append);
      t := Behind(a);
  }

  lemma {:induction false} AllArgs(args: seq<string>, items: seq<Item>)
    requires |items| == |args| && forall i :: 0 <= i < |args| ==> items[i] == Arg(args[i])
    ensures ArgsOf(items) == args && RedirsOf(items) == [] && Under(Exec(args), items) == Exec(args)
    decreases |args|
  {
    if args != [] {
      AllArgs(args[1..], items[1..]);
      assert args == [args[0]] + args[1..];
    }
    UnderIsWrap(Exec(args), items);
  }

  lemma OneMoreRedir(u: Text, i: Item) returns (t: Text)
    requires WellFormed(u, EXEC) && !i.Arg?
    ensures WellFormed(t, EXEC) && Meaning(t) == Redir(Meaning(u), i.file, if i.From? then Input else Output)
  {
    var items := (if u.Simple? then u.items else u.redirs) + [i];
    t := if u.Simple? then Simple(items) else Group(u.line, items);
    assert items[..|items| - 1] == if u.Simple? then u.items else u.redirs;
    if u.Simple? {
      ArgsJoin(u.items, [i]);
      OneItem(i);
      assert ArgsOf(items) == ArgsOf(u.items);
    }
  }
}
