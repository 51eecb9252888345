/** Printing a command tree and parsing the text gives the tree back. */
module ShellRoundTrip {
  import opened ShellSpec

  // --------------------------------------------------------------------- tokens

  lemma SkipTwice(r: string)
    ensures Skip(Skip(r)) == Skip(r)
  {
    SkipStops(r);
  }

  /** A text that does not begin with white space. */
  lemma SkipNone(r: string)
    requires r == "" || !Space(r[0])
    ensures Skip(r) == r
  {
  }

  lemma SkipBlank(r: string)
    ensures Skip(" " + r) == Skip(r)
  {
    assert (" " + r)[1..] == r;
  }

  lemma {:induction false} WordLenPlain(w: string, r: string)
    requires (forall i :: 0 <= i < |w| ==> !Delim(w[i])) && (r == "" || Delim(r[0]))
    ensures WordLen(w + r) == |w|
  {
    if w == "" {
      assert w + r == r;
    } else {
      assert (w + r)[1..] == w[1..] + r;
      WordLenPlain(w[1..], r);
    }
  }

  lemma WordToken(w: string, r: string)
    requires Plain(w) && (r == "" || Delim(r[0]))
    ensures Next(w + r) == w[0] && Skip(w + r) == w + r
    ensures GetToken(w + r) == Lex('a', Tok(w, |w| + |r|, |r|), Skip(r))
  {
    assert (w + r)[0] == w[0];
    SkipNone(w + r);
    WordLenPlain(w, r);
    assert (w + r)[..|w|] == w && (w + r)[|w|..] == r;
  }

  lemma SymbolToken(c: char, r: string)
    requires Symbol(c) && c != '>' && c != '<'
    ensures Next([c] + r) == c && Skip([c] + r) == [c] + r && After([c] + r) == Skip(r)
  {
    assert ([c] + r)[0] == c && ([c] + r)[1..] == r;
    SkipNone([c] + r);
  }

  lemma ArrowToken(k: Kind, f: string, r: string)
    requires Plain(f)
    ensures var s := Arrow(k) + (f + r);
      && (Next(s) == '<' || Next(s) == '>') && Skip(s) == s
      && KindOf(GetToken(s).kind) == k && GetToken(s).rest == f + r
  {
    var s := Arrow(k) + (f + r);
    assert s[0] == Arrow(k)[0];
    SkipNone(s);
    assert s[|Arrow(k)|..] == f + r;
    assert (f + r)[0] == f[0];
    SkipNone(f + r);
    if k == Append { assert s[1] == '>'; } else { assert s[1] == f[0]; }
  }

  lemma SameNext(r: string)
    ensures Next(Skip(r)) == Next(r) && GetToken(Skip(r)) == GetToken(r)
  {
    hide Skip, WordLen, Symbol, Space, Delim, Take;
    SkipTwice(r);
  }

  /** Parsing does not depend on leading white space. */
  lemma SkipRedirs(r: string)
    ensures ParseRedirs(Skip(r)) == ParseRedirs(r)
  {
    hide Skip, Next, GetToken;
    SameNext(r);
    SkipTwice(r);
  }

  lemma SkipArgs(r: string, w: Words)
    ensures ParseArgs(Skip(r), w) == ParseArgs(r, w)
  {
    hide Skip, Next, GetToken, ParseRedirs;
    SameNext(r);
    SkipTwice(r);
  }

  lemma SkipExec(r: string)
    ensures ParseExec(Skip(r)) == ParseExec(r)
  {
    hide ParseArgs, ParseRedirs, ParseLine, GetToken, Skip, Next, Wrap;
    SameNext(r);
    SkipRedirs(r);
  }

  lemma SkipPipe(r: string)
    ensures ParsePipe(Skip(r)) == ParsePipe(r)
  {
    hide ParseExec, Skip, Next, GetToken;
    SkipExec(r);
  }

  lemma SkipLine(r: string)
    ensures ParseLine(Skip(r)) == ParseLine(r)
  {
    hide ParsePipe, ParseBacks, Next, GetToken, Skip;
    SkipPipe(r);
  }

  // --------------------------------------------------------------- redirections

  datatype Arrowed = Arrowed(kind: Kind, file: string)

  function PrintRedirs(rs: seq<Arrowed>): (s: string) {
    if rs == [] then "" else Arrow(rs[0].kind) + (rs[0].file + (" " + PrintRedirs(rs[1..])))
  }

  predicate PlainFiles(rs: seq<Arrowed>) {
    forall i :: 0 <= i < |rs| ==> Plain(rs[i].file)
  }

  function Shown(rs: seq<Redirection>): (s: seq<Arrowed>) {
    seq(|rs|, i requires 0 <= i < |rs| => Arrowed(rs[i].kind, rs[i].file.text))
  }

  predicate NoArrow(r: string) {
    Next(r) != '<' && Next(r) != '>'
  }

  function Prepend(x: Redirection, res: Res<seq<Redirection>>): (r: Res<seq<Redirection>>) {
    if res.Panic? then res else Ok([x] + res.value, res.rest)
  }

  lemma RedirsUnfold(r: string)
    requires !NoArrow(r) && GetToken(GetToken(r).rest).kind == 'a'
    ensures var l := GetToken(r);
      ParseRedirs(r) == Prepend(Redirection(KindOf(l.kind), GetToken(l.rest).tok), ParseRedirs(GetToken(l.rest).rest))
  {
    hide Skip, Next, GetToken, KindOf;
  }

  /** One printed redirection is parsed, and what follows it as before. */
  lemma RedirStep(k: Kind, f: string, tail: string)
    requires Plain(f) && tail != "" && Delim(tail[0])
    ensures ParseRedirs(Arrow(k) + (f + tail)) ==
            Prepend(Redirection(k, Tok(f, |f| + |tail|, |tail|)), ParseRedirs(tail))
  {
    hide Skip, Next, GetToken, Plain, Arrow, KindOf, ParseRedirs, Prepend, Delim;
    ArrowToken(k, f, tail);
    WordToken(f, tail);
    SkipRedirs(tail);
    RedirsUnfold(Arrow(k) + (f + tail));
  }

  lemma BlankRedirs(more: string)
    ensures ParseRedirs(" " + more) == ParseRedirs(more)
  {
    hide Skip, ParseRedirs;
    SkipBlank(more);
    SkipRedirs(" " + more);
    SkipRedirs(more);
  }

  lemma RedirsNone(post: string)
    requires NoArrow(post)
    ensures ParseRedirs(post) == Ok([], Skip(post))
  {
    hide Skip, Next, GetToken;
  }

  lemma PrintRedirsFirst(rs: seq<Arrowed>, post: string)
    requires rs != []
    ensures PrintRedirs(rs) + post == Arrow(rs[0].kind) + (rs[0].file + (" " + (PrintRedirs(rs[1..]) + post)))
  {
    hide Arrow;
  }

  lemma {:induction false} RedirsBack(rs: seq<Arrowed>, post: string)
    requires PlainFiles(rs) && NoArrow(post)
    ensures var res := ParseRedirs(PrintRedirs(rs) + post); res.Ok? && Shown(res.value) == rs && res.rest == Skip(post)
    decreases |rs|
  {
    hide Skip, Next, GetToken, Plain, Arrow, ParseRedirs, NoArrow;
    if rs == [] {
      assert PrintRedirs(rs) + post == post;
      RedirsNone(post);
    } else {
      hide PrintRedirs;
      var more := PrintRedirs(rs[1..]) + post;
      PrintRedirsFirst(rs, post);
      RedirStep(rs[0].kind, rs[0].file, " " + more);
      BlankRedirs(more);
      RedirsBack(rs[1..], post);
      var res, rest := ParseRedirs(PrintRedirs(rs) + post), ParseRedirs(more);
      assert Shown(res.value) == [rs[0]] + Shown(rest.value);
    }
  }

  // ---------------------------------------------------------------------- words

  predicate PlainWords(args: seq<string>) {
    forall i :: 0 <= i < |args| ==> Plain(args[i])
  }

  /** The line ends, or a symbol follows that parseexec leaves to its callers. */
  predicate StopsExec(post: string) {
    Skip(post) == "" || EndsExec(Next(post))
  }

  lemma ArgsStop(post: string, w: Words)
    requires StopsExec(post)
    ensures ParseArgs(post, w) == Ok(w, Skip(post)) && NoArrow(post) && Next(post) != '('
  {
    SkipTwice(post);
  }

  /** One printed word is parsed, then its redirections, then what follows. */
  lemma ArgStep(a: string, tail: string, w: Words)
    requires Plain(a) && |w.args| + 1 < MAXARGS && tail != "" && Delim(tail[0])
    ensures var rd := ParseRedirs(tail);
      ParseArgs(a + tail, w) ==
      if rd.Panic? then Panic(rd.msg)
      else ParseArgs(rd.rest, Words(w.args + [Tok(a, |a| + |tail|, |tail|)], w.redirs + rd.value))
  {
    hide Skip, GetToken, Next, ParseRedirs;
    WordToken(a, tail);
    PlainStarts(a);
    SkipRedirs(tail);
  }

  lemma PlainStarts(a: string)
    requires Plain(a)
    ensures !Delim(a[0]) && a[0] != '\0' && !EndsExec(a[0])
  {
  }

  lemma WordsFirst(a: string, more: string)
    requires Plain(a)
    ensures var s := a + (" " + more); NoArrow(s) && Next(s) != '(' && ParseRedirs(s) == Ok([], s)
  {
    hide Skip, GetToken, Next;
    WordToken(a, " " + more);
    PlainStarts(a);
  }

  lemma {:induction false} ArgsBack(args: seq<string>, rs: seq<Arrowed>, post: string, w: Words)
    requires PlainWords(args) && PlainFiles(rs) && StopsExec(post) && args != [] && |w.args| + |args| < MAXARGS
        && w.redirs == []
    ensures var res := ParseArgs(PrintArgs(args) + (PrintRedirs(rs) + post), w);
      && res.Ok? && Texts(res.value.args) == Texts(w.args) + args && Shown(res.value.redirs) == rs
      && res.rest == Skip(post)
    decreases |args|
  {
    hide Skip, Next, GetToken, Plain, ParseRedirs, ParseArgs, PrintRedirs;
    var tail := PrintRedirs(rs) + post;
    var more := PrintArgs(args[1..]) + tail;
    assert PrintArgs(args) + tail == args[0] + (" " + more);
    ArgStep(args[0], " " + more, w);
    BlankRedirs(more);
    var tok := Tok(args[0], |args[0]| + |" " + more|, |" " + more|);
    assert Texts(w.args + [tok]) == Texts(w.args) + [args[0]];
    if args[1..] == [] {
      assert more == tail;
      ArgsStop(post, w);
      RedirsBack(rs, post);
      var rd := ParseRedirs(tail);
      var w' := Words(w.args + [tok], w.redirs + rd.value);
      SkipArgs(post, w');
      ArgsStop(post, w');
      assert w'.redirs == rd.value && args == [args[0]];
    } else {
      var w' := Words(w.args + [tok], []);
      assert more == args[1] + (" " + (PrintArgs(args[2..]) + tail)) by { assert args[1..][1..] == args[2..]; }
      WordsFirst(args[1], PrintArgs(args[2..]) + tail);
      assert w.redirs + [] == [];
      ArgsBack(args[1..], rs, post, w');
      assert args == [args[0]] + args[1..];
    }
  }

  // ------------------------------------------------------------------- commands

  function Rewrap(c: Cmd<string>, rs: seq<Arrowed>): (w: Cmd<string>)
    decreases |rs|
  {
    if rs == [] then c else Redir(Rewrap(c, rs[..|rs| - 1]), rs[|rs| - 1].file, rs[|rs| - 1].kind)
  }

  lemma {:induction false} WrapErase(t: Cmd<Tok>, rs: seq<Redirection>)
    ensures Erase(Wrap(t, rs)) == Rewrap(Erase(t), Shown(rs))
    decreases |rs|
  {
    if rs != [] {
      WrapErase(t, rs[..|rs| - 1]);
      assert Shown(rs)[..|rs| - 1] == Shown(rs[..|rs| - 1]);
    }
  }

  lemma {:induction false} RewrapFirst(c: Cmd<string>, f: string, k: Kind, rs: seq<Arrowed>)
    ensures Rewrap(Redir(c, f, k), rs) == Rewrap(c, [Arrowed(k, f)] + rs)
    decreases |rs|
  {
    var all := [Arrowed(k, f)] + rs;
    if rs != [] {
      RewrapFirst(c, f, k, rs[..|rs| - 1]);
      assert all[..|all| - 1] == [Arrowed(k, f)] + rs[..|rs| - 1];
    } else {
      assert all[..|all| - 1] == [];
    }
  }

  /** A parse of the whole of what c was printed as, up to `post`. */
  ghost predicate Parsed(res: Res<Cmd<Tok>>, c: Cmd<string>, post: string) {
    res.Ok? && Erase(res.value) == c && res.rest == Skip(post)
  }

  lemma ExecUnfold(r: string, rd: Res<seq<Redirection>>, w: Res<Words>)
    requires Next(r) != '(' && rd == ParseRedirs(r) && rd.Ok? && w == ParseArgs(rd.rest, Words([], rd.value)) && w.Ok?
    ensures ParseExec(r) == Ok(Wrap(Exec(w.value.args), w.value.redirs), w.rest)
  {
    hide Next, Skip, ParseRedirs, ParseArgs, ParseBlock, Wrap;
  }

  /** Redirections alone. */
  lemma RedirsOnly(rs: seq<Arrowed>, post: string)
    requires PlainFiles(rs) && StopsExec(post)
    ensures Parsed(ParseExec(PrintRedirs(rs) + post), Rewrap(Exec([]), rs), post)
  {
    hide Skip, Next, Plain, ParseRedirs, ParseArgs, ParseExec, PrintRedirs, Wrap, Rewrap;
    var s := PrintRedirs(rs) + post;
    ArgsStop(post, Words([], []));
    RedirsBack(rs, post);
    var rd := ParseRedirs(s);
    var w := Words([], rd.value);
    SkipArgs(post, w);
    ArgsStop(post, w);
    NoParen(rs, post);
    ExecUnfold(s, rd, Ok(w, Skip(post)));
    WrapErase(Exec([]), rd.value);
    assert Texts([]) == [];
  }

  lemma PrintArgsFirst(args: seq<string>, tail: string)
    requires args != []
    ensures PrintArgs(args) + tail == args[0] + (" " + (PrintArgs(args[1..]) + tail))
  {
  }

  /** Words, then redirections. */
  lemma WordsBack(args: seq<string>, rs: seq<Arrowed>, post: string)
    requires PlainWords(args) && 0 < |args| < MAXARGS && PlainFiles(rs) && StopsExec(post)
    ensures Parsed(ParseExec(PrintArgs(args) + (PrintRedirs(rs) + post)), Rewrap(Exec(args), rs), post)
  {
    hide Skip, Next, Plain, ParseRedirs, ParseArgs, ParseExec, PrintRedirs, PrintArgs, Wrap, Rewrap;
    var s := PrintArgs(args) + (PrintRedirs(rs) + post);
    var none := Words([], []);
    PrintArgsFirst(args, PrintRedirs(rs) + post);
    WordsFirst(args[0], PrintArgs(args[1..]) + (PrintRedirs(rs) + post));
    ArgsBack(args, rs, post, none);
    var w := ParseArgs(s, none);
    ExecUnfold(s, Ok([], s), w);
    WrapErase(Exec(w.value.args), w.value.redirs);
    assert Texts([]) + args == args;
  }

  lemma SimpleBack(args: seq<string>, rs: seq<Arrowed>, post: string)
    requires PlainWords(args) && |args| < MAXARGS && PlainFiles(rs) && StopsExec(post)
    ensures Parsed(ParseExec(PrintArgs(args) + (PrintRedirs(rs) + post)), Rewrap(Exec(args), rs), post)
  {
    hide Parsed, Skip, Next, Plain, ParseExec, PrintRedirs, Rewrap;
    if args == [] {
      assert PrintArgs(args) + (PrintRedirs(rs) + post) == PrintRedirs(rs) + post;
      RedirsOnly(rs, post);
    } else {
      WordsBack(args, rs, post);
    }
  }

  lemma NoParen(rs: seq<Arrowed>, post: string)
    requires PlainFiles(rs) && Next(post) != '('
    ensures Next(PrintRedirs(rs) + post) != '('
  {
    hide Skip, Next, Plain, GetToken, PrintRedirs;
    if rs == [] {
      PrintNone(rs, post);
    } else {
      PrintRedirsFirst(rs, post);
      ArrowToken(rs[0].kind, rs[0].file, " " + (PrintRedirs(rs[1..]) + post));
    }
  }

  lemma PrintNone(rs: seq<Arrowed>, post: string)
    requires rs == []
    ensures PrintRedirs(rs) + post == post
  {
  }

  lemma BlockUnfold(r: string, c: Res<Cmd<Tok>>, rd: Res<seq<Redirection>>)
    requires Next(r) == '(' && c == ParseLine(After(r)) && c.Ok? && Next(c.rest) == ')'
        && rd == ParseRedirs(After(c.rest)) && rd.Ok?
    ensures ParseExec(r) == Ok(Wrap(c.value, rd.value), rd.rest)
  {
    hide Next, Skip, GetToken, ParseRedirs, ParseLine, Wrap;
  }

  /** A parenthesised line with redirections. */
  lemma BlockBack(line: string, c: Cmd<string>, rs: seq<Arrowed>, post: string)
    requires PlainFiles(rs) && NoArrow(post)
    requires var tail := ")" + (PrintRedirs(rs) + post); Parsed(ParseLine(line + tail), c, tail)
    ensures Parsed(ParseExec("(" + (line + (")" + (PrintRedirs(rs) + post)))), Rewrap(c, rs), post)
  {
    hide Skip, Next, GetToken, Plain, ParseRedirs, ParseExec, ParseLine, PrintRedirs, Wrap, Rewrap, Erase, After;
    var reds := PrintRedirs(rs) + post;
    var tail := ")" + reds;
    var s := "(" + (line + tail);
    SymbolToken('(', line + tail);
    SkipLine(line + tail);
    var res := ParseLine(line + tail);
    SymbolToken(')', reds);
    SkipRedirs(reds);
    RedirsBack(rs, post);
    BlockUnfold(s, res, ParseRedirs(reds));
    WrapErase(res.value, ParseRedirs(reds).value);
  }

  lemma PipeUnfold(r: string, c: Cmd<Tok>, more: string)
    requires ParseExec(r) == Ok(c, "|" + more)
    ensures ParsePipe(r) == var d := ParsePipe(more); if d.Panic? then d else Ok(Pipe(c, d.value), d.rest)
  {
    hide ParseExec, Skip, Next, GetToken, After;
    SymbolToken('|', more);
    SkipPipe(more);
  }

  lemma PipeOne(r: string)
    requires ParseExec(r).Ok? && Next(ParseExec(r).rest) != '|'
    ensures ParsePipe(r) == Ok(ParseExec(r).value, Skip(ParseExec(r).rest))
  {
    hide ParseExec, Skip, Next, GetToken;
  }

  /** parseline up to its first semicolon. */
  function ParseHead(r: string): (res: Res<Cmd<Tok>>) {
    var p := ParsePipe(r);
    if p.Panic? then p else ParseBacks(p.value, p.rest)
  }

  lemma BacksUnfold(c: Cmd<Tok>, more: string)
    ensures ParseBacks(c, "&" + more) == ParseBacks(Back(c), Skip(more))
  {
    hide Skip, Next, GetToken, After;
    SymbolToken('&', more);
  }

  lemma LineUnfold(r: string, c: Cmd<Tok>, more: string)
    requires ParseHead(r) == Ok(c, ";" + more)
    ensures ParseLine(r) == var d := ParseLine(more); if d.Panic? then d else Ok(List(c, d.value), d.rest)
  {
    hide ParsePipe, ParseBacks, Skip, Next, GetToken, After;
    SymbolToken(';', more);
    SkipLine(more);
  }

  lemma LineOne(r: string)
    requires ParseHead(r).Ok? && Next(ParseHead(r).rest) != ';'
    ensures ParseLine(r) == Ok(ParseHead(r).value, Skip(ParseHead(r).rest))
  {
    hide ParsePipe, ParseBacks, Skip, Next, GetToken;
  }

  // ----------------------------------------------------------------- round trip

  predicate StopsPipe(post: string) {
    Skip(post) == "" || Next(post) == ')' || Next(post) == '&' || Next(post) == ';'
  }

  predicate StopsLine(post: string) {
    Skip(post) == "" || Next(post) == ')'
  }

  lemma Stops(c: char, more: string)
    requires EndsExec(c)
    ensures StopsExec([c] + more) && (c != '|' ==> StopsPipe([c] + more)) && (c == ')' ==> StopsLine([c] + more))
    ensures Skip([c] + more) == [c] + more
  {
    hide Skip, Next, GetToken, After;
    SymbolToken(c, more);
  }

  lemma StopsMore(post: string)
    ensures StopsLine(post) ==> StopsPipe(post)
    ensures StopsPipe(post) ==> StopsExec(post) && Next(Skip(post)) != '|'
    ensures StopsLine(post) ==> Next(Skip(post)) != ';' && Next(Skip(post)) != '&'
    ensures StopsExec(post) ==> NoArrow(post)
    ensures Next(Skip(post)) == Next(post) && Skip(Skip(post)) == Skip(post)
  {
    hide Skip;
    SkipTwice(post);
  }

  lemma ExecBack(c: Cmd<string>, rs: seq<Arrowed>, post: string)
    requires Printable(c) && PlainFiles(rs) && StopsExec(post)
    ensures Parsed(ParseExec(PrintExec(c) + (PrintRedirs(rs) + post)), Rewrap(c, rs), post)
    decreases c, 2
  {
    hide Parsed, Skip, Next, Plain, ParseExec, PrintRedirs, Rewrap, StopsExec;
    match c {
      case Exec(args) =>
        SimpleBack(args, rs, post);
      case Redir(d, f, k) =>
        var all := [Arrowed(k, f)] + rs;
        assert all[0] == Arrowed(k, f) && all[1..] == rs;
        PrintRedirsFirst(all, post);
        assert PrintExec(c) + (PrintRedirs(rs) + post) == PrintExec(d) + (PrintRedirs(all) + post);
        ExecBack(d, all, post);
        RewrapFirst(d, f, k, rs);
      case _ =>
        var tail := PrintRedirs(rs) + post;
        StopsMore(post);
        CompoundBack(c, tail);
        BlockBack(Inner(c), c, rs, post);
        assert PrintExec(c) + tail == "(" + (Inner(c) + (")" + tail));
    }
  }

  /** What PrintExec puts in parentheses. */
  function Inner(c: Cmd<string>): (s: string)
    requires c.Pipe? || c.List? || c.Back?
  {
    match c
    case Pipe(l, r) => PrintExec(l) + ("|" + PrintPipe(r))
    case List(l, r) => PrintBacks(l) + (";" + PrintLine(r))
    case Back(d) => PrintBacks(d) + "&"
  }

  lemma CompoundBack(c: Cmd<string>, tail: string)
    requires Printable(c) && (c.Pipe? || c.List? || c.Back?)
    ensures Parsed(ParseLine(Inner(c) + (")" + tail)), c, ")" + tail)
    decreases c, 1
  {
    hide Skip, Next, ParseLine, ParsePipe, ParseBacks, ParseHead, PrintExec, PrintPipe, PrintBacks, PrintLine,
      StopsLine, StopsPipe, StopsExec;
    var post := ")" + tail;
    Stops(')', tail);
    StopsMore(post);
    match c {
      case Pipe(l, r) =>
        assert Inner(c) + post == PrintExec(l) + ("|" + (PrintPipe(r) + post));
        PipeTwo(l, r, post);
        HeadOne(Inner(c) + post, c, post);
      case List(l, r) =>
        assert Inner(c) + post == PrintBacks(l) + (";" + (PrintLine(r) + post));
        LineTwo(l, r, post);
      case Back(d) =>
        assert Inner(c) + post == PrintBacks(d) + ("&" + post);
        BackOne(d, post);
    }
  }

  lemma BacksEnd(t: Cmd<Tok>, post: string)
    requires Next(post) != '&'
    ensures ParseBacks(t, Skip(post)) == Ok(t, Skip(post))
  {
    hide Skip, GetToken;
    SkipTwice(post);
  }

  lemma HeadOne(r: string, c: Cmd<string>, post: string)
    requires Parsed(ParsePipe(r), c, post) && StopsLine(post)
    ensures Parsed(ParseLine(r), c, post)
  {
    hide Skip, Next, ParsePipe, ParseBacks, ParseLine, Erase, StopsPipe, StopsLine, StopsExec;
    StopsMore(post);
    BacksEnd(ParsePipe(r).value, post);
    LineOne(r);
  }

  lemma PipeTwo(l: Cmd<string>, r: Cmd<string>, post: string)
    requires Printable(l) && Printable(r) && StopsPipe(post)
    ensures Parsed(ParsePipe(PrintExec(l) + ("|" + (PrintPipe(r) + post))), Pipe(l, r), post)
    decreases Pipe(l, r), 0
  {
    hide Skip, Next, ParsePipe, ParseExec, PrintExec, PrintPipe, PrintRedirs, Rewrap, StopsPipe, StopsLine, StopsExec;
    var more := PrintPipe(r) + post;
    var s := PrintExec(l) + ("|" + more);
    Stops('|', more);
    PrintNone([], "|" + more);
    ExecBack(l, [], "|" + more);
    RewrapNone(l);
    PipeBack(r, post);
    PipeUnfold(s, ParseExec(s).value, more);
  }

  lemma RewrapNone(c: Cmd<string>)
    ensures Rewrap(c, []) == c
  {
  }

  lemma PipeBack(c: Cmd<string>, post: string)
    requires Printable(c) && StopsPipe(post)
    ensures Parsed(ParsePipe(PrintPipe(c) + post), c, post)
    decreases c, 3
  {
    hide Skip, Next, ParsePipe, ParseExec, PrintExec, PrintRedirs, Rewrap, StopsPipe, StopsLine, StopsExec;
    if c.Pipe? {
      assert PrintPipe(c) + post == PrintExec(c.left) + ("|" + (PrintPipe(c.right) + post));
      PipeTwo(c.left, c.right, post);
    } else {
      StopsMore(post);
      PrintNone([], post);
      ExecBack(c, [], post);
      RewrapNone(c);
      PipeOne(PrintPipe(c) + post);
    }
  }

  lemma BacksBack(c: Cmd<string>, post: string) returns (t: Cmd<Tok>)
    requires Printable(c) && StopsPipe(post)
    ensures Erase(t) == c && ParseHead(PrintBacks(c) + post) == ParseBacks(t, Skip(post))
    decreases c, 4
  {
    hide Skip, Next, ParsePipe, ParseBacks, PrintPipe, StopsPipe, StopsLine, StopsExec;
    if c.Back? {
      Stops('&', post);
      assert PrintBacks(c) + post == PrintBacks(c.cmd) + ("&" + post);
      t := BacksBack(c.cmd, "&" + post);
      BacksUnfold(t, post);
      t := Back(t);
    } else {
      PipeBack(c, post);
      t := ParsePipe(PrintPipe(c) + post).value;
    }
  }

  lemma BackOne(d: Cmd<string>, post: string)
    requires Printable(d) && StopsLine(post)
    ensures Parsed(ParseLine(PrintBacks(d) + ("&" + post)), Back(d), post)
    decreases Back(d), 0
  {
    hide Skip, Next, ParseBacks, ParseHead, ParseLine, PrintBacks, StopsPipe, StopsLine, StopsExec;
    Stops('&', post);
    StopsMore(post);
    var t := BacksBack(d, "&" + post);
    BacksUnfold(t, post);
    BacksEnd(Back(t), post);
    LineOne(PrintBacks(d) + ("&" + post));
  }

  lemma LineTwo(l: Cmd<string>, r: Cmd<string>, post: string)
    requires Printable(l) && Printable(r) && StopsLine(post)
    ensures Parsed(ParseLine(PrintBacks(l) + (";" + (PrintLine(r) + post))), List(l, r), post)
    decreases List(l, r), 0
  {
    hide Skip, Next, ParseBacks, ParseHead, ParseLine, PrintBacks, PrintLine, StopsPipe, StopsLine, StopsExec, GetToken;
    var more := PrintLine(r) + post;
    var s := PrintBacks(l) + (";" + more);
    Stops(';', more);
    SymbolToken(';', more);
    var t := BacksBack(l, ";" + more);
    BacksEnd(t, ";" + more);
    LineUnfold(s, t, more);
    LineBack(r, post);
  }

  lemma LineBack(c: Cmd<string>, post: string)
    requires Printable(c) && StopsLine(post)
    ensures Parsed(ParseLine(PrintLine(c) + post), c, post)
    decreases c, 5
  {
    hide Skip, Next, ParseBacks, ParseHead, ParseLine, PrintBacks, StopsPipe, StopsLine, StopsExec;
    if c.List? {
      assert PrintLine(c) + post == PrintBacks(c.left) + (";" + (PrintLine(c.right) + post));
      LineTwo(c.left, c.right, post);
    } else {
      StopsMore(post);
      var t := BacksBack(c, post);
      BacksEnd(t, post);
      LineOne(PrintLine(c) + post);
    }
  }

  /** Every printable command tree survives printing and parsing. */
  lemma RoundTrip(c: Cmd<string>)
    requires Printable(c)
    ensures ParseCmd(PrintLine(c)).Ok? && Erase(ParseCmd(PrintLine(c)).value) == c
  {
    hide ParseLine, PrintLine;
    assert PrintLine(c) + "" == PrintLine(c);
    LineBack(c, "");
  }
}
