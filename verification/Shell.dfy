/** Where the tokens of a parsed line lie. */
module ShellTokens {
  import opened ShellSpec

  predicate NoNul(b: string) {
    forall i :: 0 <= i < |b| ==> b[i] != '\0'
  }

  /** r is what is left of line b at some point. */
  ghost predicate Left(b: string, r: string) {
    |r| <= |b| && b[|b| - |r|..] == r
  }

  /** A word of line b: its text, no delimiter inside, and a delimiter or the end of the line after it. */
  ghost predicate TokenOf(b: string, t: Tok) {
    && t.to < t.from <= |b| && t.text == b[|b| - t.from..|b| - t.to] && Plain(t.text)
    && (t.to == 0 || Delim(b[|b| - t.to]))
  }

  ghost predicate CmdOf(b: string, c: Cmd<Tok>) {
    match c
    case Exec(args) => |args| < MAXARGS && forall i :: 0 <= i < |args| ==> TokenOf(b, args[i])
    case Redir(d, file, _) => CmdOf(b, d) && TokenOf(b, file)
    case Pipe(l, r) => CmdOf(b, l) && CmdOf(b, r)
    case List(l, r) => CmdOf(b, l) && CmdOf(b, r)
    case Back(d) => CmdOf(b, d)
  }

  lemma LeftOfLeft(b: string, r: string, n: nat)
    requires Left(b, r) && n <= |r|
    ensures Left(b, r[n..])
  {
  }

  lemma {:induction false} SkipLeft(b: string, r: string)
    requires Left(b, r)
    ensures Left(b, Skip(r))
    decreases |r|
  {
    hide Left;
    if r != "" && Space(r[0]) {
      LeftOfLeft(b, r, 1);
      SkipLeft(b, r[1..]);
    }
  }

  lemma {:induction false} WordLenExact(r: string)
    ensures (forall i :: 0 <= i < WordLen(r) ==> !Delim(r[i])) && (WordLen(r) < |r| ==> Delim(r[WordLen(r)]))
    decreases |r|
  {
    if r != "" && !Delim(r[0]) {
      WordLenExact(r[1..]);
      var n := WordLen(r[1..]);
      forall i | 0 <= i < WordLen(r) ensures !Delim(r[i]) {
        if i > 0 { assert r[i] == r[1..][i - 1]; }
      }
    }
  }

  lemma LeftAt(b: string, s: string, n: nat)
    requires Left(b, s) && n <= |s|
    ensures s[..n] == b[|b| - |s|..|b| - (|s| - n)] && (n < |s| ==> s[n] == b[|b| - (|s| - n)])
  {
  }

  lemma NoNulLeft(b: string, s: string)
    requires Left(b, s) && NoNul(b)
    ensures NoNul(s)
  {
    forall i | 0 <= i < |s| ensures s[i] != '\0' {
      LeftAt(b, s, i);
    }
  }

  lemma PlainPrefix(s: string, n: nat)
    requires 0 < n <= |s| && NoNul(s) && forall i :: 0 <= i < n ==> !Delim(s[i])
    ensures Plain(s[..n])
  {
    hide Delim;
  }

  lemma WordOf(b: string, s: string)
    requires Left(b, s) && NoNul(b) && s != "" && !Delim(s[0])
    ensures var n := WordLen(s); TokenOf(b, Tok(s[..n], |s|, |s| - n))
  {
    hide Delim, WordLen, Left, NoNul, Plain;
    WordLenExact(s);
    var n := WordLen(s);
    LeftAt(b, s, n);
    NoNulLeft(b, s);
    PlainPrefix(s, n);
    LeftShort(b, s);
  }

  lemma LeftShort(b: string, s: string)
    requires Left(b, s)
    ensures |s| <= |b|
  {
  }

  lemma TokenLeft(b: string, r: string)
    requires Left(b, r) && NoNul(b)
    ensures Left(b, GetToken(r).rest) && (GetToken(r).kind == 'a' ==> TokenOf(b, GetToken(r).tok))
  {
    hide Left, TokenOf, Skip;
    var s := Skip(r);
    SkipLeft(b, r);
    SkipStops(r);
    var l := GetToken(r);
    TakeLeft(b, s, |l.tok.text|);
    if l.kind == 'a' { WordOf(b, s); }
  }

  lemma TakeLeft(b: string, s: string, n: nat)
    requires Left(b, s) && n <= |s|
    ensures Left(b, Skip(s[n..]))
  {
    hide Left;
    LeftOfLeft(b, s, n);
    SkipLeft(b, s[n..]);
  }

  ghost predicate RedirsOf(b: string, rs: seq<Redirection>) {
    forall i :: 0 <= i < |rs| ==> TokenOf(b, rs[i].file)
  }

  lemma {:induction false} RedirsLeft(b: string, r: string)
    requires Left(b, r) && NoNul(b)
    ensures ParseRedirs(r).Ok? ==> Left(b, ParseRedirs(r).rest) && RedirsOf(b, ParseRedirs(r).value)
    decreases |r|
  {
    hide Left, TokenOf, Next, GetToken, Skip, NoNul;
    SkipLeft(b, r);
    if Next(r) == '<' || Next(r) == '>' {
      TokenLeft(b, r);
      var l := GetToken(r);
      ArrowShorter(r);
      TokenLeft(b, l.rest);
      RedirsLeft(b, GetToken(l.rest).rest);
    }
  }

  lemma ArrowShorter(r: string)
    requires Next(r) == '<' || Next(r) == '>'
    ensures |GetToken(r).rest| < |r|
  {
  }

  lemma {:induction false} ArgsLeft(b: string, r: string, w: Words)
    requires Left(b, r) && NoNul(b) && |w.args| < MAXARGS && (forall i :: 0 <= i < |w.args| ==> TokenOf(b, w.args[i]))
    requires RedirsOf(b, w.redirs)
    ensures var res := ParseArgs(r, w);
            res.Ok? ==>
              && Left(b, res.rest) && |res.value.args| < MAXARGS
              && (forall i :: 0 <= i < |res.value.args| ==> TokenOf(b, res.value.args[i]))
              && RedirsOf(b, res.value.redirs)
    decreases |r|
  {
    hide Left, TokenOf, Next, GetToken, Skip, ParseRedirs, NoNul;
    SkipLeft(b, r);
    TokenLeft(b, r);
    var l := GetToken(r);
    if !EndsExec(Next(r)) && l.kind == 'a' && |w.args| + 1 < MAXARGS {
      RedirsLeft(b, l.rest);
      var rd := ParseRedirs(l.rest);
      if rd.Ok? { ArgsLeft(b, rd.rest, Words(w.args + [l.tok], w.redirs + rd.value)); }
    }
  }

  lemma {:induction false} WrapOf(b: string, c: Cmd<Tok>, rs: seq<Redirection>)
    requires CmdOf(b, c) && RedirsOf(b, rs)
    ensures CmdOf(b, Wrap(c, rs))
    decreases |rs|
  {
    if rs != [] { WrapOf(b, c, rs[..|rs| - 1]); }
  }

  ghost predicate ResOf(b: string, res: Res<Cmd<Tok>>) {
    res.Ok? ==> Left(b, res.rest) && CmdOf(b, res.value)
  }

  lemma {:induction false} ExecLeft(b: string, r: string)
    requires Left(b, r) && NoNul(b)
    ensures ResOf(b, ParseExec(r))
    decreases |r|, 1
  {
    hide Left, TokenOf, Next, GetToken, Skip, ParseRedirs, ParseArgs, ParseBlock, NoNul, Wrap;
    if Next(r) == '(' {
      BlockLeft(b, r);
    } else {
      RedirsLeft(b, r);
      var rd := ParseRedirs(r);
      if rd.Ok? {
        ArgsLeft(b, rd.rest, Words([], rd.value));
        var w := ParseArgs(rd.rest, Words([], rd.value));
        if w.Ok? { WrapOf(b, Exec(w.value.args), w.value.redirs); }
      }
    }
  }

  lemma AfterLeft(b: string, r: string)
    requires Left(b, r) && NoNul(b) && Symbol(Next(r))
    ensures Left(b, After(r))
  {
    hide Left, GetToken, Skip, Next, NoNul;
    TokenLeft(b, r);
  }

  lemma {:induction false} BlockLeft(b: string, r: string)
    requires Left(b, r) && NoNul(b)
    ensures ResOf(b, ParseBlock(r))
    decreases |r|, 0
  {
    hide Left, CmdOf, Next, After, ParseRedirs, ParseLine, NoNul, Wrap;
    if Next(r) == '(' {
      AfterLeft(b, r);
      LineLeft(b, After(r));
      var c := ParseLine(After(r));
      if c.Ok? && Next(c.rest) == ')' {
        AfterLeft(b, c.rest);
        RedirsLeft(b, After(c.rest));
        var rd := ParseRedirs(After(c.rest));
        if rd.Ok? { WrapOf(b, c.value, rd.value); }
      }
    }
  }

  lemma {:induction false} PipeLeft(b: string, r: string)
    requires Left(b, r) && NoNul(b)
    ensures ResOf(b, ParsePipe(r))
    decreases |r|, 2
  {
    hide Left, Next, After, ParseExec, NoNul, Skip;
    ExecLeft(b, r);
    var c := ParseExec(r);
    if c.Ok? {
      SkipLeft(b, c.rest);
      if Next(c.rest) == '|' {
        AfterLeft(b, c.rest);
        PipeLeft(b, After(c.rest));
      }
    }
  }

  lemma {:induction false} BacksLeft(b: string, c: Cmd<Tok>, r: string)
    requires Left(b, r) && NoNul(b) && CmdOf(b, c)
    ensures ResOf(b, ParseBacks(c, r))
    decreases |r|
  {
    hide Left, Next, After, NoNul, Skip;
    SkipLeft(b, r);
    if Next(r) == '&' {
      AfterLeft(b, r);
      BacksLeft(b, Back(c), After(r));
    }
  }

  lemma {:induction false} LineLeft(b: string, r: string)
    requires Left(b, r) && NoNul(b)
    ensures ResOf(b, ParseLine(r))
    decreases |r|, 3
  {
    hide Left, Next, After, ParsePipe, ParseBacks, NoNul, Skip;
    PipeLeft(b, r);
    var p := ParsePipe(r);
    if p.Ok? {
      BacksLeft(b, p.value, p.rest);
      var c := ParseBacks(p.value, p.rest);
      SkipLeft(b, c.rest);
      if Next(c.rest) == ';' {
        AfterLeft(b, c.rest);
        LineLeft(b, After(c.rest));
      }
    }
  }

  /** Every word and file name of a parsed line is one of the line's tokens. */
  lemma ParsedTokens(line: string)
    requires NoNul(line)
    ensures ParseCmd(line).Ok? ==> CmdOf(line, ParseCmd(line).value)
  {
    hide ParseLine, CmdOf;
    LineLeft(line, line);
  }

  /** The parser returns only trees that could be printed again. */
  lemma {:induction false} PrintableAgain(b: string, c: Cmd<Tok>)
    requires CmdOf(b, c)
    ensures Printable(Erase(c))
  {
    match c
    case Exec(args) =>
    case Redir(d, _, _) => PrintableAgain(b, d);
    case Pipe(l, r) => PrintableAgain(b, l); PrintableAgain(b, r);
    case List(l, r) => PrintableAgain(b, l); PrintableAgain(b, r);
    case Back(d) => PrintableAgain(b, d);
  }

  // ---------------------------------------------------------------- nulterminate

  /** How much of the line is left after each word: the places nulterminate writes to. */
  function Ends(c: Cmd<Tok>): (s: set<nat>) {
    match c
    case Exec(args) => set t | t in args :: t.to
    case Redir(d, file, _) => Ends(d) + {file.to}
    case Pipe(l, r) => Ends(l) + Ends(r)
    case List(l, r) => Ends(l) + Ends(r)
    case Back(d) => Ends(d)
  }

  ghost predicate HasToken(c: Cmd<Tok>, t: Tok) {
    match c
    case Exec(args) => t in args
    case Redir(d, file, _) => t == file || HasToken(d, t)
    case Pipe(l, r) => HasToken(l, t) || HasToken(r, t)
    case List(l, r) => HasToken(l, t) || HasToken(r, t)
    case Back(d) => HasToken(d, t)
  }

  lemma {:induction false} EndsAreDelims(b: string, c: Cmd<Tok>, e: nat)
    requires CmdOf(b, c) && e in Ends(c)
    ensures e <= |b| && (e == 0 || Delim(b[|b| - e]))
  {
    match c
    case Exec(args) =>
      var t :| t in args && t.to == e;
      assert TokenOf(b, t);
    case Redir(d, file, _) => if e != file.to { EndsAreDelims(b, d, e); }
    case Pipe(l, r) => if e in Ends(l) { EndsAreDelims(b, l, e); } else { EndsAreDelims(b, r, e); }
    case List(l, r) => if e in Ends(l) { EndsAreDelims(b, l, e); } else { EndsAreDelims(b, r, e); }
    case Back(d) => EndsAreDelims(b, d, e);
  }

  lemma {:induction false} TokensAreKnown(b: string, c: Cmd<Tok>, t: Tok)
    requires CmdOf(b, c) && HasToken(c, t)
    ensures TokenOf(b, t) && t.to in Ends(c)
  {
    match c
    case Exec(args) =>
      assert TokenOf(b, t);
    case Redir(d, file, _) => if t != file { TokensAreKnown(b, d, t); }
    case Pipe(l, r) => if HasToken(l, t) { TokensAreKnown(b, l, t); } else { TokensAreKnown(b, r, t); }
    case List(l, r) => if HasToken(l, t) { TokensAreKnown(b, l, t); } else { TokensAreKnown(b, r, t); }
    case Back(d) => TokensAreKnown(b, d, t);
  }

  /** The NUL-terminated string that starts at position i of memory m. */
  function CString(m: string, i: nat): (s: string)
    decreases |m| - i
  {
    if i < |m| && m[i] != '\0' then [m[i]] + CString(m, i + 1) else ""
  }

  lemma {:induction false} CStringIs(m: string, i: nat, w: string)
    requires i + |w| < |m| && m[i..i + |w|] == w && m[i + |w|] == '\0' && forall k :: 0 <= k < |w| ==> w[k] != '\0'
    ensures CString(m, i) == w
    decreases |w|
  {
    if w != "" {
      assert m[i] == w[0];
      assert m[i + 1..i + |w|] == w[1..];
      CStringIs(m, i + 1, w[1..]);
    }
  }

  /** Memory m is the line with NULs written at the given places. */
  ghost predicate Cut(line: string, ends: set<nat>, m: string) {
    && |m| == |line| + 1
    && forall j :: 0 <= j < |m| ==> m[j] == if |line| - j in ends then '\0' else if j < |line| then line[j] else '\0'
  }

  /** No cut falls inside a word. */
  lemma NotInside(line: string, c: Cmd<Tok>, t: Tok, j: nat)
    requires CmdOf(line, c) && TokenOf(line, t) && |line| - t.from <= j < |line| - t.to
    ensures |line| - j !in Ends(c)
  {
    hide CmdOf, Ends, Delim;
    var k := j - (|line| - t.from);
    assert t.text[k] == line[j];
    if |line| - j in Ends(c) { EndsAreDelims(line, c, |line| - j); }
  }

  /** After NULs are written after every word, and nowhere else, each word reads as its own token. */
  lemma WordsStandAlone(line: string, c: Cmd<Tok>, m: string, t: Tok)
    requires NoNul(line) && CmdOf(line, c) && HasToken(c, t) && Cut(line, Ends(c), m)
    ensures t.from <= |line| && CString(m, |line| - t.from) == t.text
  {
    hide CmdOf, HasToken, Ends, Delim, CString;
    TokensAreKnown(line, c, t);
    var n := |line|;
    var q := n - t.from;
    forall j | q <= j < n - t.to ensures m[j] == line[j] {
      NotInside(line, c, t, j);
    }
    assert m[q..q + |t.text|] == t.text;
    CStringIs(m, q, t.text);
  }
}

/**
 * The shell's parser (user/sh.c) with its moving cursor, and nulterminate, which
 * writes into the line.
 */
module Shell {
  import opened ShellSpec
  import opened ShellTokens

  /** A parsed value and the cursor after it, or a call of panic. */
  datatype Out<T> = Done(value: T, pos: nat) | Failed(msg: string)

  ghost predicate Agrees<T>(line: string, out: Out<T>, res: Res<T>) {
    match out
    case Done(v, pos) => pos <= |line| && res == Ok(v, line[pos..])
    case Failed(msg) => res == Panic(msg)
  }

  /** *s, where the line ends with a NUL. */
  function Char(line: string, s: nat): (c: char) {
    if s < |line| then line[s] else '\0'
  }

  method SkipSpace(line: string, start: nat) returns (s: nat)
    requires start <= |line|
    ensures start <= s <= |line| && line[s..] == Skip(line[start..])
    ensures Char(line, s) == Next(line[start..]) && Skip(line[s..]) == line[s..]
  {
    s := start;
    while s < |line| && Space(line[s])
      invariant start <= s <= |line| && Skip(line[s..]) == Skip(line[start..])
    {
      assert line[s..][0] == line[s] && line[s..][1..] == line[s + 1..];
      s := s + 1;
    }
    if s < |line| { assert line[s..][0] == line[s]; }
  }

  method WordEnd(line: string, q: nat) returns (s: nat)
    requires q <= |line|
    ensures q <= s <= |line| && s - q == WordLen(line[q..])
  {
    s := q;
    while s < |line| && !Space(line[s]) && !Symbol(line[s])
      invariant q <= s <= |line| && WordLen(line[q..]) == s - q + WordLen(line[s..])
    {
      assert line[s..][0] == line[s] && line[s..][1..] == line[s + 1..];
      s := s + 1;
    }
    if s < |line| { assert line[s..][0] == line[s]; }
  }

  method GetTok(line: string, start: nat) returns (ret: char, q: nat, eq: nat, s: nat)
    requires start <= |line| && NoNul(line)
    ensures var l := GetToken(line[start..]);
      && q <= eq <= s <= |line| && l == Lex(ret, Tok(line[q..eq], |line| - q, |line| - eq), line[s..])
  {
    hide Skip, WordLen, Space, Delim;
    s := SkipSpace(line, start);
    q := s;
    ghost var r := line[q..];
    ret := Char(line, s);
    if s < |line| { assert r[0] == line[s]; }
    if ret == '\0' {
    } else if ret == '>' {
      s := s + 1;
      if Char(line, s) == '>' {
        assert r[1] == line[s];
        ret := '+';
        s := s + 1;
      }
    } else if Symbol(ret) {
      s := s + 1;
    } else {
      ret := 'a';
      s := WordEnd(line, q);
    }
    eq := s;
    assert r[..eq - q] == line[q..eq] && r[eq - q..] == line[eq..];
    s := SkipSpace(line, eq);
  }

  function AddAll(done: seq<Redirection>, res: Res<seq<Redirection>>): (r: Res<seq<Redirection>>) {
    if res.Panic? then res else Ok(done + res.value, res.rest)
  }

  lemma AddNone(done: seq<Redirection>, rest: string, res: Res<seq<Redirection>>)
    ensures AddAll([], res) == res && AddAll(done, Ok([], rest)) == Ok(done, rest)
  {
    if res.Ok? { assert [] + res.value == res.value; }
    assert done + [] == done;
  }

  lemma AddOne(done: seq<Redirection>, x: Redirection, res: Res<seq<Redirection>>)
    ensures AddAll(done, if res.Panic? then res else Ok([x] + res.value, res.rest)) == AddAll(done + [x], res)
  {
    if res.Ok? { assert done + ([x] + res.value) == done + [x] + res.value; }
  }

  /** parseredirs: the redirections in the order in which they wrap the command. */
  method Redirs(line: string, start: nat) returns (out: Out<seq<Redirection>>)
    requires start <= |line| && NoNul(line)
    ensures Agrees(line, out, ParseRedirs(line[start..]))
  {
    hide Next, GetToken, Skip, AddAll;
    var s, done: seq<Redirection> := start, [];
    AddNone([], "", ParseRedirs(line[start..]));
    while true
      invariant s <= |line| && ParseRedirs(line[start..]) == AddAll(done, ParseRedirs(line[s..]))
      decreases |line| - s
    {
      var e := SkipSpace(line, s);
      if Char(line, e) != '<' && Char(line, e) != '>' {
        AddNone(done, line[e..], ParseRedirs(line[s..]));
        return Done(done, e);
      }
      var tok, q, eq, t := GetTok(line, s);
      var ret, fq, feq, u := GetTok(line, t);
      if ret != 'a' {
        AddPanic(done, "missing file for redirection");
        return Failed("missing file for redirection");
      }
      var x := Redirection(KindOf(tok), Tok(line[fq..feq], |line| - fq, |line| - feq));
      AddOne(done, x, ParseRedirs(line[u..]));
      Shorter(line, s, t);
      done := done + [x];
      s := u;
    }
  }

  lemma AddPanic(done: seq<Redirection>, msg: string)
    ensures AddAll(done, Panic(msg)) == Panic(msg)
  {
  }

  lemma Shorter(line: string, s: nat, t: nat)
    requires s <= |line| && t <= |line| && (Next(line[s..]) == '<' || Next(line[s..]) == '>')
    requires GetToken(line[s..]).rest == line[t..]
    ensures t > s
  {
    ArrowShorter(line[s..]);
  }

  /** The loop of parseexec, after its first call of parseredirs. */
  method Args(line: string, start: nat, redirs: seq<Redirection>) returns (out: Out<Words>)
    requires start <= |line| && NoNul(line)
    ensures Agrees(line, out, ParseArgs(line[start..], Words([], redirs)))
  {
    hide Next, GetToken, Skip, ParseRedirs;
    var s, w := start, Words([], redirs);
    while true
      invariant s <= |line| && ParseArgs(line[start..], Words([], redirs)) == ParseArgs(line[s..], w)
      decreases |line| - s
    {
      var e := SkipSpace(line, s);
      if EndsExec(Char(line, e)) {
        return Done(w, e);
      }
      var ret, q, eq, t := GetTok(line, s);
      if ret == '\0' {
        return Done(w, t);
      }
      if ret != 'a' {
        return Failed("syntax");
      }
      if |w.args| + 1 >= MAXARGS {
        return Failed("too many args");
      }
      var rd := Redirs(line, t);
      match rd {
        case Failed(msg) => return Failed(msg);
        case Done(more, u) =>
          w := Words(w.args + [Tok(line[q..eq], |line| - q, |line| - eq)], w.redirs + more);
          s := u;
      }
    }
  }

  method TakeSymbol(line: string, s: nat) returns (t: nat)
    requires s <= |line| && NoNul(line) && Symbol(Next(line[s..]))
    ensures s < t <= |line| && line[t..] == After(line[s..])
  {
    hide Next, GetToken, Skip;
    var ret, q, eq, u := GetTok(line, s);
    assert |After(line[s..])| < |line[s..]|;
    return u;
  }

  method ExecCmd(line: string, s: nat) returns (out: Out<Cmd<Tok>>)
    requires s <= |line| && NoNul(line)
    ensures Agrees(line, out, ParseExec(line[s..]))
    decreases |line| - s, 1
  {
    hide Next, After, Skip, ParseRedirs, ParseArgs, ParseBlock, Wrap;
    var e := SkipSpace(line, s);
    if Char(line, e) == '(' {
      out := Block(line, s);
      return;
    }
    var rd := Redirs(line, s);
    match rd {
      case Failed(msg) => return Failed(msg);
      case Done(rs, t) =>
        var w := Args(line, t, rs);
        match w {
          case Failed(msg) => return Failed(msg);
          case Done(ws, u) => return Done(Wrap(Exec(ws.args), ws.redirs), u);
        }
    }
  }

  method Block(line: string, s: nat) returns (out: Out<Cmd<Tok>>)
    requires s <= |line| && NoNul(line)
    ensures Agrees(line, out, ParseBlock(line[s..]))
    decreases |line| - s, 0
  {
    hide Next, After, Skip, ParseRedirs, ParseLine, Wrap;
    var e := SkipSpace(line, s);
    if Char(line, e) != '(' {
      return Failed("parseblock");
    }
    var t := TakeSymbol(line, s);
    var c := Line(line, t);
    match c {
      case Failed(msg) => return Failed(msg);
      case Done(cmd, u) =>
        var f := SkipSpace(line, u);
        if Char(line, f) != ')' {
          return Failed("syntax - missing )");
        }
        var v := TakeSymbol(line, u);
        var rd := Redirs(line, v);
        match rd {
          case Failed(msg) => return Failed(msg);
          case Done(rs, z) => return Done(Wrap(cmd, rs), z);
        }
    }
  }

  method PipeCmd(line: string, s: nat) returns (out: Out<Cmd<Tok>>)
    requires s <= |line| && NoNul(line)
    ensures Agrees(line, out, ParsePipe(line[s..]))
    decreases |line| - s, 2
  {
    hide Next, After, Skip, ParseExec;
    var c := ExecCmd(line, s);
    match c {
      case Failed(msg) => return Failed(msg);
      case Done(cmd, t) =>
        Within(line, s, t, ParseExec(line[s..]));
        var e := SkipSpace(line, t);
        if Char(line, e) != '|' {
          return Done(cmd, e);
        }
        var u := TakeSymbol(line, t);
        var d := PipeCmd(line, u);
        match d {
          case Failed(msg) => return Failed(msg);
          case Done(right, v) => return Done(Pipe(cmd, right), v);
        }
    }
  }

  /** The cursor does not move back. */
  lemma Within(line: string, s: nat, t: nat, res: Res<Cmd<Tok>>)
    requires s <= |line| && t <= |line| && res.Ok? && res.rest == line[t..] && |res.rest| <= |line[s..]|
    ensures s <= t
  {
  }

  method Line(line: string, s: nat) returns (out: Out<Cmd<Tok>>)
    requires s <= |line| && NoNul(line)
    ensures Agrees(line, out, ParseLine(line[s..]))
    decreases |line| - s, 3
  {
    hide Next, After, Skip, ParsePipe;
    var p := PipeCmd(line, s);
    match p {
      case Failed(msg) => return Failed(msg);
      case Done(first, t0) =>
        Within(line, s, t0, ParsePipe(line[s..]));
        var cmd, t := Backs(line, t0, first);
        var e := SkipSpace(line, t);
        if Char(line, e) != ';' {
          return Done(cmd, e);
        }
        var u := TakeSymbol(line, t);
        var d := Line(line, u);
        match d {
          case Failed(msg) => return Failed(msg);
          case Done(right, v) => return Done(List(cmd, right), v);
        }
    }
  }

  /** The loop of parseline over ampersands. */
  method Backs(line: string, start: nat, c: Cmd<Tok>) returns (cmd: Cmd<Tok>, s: nat)
    requires start <= |line| && NoNul(line)
    ensures start <= s <= |line| && ParseBacks(c, line[start..]) == Ok(cmd, line[s..])
  {
    hide Next, After, Skip;
    cmd, s := c, start;
    while true
      invariant start <= s <= |line| && ParseBacks(c, line[start..]) == ParseBacks(cmd, line[s..])
      decreases |line| - s
    {
      var e := SkipSpace(line, s);
      if Char(line, e) != '&' {
        return cmd, e;
      }
      s := TakeSymbol(line, s);
      cmd := Back(cmd);
    }
  }

  /** parsecmd on the buffer that holds the line and its NUL: the tree, with every word NUL-terminated in place. */
  method Parse(buf: array<char>, n: nat) returns (out: Out<Cmd<Tok>>)
    requires n < buf.Length && buf[n] == '\0' && NoNul(buf[..n])
    modifies buf
    ensures Agrees(old(buf[..n]), out, ParseCmd(old(buf[..n])))
    ensures out.Done? ==> CmdOf(old(buf[..n]), out.value) && Cut(old(buf[..n]), Ends(out.value), buf[..n + 1])
    ensures out.Done? ==> forall t :: HasToken(out.value, t) ==>
              t.from <= n && CString(buf[..n + 1], n - t.from) == t.text
    ensures out.Failed? ==> buf[..] == old(buf[..])
  {
    hide ParseLine, CmdOf, HasToken, Ends, CString, Skip;
    var line := buf[..n];
    assert line[0..] == line;
    var c := Line(line, 0);
    match c {
      case Failed(msg) => return Failed(msg);
      case Done(cmd, t) =>
        var e := SkipSpace(line, t);
        if e != n {
          return Failed("syntax");
        }
        ParsedTokens(line);
        EndsInside(line, cmd);
        Nulterminate(buf, n, cmd);
        forall t | HasToken(cmd, t) ensures t.from <= n && CString(buf[..n + 1], n - t.from) == t.text {
          WordsStandAlone(line, cmd, buf[..n + 1], t);
        }
        return Done(cmd, n);
    }
  }

  lemma EndsInside(line: string, c: Cmd<Tok>)
    requires CmdOf(line, c)
    ensures forall e :: e in Ends(c) ==> e <= |line|
  {
    forall e | e in Ends(c) ensures e <= |line| {
      EndsAreDelims(line, c, e);
    }
  }

  method Nulterminate(buf: array<char>, n: nat, c: Cmd<Tok>)
    requires n < buf.Length && forall e :: e in Ends(c) ==> e <= n
    modifies buf
    ensures forall j :: 0 <= j < buf.Length ==> buf[j] == if n - j in Ends(c) then '\0' else old(buf[j])
    decreases c
  {
    match c {
      case Exec(args) =>
        var i := 0;
        while i < |args|
          invariant 0 <= i <= |args|
          invariant forall j :: 0 <= j < buf.Length ==> buf[j] == if Ended(args[..i], n - j) then '\0' else old(buf[j])
        {
          assert args[i] in args && args[i].to in Ends(c);
          EndedMore(args, i);
          buf[n - args[i].to] := '\0';
          i := i + 1;
        }
        assert args[..i] == args;
      case Redir(d, file, _) =>
        assert Ends(d) <= Ends(c) && file.to in Ends(c);
        Nulterminate(buf, n, d);
        buf[n - file.to] := '\0';
      case Pipe(l, r) =>
        assert Ends(l) <= Ends(c) && Ends(r) <= Ends(c);
        Nulterminate(buf, n, l);
        Nulterminate(buf, n, r);
      case List(l, r) =>
        assert Ends(l) <= Ends(c) && Ends(r) <= Ends(c);
        Nulterminate(buf, n, l);
        Nulterminate(buf, n, r);
      case Back(d) =>
        assert Ends(d) <= Ends(c);
        Nulterminate(buf, n, d);
    }
  }

  ghost predicate Ended(args: seq<Tok>, e: int) {
    exists t :: t in args && t.to == e
  }

  lemma EndedMore(args: seq<Tok>, i: nat)
    requires i < |args|
    ensures forall e :: Ended(args[..i + 1], e) <==> Ended(args[..i], e) || e == args[i].to
  {
    assert args[..i + 1] == args[..i] + [args[i]];
    forall e ensures Ended(args[..i + 1], e) <==> Ended(args[..i], e) || e == args[i].to {
      if Ended(args[..i], e) {
        var t :| t in args[..i] && t.to == e;
        assert t in args[..i + 1];
      }
      assert args[i] in args[..i + 1];
    }
  }
}
