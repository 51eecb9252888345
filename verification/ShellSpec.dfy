/** The grammar of the shell (user/sh.c), as functions on the part of the line still to be read. */
module ShellSpec {

  const MAXARGS: nat := 10

  datatype Kind = In | Out | Append

  /** Command trees over words: strings, or tokens with their place in the line. */
  datatype Cmd<W> =
    | Exec(args: seq<W>)
    | Redir(cmd: Cmd<W>, file: W, kind: Kind)
    | Pipe(left: Cmd<W>, right: Cmd<W>)
    | List(left: Cmd<W>, right: Cmd<W>)
    | Back(cmd: Cmd<W>)

  /** A token: its text, and how much of the line is left at its start and after its end. */
  datatype Tok = Tok(text: string, from: nat, to: nat)

  datatype Res<T> = Ok(value: T, rest: string) | Panic(msg: string)

  predicate Space(c: char) {
    c == ' ' || c == '\t' || c == '\r' || c == '\n' || c == '\U{0B}'
  }

  predicate Symbol(c: char) {
    c == '<' || c == '|' || c == '>' || c == '&' || c == ';' || c == '(' || c == ')'
  }

  predicate Delim(c: char) {
    Space(c) || Symbol(c)
  }

  /** The line without its leading white space. */
  function Skip(r: string): (s: string)
    ensures |s| <= |r|
    decreases |r|
  {
    if r != "" && Space(r[0]) then Skip(r[1..]) else r
  }

  lemma SkipStops(r: string)
    ensures Skip(r) == "" || !Space(Skip(r)[0])
    decreases |r|
  {
  }

  /** The length of the word the line begins with. */
  function WordLen(r: string): (n: nat)
    ensures n <= |r| && (r != "" && !Delim(r[0]) ==> n > 0)
    decreases |r|
  {
    if r == "" || Delim(r[0]) then 0 else 1 + WordLen(r[1..])
  }

  /** A token kind as gettoken returns it: 0 at the end, a symbol, '+' for >>, or 'a' for a word. */
  datatype Lex = Lex(kind: char, tok: Tok, rest: string)

  function Take(s: string, kind: char, n: nat): (l: Lex)
    requires n <= |s|
    ensures |l.rest| <= |s| - n
  {
    Lex(kind, Tok(s[..n], |s|, |s| - n), Skip(s[n..]))
  }

  function GetToken(r: string): (l: Lex)
    ensures |l.rest| <= |r| && (l.kind != '\0' ==> |l.rest| < |r|)
  {
    SkipStops(r);
    var s := Skip(r);
    if s == "" then Take(s, '\0', 0)
    else if s[0] == '>' then (if |s| > 1 && s[1] == '>' then Take(s, '+', 2) else Take(s, '>', 1))
    else if Symbol(s[0]) then Take(s, s[0], 1)
    else if s[0] == '\0' then Take(s, '\0', 0)
    else Take(s, 'a', WordLen(s))
  }

  /** The next character after white space, or NUL at the end: what peek tests. */
  function Next(r: string): (c: char) {
    if Skip(r) == "" then '\0' else Skip(r)[0]
  }

  /** The line after the symbol it begins with. */
  function After(r: string): (s: string)
    requires Symbol(Next(r))
    ensures |s| < |r|
  {
    GetToken(r).rest
  }

  function KindOf(c: char): (k: Kind) {
    if c == '<' then In else if c == '>' then Out else Append
  }

  datatype Redirection = Redirection(kind: Kind, file: Tok)

  function ParseRedirs(r: string): (res: Res<seq<Redirection>>)
    ensures res.Ok? ==> |res.rest| <= |r|
    decreases |r|
  {
    if Next(r) != '<' && Next(r) != '>' then Ok([], Skip(r))
    else
      var l := GetToken(r);
      var f := GetToken(l.rest);
      if f.kind != 'a' then Panic("missing file for redirection")
      else
        var more := ParseRedirs(f.rest);
        if more.Panic? then more else Ok([Redirection(KindOf(l.kind), f.tok)] + more.value, more.rest)
  }

  datatype Words = Words(args: seq<Tok>, redirs: seq<Redirection>)

  predicate EndsExec(c: char) {
    c == '|' || c == ')' || c == '&' || c == ';'
  }

  /** The loop of parseexec. */
  function ParseArgs(r: string, w: Words): (res: Res<Words>)
    ensures res.Ok? ==> |res.rest| <= |r|
    decreases |r|
  {
    if EndsExec(Next(r)) then Ok(w, Skip(r))
    else
      var l := GetToken(r);
      if l.kind == '\0' then Ok(w, l.rest)
      else if l.kind != 'a' then Panic("syntax")
      else if |w.args| + 1 >= MAXARGS then Panic("too many args")
      else
        var rd := ParseRedirs(l.rest);
        if rd.Panic? then Panic(rd.msg) else ParseArgs(rd.rest, Words(w.args + [l.tok], w.redirs + rd.value))
  }

  /** Redirections wrap a command one after the other. */
  function Wrap(c: Cmd<Tok>, rs: seq<Redirection>): (w: Cmd<Tok>)
    decreases |rs|
  {
    if rs == [] then c else Redir(Wrap(c, rs[..|rs| - 1]), rs[|rs| - 1].file, rs[|rs| - 1].kind)
  }

  function ParseExec(r: string): (res: Res<Cmd<Tok>>)
    ensures res.Ok? ==> |res.rest| <= |r|
    decreases |r|, 1
  {
    if Next(r) == '(' then ParseBlock(r)
    else
      var rd := ParseRedirs(r);
      if rd.Panic? then Panic(rd.msg)
      else
        var w := ParseArgs(rd.rest, Words([], rd.value));
        if w.Panic? then Panic(w.msg) else Ok(Wrap(Exec(w.value.args), w.value.redirs), w.rest)
  }

  function ParseBlock(r: string): (res: Res<Cmd<Tok>>)
    ensures res.Ok? ==> |res.rest| <= |r|
    decreases |r|, 0
  {
    if Next(r) != '(' then Panic("parseblock")
    else
      var c := ParseLine(After(r));
      if c.Panic? then c
      else if Next(c.rest) != ')' then Panic("syntax - missing )")
      else
        var rd := ParseRedirs(After(c.rest));
        if rd.Panic? then Panic(rd.msg) else Ok(Wrap(c.value, rd.value), rd.rest)
  }

  function ParsePipe(r: string): (res: Res<Cmd<Tok>>)
    ensures res.Ok? ==> |res.rest| <= |r|
    decreases |r|, 2
  {
    var c := ParseExec(r);
    if c.Panic? || Next(c.rest) != '|' then Skipped(c)
    else
      var d := ParsePipe(After(c.rest));
      if d.Panic? then d else Ok(Pipe(c.value, d.value), d.rest)
  }

  /** peek leaves the cursor after the white space. */
  function Skipped(c: Res<Cmd<Tok>>): (d: Res<Cmd<Tok>>) {
    if c.Panic? then c else Ok(c.value, Skip(c.rest))
  }

  /** The loop of parseline. */
  function ParseBacks(c: Cmd<Tok>, r: string): (res: Res<Cmd<Tok>>)
    ensures res.Ok? && |res.rest| <= |r|
    decreases |r|
  {
    if Next(r) == '&' then ParseBacks(Back(c), After(r)) else Ok(c, Skip(r))
  }

  function ParseLine(r: string): (res: Res<Cmd<Tok>>)
    ensures res.Ok? ==> |res.rest| <= |r|
    decreases |r|, 3
  {
    var p := ParsePipe(r);
    if p.Panic? then p
    else
      var c := ParseBacks(p.value, p.rest);
      assert |c.rest| <= |r|;
      if Next(c.rest) != ';' then Skipped(c)
      else
        assert Symbol(Next(c.rest));
        var d := ParseLine(After(c.rest));
        if d.Panic? then d else Ok(List(c.value, d.value), d.rest)
  }

  function ParseCmd(line: string): (res: Res<Cmd<Tok>>) {
    var c := ParseLine(line);
    if c.Panic? then c
    else if Skip(c.rest) != "" then Panic("syntax")
    else Ok(c.value, "")
  }

  // -------------------------------------------------------------------- printing

  /** What a parsed command says, without the places. */
  function Erase(c: Cmd<Tok>): (e: Cmd<string>) {
    match c
    case Exec(args) => Exec(Texts(args))
    case Redir(d, file, kind) => Redir(Erase(d), file.text, kind)
    case Pipe(l, r) => Pipe(Erase(l), Erase(r))
    case List(l, r) => List(Erase(l), Erase(r))
    case Back(d) => Back(Erase(d))
  }

  function Texts(args: seq<Tok>): (ts: seq<string>) {
    seq(|args|, i requires 0 <= i < |args| => args[i].text)
  }

  /** A word: at least one character, none a delimiter. */
  predicate Plain(w: string) {
    w != "" && forall i :: 0 <= i < |w| ==> !Delim(w[i]) && w[i] != '\0'
  }

  predicate Printable(c: Cmd<string>) {
    match c
    case Exec(args) => |args| < MAXARGS && forall i :: 0 <= i < |args| ==> Plain(args[i])
    case Redir(d, file, _) => Printable(d) && Plain(file)
    case Pipe(l, r) => Printable(l) && Printable(r)
    case List(l, r) => Printable(l) && Printable(r)
    case Back(d) => Printable(d)
  }

  function Arrow(k: Kind): (a: string) {
    match k
    case In => "<"
    case Out => ">"
    case Append => ">>"
  }

  function PrintArgs(args: seq<string>): (s: string) {
    if args == [] then "" else args[0] + " " + PrintArgs(args[1..])
  }

  /** As an operand of |: words and redirections, or a parenthesised line. */
  function PrintExec(c: Cmd<string>): (s: string)
    decreases c, 0
  {
    match c
    case Exec(args) => PrintArgs(args)
    case Redir(d, file, kind) => PrintExec(d) + (Arrow(kind) + file + " ")
    case Pipe(l, r) => "(" + (PrintExec(l) + ("|" + PrintPipe(r)) + ")")
    case List(l, r) => "(" + (PrintBacks(l) + (";" + PrintLine(r)) + ")")
    case Back(d) => "(" + (PrintBacks(d) + "&" + ")")
  }

  function PrintPipe(c: Cmd<string>): (s: string)
    decreases c, 1
  {
    match c
    case Pipe(l, r) => PrintExec(l) + ("|" + PrintPipe(r))
    case _ => PrintExec(c)
  }

  function PrintBacks(c: Cmd<string>): (s: string)
    decreases c, 2
  {
    match c
    case Back(d) => PrintBacks(d) + "&"
    case _ => PrintPipe(c)
  }

  function PrintLine(c: Cmd<string>): (s: string)
    decreases c, 3
  {
    match c
    case List(l, r) => PrintBacks(l) + (";" + PrintLine(r))
    case _ => PrintBacks(c)
  }
}
