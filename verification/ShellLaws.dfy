/** Words and redirections in any order, and the lines the shell refuses (user/sh.c). */
module ShellLaws {
  import opened ShellSpec
  import opened ShellRoundTrip

  /** One item of a simple command: a word, or a redirection. */
  datatype Item = Text(word: string) | Sent(redir: Arrowed)

  function ItemText(it: Item): (s: string) {
    match it
    case Text(w) => w
    case Sent(r) => Arrow(r.kind) + r.file
  }

  function PrintItems(items: seq<Item>): (s: string) {
    if items == [] then "" else ItemText(items[0]) + (" " + PrintItems(items[1..]))
  }

  predicate PlainItems(items: seq<Item>) {
    forall i :: 0 <= i < |items| ==>
      match items[i] case Text(w) => Plain(w) case Sent(r) => Plain(r.file)
  }

  function WordsOf(items: seq<Item>): (ws: seq<string>) {
    if items == [] then [] else (if items[0].Text? then [items[0].word] else []) + WordsOf(items[1..])
  }

  function RedirsOf(items: seq<Item>): (rs: seq<Arrowed>) {
    if items == [] then [] else (if items[0].Sent? then [items[0].redir] else []) + RedirsOf(items[1..])
  }

  /** The redirections the items begin with, and what follows them. */
  function Lead(items: seq<Item>): (rs: seq<Arrowed>) {
    if items != [] && items[0].Sent? then [items[0].redir] + Lead(items[1..]) else []
  }

  function Follow(items: seq<Item>): (rest: seq<Item>)
    ensures |rest| <= |items| && (rest == [] || rest[0].Text?)
  {
    if items != [] && items[0].Sent? then Follow(items[1..]) else items
  }

  lemma {:induction false} LeadPlain(items: seq<Item>)
    requires PlainItems(items)
    ensures PlainFiles(Lead(items)) && PlainItems(Follow(items))
    ensures WordsOf(items) == WordsOf(Follow(items)) && RedirsOf(items) == Lead(items) + RedirsOf(Follow(items))
    decreases |items|
  {
    hide Plain;
    if items != [] && items[0].Sent? {
      LeadPlain(items[1..]);
      var lead := Lead(items);
      forall i | 0 <= i < |lead| ensures Plain(lead[i].file) {
        if i > 0 { assert lead[i] == Lead(items[1..])[i - 1]; }
      }
    }
  }

  lemma SentFirst(items: seq<Item>, post: string)
    requires items != [] && items[0].Sent?
    ensures PrintItems(items) + post ==
            Arrow(items[0].redir.kind) + (items[0].redir.file + (" " + (PrintItems(items[1..]) + post)))
  {
    hide Arrow;
  }

  lemma {:induction false} LeadFollow(items: seq<Item>, post: string)
    ensures PrintItems(items) + post == PrintRedirs(Lead(items)) + (PrintItems(Follow(items)) + post)
    decreases |items|
  {
    hide Plain, Arrow, WordsOf, RedirsOf, PrintItems, PrintRedirs;
    if items != [] && items[0].Sent? {
      var more := items[1..];
      LeadFollow(more, post);
      var lead := Lead(items);
      assert lead[0] == items[0].redir && lead[1..] == Lead(more);
      PrintRedirsFirst(lead, PrintItems(Follow(more)) + post);
      SentFirst(items, post);
    } else {
      PrintNone([], PrintItems(items) + post);
    }
  }

  /** Items that do not begin with a redirection. */
  lemma NoLead(items: seq<Item>, post: string)
    requires PlainItems(items) && StopsExec(post) && (items == [] || items[0].Text?)
    ensures var s := PrintItems(items) + post; NoArrow(s) && Next(s) != '('
  {
    hide Skip, Next, GetToken, Plain, ParseRedirs;
    if items == [] {
      assert PrintItems(items) + post == post;
      ArgsStop(post, Words([], []));
    } else {
      assert PrintItems(items) + post == items[0].word + (" " + (PrintItems(items[1..]) + post));
      WordsFirst(items[0].word, PrintItems(items[1..]) + post);
    }
  }

  /** Leading redirections are parsed, and the cursor stands at the first word. */
  lemma LeadParsed(items: seq<Item>, post: string)
    requires PlainItems(items) && StopsExec(post)
    ensures var s := PrintItems(items) + post;
      && var res := ParseRedirs(s);
      && Next(s) != '(' && res.Ok? && Shown(res.value) == Lead(items)
      && res.rest == Skip(PrintItems(Follow(items)) + post)
  {
    hide Skip, Next, GetToken, Plain, ParseRedirs, PrintRedirs, PrintItems, StopsExec, NoArrow;
    LeadFollow(items, post);
    LeadPlain(items);
    NoLead(Follow(items), post);
    RedirsBack(Lead(items), PrintItems(Follow(items)) + post);
    NoParen(Lead(items), PrintItems(Follow(items)) + post);
  }

  /** The tenth word is refused, whatever follows it. */
  lemma OneTooMany(a: string, tail: string, w: Words)
    requires Plain(a) && |w.args| + 1 >= MAXARGS && tail != "" && Delim(tail[0])
    ensures ParseArgs(a + tail, w) == Panic("too many args")
  {
    hide Skip, GetToken, Next, ParseRedirs;
    WordToken(a, tail);
    PlainStarts(a);
  }

  ghost predicate Collected(res: Res<Words>, args: seq<string>, redirs: seq<Arrowed>, post: string) {
    res.Ok? && Texts(res.value.args) == args && Shown(res.value.redirs) == redirs && res.rest == Skip(post)
  }

  function With(w: Words, a: string, tail: string, rs: seq<Redirection>): (v: Words) {
    Words(w.args + [Tok(a, |a| + |tail|, |tail|)], w.redirs + rs)
  }

  lemma NextWord(items: seq<Item>, post: string, w: Words) returns (rs: seq<Redirection>)
    requires PlainItems(items) && StopsExec(post) && items != [] && items[0].Text? && |w.args| + 1 < MAXARGS
    ensures Shown(rs) == Lead(items[1..])
    ensures var tail := " " + (PrintItems(items[1..]) + post);
      ParseArgs(PrintItems(items) + post, w) ==
      ParseArgs(PrintItems(Follow(items[1..])) + post, With(w, items[0].word, tail, rs))
  {
    hide Skip, Next, GetToken, Plain, ParseRedirs, ParseArgs, StopsExec, Symbol;
    var more := PrintItems(items[1..]) + post;
    assert PrintItems(items) + post == items[0].word + (" " + more);
    ArgStep(items[0].word, " " + more, w);
    BlankRedirs(more);
    LeadParsed(items[1..], post);
    rs := ParseRedirs(more).value;
    SkipArgs(PrintItems(Follow(items[1..])) + post, With(w, items[0].word, " " + more, rs));
  }

  lemma Appended(w: Words, a: string, tail: string, rs: seq<Redirection>)
    ensures var v := With(w, a, tail, rs);
      && |v.args| == |w.args| + 1
      && Texts(v.args) == Texts(w.args) + [a] && Shown(v.redirs) == Shown(w.redirs) + Shown(rs)
  {
  }

  lemma WordFirst(items: seq<Item>)
    requires items != [] && items[0].Text?
    ensures WordsOf(items) == [items[0].word] + WordsOf(items[1..]) && RedirsOf(items) == RedirsOf(items[1..])
    ensures PlainItems(items) ==> PlainItems(items[1..])
  {
  }

  lemma Assoc<T>(a: seq<T>, b: seq<T>, c: seq<T>)
    ensures (a + b) + c == a + (b + c)
  {
  }

  lemma Gathered(items: seq<Item>, w: Words, tail: string, rs: seq<Redirection>)
    requires PlainItems(items) && items != [] && items[0].Text? && Shown(rs) == Lead(items[1..])
    ensures var v := With(w, items[0].word, tail, rs); var rest := Follow(items[1..]);
      && PlainItems(rest) && |v.args| + |WordsOf(rest)| == |w.args| + |WordsOf(items)|
      && Texts(v.args) + WordsOf(rest) == Texts(w.args) + WordsOf(items)
      && Shown(v.redirs) + RedirsOf(rest) == Shown(w.redirs) + RedirsOf(items)
  {
    hide *;
    WordFirst(items);
    LeadPlain(items[1..]);
    var rest := Follow(items[1..]);
    Appended(w, items[0].word, tail, rs);
    Assoc(Texts(w.args), [items[0].word], WordsOf(rest));
    Assoc(Shown(w.redirs), Shown(rs), RedirsOf(rest));
  }

  lemma {:induction false} MixedArgs(items: seq<Item>, post: string, w: Words)
    requires PlainItems(items) && StopsExec(post) && (items == [] || items[0].Text?) && |w.args| < MAXARGS
    ensures var res := ParseArgs(PrintItems(items) + post, w);
      if |w.args| + |WordsOf(items)| < MAXARGS
      then Collected(res, Texts(w.args) + WordsOf(items), Shown(w.redirs) + RedirsOf(items), post)
      else res == Panic("too many args")
    decreases |items|
  {
    hide Skip, Next, GetToken, Plain, ParseRedirs, ParseArgs, StopsExec, Symbol;
    if items == [] {
      assert PrintItems(items) + post == post;
      ArgsStop(post, w);
      assert Texts(w.args) + [] == Texts(w.args) && Shown(w.redirs) + [] == Shown(w.redirs);
    } else {
      var a, tail := items[0].word, " " + (PrintItems(items[1..]) + post);
      if |w.args| + 1 >= MAXARGS {
        assert PrintItems(items) + post == a + tail;
        OneTooMany(a, tail, w);
      } else {
        var rs := NextWord(items, post, w);
        Gathered(items, w, tail, rs);
        MixedArgs(Follow(items[1..]), post, With(w, a, tail, rs));
      }
    }
  }

  /** Words and redirections in any order: fewer than MAXARGS words parse, and more are refused. */
  lemma MixedBack(items: seq<Item>, post: string)
    requires PlainItems(items) && StopsExec(post)
    ensures var res := ParseExec(PrintItems(items) + post);
      if |WordsOf(items)| < MAXARGS then Parsed(res, Rewrap(Exec(WordsOf(items)), RedirsOf(items)), post)
      else res == Panic("too many args")
  {
    hide Skip, Next, GetToken, Plain, ParseRedirs, ParseArgs, StopsExec, Wrap, Rewrap, ParseBlock;
    var s := PrintItems(items) + post;
    var rest := PrintItems(Follow(items)) + post;
    LeadParsed(items, post);
    LeadPlain(items);
    var rd := ParseRedirs(s);
    var w := Words([], rd.value);
    MixedArgs(Follow(items), post, w);
    SkipArgs(rest, w);
    if |WordsOf(items)| < MAXARGS {
      var v := ParseArgs(rest, w);
      ExecUnfold(s, rd, v);
      WrapErase(Exec(v.value.args), v.value.redirs);
      assert Texts([]) + WordsOf(items) == WordsOf(items);
    }
  }

  // ---------------------------------------------------------------- refused lines

  /** A closing parenthesis too many. */
  lemma LeftOver(c: Cmd<string>, more: string)
    requires Printable(c)
    ensures ParseCmd(PrintLine(c) + (")" + more)) == Panic("syntax")
  {
    hide ParseLine, PrintLine, Skip, Next, GetToken, Printable, After;
    Stops(')', more);
    LineBack(c, ")" + more);
  }

  /** A parenthesis that is never closed. */
  lemma Unclosed(c: Cmd<string>)
    requires Printable(c)
    ensures ParseExec("(" + PrintLine(c)) == Panic("syntax - missing )")
  {
    hide ParseLine, PrintLine, GetToken, Printable, After, ParseRedirs;
    var line := PrintLine(c);
    assert line + "" == line;
    LineBack(c, "");
    SymbolToken('(', line);
    SkipLine(line);
  }

  /** A redirection with no file name after it. */
  lemma NoFile(k: Kind, post: string)
    requires StopsExec(post)
    ensures ParseRedirs(Arrow(k) + (" " + post)) == Panic("missing file for redirection")
  {
    hide WordLen;
    var s := Arrow(k) + (" " + post);
    assert s[0] == Arrow(k)[0] && s[|Arrow(k)|] == ' ' && s[|Arrow(k)|..] == " " + post;
    SkipNone(s);
    SkipBlank(post);
    SkipTwice(post);
  }
}
