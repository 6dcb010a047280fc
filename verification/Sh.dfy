/** sh.c's parser: the cursor, the line it moves over, and the NULs it writes into it. */
module Sh {
  import opened ShSpec

  predicate Blank(c: char) {
    c == ' ' || c == '\t' || c == '\r' || c == '\n' || c == '\U{0B}'
  }

  const SYMBOLS: string := "<|>&;()"

  predicate WordChar(c: char) {
    !Blank(c) && c !in SYMBOLS
  }

  // ----- The tokens of a line -----

  function Skip(s: seq<char>, p: nat): (k: nat)
    requires p <= |s|
    ensures p <= k <= |s| && (k < |s| ==> !Blank(s[k])) && forall i :: p <= i < k ==> Blank(s[i])
    decreases |s| - p
  {
    if p < |s| && Blank(s[p]) then Skip(s, p + 1) else p
  }

  function WordEnd(s: seq<char>, p: nat): (k: nat)
    requires p <= |s|
    ensures p <= k <= |s| && (k < |s| ==> !WordChar(s[k])) && forall i :: p <= i < k ==> WordChar(s[i])
    decreases |s| - p
  {
    if p < |s| && WordChar(s[p]) then WordEnd(s, p + 1) else p
  }

  function TokenEnd(s: seq<char>, k: nat): (e: nat)
    requires k < |s| && !Blank(s[k])
    ensures k < e <= |s|
  {
    if s[k] == '>' && k + 1 < |s| && s[k + 1] == '>' then k + 2
    else if s[k] in SYMBOLS then k + 1
    else WordEnd(s, k + 1)
  }

  function TokenAt(s: seq<char>, k: nat): Token
    requires k < |s| && !Blank(s[k])
  {
    if s[k] == '>' && k + 1 < |s| && s[k + 1] == '>' then Op('+')
    else if s[k] in SYMBOLS then Op(s[k])
    else W(Word(k, TokenEnd(s, k)))
  }

  function Lex(s: seq<char>, p: nat): seq<Token>
    requires p <= |s|
    decreases |s| - p
  {
    var k := Skip(s, p);
    if k == |s| then [] else [TokenAt(s, k)] + Lex(s, TokenEnd(s, k))
  }

  lemma LexSkips(s: seq<char>, p: nat)
    requires p <= |s|
    ensures Lex(s, Skip(s, p)) == Lex(s, p)
  {
  }

  lemma {:induction false} SkipFrom(s: seq<char>, p: nat, k: nat)
    requires p <= k <= |s| && (forall i :: p <= i < k ==> Blank(s[i])) && (k < |s| ==> !Blank(s[k]))
    ensures Skip(s, p) == k
    decreases k - p
  {
    if p < k {
      SkipFrom(s, p + 1, k);
    }
  }

  lemma {:induction false} WordEndFrom(s: seq<char>, p: nat, k: nat)
    requires p <= k <= |s| && (forall i :: p <= i < k ==> WordChar(s[i])) && (k < |s| ==> !WordChar(s[k]))
    ensures WordEnd(s, p) == k
    decreases k - p
  {
    if p < k {
      WordEndFrom(s, p + 1, k);
    }
  }

  /** A whole word of the line. */
  predicate IsWord(s: seq<char>, w: Word) {
    && w.q < w.eq <= |s| && (forall i :: w.q <= i < w.eq ==> WordChar(s[i]))
    && (w.eq < |s| ==> !WordChar(s[w.eq]))
  }

  lemma {:induction false} LexWords(s: seq<char>, p: nat)
    requires p <= |s|
    ensures forall w :: w in TokenWords(Lex(s, p)) ==> IsWord(s, w)
    decreases |s| - p
  {
    var k := Skip(s, p);
    if k < |s| {
      LexWords(s, TokenEnd(s, k));
      var t, rest := TokenAt(s, k), Lex(s, TokenEnd(s, k));
      forall w | w in TokenWords(Lex(s, p)) ensures IsWord(s, w) {
        assert W(w) == t || W(w) in rest;
      }
    }
  }

  // ----- NUL termination -----

  function Ends(ws: set<Word>): set<nat> {
    set w | w in ws :: w.eq
  }

  /** The C string that starts at q. */
  function Str(b: seq<char>, q: nat): seq<char>
    decreases |b| - q
  {
    if q >= |b| || b[q] == '\0' then [] else [b[q]] + Str(b, q + 1)
  }

  lemma {:induction false} StrIs(b: seq<char>, q: nat, e: nat)
    requires q <= e < |b| && b[e] == '\0' && forall i :: q <= i < e ==> b[i] != '\0'
    ensures Str(b, q) == b[q..e]
    decreases e - q
  {
    if q < e {
      StrIs(b, q + 1, e);
      assert b[q..e] == [b[q]] + b[q + 1..e];
    }
  }

  /** No word ends inside another, so a NUL at every end cuts no word short. */
  lemma WordsSurvive(b: seq<char>, b': seq<char>, n: nat, ws: set<Word>, w: Word)
    requires |b'| == |b| == n + 1 && b[n] == '\0' && '\0' !in b[..n]
    requires w in ws && forall x :: x in ws ==> IsWord(b[..n], x)
    requires forall i :: 0 <= i < |b| ==> b'[i] == if i in Ends(ws) then '\0' else b[i]
    ensures w.q < w.eq <= n && Str(b', w.q) == b[w.q..w.eq]
  {
    assert IsWord(b[..n], w);
    forall i | w.q <= i < w.eq ensures b'[i] == b[i] && b[i] != '\0' {
      assert WordChar(b[..n][i]);
      forall x | x in ws ensures x.eq != i {
        assert IsWord(b[..n], x);
      }
      assert b[..n][i] in b[..n];
    }
    StrIs(b', w.q, w.eq);
    assert b'[w.q..w.eq] == b[w.q..w.eq];
  }

  lemma EndsJoin(ws: set<Word>, vs: set<Word>)
    ensures Ends(ws + vs) == Ends(ws) + Ends(vs)
  {
  }

  lemma EndsMore(argv: seq<Word>, i: nat)
    requires i < |argv|
    ensures Ends(Elements(argv[..i + 1])) == Ends(Elements(argv[..i])) + {argv[i].eq}
  {
    assert argv[..i + 1] == argv[..i] + [argv[i]];
    assert Elements(argv[..i + 1]) == Elements(argv[..i]) + {argv[i]};
    EndsJoin(Elements(argv[..i]), {argv[i]});
  }

  lemma AllConsumed(toks: seq<Token>, ws: set<Word>)
    requires Consumed(toks, [], ws)
    ensures TokenWords(toks) == ws
  {
    var used :| toks == used + [] && TokenWords(used) == ws;
    assert used + [] == used;
  }

  // ----- Loops of the parser -----

  function Prepend(rs: seq<Redirection>, r: Parsed<seq<Redirection>>): Parsed<seq<Redirection>> {
    match r
    case Bad => Bad
    case Ok(more, rest) => Ok(rs + more, rest)
  }

  lemma RedirsAfter(rs: seq<Redirection>, toks: seq<Token>)
    requires rs == []
    ensures Redirs(toks) == Prepend(rs, Redirs(toks))
  {
    var r := Redirs(toks);
    if r.Ok? {
      assert rs + r.value == r.value;
    }
  }

  lemma RedirsStep(rs: seq<Redirection>, toks: seq<Token>)
    requires Starts(toks, "<>+")
    ensures |toks| < 2 || !toks[1].W? ==> Redirs(toks).Bad?
    ensures |toks| >= 2 && toks[1].W? ==>
              Prepend(rs, Redirs(toks)) == Prepend(rs + [RedirectionOf(toks[0].c, toks[1].w)], Redirs(toks[1..][1..]))
  {
    RedirsFirst(toks);
    hide Redirs, RedirectionOf;
    if |toks| >= 2 && toks[1].W? {
      var x := RedirectionOf(toks[0].c, toks[1].w);
      assert toks[1..][1..] == toks[2..];
      PrependOne(rs, x, Redirs(toks[2..]));
    }
  }

  lemma PrependOne(rs: seq<Redirection>, x: Redirection, r: Parsed<seq<Redirection>>)
    ensures Prepend(rs, Prepend([x], r)) == Prepend(rs + [x], r)
  {
    if r.Ok? {
      assert rs + ([x] + r.value) == (rs + [x]) + r.value;
    }
  }

  /** What a parse function returns; a panic ends the shell. */
  datatype Outcome<T> = Tree(value: T) | Panic

  class Parser {
    const buf: array<char>
    const es: nat
    var s: nat // *ps

    ghost predicate Valid()
      reads this, buf
    {
      es + 1 == buf.Length && s <= es && buf[es] == '\0' && '\0' !in buf[..es]
    }

    ghost function Toks(): seq<Token>
      reads this, buf
      requires s <= es < buf.Length
    {
      Lex(buf[..es], s)
    }

    /** The line being parsed; it ends where the C string does. */
    constructor (buf: array<char>, es: nat)
      requires es + 1 == buf.Length && buf[es] == '\0' && '\0' !in buf[..es]
      ensures Valid() && this.buf == buf && this.es == es && s == 0
    {
      this.buf, this.es, s := buf, es, 0;
    }

    method SkipBlanks(from: nat) returns (t: nat)
      requires Valid() && from <= es
      ensures t <= es && t == Skip(buf[..es], from)
    {
      t := from;
      while t < es && Blank(buf[t])
        invariant from <= t <= es && forall i :: from <= i < t ==> Blank(buf[i])
      {
        t := t + 1;
      }
      SkipFrom(buf[..es], from, t);
    }

    /** Skips blanks and tells whether the next character is one of `toks`. */
    method Peek(toks: string) returns (found: bool)
      requires Valid() && forall c :: c in toks ==> c in SYMBOLS
      modifies this`s
      ensures Valid() && old(s) <= s && Toks() == old(Toks())
      ensures found <==> Toks() != [] && Toks()[0].Op? && (if Toks()[0].c == '+' then '>' else Toks()[0].c) in toks
      ensures s == es <==> Toks() == []
    {
      LexSkips(buf[..es], s);
      s := SkipBlanks(s);
      SkipFrom(buf[..es], s, s);
      found := buf[s] != '\0' && buf[s] in toks;
    }

    /** The next token: 0 at the end, an operator, '+' for >>, or 'a' for the word from q to eq. */
    method GetToken() returns (ret: char, q: nat, eq: nat)
      requires Valid()
      modifies this`s
      ensures Valid() && old(s) <= s
      ensures old(Toks()) == [] ==> ret == '\0' && Toks() == []
      ensures old(Toks()) != [] ==>
                && Toks() == old(Toks())[1..] && ret != '\0'
                && match old(Toks())[0] { case Op(c) => ret == c case W(w) => ret == 'a' && w == Word(q, eq) }
      ensures old(Toks()) != [] ==> (ret == 'a' <==> old(Toks())[0].W?)
    {
      ghost var line := buf[..es];
      s := SkipBlanks(s);
      q := s;
      var t := s;
      if t == es {
        ret := '\0';
      } else if buf[t] == '|' || buf[t] == '(' || buf[t] == ')' || buf[t] == ';' || buf[t] == '&' || buf[t] == '<' {
        ret := buf[t];
        t := t + 1;
      } else if buf[t] == '>' {
        ret := '>';
        t := t + 1;
        if buf[t] == '>' {
          ret := '+';
          t := t + 1;
        }
      } else {
        ret := 'a';
        while t < es && !Blank(buf[t]) && buf[t] !in SYMBOLS
          invariant q <= t <= es && forall i :: q <= i < t ==> WordChar(line[i])
        {
          t := t + 1;
        }
        WordEndFrom(line, q + 1, t);
      }
      eq := t;
      if q < es {
        assert line[q] in line;
        assert t == TokenEnd(line, q);
        LexSkips(line, t);
      }
      s := SkipBlanks(t);
    }

    // ----- The grammar -----

    /** parseredirs, returning what it would wrap around the command. */
    method ParseRedirs() returns (r: Outcome<seq<Redirection>>)
      requires Valid()
      modifies this`s
      ensures Valid() && old(s) <= s
      ensures match Redirs(old(Toks())) { case Bad => r.Panic? case Ok(rs, rest) => r == Tree(rs) && Toks() == rest }
    {
      hide Lex;
      ghost var toks := Toks();
      var rs: seq<Redirection> := [];
      var more := Peek("<>");
      RedirsAfter([], toks);
      while more
        invariant Valid() && old(s) <= s && more == Starts(Toks(), "<>+")
        invariant Redirs(toks) == Prepend(rs, Redirs(Toks()))
        decreases |Toks()|
      {
        RedirsStep(rs, Toks());
        var tok, q, eq;
        tok, q, eq := GetToken();
        var next;
        next, q, eq := GetToken();
        if next != 'a' {
          return Panic;
        }
        rs := rs + [if tok == '<' then Redirection(Word(q, eq), O_RDONLY, 0) else Redirection(Word(q, eq), O_WRONLY_CREATE, 1)];
        more := Peek("<>");
      }
      assert rs + [] == rs;
      r := Tree(rs);
    }

    /** parseblock */
    method ParseBlock() returns (r: Outcome<Cmd>)
      requires Valid() && Starts(Toks(), "(")
      modifies this`s
      ensures Valid() && old(s) <= s
      ensures match Simple(old(Toks())) { case Bad => r.Panic? case Ok(c, rest) => r == Tree(c) && Toks() == rest }
      decreases |Toks()|, 0
    {
      hide Lex;
      var found := Peek("(");
      if !found {
        return Panic;
      }
      var _, _, _ := GetToken();
      r := ParseLine();
      if r.Panic? {
        return;
      }
      found := Peek(")");
      if !found {
        return Panic;
      }
      var _, _, _ := GetToken();
      var rs := ParseRedirs();
      if rs.Panic? {
        return Panic;
      }
      r := Tree(Wrap(r.value, rs.value));
    }

    /** The loop of parseexec: words into argv, whose bound is kept by the panic. */
    method ParseArgs(rs0: seq<Redirection>) returns (r: Outcome<Cmd>)
      requires Valid()
      modifies this`s
      ensures Valid() && old(s) <= s
      ensures match Args([], rs0, old(Toks()))
              case Bad => r.Panic?
              case Ok(x, rest) => r == Tree(Wrap(Exec(x.0), x.1)) && Toks() == rest
    {
      hide Lex, Redirs, Args;
      ghost var toks := Toks();
      var argv, eargv := new nat[MAXARGS], new nat[MAXARGS];
      var argc := 0;
      ghost var words: seq<Word> := [];
      var rs := rs0;
      var stop := Peek("|)&;");
      while !stop
        invariant Valid() && old(s) <= s && stop == Starts(Toks(), "|)&;")
        invariant fresh(argv) && fresh(eargv) && argv.Length == eargv.Length == MAXARGS && argv != eargv
        invariant 0 <= argc < MAXARGS && |words| == argc
        invariant forall i :: 0 <= i < argc ==> words[i] == Word(argv[i], eargv[i])
        invariant Args([], rs0, toks) == Args(words, rs, Toks())
        decreases |Toks()|
      {
        ArgsStep(words, rs, Toks());
        var tok, q, eq := GetToken();
        if tok == '\0' {
          break;
        }
        if tok != 'a' {
          return Panic;
        }
        argv[argc] := q;
        eargv[argc] := eq;
        words := words + [Word(q, eq)];
        argc := argc + 1;
        if argc >= MAXARGS {
          return Panic;
        }
        var more := ParseRedirs();
        if more.Panic? {
          return Panic;
        }
        rs := rs + more.value;
        stop := Peek("|)&;");
      }
      ArgsStep(words, rs, Toks());
      argv[argc] := 0;
      eargv[argc] := 0;
      var args := Slices(argv, eargv, argc);
      assert args == words;
      r := Tree(Wrap(Exec(args), rs));
    }

    /** The first n entries of argv and eargv, as slices of the line. */
    method Slices(argv: array<nat>, eargv: array<nat>, n: nat) returns (args: seq<Word>)
      requires n <= argv.Length && n <= eargv.Length
      ensures |args| == n && forall i :: 0 <= i < n ==> args[i] == Word(argv[i], eargv[i])
    {
      args := [];
      while |args| < n
        invariant |args| <= n && forall i :: 0 <= i < |args| ==> args[i] == Word(argv[i], eargv[i])
      {
        args := args + [Word(argv[|args|], eargv[|args|])];
      }
    }

    method ParseExec() returns (r: Outcome<Cmd>)
      requires Valid()
      modifies this`s
      ensures Valid() && old(s) <= s
      ensures match Simple(old(Toks())) { case Bad => r.Panic? case Ok(c, rest) => r == Tree(c) && Toks() == rest }
      decreases |Toks()|, 1
    {
      hide Lex, Redirs, Args;
      var found := Peek("(");
      if found {
        r := ParseBlock();
        return;
      }
      var rs := ParseRedirs();
      if rs.Panic? {
        return Panic;
      }
      r := ParseArgs(rs.value);
    }

    method ParsePipe() returns (r: Outcome<Cmd>)
      requires Valid()
      modifies this`s
      ensures Valid() && old(s) <= s
      ensures match Pipeline(old(Toks())) { case Bad => r.Panic? case Ok(c, rest) => r == Tree(c) && Toks() == rest }
      decreases |Toks()|, 2
    {
      hide Lex, Simple;
      r := ParseExec();
      if r.Panic? {
        return;
      }
      var found := Peek("|");
      if found {
        var _, _, _ := GetToken();
        var d := ParsePipe();
        if d.Panic? {
          return Panic;
        }
        r := Tree(Pipe(r.value, d.value));
      }
    }

    method ParseLine() returns (r: Outcome<Cmd>)
      requires Valid()
      modifies this`s
      ensures Valid() && old(s) <= s
      ensures match Line(old(Toks())) { case Bad => r.Panic? case Ok(c, rest) => r == Tree(c) && Toks() == rest }
      decreases |Toks()|, 3
    {
      hide Lex, Pipeline;
      ghost var toks := Toks();
      r := ParsePipe();
      if r.Panic? {
        return;
      }
      var c := r.value;
      ghost var c0, rest0 := c, Toks();
      var found := Peek("&");
      while found
        invariant Valid() && old(s) <= s && found == Starts(Toks(), "&") && |Toks()| <= |toks|
        invariant Backs(c0, rest0) == Backs(c, Toks())
        decreases |Toks()|
      {
        var _, _, _ := GetToken();
        c := Back(c);
        found := Peek("&");
      }
      found := Peek(";");
      if found {
        var _, _, _ := GetToken();
        var d := ParseLine();
        if d.Panic? {
          return Panic;
        }
        c := List(c, d.value);
      }
      r := Tree(c);
    }

    // ----- NUL termination -----

    method NulTerminate(c: Cmd)
      requires es + 1 == buf.Length && forall w :: w in WordsOf(c) ==> w.eq <= es
      modifies buf
      ensures forall i :: 0 <= i <= es ==> buf[i] == if i in Ends(WordsOf(c)) then '\0' else old(buf[i])
    {
      match c {
        case Exec(argv) =>
          var i := 0;
          while i < |argv|
            invariant 0 <= i <= |argv|
            invariant forall k :: 0 <= k <= es ==> buf[k] == if k in Ends(Elements(argv[..i])) then '\0' else old(buf[k])
          {
            assert argv[i] in WordsOf(c);
            EndsMore(argv, i);
            buf[argv[i].eq] := '\0';
            i := i + 1;
          }
          assert argv[..i] == argv;
        case Redir(d, r) =>
          NulTerminate(d);
          EndsJoin(WordsOf(d), {r.file});
          buf[r.file.eq] := '\0';
        case Pipe(left, right) =>
          NulTerminate(left);
          NulTerminate(right);
          EndsJoin(WordsOf(left), WordsOf(right));
        case List(left, right) =>
          NulTerminate(left);
          NulTerminate(right);
          EndsJoin(WordsOf(left), WordsOf(right));
        case Back(d) =>
          NulTerminate(d);
      }
    }

    /** parsecmd: the tree the grammar gives the line, each of its words now a C string that
        is exactly the slice that was found, and no other character of the line changed. */
    method ParseCmd() returns (r: Outcome<Cmd>)
      requires Valid() && s == 0
      modifies this`s, buf
      ensures var line := old(buf[..es]);
              match Line(Lex(line, 0))
              case Bad => r.Panic?
              case Ok(c, rest) => r == if rest == [] then Tree(c) else Panic
      ensures r.Tree? ==> WordsOf(r.value) == TokenWords(Lex(old(buf[..es]), 0))
      ensures r.Tree? ==> forall w :: w in WordsOf(r.value) ==>
                w.q < w.eq <= es && Str(buf[..], w.q) == old(buf[..])[w.q..w.eq]
      ensures r.Tree? ==> forall i :: 0 <= i <= es && i !in Ends(WordsOf(r.value)) ==> buf[i] == old(buf[i])
    {
      hide Lex, Line;
      ghost var before, line := buf[..], buf[..es];
      r := ParseLine();
      if r.Panic? {
        return;
      }
      var _ := Peek("");
      if s != es {
        return Panic;
      }
      var c := r.value;
      LineConsumes(Lex(line, 0));
      AllConsumed(Lex(line, 0), WordsOf(c));
      LexWords(line, 0);
      assert before[..es] == line;
      forall w | w in WordsOf(c) ensures IsWord(line, w) {
      }
      NulTerminate(c);
      forall w | w in WordsOf(c) ensures w.q < w.eq <= es && Str(buf[..], w.q) == before[w.q..w.eq] {
        WordsSurvive(before, buf[..], es, WordsOf(c), w);
      }
    }
  }
}
