/** Command lines that the client writes for a POSIX shell (core/main/cli_skill.cpp, core/main/cli.cpp), and what token
    recognition of such a shell makes of them. */
module Quoting {
  import opened Wrappers
  import opened Sequences

  // ---- for a POSIX shell -------------------------------------------------------------------------------------

  predicate Safe(c: char) {
    'a' <= c <= 'z' || 'A' <= c <= 'Z' || '0' <= c <= '9' || c in "-_./="
  }

  predicate AllSafe(s: string) {
    forall i :: 0 <= i < |s| ==> Safe(s[i])
  }

  const BREAK := "'\"'\"'"

  /** The inside of single quotes: a single quote closes them, stands in double quotes and opens them again. */
  function Inside(s: string): string {
    if s == "" then "" else (if s[0] == '\'' then BREAK else [s[0]]) + Inside(s[1..])
  }

  function Quoted(s: string): string {
    "'" + Inside(s) + "'"
  }

  function Argument(s: string): string {
    if s != "" && AllSafe(s) then s else Quoted(s)
  }

  /** An argument goes as it is exactly when it is not empty and has only letters, digits, and - _ . / = in it. */
  lemma ArgumentBare(s: string)
    ensures Argument(s) == s <==>
      s != "" && forall i :: 0 <= i < |s| ==>
        'a' <= s[i] <= 'z' || 'A' <= s[i] <= 'Z' || '0' <= s[i] <= '9' || s[i] in "-_./="
  {
    InsideLonger(s);
  }

  lemma {:induction false} InsideLonger(s: string)
    ensures |Inside(s)| >= |s|
    decreases s
  {
    if s != "" { InsideLonger(s[1..]); }
  }

  function Text(argv: seq<string>): string {
    if argv == [] then "" else if |argv| == 1 then Argument(argv[0]) else Argument(argv[0]) + (" " + Text(argv[1..]))
  }

  /** Token recognition of a simple command (sections 2.2 and 2.3 of POSIX.1-2017 XCU): None where a quote is open at
      the end or an unquoted character would start an operator, an expansion, a pattern or a comment. */
  datatype Mode = Plain | Single | Double

  function Or(cur: Option<string>): string {
    match cur case None => "" case Some(w) => w
  }

  function Finish(cur: Option<string>, done: seq<string>): seq<string> {
    match cur case None => done case Some(w) => done + [w]
  }

  predicate Special(c: char, cur: Option<string>) {
    c in "|&;<>()$`*?[~\n" || (c == '#' && cur.None?)
  }

  function Scan(s: string, mode: Mode, cur: Option<string>, done: seq<string>): Option<seq<string>> {
    match mode
    case Plain =>
      if s == "" then Some(Finish(cur, done))
      else if s[0] == ' ' || s[0] == '\t' then Scan(s[1..], Plain, None, Finish(cur, done))
      else if s[0] == '\'' then Scan(s[1..], Single, Some(Or(cur)), done)
      else if s[0] == '"' then Scan(s[1..], Double, Some(Or(cur)), done)
      else if s[0] == '\\' then
        (if |s| == 1 then None
         else if s[1] == '\n' then Scan(s[2..], Plain, cur, done)
         else Scan(s[2..], Plain, Some(Or(cur) + [s[1]]), done))
      else if Special(s[0], cur) then None
      else Scan(s[1..], Plain, Some(Or(cur) + [s[0]]), done)
    case Single =>
      if s == "" then None
      else if s[0] == '\'' then Scan(s[1..], Plain, cur, done)
      else Scan(s[1..], Single, Some(Or(cur) + [s[0]]), done)
    case Double =>
      if s == "" then None
      else if s[0] == '"' then Scan(s[1..], Plain, cur, done)
      else if s[0] == '$' || s[0] == '`' then None
      else if s[0] == '\\' && |s| > 1 && s[1] in "$`\"\\" then Scan(s[2..], Double, Some(Or(cur) + [s[1]]), done)
      else if s[0] == '\\' && |s| > 1 && s[1] == '\n' then Scan(s[2..], Double, cur, done)
      else Scan(s[1..], Double, Some(Or(cur) + [s[0]]), done)
  }

  lemma SingleStep(c: char, rest: string, w: string, done: seq<string>)
    ensures Scan([c] + rest, Single, Some(w), done) ==
      if c == '\'' then Scan(rest, Plain, Some(w), done) else Scan(rest, Single, Some(w + [c]), done)
  {
    assert ([c] + rest)[1..] == rest;
  }

  lemma BlankStep(rest: string, cur: Option<string>, done: seq<string>)
    ensures Scan(" " + rest, Plain, cur, done) == Scan(rest, Plain, None, Finish(cur, done))
  {
    assert (" " + rest)[1..] == rest;
  }

  lemma {:induction false} InsideReads(s: string, rest: string, w: string, done: seq<string>)
    ensures Scan(Inside(s) + ("'" + rest), Single, Some(w), done) == Scan(rest, Plain, Some(w + s), done)
    decreases s
  {
    if s == "" {
      SingleStep('\'', rest, w, done);
      assert Inside(s) + ("'" + rest) == "'" + rest && w + s == w;
    } else {
      var more := Inside(s[1..]) + ("'" + rest);
      Assoc(if s[0] == '\'' then BREAK else [s[0]], Inside(s[1..]), "'" + rest);
      if s[0] == '\'' { BreakReads(more, w, done); } else { SingleStep(s[0], more, w, done); }
      InsideReads(s[1..], rest, w + [s[0]], done);
      assert (w + [s[0]]) + s[1..] == w + s;
    }
  }

  lemma BreakReads(rest: string, w: string, done: seq<string>)
    ensures Scan(BREAK + rest, Single, Some(w), done) == Scan(rest, Single, Some(w + "'"), done)
  {
    var s := BREAK + rest;
    assert s[1..] == "\"'\"'" + rest && s[1..][1..] == "'\"'" + rest && s[1..][1..][1..] == "\"'" + rest;
    assert s[1..][1..][1..][1..] == "'" + rest && s[1..][1..][1..][1..][1..] == rest;
    assert Scan(s, Single, Some(w), done) == Scan(s[1..], Plain, Some(w), done);
    assert Scan(s[1..], Plain, Some(w), done) == Scan(s[1..][1..], Double, Some(w), done);
    assert Scan(s[1..][1..], Double, Some(w), done) == Scan(s[1..][1..][1..], Double, Some(w + "'"), done);
    assert Scan(s[1..][1..][1..], Double, Some(w + "'"), done) ==
      Scan(s[1..][1..][1..][1..], Plain, Some(w + "'"), done);
    assert Scan(s[1..][1..][1..][1..], Plain, Some(w + "'"), done) == Scan(rest, Single, Some(w + "'"), done);
  }

  /** shell_quote: the shell reads the quoted text as one word, the original. */
  lemma QuotedReads(s: string, rest: string, done: seq<string>)
    ensures Scan(Quoted(s) + rest, Plain, None, done) == Scan(rest, Plain, Some(s), done)
  {
    assert Quoted(s) + rest == "'" + (Inside(s) + ("'" + rest));
    assert ("'" + (Inside(s) + ("'" + rest)))[1..] == Inside(s) + ("'" + rest);
    InsideReads(s, rest, "", done);
    assert "" + s == s;
  }

  lemma QuotedIsOneWord(s: string)
    ensures Scan(Quoted(s), Plain, None, []) == Some([s])
  {
    QuotedReads(s, "", []);
    assert Quoted(s) + "" == Quoted(s) && [] + [s] == [s];
  }

  lemma SafeIsPlain(c: char, cur: Option<string>)
    requires Safe(c)
    ensures !Special(c, cur) && c != ' ' && c != '\t' && c != '\'' && c != '"' && c != '\\'
  {
  }

  lemma {:induction false} SafeReads(s: string, rest: string, cur: Option<string>, done: seq<string>)
    requires AllSafe(s) && s != ""
    ensures Scan(s + rest, Plain, cur, done) == Scan(rest, Plain, Some(Or(cur) + s), done)
    decreases s
  {
    SafeIsPlain(s[0], cur);
    assert (s + rest)[1..] == s[1..] + rest;
    var w := Or(cur) + [s[0]];
    assert Scan(s + rest, Plain, cur, done) == Scan(s[1..] + rest, Plain, Some(w), done);
    if |s| == 1 {
      assert s[1..] + rest == rest && s == [s[0]];
    } else {
      assert AllSafe(s[1..]);
      SafeReads(s[1..], rest, Some(w), done);
      assert w + s[1..] == Or(cur) + s;
    }
  }

  lemma ArgumentReads(s: string, rest: string, done: seq<string>)
    ensures Scan(Argument(s) + rest, Plain, None, done) == Scan(rest, Plain, Some(s), done)
  {
    if s != "" && AllSafe(s) {
      SafeReads(s, rest, None, done);
      assert "" + s == s;
    } else {
      QuotedReads(s, rest, done);
    }
  }

  lemma TextStep(a: string, text: string, done: seq<string>)
    ensures Scan(Argument(a) + (" " + text), Plain, None, done) == Scan(text, Plain, None, done + [a])
  {
    ArgumentReads(a, " " + text, done);
    BlankStep(text, Some(a), done);
  }

  lemma Move<T>(done: seq<T>, xs: seq<T>)
    requires xs != []
    ensures (done + [xs[0]]) + xs[1..] == done + xs
  {
  }

  lemma {:induction false} TextReads(argv: seq<string>, done: seq<string>)
    ensures Scan(Text(argv), Plain, None, done) == Some(done + argv)
    decreases argv
  {
    if argv == [] {
      assert done + [] == done;
    } else if |argv| == 1 {
      LastReads(argv[0], done);
      assert argv == [argv[0]];
    } else {
      TextStep(argv[0], Text(argv[1..]), done);
      TextReads(argv[1..], done + [argv[0]]);
      Move(done, argv);
    }
  }

  lemma LastReads(a: string, done: seq<string>)
    ensures Scan(Argument(a), Plain, None, done) == Some(done + [a])
  {
    ArgumentReads(a, "", done);
    assert Argument(a) + "" == Argument(a);
  }

  /** commandText: a POSIX shell splits the text into exactly the arguments it was made of, whatever they contain. */
  lemma TextIsUndone(argv: seq<string>)
    ensures Scan(Text(argv), Plain, None, []) == Some(argv)
  {
    TextReads(argv, []);
    assert [] + argv == argv;
  }

  // ---- as a command ------------------------------------------------------------------------------------------

  /** The reserved words (section 2.4 of POSIX.1-2017 XCU). */
  predicate Reserved(w: string) {
    || w in {"!", "{", "}", "case", "do", "done", "elif", "else"}
    || w in {"esac", "fi", "for", "if", "in", "then", "until", "while"}
  }

  predicate NameChar(c: char, first: bool) {
    'a' <= c <= 'z' || 'A' <= c <= 'Z' || c == '_' || (!first && '0' <= c <= '9')
  }

  /** An equals sign after a name. */
  predicate Assigns(w: string) {
    exists e :: 0 < e < |w| && w[e] == '=' && forall i :: 0 <= i < e ==> NameChar(w[i], i == 0)
  }

  predicate Bare(c: char) {
    c !in " \t'\"\\"
  }

  /** How far the first word goes without any quoting. */
  function BareLength(s: string): (n: nat)
    ensures n <= |s|
  {
    if s == "" || !Bare(s[0]) then 0 else 1 + BareLength(s[1..])
  }

  /** A line that starts with its first word does not start with a reserved word or an assignment (rules 1 and 7 of
      section 2.10.2): the first is recognized only without quoting, the second up to the equals sign. */
  predicate StartsCommand(s: string) {
    var n := BareLength(s);
    && !(Reserved(s[..n]) && (n == |s| || s[n] == ' ' || s[n] == '\t'))
    && !Assigns(s[..n])
  }

  lemma {:induction false} BareOf(s: string, rest: string)
    requires AllSafe(s) && (rest == "" || rest[0] == ' ')
    ensures BareLength(s + rest) == |s|
    decreases s
  {
    if s == "" {
      assert s + rest == rest;
    } else {
      SafeIsPlain(s[0], None);
      assert (s + rest)[1..] == s[1..] + rest && AllSafe(s[1..]);
      BareOf(s[1..], rest);
    }
  }

  lemma ArgumentStarts(a: string, rest: string)
    requires rest == "" || rest[0] == ' '
    ensures StartsCommand(Argument(a) + rest) <==> !(AllSafe(a) && (Reserved(a) || Assigns(a)))
  {
    var s := Argument(a) + rest;
    if a != "" && AllSafe(a) {
      BareOf(a, rest);
      assert s[..|a|] == a;
    } else {
      assert s[0] == '\'' && BareLength(s) == 0 && s[..0] == "";
    }
  }

  /** commandText: the shell takes its text as a command with exactly these arguments unless the first one goes unquoted
      and is a reserved word or looks like an assignment. */
  lemma CommandExactly(argv: seq<string>)
    requires argv != []
    ensures Scan(Text(argv), Plain, None, []) == Some(argv)
    ensures StartsCommand(Text(argv)) <==> !(AllSafe(argv[0]) && (Reserved(argv[0]) || Assigns(argv[0])))
  {
    TextIsUndone(argv);
    if |argv| == 1 {
      ArgumentStarts(argv[0], "");
      assert Argument(argv[0]) + "" == Argument(argv[0]);
    } else {
      ArgumentStarts(argv[0], " " + Text(argv[1..]));
    }
  }

  // ---- the loops ---------------------------------------------------------------------------------------------

  lemma {:induction false} InsideSnoc(s: string, c: char)
    ensures Inside(s + [c]) == Inside(s) + if c == '\'' then BREAK else [c]
    decreases s
  {
    if s == "" {
      assert s + [c] == [c];
      assert Inside([c][1..]) == "";
    } else {
      InsideSnoc(s[1..], c);
      assert (s + [c])[1..] == s[1..] + [c] && (s + [c])[0] == s[0];
    }
  }

  method ShellQuote(s: string) returns (out: string)
    ensures out == Quoted(s)
  {
    out := "'";
    for i := 0 to |s|
      invariant out == "'" + Inside(s[..i])
    {
      InsideSnoc(s[..i], s[i]);
      assert s[..i + 1] == s[..i] + [s[i]];
      if s[i] == '\'' { out := out + "'\"'\"'"; } else { out := out + [s[i]]; }
    }
    assert s[..|s|] == s;
    out := out + "'";
  }

  method QuoteArgument(s: string) returns (out: string)
    ensures out == Argument(s)
  {
    var safe := s != "";
    for i := 0 to |s|
      invariant safe <==> s != "" && AllSafe(s[..i])
    {
      if !Safe(s[i]) { safe := false; }
    }
    assert s[..|s|] == s;
    if safe { return s; }
    out := ShellQuote(s);
  }

  lemma {:induction false} TextSnoc(argv: seq<string>, a: string)
    requires argv != []
    ensures Text(argv + [a]) == Text(argv) + (" " + Argument(a))
    decreases argv
  {
    assert (argv + [a])[1..] == argv[1..] + [a] && (argv + [a])[0] == argv[0];
    if |argv| == 1 {
      assert argv[1..] + [a] == [a];
    } else {
      TextSnoc(argv[1..], a);
      Assoc(" ", Text(argv[1..]), " " + Argument(a));
      Assoc(Argument(argv[0]), " " + Text(argv[1..]), " " + Argument(a));
    }
  }

  lemma TextNonEmpty(argv: seq<string>)
    ensures Text(argv) == "" <==> argv == []
  {
  }

  method CommandText(argv: seq<string>) returns (out: string)
    ensures out == Text(argv)
  {
    out := "";
    for i := 0 to |argv|
      invariant out == Text(argv[..i])
    {
      var arg := QuoteArgument(argv[i]);
      TextNonEmpty(argv[..i]);
      assert argv[..i + 1] == argv[..i] + [argv[i]];
      if i > 0 { TextSnoc(argv[..i], argv[i]); }
      out := out + ((if out == "" then "" else " ") + arg);
    }
    assert argv[..|argv|] == argv;
  }
}
