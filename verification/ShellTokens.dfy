/** The daemon's command line tokenizer (core/include/protocols/shell/Token.hpp) and what it makes of the client's
    lines. */
module ShellTokens {
  import opened Wrappers
  import opened Sequences
  import opened ShellLine

  datatype Token = Word(text: string) | Flag(text: string)

  predicate Blank(c: char) {
    c == ' ' || c == '\t'
  }

  predicate Stops(c: char) {
    Blank(c) || c == '"' || c == '\''
  }

  function SkipBlanks(s: string): (r: string)
    ensures |r| <= |s|
  {
    if s != "" && Blank(s[0]) then SkipBlanks(s[1..]) else s
  }

  /** How far an unquoted atom goes. */
  function Atom(s: string): (n: nat)
    ensures n <= |s|
  {
    if s == "" || Stops(s[0]) then 0 else 1 + Atom(s[1..])
  }

  /** A minus sign, digits and at most one point, with at least one digit. */
  predicate Digits(s: string, dot: bool, digit: bool) {
    if s == "" then digit
    else if '0' <= s[0] <= '9' then Digits(s[1..], dot, true)
    else s[0] == '.' && !dot && Digits(s[1..], true, digit)
  }

  predicate NegativeNumber(s: string) {
    |s| >= 2 && s[0] == '-' && Digits(s[1..], false, false)
  }

  predicate Glued(tail: string) {
    exists i :: 0 <= i < |tail| && tail[i] in "/.:="
  }

  function AsFlag(k: string): Token {
    Flag(if k != "" && k[0] == '-' then k[1..] else k)
  }

  function Flags(letters: string): seq<Token> {
    if letters == "" then [] else [AsFlag([letters[0]])] + Flags(letters[1..])
  }

  /** What an atom that starts with a dash stands for. */
  function Dash(pre: string, first: bool): (r: seq<Token>)
    requires pre != "" && pre[0] == '-'
    ensures r != []
  {
    if NegativeNumber(pre) then [Word(pre)]
    else if |pre| >= 2 && pre[1] == '-' then
      if first then [Word(pre)]
      else
        var eq := Find(pre[2..], '=');
        if eq == |pre| - 2 then [AsFlag(pre[2..])] else [AsFlag(pre[2..2 + eq]), Word(pre[3 + eq..])]
    else if |pre| == 2 then (if first then [Word(pre)] else [AsFlag(pre[1..])])
    else if |pre| > 2 then
      var tail := pre[2..];
      if Glued(tail) then [AsFlag([pre[1]]), Word(if tail[0] == '=' then tail[1..] else tail)] else Flags(tail)
    else [Word(pre)]
  }

  /** A quote right after the atom belongs to it where a value may start. */
  predicate Folds(pre: string) {
    pre != "" && (pre[|pre| - 1] == '=' || (|pre| == 2 && pre[0] == '-' && pre[1] != '-'))
  }

  function Folded(s: string): (r: (string, string))
    requires s != "" && !Stops(s[0])
    ensures |r.1| < |s| && r.0 != "" && r.0[0] == s[0]
  {
    var pre, rest := s[..Atom(s)], s[Atom(s)..];
    if rest != "" && !Blank(rest[0]) && Folds(pre) then
      var (v, after) := ReadQuoted(rest[1..], rest[0]); (pre + v, after)
    else (pre, rest)
  }

  /** One token, or the few that one atom stands for, and what follows. */
  function Take(s: string, first: bool): (r: (seq<Token>, string))
    requires s != "" && !Blank(s[0])
    ensures r.0 != [] && |r.1| < |s|
  {
    if s[0] == '-' && |s| > 1 && s[1] == '-' && (|s| == 2 || Blank(s[2])) then ([Word("--")], s[2..])
    else if s[0] == '"' || s[0] == '\'' then
      var (v, rest) := ReadQuoted(s[1..], s[0]); ([Word(v)], rest)
    else
      var (atom, rest) := Folded(s);
      (if s[0] == '-' then Dash(atom, first) else [Word(atom)], rest)
  }

  function Tokens(s: string, out: seq<Token>): seq<Token>
    decreases |s|
  {
    var t := SkipBlanks(s);
    if t == "" then out
    else
      SkipsBlanks(s);
      var (toks, rest) := Take(t, out == []);
      Tokens(rest, out + toks)
  }

  lemma {:induction false} SkipsBlanks(s: string)
    ensures SkipBlanks(s) != "" ==> !Blank(SkipBlanks(s)[0])
  {
    if s != "" && Blank(s[0]) { SkipsBlanks(s[1..]); }
  }

  /** A root alias at the very start is cut off. */
  function Stripped(line: string, aliases: seq<string>): string {
    if aliases == [] then line else if aliases[0] <= line then line[|aliases[0]|..] else Stripped(line, aliases[1..])
  }

  function Tokenized(line: string, aliases: seq<string>): seq<Token> {
    Tokens(Stripped(line, aliases), [])
  }

  // ---- what it makes of the client's lines -------------------------------------------------------------------

  /** A token that arrives alone: quoted by the client, or without a single quote. */
  predicate Clean(t: string) {
    NeedsQuotes(t) || '\'' !in t
  }

  /** What the daemon is to make of one token. */
  function Meaning(t: string, first: bool): seq<Token> {
    if NeedsQuotes(t) || t == "--" || t[0] != '-' then [Word(t)] else Dash(t, first)
  }

  function Meanings(ts: seq<string>, first: bool): seq<Token> {
    if ts == [] then [] else Meaning(ts[0], first) + Meanings(ts[1..], false)
  }

  lemma {:induction false} AtomOf(t: string, rest: string)
    requires (forall i :: 0 <= i < |t| ==> !Stops(t[i])) && (rest == "" || Blank(rest[0]))
    ensures Atom(t + rest) == |t|
    decreases t
  {
    if t == "" {
      assert t + rest == rest;
    } else {
      AtomOf(t[1..], rest);
      assert (t + rest)[1..] == t[1..] + rest;
    }
  }

  lemma PlainTakes(t: string, rest: string, first: bool)
    requires !NeedsQuotes(t) && Clean(t) && (rest == "" || Blank(rest[0]))
    ensures !Blank((t + rest)[0]) && Take(t + rest, first) == (Meaning(t, first), rest)
  {
    var s := t + rest;
    assert forall i :: 0 <= i < |t| ==> !Forces(t[i]) && t[i] in t;
    AtomOf(t, rest);
    assert s[..|t|] == t && s[|t|..] == rest && s[0] == t[0];
    if t[0] == '-' && |t| >= 2 && t[1] == '-' {
      assert s[1] == '-' && (|t| > 2 ==> s[2] == t[2] && !Blank(t[2]));
      assert |t| == 2 ==> t == "--" && (|s| == 2 || Blank(s[2]));
      if |t| == 2 { assert s[2..] == rest; }
    }
  }

  lemma Takes(t: string, rest: string, first: bool)
    requires Clean(t) && (rest == "" || Blank(rest[0]))
    ensures Rendered(t) != "" && !Blank((Rendered(t) + rest)[0])
    ensures Take(Rendered(t) + rest, first) == (Meaning(t, first), rest)
  {
    if NeedsQuotes(t) { ReadsRendered(t, rest); } else { PlainTakes(t, rest, first); }
  }

  lemma TokensStep(t: string, rest: string, out: seq<Token>)
    requires Clean(t) && (rest == "" || Blank(rest[0]))
    ensures Tokens(Rendered(t) + rest, out) == Tokens(rest, out + Meaning(t, out == []))
  {
    Takes(t, rest, out == []);
  }

  lemma BlankTokens(s: string, out: seq<Token>)
    ensures Tokens(" " + s, out) == Tokens(s, out)
  {
    assert (" " + s)[1..] == s;
    assert SkipBlanks(" " + s) == SkipBlanks(s);
  }

  lemma {:induction false} NotStripped(line: string, aliases: seq<string>)
    requires forall a :: a in aliases ==> !(a <= line)
    ensures Stripped(line, aliases) == line
    decreases aliases
  {
    if aliases != [] {
      assert aliases[0] in aliases && forall a :: a in aliases[1..] ==> a in aliases;
      NotStripped(line, aliases[1..]);
    }
  }

  // ---- texts with a single quote -----------------------------------------------------------------------------

  lemma {:induction false} TokensExtend(s: string, out: seq<Token>)
    ensures out <= Tokens(s, out)
    decreases |s|
  {
    var t := SkipBlanks(s);
    if t != "" {
      SkipsBlanks(s);
      var r := Take(t, out == []);
      TokensExtend(r.1, out + r.0);
    }
  }

  lemma {:induction false} NoSingleInside(s: string)
    ensures '\'' !in ReadQuoted(s, '\'').0
    decreases |s|
  {
    if s != "" && s[0] != '\'' { NoSingleInside(s[1..]); }
  }

  lemma {:induction false} AtomTo(s: string, j: nat)
    requires j < |s| && Stops(s[j]) && forall i :: 0 <= i < j ==> !Stops(s[i])
    ensures Atom(s) == j
    decreases s
  {
    if j > 0 {
      assert forall i :: 0 <= i < j - 1 ==> s[1..][i] == s[i + 1];
      AtomTo(s[1..], j - 1);
    }
  }

  /** The first word that an unquoted text with a single quote gives has none. */
  lemma DirtyFolds(t: string, rest: string)
    requires !Clean(t) && t[0] != '\''
    ensures !Stops((t + rest)[0]) && '\'' !in Folded(t + rest).0
  {
    var s := t + rest;
    var j := Find(t, '\'');
    FindFirst(t, '\'');
    assert forall i :: 0 <= i < |t| ==> !Forces(t[i]);
    assert forall i :: 0 <= i < |t| ==> s[i] == t[i];
    NoSingleInside(s[j + 1..]);
    AtomTo(s, j);
    assert s[j..][1..] == s[j + 1..] && s[j..][0] == '\'';
    assert '\'' !in s[..j];
  }

  lemma DashFirst(pre: string, first: bool)
    requires pre != "" && pre[0] == '-'
    ensures Dash(pre, first)[0].Flag? || Dash(pre, first)[0] == Word(pre)
  {
  }

  lemma DirtyTakes(t: string, rest: string, first: bool)
    requires !Clean(t)
    ensures !Blank((t + rest)[0])
    ensures var r := Take(t + rest, first).0[0]; r.Flag? || '\'' !in r.text
  {
    var s := t + rest;
    assert s[0] == t[0] && !Forces(t[0]);
    if t[0] == '\'' {
      NoSingleInside(s[1..]);
    } else {
      DirtyFolds(t, rest);
      if t[0] == '-' {
        assert |t| > 1 && s[1] == t[1] && (|t| > 2 ==> s[2] == t[2] && !Forces(t[2]));
        assert t[1] == '-' ==> |t| > 2;
        DashFirst(Folded(s).0, first);
      }
    }
  }

  lemma {:induction false} FindFirst(s: string, c: char)
    ensures (forall i :: 0 <= i < Find(s, c) ==> s[i] != c) && (c in s ==> Find(s, c) < |s|)
    decreases s
  {
    if s != "" && s[0] != c {
      FindFirst(s[1..], c);
      assert forall i :: 1 <= i < |s| ==> s[i] == s[1..][i - 1];
    }
  }

  lemma DirtyTokens(t: string, rest: string, out: seq<Token>, word: string)
    requires !Clean(t) && '\'' in word
    ensures var r := Tokens(t + rest, out); |out| < |r| && r[|out|] != Word(word)
  {
    DirtyTakes(t, rest, out == []);
    var s := t + rest;
    assert SkipBlanks(s) == s;
    var r := Take(s, out == []);
    TokensExtend(r.1, out + r.0);
    assert (out + r.0)[|out|] == r.0[0];
  }

  /** What is left of a text gives no word with a single quote first. */
  lemma Remainder(t: string, k: nat, rest: string, out: seq<Token>, word: string)
    requires !Clean(t) && k < |t| && out != [] && '\'' in word && (rest == "" || Blank(rest[0]))
    ensures var r := Tokens(t[k..] + rest, out); |out| < |r| && r[|out|] != Word(word)
  {
    var tail := t[k..];
    assert forall i :: 0 <= i < |tail| ==> tail[i] == t[k + i] && !Forces(t[k + i]);
    assert !NeedsQuotes(tail);
    if '\'' in tail {
      DirtyTokens(tail, rest, out, word);
    } else {
      TokensStep(tail, rest, out);
      var m := Meaning(tail, false);
      TokensExtend(rest, out + m);
      assert (out + m)[|out|] == m[0];
      if tail[0] == '-' && tail != "--" { DashFirst(tail, false); }
    }
  }

  lemma QuoteGivesWord(u: string, rest: string, out: seq<Token>)
    requires u != "" && u[0] == '\''
    ensures var r := Tokens(u + rest, out); |out| < |r| && r[|out|].Word?
  {
    var s := u + rest;
    assert SkipBlanks(s) == s;
    var r := Take(s, out == []);
    TokensExtend(r.1, out + r.0);
    assert (out + r.0)[|out|] == r.0[0];
  }

  /** Where the first atom of such a text ends, and the quoted text that belongs to it. */
  lemma DirtyFold(t: string, rest: string) returns (j: nat, v: string)
    requires !Clean(t) && t[0] != '\'' && (rest == "" || Blank(rest[0]))
    ensures 0 < j < |t| && t[j] == '\'' && '\'' !in t[..j] + v
    ensures !Stops((t + rest)[0]) && Folded(t + rest).0 == t[..j] + v
    ensures Folds(t[..j]) ==> ReadQuoted(t[j + 1..] + rest, '\'') == (v, Folded(t + rest).1)
    ensures !Folds(t[..j]) ==> v == "" && Folded(t + rest).1 == t[j..] + rest
  {
    var s := t + rest;
    j := Find(t, '\'');
    FindFirst(t, '\'');
    assert forall i :: 0 <= i < |t| ==> !Forces(t[i]) && s[i] == t[i];
    assert s[j + 1..] == t[j + 1..] + rest && s[..j] == t[..j] && s[j..] == t[j..] + rest;
    AtomTo(s, j);
    FoldedBlank(s, j);
    NoSingleInside(s[j + 1..]);
    v := if Folds(t[..j]) then ReadQuoted(s[j + 1..], '\'').0 else "";
    assert t[..j] + "" == t[..j];
  }

  // ---- flags and options with a single quote -----------------------------------------------------------------

  /** What the daemon makes of the line does not start with what it is to make of this text. */
  ghost predicate Misses(t: string, rest: string, out: seq<Token>) {
    !(out + Meaning(t, out == []) <= Tokens(t + rest, out))
  }

  /** A flag or option that goes unquoted and has a single quote, before other tokens or the end of the line. */
  predicate DirtyDash(t: string, rest: string) {
    !Clean(t) && t[0] == '-' && (rest == "" || Blank(rest[0]))
  }

  lemma DashTakes(t: string, rest: string, out: seq<Token>)
    requires DirtyDash(t, rest)
    ensures !Stops((t + rest)[0]) && Meaning(t, out == []) == Dash(t, out == [])
    ensures var f := Folded(t + rest); Tokens(t + rest, out) == Tokens(f.1, out + Dash(f.0, out == []))
  {
    var s := t + rest;
    assert '\'' in t && |t| > 1 && s[0] == t[0] && s[1] == t[1];
    assert |t| > 2 ==> s[2] == t[2] && !Forces(t[2]);
    assert t[1] == '-' ==> |t| > 2;
    assert SkipBlanks(s) == s;
  }

  lemma DiffersAt(t: string, rest: string, out: seq<Token>, f: (string, string), i: nat)
    requires DirtyDash(t, rest) && !Stops((t + rest)[0]) && Folded(t + rest) == f
    requires i < |Dash(f.0, out == [])| && i < |Dash(t, out == [])| && Dash(f.0, out == [])[i] != Dash(t, out == [])[i]
    ensures Misses(t, rest, out)
  {
    DashTakes(t, rest, out);
    var m, toks := Dash(t, out == []), Dash(f.0, out == []);
    TokensExtend(f.1, out + toks);
    assert (out + toks)[|out| + i] == toks[i] && (out + m)[|out| + i] == m[i];
  }

  lemma DiffersNext(t: string, rest: string, out: seq<Token>, f: (string, string), k: nat, m: Token)
    requires DirtyDash(t, rest) && !Stops((t + rest)[0]) && Folded(t + rest) == f
    requires k < |t| && f.1 == t[k..] + rest
    requires var n := |Dash(f.0, out == [])|; n < |Dash(t, out == [])| && m == Dash(t, out == [])[n]
    requires if m.Word? then '\'' in m.text else t[k] == '\''
    ensures Misses(t, rest, out)
  {
    DashTakes(t, rest, out);
    var toks := Dash(f.0, out == []);
    if m.Word? {
      Remainder(t, k, rest, out + toks, m.text);
    } else {
      QuoteGivesWord(t[k..], rest, out + toks);
    }
    NotStarting(out, toks, Dash(t, out == []), Tokens(t[k..] + rest, out + toks));
  }

  lemma NotStarting(out: seq<Token>, toks: seq<Token>, ms: seq<Token>, r: seq<Token>)
    requires |toks| < |ms| && |out + toks| < |r| && r[|out + toks|] != ms[|toks|]
    ensures !(out + ms <= r)
  {
    assert (out + ms)[|out + toks|] == ms[|toks|];
  }

  lemma {:induction false} FlagsAt(letters: string)
    ensures |Flags(letters)| == |letters|
    ensures forall i :: 0 <= i < |letters| ==> Flags(letters)[i] == AsFlag([letters[i]])
    decreases letters
  {
    if letters != "" {
      FlagsAt(letters[1..]);
      assert forall i :: 1 <= i < |letters| ==> letters[i] == letters[1..][i - 1];
    }
  }

  lemma {:induction false} NotNumber(s: string, dot: bool, digit: bool)
    ensures '\'' in s ==> !Digits(s, dot, digit)
    decreases s
  {
    if s != "" {
      assert s == [s[0]] + s[1..];
      NotNumber(s[1..], true, digit);
      NotNumber(s[1..], dot, true);
    }
  }

  lemma DirtyNumber(t: string)
    requires '\'' in t
    ensures !NegativeNumber(t)
  {
    if |t| >= 2 && t[0] == '-' {
      assert t == [t[0]] + t[1..];
      NotNumber(t[1..], false, false);
    }
  }

  predicate Unquoted(toks: seq<Token>) {
    forall i :: 0 <= i < |toks| ==> '\'' !in toks[i].text
  }

  lemma FlagsUnquoted(letters: string)
    requires '\'' !in letters
    ensures Unquoted(Flags(letters))
  {
    FlagsAt(letters);
    forall i | 0 <= i < |letters| ensures '\'' !in Flags(letters)[i].text {
      assert letters[i] in letters;
    }
  }

  /** Nothing that an atom without a single quote stands for has one. */
  lemma DashUnquoted(a: string, first: bool)
    requires a != "" && a[0] == '-' && '\'' !in a
    ensures Unquoted(Dash(a, first))
  {
    assert forall i :: 0 <= i < |a| ==> a[i] in a;
    if |a| >= 2 && a[1] == '-' {
      LongUnquoted(a, first);
    } else if |a| > 2 {
      FlagsUnquoted(a[2..]);
    }
  }

  lemma LongUnquoted(a: string, first: bool)
    requires |a| >= 2 && a[0] == '-' && a[1] == '-' && '\'' !in a
    ensures Unquoted(Dash(a, first))
  {
    var eq := Find(a[2..], '=');
    assert '\'' !in a[2..] && '\'' !in a[2..2 + eq];
    if 2 + eq < |a| { assert '\'' !in a[3 + eq..]; }
  }

  lemma QuoteIn(t: string, j: nat, lo: nat, hi: nat)
    requires lo <= j < hi <= |t| && t[j] == '\''
    ensures '\'' in t[lo..hi]
  {
    assert t[lo..hi][j - lo] == '\'';
  }

  lemma LongMisses(t: string, rest: string, out: seq<Token>)
    requires DirtyDash(t, rest) && |t| > 1 && t[1] == '-'
    ensures Misses(t, rest, out)
  {
    var j, v := DirtyFold(t, rest);
    var a, f := t[..j] + v, Folded(t + rest);
    DashUnquoted(a, out == []);
    DirtyNumber(t);
    if out == [] {
      DiffersAt(t, rest, out, f, 0);
    } else {
      var i := LongQuote(t, j, v);
      DiffersAt(t, rest, out, f, i);
    }
  }

  /** Where the name or the value of a long option has the quote. */
  lemma LongQuote(t: string, j: nat, v: string) returns (i: nat)
    requires 2 <= j < |t| && t[0] == '-' && t[1] == '-' && t[j] == '\'' && Unquoted(Dash(t[..j] + v, false))
    ensures i < |Dash(t[..j] + v, false)| && i < |Dash(t, false)| && Dash(t[..j] + v, false)[i] != Dash(t, false)[i]
  {
    var a := t[..j] + v;
    LongDirty(t, j);
    if 2 + Find(t[2..], '=') < j {
      assert a[2..][Find(t[2..], '=')] == '=';
      EqualsSplits(a);
      i := if |Dash(a, false)| == 1 then 0 else 1;
    } else {
      i := 0;
    }
  }

  lemma LongDirty(t: string, j: nat)
    requires 2 <= j < |t| && t[0] == '-' && t[1] == '-' && t[j] == '\''
    ensures var toks := Dash(t, false);
      toks[0].Flag? && if 2 + Find(t[2..], '=') < j then |toks| == 2 && '\'' in toks[1].text else '\'' in toks[0].text
  {
    var eq := Find(t[2..], '=');
    DirtyNumber(t);
    if 2 + eq < j {
      QuoteIn(t, j, 3 + eq, |t|);
    } else {
      QuoteIn(t, j, 2, 2 + eq);
    }
  }

  lemma EqualsSplits(a: string)
    requires |a| > 2 && a[0] == '-' && a[1] == '-' && '=' in a[2..]
    ensures |Dash(a, false)| == 2 || Dash(a, false) == [Word(a)]
  {
    FindFirst(a[2..], '=');
  }

  lemma GluedMisses(t: string, rest: string, out: seq<Token>, j: nat, v: string)
    requires DirtyDash(t, rest) && |t| > 2 && t[1] != '-' && Glued(t[2..])
    requires 2 <= j < |t| && t[j] == '\'' && '\'' !in t[..j] + v && !Stops((t + rest)[0])
    requires Folded(t + rest).0 == t[..j] + v
    requires Folds(t[..j]) ==> ReadQuoted(t[j + 1..] + rest, '\'') == (v, Folded(t + rest).1)
    requires !Folds(t[..j]) ==> v == "" && Folded(t + rest).1 == t[j..] + rest
    ensures Misses(t, rest, out)
  {
    var a, f := t[..j] + v, Folded(t + rest);
    var toks := Dash(a, out == []);
    DashUnquoted(a, out == []);
    DirtyNumber(t);
    QuoteIn(t, j, 2, |t|);
    if t[2] == '=' { QuoteIn(t, j, 3, |t|); }
    assert t[2..][1..] == t[3..];
    var m := Dash(t, out == [])[1];
    assert m.Word? && '\'' in m.text;
    if |toks| > 1 {
      DiffersAt(t, rest, out, f, 1);
    } else if toks[0].Word? {
      DiffersAt(t, rest, out, f, 0);
    } else {
      var k := RestWithin(t, rest, j, v, out == []);
      DiffersNext(t, rest, out, f, k, m);
    }
  }

  /** If a glued option gives one flag only, the daemon goes on inside the same text. */
  lemma RestWithin(t: string, rest: string, j: nat, v: string, first: bool) returns (k: nat)
    requires DirtyDash(t, rest) && |t| > 2 && t[1] != '-' && Glued(t[2..])
    requires 2 <= j < |t| && t[j] == '\'' && '\'' !in t[..j] + v && !Stops((t + rest)[0])
    requires Folds(t[..j]) ==> ReadQuoted(t[j + 1..] + rest, '\'') == (v, Folded(t + rest).1)
    requires !Folds(t[..j]) ==> v == "" && Folded(t + rest).1 == t[j..] + rest
    requires var toks := Dash(t[..j] + v, first); |toks| == 1 && toks[0].Flag?
    ensures k < |t| && Folded(t + rest).1 == t[k..] + rest
  {
    var a := t[..j] + v;
    EqualsGlued(a, j);
    if j > 2 || !Folds(t[..j]) {
      k := j;
    } else {
      assert a[2..] == v;
      if v != "" { FlagsAt(v); }
      k := ShortRest(t, rest, v);
    }
  }

  lemma EqualsGlued(a: string, j: nat)
    ensures 2 < j <= |a| && a[j - 1] == '=' ==> Glued(a[2..])
  {
    if 2 < j <= |a| && a[j - 1] == '=' { assert a[2..][j - 3] == '='; }
  }

  lemma ShortRest(t: string, rest: string, v: string) returns (k: nat)
    requires |t| > 2 && t[2] == '\'' && Glued(t[2..]) && !Glued(v) && |v| <= 1 && (rest == "" || Blank(rest[0]))
    requires ReadQuoted(t[3..] + rest, '\'').0 == v
    ensures k < |t| && ReadQuoted(t[3..] + rest, '\'').1 == t[k..] + rest
  {
    var p :| 0 <= p < |t| - 2 && t[2..][p] in "/.:=";
    assert t[2 + p] in "/.:=" && p > 0;
    var s := t[3..] + rest;
    assert s[0] == t[3];
    if t[3] == '\'' {
      k := 4;
      assert s[1..] == t[4..] + rest;
    } else {
      assert v == [t[3]] && v[0] == t[3];
      assert p != 1;
      assert s[1..] == t[4..] + rest && s[1..][0] == t[4];
      k := 5;
      assert s[1..][1..] == t[5..] + rest;
    }
  }

  lemma BundleMisses(t: string, rest: string, out: seq<Token>, j: nat, v: string)
    requires DirtyDash(t, rest) && |t| > 2 && t[1] != '-' && !Glued(t[2..])
    requires 2 <= j < |t| && t[j] == '\'' && '\'' !in t[..j] + v && !Stops((t + rest)[0])
    requires Folded(t + rest).0 == t[..j] + v
    requires !Folds(t[..j]) ==> v == "" && Folded(t + rest).1 == t[j..] + rest
    ensures Misses(t, rest, out)
  {
    var a, f := t[..j] + v, Folded(t + rest);
    DashUnquoted(a, out == []);
    DirtyNumber(t);
    FlagsAt(t[2..]);
    assert t[2..][j - 2] == '\'';
    var m := Dash(t, out == [])[j - 2];
    assert m == Flag("'");
    if j == 2 || Dash(a, out == [])[0].Word? {
      DiffersAt(t, rest, out, f, 0);
    } else {
      BundleAtom(t, j, v, out == []);
      DiffersNext(t, rest, out, f, j, m);
    }
  }

  /** The letters before the quote are a bundle as well. */
  lemma BundleAtom(t: string, j: nat, v: string, first: bool)
    requires 2 < j < |t| && t[0] == '-' && t[1] != '-' && !Glued(t[2..]) && (!Folds(t[..j]) ==> v == "")
    requires !Dash(t[..j] + v, first)[0].Word?
    ensures !Folds(t[..j]) && |Dash(t[..j] + v, first)| == j - 2
  {
    assert t[j - 1] == t[2..][j - 3];
    var a := t[..j] + v;
    assert a == t[..j] && forall i :: 0 <= i < |a[2..]| ==> a[2..][i] == t[2..][i];
    FlagsAt(a[2..]);
  }

  /** A flag or option with a single quote does not arrive. */
  lemma DashMisses(t: string, rest: string, out: seq<Token>)
    requires DirtyDash(t, rest)
    ensures Misses(t, rest, out)
  {
    assert '\'' in t && |t| > 1;
    if t[1] == '-' {
      LongMisses(t, rest, out);
    } else {
      var j, v := DirtyFold(t, rest);
      if j == 1 {
        LoneDash(t, rest, out, v);
      } else if Glued(t[2..]) {
        GluedMisses(t, rest, out, j, v);
      } else {
        BundleMisses(t, rest, out, j, v);
      }
    }
  }

  /** A dash right before the quote is taken as a word. */
  lemma LoneDash(t: string, rest: string, out: seq<Token>, v: string)
    requires DirtyDash(t, rest) && |t| > 1 && t[1] == '\'' && !Stops((t + rest)[0])
    requires Folded(t + rest).0 == t[..1] + v && v == ""
    ensures Misses(t, rest, out)
  {
    DirtyNumber(t);
    assert t[..1] + v == "-" && Dash("-", out == []) == [Word("-")];
    if |t| > 2 { FlagsAt(t[2..]); }
    DiffersAt(t, rest, out, Folded(t + rest), 0);
  }

  // ---- which lines arrive ------------------------------------------------------------------------------------

  lemma AllClean(ts: seq<string>)
    requires ts != []
    ensures (forall t :: t in ts ==> Clean(t)) <==> Clean(ts[0]) && forall t :: t in ts[1..] ==> Clean(t)
  {
    assert ts == [ts[0]] + ts[1..];
  }

  /** What follows the first token. */
  function Rest(ts: seq<string>): (r: string)
    requires ts != []
    ensures r == "" || Blank(r[0])
    ensures Line(ts) == Rendered(ts[0]) + r
  {
    if |ts| == 1 then assert Rendered(ts[0]) + "" == Rendered(ts[0]); "" else " " + Line(ts[1..])
  }

  lemma RestTokens(ts: seq<string>, out: seq<Token>)
    requires ts != []
    ensures Tokens(Rest(ts), out) == Tokens(Line(ts[1..]), out)
  {
    if |ts| > 1 { BlankTokens(Line(ts[1..]), out); }
  }

  lemma CleanStep(ts: seq<string>, out: seq<Token>)
    requires ts != [] && Clean(ts[0])
    ensures Tokens(Line(ts), out) == Tokens(Line(ts[1..]), out + Meaning(ts[0], out == []))
  {
    TokensStep(ts[0], Rest(ts), out);
    RestTokens(ts, out + Meaning(ts[0], out == []));
  }

  lemma Shift(ts: seq<string>, out: seq<Token>, first: bool)
    requires ts != []
    ensures out + Meanings(ts, first) == (out + Meaning(ts[0], first)) + Meanings(ts[1..], false)
  {
    Assoc(out, Meaning(ts[0], first), Meanings(ts[1..], false));
  }

  lemma DirtyStep(ts: seq<string>, out: seq<Token>)
    requires ts != [] && !Clean(ts[0])
    ensures Tokens(Line(ts), out) != out + Meanings(ts, out == [])
  {
    var t, m := ts[0], Meaning(ts[0], out == []);
    Shift(ts, out, out == []);
    if t[0] == '-' {
      DashMisses(t, Rest(ts), out);
    } else {
      DirtyTokens(t, Rest(ts), out, t);
      assert (out + Meanings(ts, out == []))[|out|] == Word(t);
    }
  }

  /** Words, flags and options are split as they were put together exactly when none that goes unquoted has a single
      quote in it. */
  lemma {:induction false} SplitsExactly(ts: seq<string>, out: seq<Token>)
    ensures Tokens(Line(ts), out) == out + Meanings(ts, out == []) <==> forall t :: t in ts ==> Clean(t)
    decreases ts
  {
    if ts == [] {
      assert out + [] == out;
    } else {
      AllClean(ts);
      if Clean(ts[0]) {
        CleanStep(ts, out);
        Shift(ts, out, out == []);
        SplitsExactly(ts[1..], out + Meaning(ts[0], out == []));
      } else {
        DirtyStep(ts, out);
      }
    }
  }

  // ---- the whole tokenizer -----------------------------------------------------------------------------------

  predicate PlainAlias(a: string) {
    !NeedsQuotes(a) && '\'' !in a
  }

  /** An alias at the start of a line is at the start of its first token, which then goes unquoted. */
  lemma AliasInFirst(a: string, ts: seq<string>)
    requires PlainAlias(a) && a <= Line(ts)
    ensures ts != [] && !NeedsQuotes(ts[0]) && a <= ts[0]
  {
    LineNonEmpty(ts);
    assert a != "" && !Forces(a[0]) && a[0] == Line(ts)[0];
    var rest := if |ts| == 1 then "" else " " + Line(ts[1..]);
    assert Line(ts) == Rendered(ts[0]) + rest;
    assert |ts| > 1 ==> Line(ts)[|Rendered(ts[0])|] == ' ';
    assert forall i :: 0 <= i < |a| ==> !Forces(a[i]) && a[i] == Line(ts)[i];
  }

  /** What is left of a first token that lost its beginning does not give that token. */
  lemma CutTokens(word: string, k: nat, rest: string)
    requires 0 < k <= |word| && !NeedsQuotes(word) && '\'' !in word[..k] && (rest == "" || Blank(rest[0]))
    ensures var r := Tokens(word[k..] + rest, []); k < |word| ==> r != [] && r[0] != Word(word)
  {
    var tail := word[k..];
    if tail != "" {
      assert forall i :: 0 <= i < |tail| ==> tail[i] == word[k + i] && !Forces(word[k + i]);
      assert !NeedsQuotes(tail);
      if '\'' in tail {
        DirtyTokens(tail, rest, [], word);
      } else {
        CleanCut(tail, rest, word);
      }
    }
  }

  lemma CleanCut(tail: string, rest: string, word: string)
    requires !NeedsQuotes(tail) && '\'' !in tail && |tail| < |word| && (rest == "" || Blank(rest[0]))
    ensures var r := Tokens(tail + rest, []); r != [] && r[0] != Word(word)
  {
    TokensStep(tail, rest, []);
    var m := Meaning(tail, true);
    assert [] + m == m;
    TokensExtend(rest, m);
    if tail[0] == '-' && tail != "--" { DashFirst(tail, true); }
  }

  // A first token that is an alias is cut off as a whole. What follows would have to give it back.

  /** Single quotes that open in a text without blanks close in it, or what they hold has a blank, or the line ends. */
  lemma {:induction false} QuotedWithin(u: string, rest: string) returns (k: nat)
    requires rest == "" || Blank(rest[0])
    ensures k <= |u|
    ensures var (v, r) := ReadQuoted(u + rest, '\''); r == u[k..] + rest || (exists i :: 0 <= i < |v| && Blank(v[i]))
    decreases u
  {
    var s := u + rest;
    if u == "" {
      k := 0;
      assert s == rest;
      if rest != "" {
        var v := ReadQuoted(rest, '\'').0;
        assert Blank(v[0]);
      }
    } else if u[0] == '\'' {
      k := 1;
      assert s[1..] == u[1..] + rest;
    } else {
      assert s[1..] == u[1..] + rest;
      var j := QuotedWithin(u[1..], rest);
      k := j + 1;
      assert u[k..] == u[1..][j..];
      var (v, r) := ReadQuoted(u[1..] + rest, '\'');
      assert ReadQuoted(s, '\'') == ([s[0]] + v, r);
      if i :| 0 <= i < |v| && Blank(v[i]) { assert ([s[0]] + v)[i + 1] == v[i]; }
    }
  }

  predicate NoBlank(t: string) {
    forall i :: 0 <= i < |t| ==> !Blank(t[i])
  }

  lemma QuoteRest(t: string, rest: string, first: bool) returns (k: nat)
    requires t != "" && t[0] == '\'' && (rest == "" || Blank(rest[0]))
    ensures k <= |t|
    ensures var r := Take(t + rest, first);
      |r.0| == 1 && r.0[0].Word? && (NoBlank(r.0[0].text) ==> r.1 == t[k..] + rest)
  {
    assert (t + rest)[1..] == t[1..] + rest;
    var m := QuotedWithin(t[1..], rest);
    k := 1 + m;
    assert t[1..][m..] == t[k..];
  }

  lemma FoldRest(t: string, rest: string) returns (k: nat)
    requires !Clean(t) && t[0] != '\'' && (rest == "" || Blank(rest[0]))
    ensures k <= |t| && !Stops((t + rest)[0])
    ensures var f := Folded(t + rest); NoBlank(f.0) ==> f.1 == t[k..] + rest
  {
    var j, v := DirtyFold(t, rest);
    if Folds(t[..j]) {
      var m := QuotedWithin(t[j + 1..], rest);
      k := j + 1 + m;
      assert t[j + 1..][m..] == t[k..];
      assert forall i :: 0 <= i < |v| ==> (t[..j] + v)[j + i] == v[i];
    } else {
      k := j;
    }
  }

  /** Where the first word of an unquoted token with a single quote ends, if it has no blank. */
  lemma DirtyRest(t: string, rest: string, first: bool) returns (k: nat)
    requires !Clean(t) && t[0] != '-' && (rest == "" || Blank(rest[0]))
    ensures !Blank((t + rest)[0]) && k <= |t|
    ensures var r := Take(t + rest, first);
      |r.0| == 1 && r.0[0].Word? && (NoBlank(r.0[0].text) ==> r.1 == t[k..] + rest)
  {
    if t[0] == '\'' { k := QuoteRest(t, rest, first); } else { k := FoldRest(t, rest); }
  }

  lemma FoldedBlank(s: string, j: nat)
    requires 0 < j < |s| && Atom(s) == j && s[j] == '\'' && !Stops(s[0])
    ensures Folds(s[..j]) ==> Folded(s) == (s[..j] + ReadQuoted(s[j + 1..], '\'').0, ReadQuoted(s[j + 1..], '\'').1)
    ensures !Folds(s[..j]) ==> Folded(s) == (s[..j], s[j..])
  {
    assert s[j..][1..] == s[j + 1..];
  }

  /** A line does not give its tokens preceded by one more word. */
  lemma {:induction false} Shifted(ts: seq<string>, out: seq<Token>, word: string)
    requires PlainAlias(word) && word[0] != '-'
    ensures Tokens(Line(ts), out) != (out + [Word(word)]) + Meanings(ts, false)
    decreases ts
  {
    if ts == [] {
      assert Tokens("", out) == out;
    } else if Clean(ts[0]) {
      var m := Meaning(ts[0], out == []);
      CleanStep(ts, out);
      if ts[0] == word {
        Shifted(ts[1..], out + [Word(word)], word);
        Shift(ts, out + [Word(word)], false);
      } else {
        TokensExtend(Line(ts[1..]), out + m);
        assert (out + m)[|out|] == m[0];
        FirstMeaning(ts[0], out == []);
        assert ((out + [Word(word)]) + Meanings(ts, false))[|out|] == Word(word);
      }
    } else {
      ShiftedDirty(ts, out, word);
    }
  }

  lemma FirstMeaning(t: string, first: bool)
    ensures var m := Meaning(t, first); m != [] && (m[0].Flag? || m[0] == Word(t))
  {
    if !NeedsQuotes(t) && t[0] == '-' { DashFirst(t, first); }
  }

  lemma ShiftedDirty(ts: seq<string>, out: seq<Token>, word: string)
    requires ts != [] && !Clean(ts[0]) && PlainAlias(word) && word[0] != '-'
    ensures Tokens(Line(ts), out) != (out + [Word(word)]) + Meanings(ts, false)
  {
    var t, rest := ts[0], Rest(ts);
    var expected := (out + [Word(word)]) + Meanings(ts, false);
    assert expected[|out|] == Word(word);
    if t[0] == '-' {
      ShiftedDash(t, rest, out, word);
    } else {
      assert expected[|out| + 1] == Word(t);
      ShiftedWord(ts, out, word);
    }
  }

  lemma ShiftedDash(t: string, rest: string, out: seq<Token>, word: string)
    requires DirtyDash(t, rest) && (word == "" || word[0] != '-')
    ensures var r := Tokens(t + rest, out); |out| < |r| && r[|out|] != Word(word)
  {
    DashTakes(t, rest, out);
    var f := Folded(t + rest);
    var toks := Dash(f.0, out == []);
    DashFirst(f.0, out == []);
    TokensExtend(f.1, out + toks);
    assert (out + toks)[|out|] == toks[0];
  }

  /** The first word of such a text, and what the line goes on with if that word has no blank. */
  lemma WordTakes(t: string, rest: string, out: seq<Token>) returns (k: nat, first: string, more: string)
    requires !Clean(t) && t[0] != '-' && (rest == "" || Blank(rest[0]))
    ensures Tokens(t + rest, out) == Tokens(more, out + [Word(first)])
    ensures k <= |t| && (NoBlank(first) ==> more == t[k..] + rest)
  {
    k := DirtyRest(t, rest, out == []);
    var r := Take(t + rest, out == []);
    first, more := r.0[0].text, r.1;
    assert SkipBlanks(t + rest) == t + rest && r.0 == [Word(first)];
  }

  lemma ShiftedWord(ts: seq<string>, out: seq<Token>, word: string)
    requires ts != [] && !Clean(ts[0]) && ts[0][0] != '-' && PlainAlias(word)
    ensures var r := Tokens(Line(ts), out);
      |out| < |r| && (r[|out|] == Word(word) && |out| + 1 < |r| ==> r[|out| + 1] != Word(ts[0]))
  {
    var t, rest := ts[0], Rest(ts);
    var k, first, more := WordTakes(t, rest, out);
    var now := out + [Word(first)];
    TokensExtend(more, now);
    assert now[|out|] == Word(first);
    if first == word {
      AliasNoBlank(word);
      AfterWord(ts, k, now);
    }
  }

  lemma AliasNoBlank(a: string)
    requires PlainAlias(a)
    ensures NoBlank(a)
  {
    assert forall i :: 0 <= i < |a| ==> !Forces(a[i]);
  }

  lemma AfterWord(ts: seq<string>, k: nat, out: seq<Token>)
    requires ts != [] && !Clean(ts[0]) && k <= |ts[0]| && out != []
    ensures var r := Tokens(ts[0][k..] + Rest(ts), out); |r| <= |out| || r[|out|] != Word(ts[0])
  {
    if k < |ts[0]| {
      Remainder(ts[0], k, Rest(ts), out, ts[0]);
    } else {
      assert ts[0][k..] + Rest(ts) == Rest(ts);
      NextTokens(ts, out);
    }
  }

  /** After a first token with a single quote that ended where it ends, the next one is not that token. */
  lemma NextTokens(ts: seq<string>, out: seq<Token>)
    requires ts != [] && !Clean(ts[0]) && out != []
    ensures var r := Tokens(Rest(ts), out); |r| <= |out| || r[|out|] != Word(ts[0])
  {
    RestTokens(ts, out);
    var us := ts[1..];
    if us == [] {
      assert Tokens("", out) == out;
    } else if Clean(us[0]) {
      var m := Meaning(us[0], false);
      CleanStep(us, out);
      FirstMeaning(us[0], false);
      TokensExtend(Line(us[1..]), out + m);
      assert (out + m)[|out|] == m[0];
    } else {
      DirtyTokens(us[0], Rest(us), out, ts[0]);
    }
  }

  /** A first token that is cut off as a whole is missed. */
  lemma CutWord(ts: seq<string>)
    requires ts != [] && PlainAlias(ts[0]) && ts[0][0] != '-'
    ensures Tokens(Rest(ts), []) != Meanings(ts, true)
  {
    RestTokens(ts, []);
    MeaningsFirst(ts);
    Shifted(ts[1..], [], ts[0]);
  }

  lemma MeaningsFirst(ts: seq<string>)
    requires ts != [] && PlainAlias(ts[0]) && ts[0][0] != '-'
    ensures ([] + [Word(ts[0])]) + Meanings(ts[1..], false) == Meanings(ts, true)
  {
  }

  lemma CutLine(ts: seq<string>, a: string)
    requires PlainAlias(a) && a[0] != '-' && a <= Line(ts)
    ensures Tokens(Line(ts)[|a|..], []) != Meanings(ts, true)
  {
    AliasInFirst(a, ts);
    var word, rest := ts[0], Rest(ts);
    assert Line(ts)[|a|..] == word[|a|..] + rest && word[..|a|] == a;
    if |a| < |word| {
      CutTokens(word, |a|, rest);
      assert Meanings(ts, true)[0] == Word(word);
    } else {
      assert word == a && word[|a|..] + rest == rest;
      CutWord(ts);
    }
  }

  /** The first alias that matches is cut off. */
  lemma {:induction false} FirstAlias(line: string, aliases: seq<string>) returns (a: string)
    requires exists x :: x in aliases && x <= line
    ensures a in aliases && a <= line && Stripped(line, aliases) == line[|a|..]
    decreases aliases
  {
    if aliases[0] <= line {
      a := aliases[0];
    } else {
      assert aliases == [aliases[0]] + aliases[1..];
      a := FirstAlias(line, aliases[1..]);
    }
  }

  /** Words, flags and options arrive from the whole tokenizer exactly when none that goes unquoted has a single quote
      in it and no root alias starts the line, be it only as the beginning of a longer word. */
  lemma ArrivesExactly(ts: seq<string>, aliases: seq<string>)
    requires forall a :: a in aliases ==> PlainAlias(a) && (a[0] == '-' ==> ts == [] || Positional(ts[0]))
    ensures Tokenized(Line(ts), aliases) == Meanings(ts, true) <==>
      (forall t :: t in ts ==> Clean(t)) && forall a :: a in aliases ==> !(a <= Line(ts))
  {
    if forall a :: a in aliases ==> !(a <= Line(ts)) {
      NotStripped(Line(ts), aliases);
      SplitsExactly(ts, []);
      assert [] + Meanings(ts, true) == Meanings(ts, true);
    } else {
      var a := FirstAlias(Line(ts), aliases);
      AliasInFirst(a, ts);
      CutLine(ts, a);
    }
  }

  predicate Positional(t: string) {
    NeedsQuotes(t) || t[0] != '-'
  }

  function Words(ts: seq<string>): seq<Token> {
    if ts == [] then [] else [Word(ts[0])] + Words(ts[1..])
  }

  /** Positional arguments mean themselves. */
  lemma {:induction false} PositionalMean(ts: seq<string>, first: bool)
    requires forall t :: t in ts ==> Positional(t)
    ensures Meanings(ts, first) == Words(ts)
    decreases ts
  {
    if ts != [] {
      assert ts == [ts[0]] + ts[1..] && Positional(ts[0]);
      PositionalMean(ts[1..], false);
    }
  }

  // ---- flags and options -------------------------------------------------------------------------------------

  /** A dash and a letter is that flag; as the first token it is a word, which may name a command. */
  lemma ShortMeans(c: char)
    requires c != '-' && !('0' <= c <= '9') && !Forces(c) && c != '\''
    ensures Meaning(['-', c], false) == [Flag([c])] && Meaning(['-', c], true) == [Word(['-', c])]
  {
    var t := ['-', c];
    assert t[1..] == [c];
    DigitsExactly([c], false, false);
    assert forall i :: 0 <= i < |t| ==> !Forces(t[i]);
  }

  /** Two dashes and a name is that flag, with a value after an equals sign also a word. */
  lemma LongMeans(name: string, value: string)
    requires name != "" && name[0] != '-' && '=' !in name
    requires forall i :: 0 <= i < |name| ==> !Forces(name[i])
    requires forall i :: 0 <= i < |value| ==> !Forces(value[i])
    ensures Meaning("--" + name, false) == [Flag(name)] && Meaning("--" + name, true) == [Word("--" + name)]
    ensures Meaning("--" + (name + ("=" + value)), false) == [Flag(name), Word(value)]
  {
    var t, v := "--" + name, name + ("=" + value);
    assert t[2..] == name && ("--" + v)[2..] == v;
    assert !NeedsQuotes(t) && !NeedsQuotes("--" + v);
    NotNegative(t);
    NotNegative("--" + v);
    FindNone(name, '=');
    FindAfter(name, value);
    assert ("--" + v)[2..2 + |name|] == name && ("--" + v)[3 + |name|..] == value;
  }

  lemma NotNegative(t: string)
    requires |t| > 1 && t[1] == '-'
    ensures !NegativeNumber(t)
  {
    assert t[1..][0] == '-';
  }

  lemma {:induction false} FindNone(s: string, c: char)
    requires c !in s
    ensures Find(s, c) == |s|
    decreases s
  {
    if s != "" { FindNone(s[1..], c); }
  }

  lemma {:induction false} FindAfter(name: string, value: string)
    requires '=' !in name
    ensures Find(name + ("=" + value), '=') == |name|
    decreases name
  {
    var s := name + ("=" + value);
    if name == "" {
      assert s[0] == '=';
    } else {
      assert s[0] == name[0] && s[1..] == name[1..] + ("=" + value);
      FindAfter(name[1..], value);
    }
  }

  /** A letter with something glued to it that looks like a value is the flag and the value, without an equals sign
      between them. */
  lemma GluedMeans(c: char, value: string, first: bool)
    requires c != '-' && !Forces(c) && forall i :: 0 <= i < |value| ==> !Forces(value[i])
    requires value != "" && !NegativeNumber(['-', c] + value)
    requires exists i :: 0 <= i < |value| && value[i] in "/.:="
    ensures Meaning(['-', c] + value, first) == [Flag([c]), Word(if value[0] == '=' then value[1..] else value)]
  {
    var t := ['-', c] + value;
    assert t[2..] == value && t[1] == c;
    assert !NeedsQuotes(t) && Glued(value);
  }

  predicate DigitAt(s: string, i: nat)
    requires i < |s|
  {
    '0' <= s[i] <= '9'
  }

  lemma {:induction false} DigitsExactly(s: string, dot: bool, digit: bool)
    ensures Digits(s, dot, digit) <==>
      && (forall i :: 0 <= i < |s| ==> DigitAt(s, i) || s[i] == '.')
      && (forall i, j :: 0 <= i < j < |s| && s[i] == '.' ==> s[j] != '.')
      && (dot ==> forall i :: 0 <= i < |s| ==> s[i] != '.')
      && (digit || exists i :: 0 <= i < |s| && DigitAt(s, i))
    decreases s
  {
    if s != "" {
      var r := s[1..];
      assert forall i :: 0 <= i < |r| ==> r[i] == s[i + 1] && (DigitAt(r, i) <==> DigitAt(s, i + 1));
      assert forall i :: 1 <= i < |s| ==> s[i] == r[i - 1] && (DigitAt(s, i) <==> DigitAt(r, i - 1));
      if DigitAt(s, 0) {
        DigitsExactly(r, dot, true);
      } else if s[0] == '.' {
        DigitsExactly(r, true, digit);
        if i :| 0 <= i < |r| && DigitAt(r, i) { assert DigitAt(s, i + 1); }
        if i :| 0 <= i < |s| && DigitAt(s, i) { assert DigitAt(r, i - 1); }
      } else {
        assert !DigitAt(s, 0) && s[0] != '.';
      }
    }
  }

  /** A dash and digits with at most one point between, before or after them is a number, and arrives as a word. */
  lemma NumbersMean(s: string, first: bool)
    requires s != "" && (forall i :: 0 <= i < |s| ==> DigitAt(s, i) || s[i] == '.')
    requires forall i, j :: 0 <= i < j < |s| && s[i] == '.' ==> s[j] != '.'
    requires exists i :: 0 <= i < |s| && DigitAt(s, i)
    ensures Meaning("-" + s, first) == [Word("-" + s)]
  {
    var t := "-" + s;
    assert t[1..] == s;
    DigitsExactly(s, false, false);
    assert forall i :: 0 <= i < |t| ==> !Forces(t[i]);
  }

  /** A bundle of short flags loses its first letter: `-rf` is the flag `f`. */
  lemma BundleLosesFirst(a: char, tail: string, first: bool)
    requires a != '-' && tail != "" && !Glued(tail) && !NegativeNumber("-" + ([a] + tail))
    ensures Dash("-" + ([a] + tail), first) == Flags(tail)
    ensures |Flags(tail)| == |tail| && Dash("-" + ([a] + tail), first) != Flags([a] + tail)
  {
    var pre := "-" + ([a] + tail);
    assert pre[1] == a && pre[2..] == tail;
    assert ([a] + tail)[1..] == tail;
    FlagsAt(tail);
    FlagsAt([a] + tail);
  }

  // ---- the loops ---------------------------------------------------------------------------------------------

  method SkipFrom(line: string, from: nat) returns (p: nat)
    requires from <= |line|
    ensures from <= p <= |line| && line[p..] == SkipBlanks(line[from..])
  {
    p := from;
    while p < |line| && Blank(line[p])
      invariant from <= p <= |line| && SkipBlanks(line[p..]) == SkipBlanks(line[from..])
    {
      assert line[p..][1..] == line[p + 1..];
      p := p + 1;
    }
  }

  method QuotedFrom(line: string, from: nat, q: char) returns (value: string, p: nat)
    requires from <= |line|
    ensures from <= p <= |line| && (value, line[p..]) == ReadQuoted(line[from..], q)
  {
    value, p := "", from;
    assert "" + ReadQuoted(line[from..], q).0 == ReadQuoted(line[from..], q).0;
    while p < |line|
      invariant from <= p <= |line|
      invariant ReadQuoted(line[from..], q) == (value + ReadQuoted(line[p..], q).0, ReadQuoted(line[p..], q).1)
    {
      ghost var rest := line[p..];
      if line[p] == q {
        assert rest[1..] == line[p + 1..] && value + "" == value;
        return value, p + 1;
      }
      if q == '"' && line[p] == '\\' && p + 1 < |line| {
        assert rest[2..] == line[p + 2..];
        Assoc(value, [line[p + 1]], ReadQuoted(line[p + 2..], q).0);
        value, p := value + [line[p + 1]], p + 2;
      } else {
        assert rest[1..] == line[p + 1..];
        Assoc(value, [line[p]], ReadQuoted(line[p + 1..], q).0);
        value, p := value + [line[p]], p + 1;
      }
    }
    assert line[p..] == "" && value + "" == value;
  }

  method AtomFrom(line: string, from: nat) returns (p: nat)
    requires from <= |line|
    ensures p == from + Atom(line[from..]) && p <= |line|
  {
    p := from;
    while p < |line| && !Stops(line[p])
      invariant from <= p <= |line| && from + Atom(line[from..]) == p + Atom(line[p..])
    {
      assert line[p..][1..] == line[p + 1..];
      p := p + 1;
    }
  }

  method FoldedFrom(line: string, from: nat) returns (atom: string, p: nat)
    requires from < |line| && !Stops(line[from])
    ensures from < p <= |line| && (atom, line[p..]) == Folded(line[from..])
  {
    p := AtomFrom(line, from);
    ghost var s := line[from..];
    atom := line[from..p];
    assert s[..Atom(s)] == atom && s[Atom(s)..] == line[p..] && Atom(s) > 0;
    if p < |line| && (line[p] == '"' || line[p] == '\'') {
      if atom[|atom| - 1] == '=' || (|atom| == 2 && atom[0] == '-' && atom[1] != '-') {
        assert line[p..][1..] == line[p + 1..];
        var value;
        value, p := QuotedFrom(line, p + 1, line[p]);
        atom := atom + value;
      }
    } else {
      assert p < |line| ==> Blank(line[p]) by { AtomStops(s); }
    }
  }

  lemma {:induction false} AtomStops(s: string)
    ensures Atom(s) < |s| ==> Stops(s[Atom(s)])
    decreases s
  {
    if s != "" && !Stops(s[0]) { AtomStops(s[1..]); }
  }

  method Tokenize(line: string, aliases: seq<string>) returns (out: seq<Token>)
    ensures out == Tokenized(line, aliases)
  {
    var p, a := 0, 0;
    while a < |aliases|
      invariant a <= |aliases| && p == 0 && Stripped(line, aliases) == Stripped(line, aliases[a..])
    {
      if aliases[a] <= line {
        p := |aliases[a]|;
        break;
      }
      assert aliases[a..][1..] == aliases[a + 1..];
      a := a + 1;
    }
    assert line[p..] == Stripped(line, aliases) by {
      if a == |aliases| { assert aliases[a..] == [] && line[0..] == line; }
    }
    out := [];
    while true
      invariant p <= |line| && Tokens(line[p..], out) == Tokenized(line, aliases)
      decreases |line| - p
    {
      ghost var s := line[p..];
      p := SkipFrom(line, p);
      if p == |line| { return; }
      SkipsBlanks(s);
      ghost var t := line[p..];
      ghost var took := Take(t, out == []);
      if line[p] == '-' && p + 1 < |line| && line[p + 1] == '-' && (p + 2 == |line| || Blank(line[p + 2])) {
        assert t[2..] == line[p + 2..];
        out, p := out + [Word("--")], p + 2;
      } else if line[p] == '"' || line[p] == '\'' {
        assert t[1..] == line[p + 1..];
        var value;
        value, p := QuotedFrom(line, p + 1, line[p]);
        out := out + [Word(value)];
      } else {
        var dash := line[p] == '-';
        var atom;
        atom, p := FoldedFrom(line, p);
        out := out + if dash then Dash(atom, out == []) else [Word(atom)];
      }
      assert line[p..] == took.1;
    }
  }
}
