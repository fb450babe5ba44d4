/** The line `vh` sends to the daemon (core/main/cli.cpp), and that it can be read back. */
module ShellLine {
  import opened Wrappers
  import opened Sequences

  // ---- the client's line -------------------------------------------------------------------------------------

  predicate Forces(c: char) {
    c == ' ' || c == '\t' || c == '"' || c == '\\'
  }

  predicate NeedsQuotes(t: string) {
    t == "" || exists i :: 0 <= i < |t| && Forces(t[i])
  }

  function Escape(c: char): string {
    if c == '"' || c == '\\' then ['\\', c] else [c]
  }

  function Escaped(t: string): string {
    if t == "" then "" else Escape(t[0]) + Escaped(t[1..])
  }

  function Rendered(t: string): string {
    if NeedsQuotes(t) then "\"" + (Escaped(t) + "\"") else t
  }

  /** A token goes as it is exactly when it is not empty and has no blank, tab, double quote or backslash. */
  lemma RenderedBare(t: string)
    ensures Rendered(t) == t <==> t != "" && forall i :: 0 <= i < |t| ==> t[i] !in " \t\"\\"
  {
    assert forall i :: 0 <= i < |t| ==> (Forces(t[i]) <==> t[i] in " \t\"\\");
    if NeedsQuotes(t) { EscapedLonger(t); }
  }

  lemma {:induction false} EscapedLonger(t: string)
    ensures |Escaped(t)| >= |t|
    decreases t
  {
    if t != "" { EscapedLonger(t[1..]); }
  }

  function Line(ts: seq<string>): string {
    if ts == [] then "" else if |ts| == 1 then Rendered(ts[0]) else Rendered(ts[0]) + (" " + Line(ts[1..]))
  }

  lemma {:induction false} EscapedSnoc(t: string, c: char)
    ensures Escaped(t + [c]) == Escaped(t) + Escape(c)
    decreases t
  {
    if t == "" {
      assert t + [c] == [c];
      assert Escaped([c][1..]) == "";
    } else {
      EscapedSnoc(t[1..], c);
      assert (t + [c])[1..] == t[1..] + [c] && (t + [c])[0] == t[0];
      Assoc(Escape(t[0]), Escaped(t[1..]), Escape(c));
    }
  }

  method DqQuote(t: string) returns (out: string)
    ensures out == "\"" + (Escaped(t) + "\"")
  {
    out := "\"";
    for i := 0 to |t|
      invariant out == "\"" + Escaped(t[..i])
    {
      EscapedSnoc(t[..i], t[i]);
      assert t[..i + 1] == t[..i] + [t[i]];
      if t[i] == '"' || t[i] == '\\' { out := out + ['\\']; }
      out := out + [t[i]];
      assert out == "\"" + (Escaped(t[..i]) + Escape(t[i]));
    }
    assert t[..|t|] == t;
    out := out + "\"";
  }

  lemma {:induction false} LineSnoc(ts: seq<string>, t: string)
    requires ts != []
    ensures Line(ts + [t]) == Line(ts) + (" " + Rendered(t))
    decreases ts
  {
    assert (ts + [t])[1..] == ts[1..] + [t] && (ts + [t])[0] == ts[0];
    if |ts| == 1 {
      assert ts[1..] + [t] == [t];
    } else {
      LineSnoc(ts[1..], t);
      Assoc(" ", Line(ts[1..]), " " + Rendered(t));
      Assoc(Rendered(ts[0]), " " + Line(ts[1..]), " " + Rendered(t));
    }
  }

  lemma LineNonEmpty(ts: seq<string>)
    ensures Line(ts) == "" <==> ts == []
  {
    if ts != [] { assert Rendered(ts[0]) != ""; }
  }

  method BuildLine(ts: seq<string>) returns (line: string)
    ensures line == Line(ts)
  {
    line := "";
    for i := 0 to |ts|
      invariant line == Line(ts[..i])
    {
      LineNonEmpty(ts[..i]);
      assert ts[..i + 1] == ts[..i] + [ts[i]];
      if i > 0 { LineSnoc(ts[..i], ts[i]); }
      var text := ts[i];
      if NeedsQuotes(ts[i]) { text := DqQuote(ts[i]); }
      line := line + ((if line == "" then "" else " ") + text);
    }
    assert ts[..|ts|] == ts;
  }

  // ---- reading it back ---------------------------------------------------------------------------------------

  /** Text after an opening quote, up to the closing one, and what follows. */
  function ReadQuoted(s: string, q: char): (r: (string, string))
    ensures |r.1| <= |s|
  {
    if s == "" then ("", "")
    else if s[0] == q then ("", s[1..])
    else if q == '"' && s[0] == '\\' && |s| > 1 then
      var (v, rest) := ReadQuoted(s[2..], q); ([s[1]] + v, rest)
    else
      var (v, rest) := ReadQuoted(s[1..], q); ([s[0]] + v, rest)
  }

  lemma {:induction false} ReadsEscaped(t: string, rest: string)
    ensures ReadQuoted(Escaped(t) + ("\"" + rest), '"') == (t, rest)
    decreases t
  {
    if t == "" {
      assert Escaped(t) + ("\"" + rest) == "\"" + rest && ("\"" + rest)[1..] == rest;
    } else {
      var more := Escaped(t[1..]) + ("\"" + rest);
      var s := Escape(t[0]) + more;
      Assoc(Escape(t[0]), Escaped(t[1..]), "\"" + rest);
      ReadsEscaped(t[1..], rest);
      assert t == [t[0]] + t[1..];
      if t[0] == '"' || t[0] == '\\' {
        assert s[0] == '\\' && s[1] == t[0] && s[2..] == more;
      } else {
        assert s[0] == t[0] && s[1..] == more;
      }
    }
  }

  lemma RenderedQuotes(t: string, rest: string)
    requires NeedsQuotes(t)
    ensures Rendered(t) + rest == "\"" + (Escaped(t) + ("\"" + rest))
  {
    Assoc("\"", Escaped(t) + "\"", rest);
    Assoc(Escaped(t), "\"", rest);
  }

  lemma ReadsRendered(t: string, rest: string)
    requires NeedsQuotes(t)
    ensures Rendered(t) + rest != "" && (Rendered(t) + rest)[0] == '"'
    ensures ReadQuoted((Rendered(t) + rest)[1..], '"') == (t, rest)
  {
    RenderedQuotes(t, rest);
    var inner := Escaped(t) + ("\"" + rest);
    assert ("\"" + inner)[1..] == inner;
    ReadsEscaped(t, rest);
  }

  function ToBlank(s: string): nat
    ensures ToBlank(s) <= |s|
  {
    if s == "" || s[0] == ' ' then 0 else 1 + ToBlank(s[1..])
  }

  /** A reader of such lines: a quoted text or a run without blanks, then one blank. */
  function Read(s: string): seq<string>
    decreases |s|
  {
    if s == "" then []
    else
      var (word, rest) := if s[0] == '"' then ReadQuoted(s[1..], '"') else (s[..ToBlank(s)], s[ToBlank(s)..]);
      if rest == "" then [word] else [word] + Read(rest[1..])
  }

  lemma {:induction false} ToBlankOf(t: string, rest: string)
    requires (forall i :: 0 <= i < |t| ==> t[i] != ' ') && (rest == "" || rest[0] == ' ')
    ensures ToBlank(t + rest) == |t|
    decreases t
  {
    if t == "" {
      assert t + rest == rest;
    } else {
      ToBlankOf(t[1..], rest);
      assert (t + rest)[1..] == t[1..] + rest;
    }
  }

  lemma ReadStep(t: string, rest: string)
    requires rest == "" || rest[0] == ' '
    ensures Read(Rendered(t) + rest) == if rest == "" then [t] else [t] + Read(rest[1..])
  {
    var s := Rendered(t) + rest;
    if NeedsQuotes(t) {
      ReadsRendered(t, rest);
    } else {
      assert !Forces(t[0]) && forall i :: 0 <= i < |t| ==> !Forces(t[i]);
      ToBlankOf(t, rest);
      assert s[..|t|] == t && s[|t|..] == rest;
    }
  }

  /** No token list is lost in the line, empty tokens, blanks, quotes and backslashes included. */
  lemma {:induction false} LineIsUndone(ts: seq<string>)
    ensures Read(Line(ts)) == ts
    decreases ts
  {
    if |ts| == 1 {
      ReadStep(ts[0], "");
      assert Rendered(ts[0]) + "" == Rendered(ts[0]) && ts == [ts[0]];
    } else if ts != [] {
      var rest := " " + Line(ts[1..]);
      ReadStep(ts[0], rest);
      assert rest[1..] == Line(ts[1..]) && ts == [ts[0]] + ts[1..];
      LineIsUndone(ts[1..]);
    }
  }
}
