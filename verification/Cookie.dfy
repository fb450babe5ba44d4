/** Cookie lookup (core/include/protocols/cookie.hpp) in one Cookie header field, against the Cookie header of section
    4.2.1 of RFC 6265 with values as in section 4.1.1. */
module Cookie {
  import opened Wrappers
  import opened Sequences

  predicate Blank(c: char) {
    c == ' ' || c == '\t'
  }

  predicate Blanks(s: string) {
    forall i :: 0 <= i < |s| ==> Blank(s[i])
  }

  // ---- the lookup as a function ------------------------------------------------------------------------------

  function TrimFront(s: string): string {
    if s != "" && Blank(s[0]) then TrimFront(s[1..]) else s
  }

  function TrimBack(s: string): string {
    if s != "" && Blank(s[|s| - 1]) then TrimBack(s[..|s| - 1]) else s
  }

  function Trimmed(s: string): string {
    TrimBack(TrimFront(s))
  }

  /** What is left is the text without the blanks and tabs at its ends. */
  lemma TrimmedExactly(s: string) returns (i: nat, j: nat)
    ensures i <= j <= |s| && Trimmed(s) == s[i..j]
    ensures forall k :: 0 <= k < |s| && (k < i || j <= k) ==> s[k] in " \t"
    ensures i < j ==> s[i] !in " \t" && s[j - 1] !in " \t"
  {
    i := FrontAt(s);
    var n := BackAt(s[i..]);
    j := i + n;
    assert s[i..][..n] == s[i..j];
    assert forall k :: 0 <= k < |s| - i ==> s[i..][k] == s[i + k];
  }

  lemma {:induction false} FrontAt(s: string) returns (i: nat)
    ensures i <= |s| && TrimFront(s) == s[i..]
    ensures (forall k :: 0 <= k < i ==> s[k] in " \t") && (i < |s| ==> s[i] !in " \t")
    decreases s
  {
    if s != "" && Blank(s[0]) {
      var m := FrontAt(s[1..]);
      i := m + 1;
      assert s[1..][m..] == s[i..] && forall k :: 1 <= k < |s| ==> s[k] == s[1..][k - 1];
    } else {
      i := 0;
      assert s[0..] == s;
    }
  }

  lemma {:induction false} BackAt(s: string) returns (j: nat)
    ensures j <= |s| && TrimBack(s) == s[..j]
    ensures (forall k :: j <= k < |s| ==> s[k] in " \t") && (j > 0 ==> s[j - 1] !in " \t")
    decreases |s|
  {
    if s != "" && Blank(s[|s| - 1]) {
      j := BackAt(s[..|s| - 1]);
    } else {
      j := |s|;
      assert s[..|s|] == s;
    }
  }

  function Unquoted(v: string): string {
    if |v| >= 2 && v[0] == '"' && v[|v| - 1] == '"' then v[1..|v| - 1] else v
  }

  /** The value in one part of the header, if its name is the key. */
  function Pick(part: string, key: string): Option<string> {
    var eq := Find(part, '=');
    if eq == |part| || Trimmed(part[..eq]) != key then None else Some(Unquoted(Trimmed(part[eq + 1..])))
  }

  function Lookup(s: string, key: string): string {
    if s == "" then ""
    else
      var semi := Find(s, ';');
      match Pick(Trimmed(s[..semi]), key)
      case Some(v) => v
      case None => if semi == |s| then "" else Lookup(s[semi + 1..], key)
  }

  // ---- headers -----------------------------------------------------------------------------------------------

  predicate Octet(c: char) {
    c == '!' || '#' <= c <= '+' || '-' <= c <= ':' || '<' <= c <= '[' || ']' <= c <= '~'
  }

  predicate TokenChar(c: char) {
    '!' <= c <= '~' && c !in "()<>@,;:\\\"/[]?={}"
  }

  /** A cookie pair, its value in quotes or not, and the blanks around its parts. */
  datatype Pair = Pair(name: string, value: string, quoted: bool, b0: string, b1: string, b2: string, b3: string)

  predicate Fine(p: Pair) {
    && p.name != "" && (forall i :: 0 <= i < |p.name| ==> TokenChar(p.name[i]))
    && (forall i :: 0 <= i < |p.value| ==> Octet(p.value[i]))
    && Blanks(p.b0) && Blanks(p.b1) && Blanks(p.b2) && Blanks(p.b3)
  }

  function ValueText(p: Pair): string {
    if p.quoted then "\"" + p.value + "\"" else p.value
  }

  function Text(p: Pair): string {
    p.b0 + (p.name + p.b1 + "=" + (p.b2 + ValueText(p))) + p.b3
  }

  function Header(ps: seq<Pair>): string {
    if ps == [] then "" else if |ps| == 1 then Text(ps[0]) else Text(ps[0]) + (";" + Header(ps[1..]))
  }

  function First(ps: seq<Pair>, key: string): string {
    if ps == [] then "" else if ps[0].name == key then ps[0].value else First(ps[1..], key)
  }

  // ---- trimming and splitting --------------------------------------------------------------------------------

  lemma {:induction false} FrontOf(b: string, s: string)
    requires Blanks(b) && (s == "" || !Blank(s[0]))
    ensures TrimFront(b + s) == s
    decreases b
  {
    if b == "" {
      assert b + s == s;
    } else {
      assert (b + s)[1..] == b[1..] + s;
      FrontOf(b[1..], s);
    }
  }

  lemma {:induction false} BackOf(s: string, b: string)
    requires Blanks(b) && (s == "" || !Blank(s[|s| - 1]))
    ensures TrimBack(s + b) == s
    decreases b
  {
    if b == "" {
      assert s + b == s;
    } else {
      assert (s + b)[..|s + b| - 1] == s + b[..|b| - 1];
      BackOf(s, b[..|b| - 1]);
    }
  }

  lemma TrimOf(b: string, s: string, a: string)
    requires Blanks(b) && Blanks(a) && s != "" && !Blank(s[0]) && !Blank(s[|s| - 1])
    ensures Trimmed(b + s + a) == s
  {
    assert b + s + a == b + (s + a);
    FrontOf(b, s + a);
    BackOf(s, a);
  }

  lemma TrimBlanks(b: string)
    requires Blanks(b)
    ensures Trimmed(b) == ""
  {
    FrontOf(b, "");
    assert b + "" == b;
  }

  lemma {:induction false} FindOf(s: string, c: char, rest: string)
    requires c !in s
    ensures Find(s + ([c] + rest), c) == |s| && Find(s, c) == |s|
    decreases s
  {
    if s == "" {
      assert s + ([c] + rest) == [c] + rest;
    } else {
      assert (s + ([c] + rest))[1..] == s[1..] + ([c] + rest);
      FindOf(s[1..], c, rest);
    }
  }

  // ---- one pair ----------------------------------------------------------------------------------------------

  lemma ValueTextFine(p: Pair)
    requires Fine(p)
    ensures ';' !in ValueText(p) && (forall i :: 0 <= i < |ValueText(p)| ==> !Blank(ValueText(p)[i]))
    ensures Unquoted(ValueText(p)) == p.value
  {
    if p.quoted { assert ValueText(p)[1..|ValueText(p)| - 1] == p.value; }
  }

  lemma NameFine(p: Pair)
    requires Fine(p)
    ensures ';' !in p.name && '=' !in p.name && !Blank(p.name[0]) && !Blank(p.name[|p.name| - 1])
  {
    assert TokenChar(p.name[0]) && TokenChar(p.name[|p.name| - 1]);
  }

  /** A pair without its outer blanks; nothing but blanks after the equals sign may have been cut off too. */
  function Core(p: Pair): string {
    if ValueText(p) == "" then p.name + p.b1 + "=" else p.name + p.b1 + "=" + (p.b2 + ValueText(p))
  }

  lemma TrimmedText(p: Pair)
    requires Fine(p)
    ensures Trimmed(Text(p)) == Core(p)
  {
    ValueTextFine(p);
    NameFine(p);
    if ValueText(p) == "" {
      assert Text(p) == p.b0 + Core(p) + (p.b2 + p.b3);
      TrimOf(p.b0, Core(p), p.b2 + p.b3);
    } else {
      TrimOf(p.b0, Core(p), p.b3);
    }
  }

  /** A text split at its first equals sign. */
  lemma PickSplit(left: string, right: string, key: string)
    requires '=' !in left
    ensures Pick(left + ("=" + right), key) == if Trimmed(left) == key then Some(Unquoted(Trimmed(right))) else None
  {
    var part := left + ("=" + right);
    FindOf(left, '=', right);
    assert part[..|left|] == left && part[|left| + 1..] == right;
  }

  lemma TrimName(p: Pair)
    requires Fine(p)
    ensures Trimmed(p.name + p.b1) == p.name && '=' !in p.name + p.b1
  {
    NameFine(p);
    assert p.name + p.b1 == "" + p.name + p.b1;
    TrimOf("", p.name, p.b1);
  }

  lemma TrimValue(p: Pair)
    requires Fine(p)
    ensures Trimmed(if ValueText(p) == "" then "" else p.b2 + ValueText(p)) == ValueText(p)
  {
    ValueTextFine(p);
    if ValueText(p) == "" {
      TrimBlanks("");
    } else {
      assert p.b2 + ValueText(p) == p.b2 + ValueText(p) + "";
      TrimOf(p.b2, ValueText(p), "");
    }
  }

  lemma PickCore(p: Pair, key: string)
    requires Fine(p)
    ensures Pick(Core(p), key) == if p.name == key then Some(p.value) else None
  {
    var right := if ValueText(p) == "" then "" else p.b2 + ValueText(p);
    assert Core(p) == p.name + p.b1 + ("=" + right);
    TrimName(p);
    TrimValue(p);
    PickSplit(p.name + p.b1, right, key);
    ValueTextFine(p);
  }

  lemma NoSemicolon(p: Pair)
    requires Fine(p)
    ensures ';' !in Text(p) && Text(p) != ""
  {
    ValueTextFine(p);
    NameFine(p);
  }

  lemma LastPair(p: Pair, key: string)
    requires Fine(p)
    ensures Lookup(Text(p), key) == if p.name == key then p.value else ""
  {
    NoSemicolon(p);
    TrimmedText(p);
    PickCore(p, key);
    FindOf(Text(p), ';', "");
    assert Text(p)[..|Text(p)|] == Text(p);
  }

  lemma NextPair(p: Pair, rest: string, key: string)
    requires Fine(p)
    ensures Lookup(Text(p) + (";" + rest), key) == if p.name == key then p.value else Lookup(rest, key)
  {
    NoSemicolon(p);
    TrimmedText(p);
    PickCore(p, key);
    LookupStep(Text(p), rest, key);
  }

  /** A part up to its semicolon is looked at, and then the rest. */
  lemma LookupStep(part: string, rest: string, key: string)
    requires ';' !in part
    ensures Lookup(part + (";" + rest), key) ==
      match Pick(Trimmed(part), key) case Some(v) => v case None => Lookup(rest, key)
  {
    var s := part + (";" + rest);
    FindOf(part, ';', rest);
    LookupSplit(s, |part|, key);
    assert s[..|part|] == part && s[|part| + 1..] == rest;
  }

  lemma LookupSplit(s: string, n: nat, key: string)
    requires n < |s| && Find(s, ';') == n
    ensures Lookup(s, key) == match Pick(Trimmed(s[..n]), key) case Some(v) => v case None => Lookup(s[n + 1..], key)
  {
  }

  /** For every header made of cookie pairs, with blanks anywhere around names and values, the lookup gives the value of
      the first pair of that name, without its quotes, and the empty string if there is none. */
  lemma {:induction false} LooksUpFirst(ps: seq<Pair>, key: string)
    requires forall p :: p in ps ==> Fine(p)
    ensures Lookup(Header(ps), key) == First(ps, key)
    decreases ps
  {
    if |ps| == 1 {
      LastPair(ps[0], key);
      assert First(ps[1..], key) == "";
    } else if ps != [] {
      NextPair(ps[0], Header(ps[1..]), key);
      LooksUpFirst(ps[1..], key);
    }
  }

  // ---- the loops ---------------------------------------------------------------------------------------------

  method Trim(s: string) returns (t: string)
    ensures t == Trimmed(s)
  {
    t := s;
    while t != "" && Blank(t[0])
      invariant TrimFront(t) == TrimFront(s)
      decreases |t|
    {
      t := t[1..];
    }
    while t != "" && Blank(t[|t| - 1])
      invariant TrimBack(t) == TrimBack(TrimFront(s))
      decreases |t|
    {
      t := t[..|t| - 1];
    }
  }

  method FindFrom(s: string, c: char) returns (n: nat)
    ensures n == Find(s, c)
  {
    n := 0;
    while n < |s| && s[n] != c
      invariant n <= |s| && Find(s, c) == n + Find(s[n..], c)
    {
      assert s[n..][1..] == s[n + 1..];
      n := n + 1;
    }
  }

  /** extractCookie: the header field may be missing. */
  method ExtractCookie(header: Option<string>, key: string) returns (r: string)
    ensures r == if header.None? then "" else Lookup(header.value, key)
  {
    if header.None? { return ""; }
    var cookies := header.value;
    while cookies != ""
      invariant Lookup(cookies, key) == Lookup(header.value, key)
      decreases |cookies|
    {
      var semi := FindFrom(cookies, ';');
      var part := Trim(cookies[..semi]);
      cookies := if semi == |cookies| then "" else cookies[semi + 1..];
      if part != "" {
        var eq := FindFrom(part, '=');
        if eq < |part| {
          var name := Trim(part[..eq]);
          var value := Trim(part[eq + 1..]);
          if name == key {
            if |value| >= 2 && value[0] == '"' && value[|value| - 1] == '"' { value := value[1..|value| - 1]; }
            return value;
          }
        }
      }
    }
    r := "";
  }
}
