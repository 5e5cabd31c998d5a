/** The string operations the diff and changelog code relies on. One `char` stands for one byte,
    and white space is the ASCII set. */
module Text {

  datatype Option<+T> = None | Some(value: T)

  type Line = l: string | '\n' !in l

  predicate HasPrefix(s: string, p: string) {
    p <= s
  }

  function TrimPrefix(s: string, p: string): string {
    if HasPrefix(s, p) then s[|p|..] else s
  }

  function TrimSuffix(s: string, p: string): string {
    if |p| <= |s| && s[|s| - |p|..] == p then s[..|s| - |p|] else s
  }

  /** Position of the first occurrence of `sub`. */
  function Index(s: string, sub: string): (r: Option<nat>)
    ensures r.Some? ==> r.value + |sub| <= |s| && s[r.value..r.value + |sub|] == sub
    decreases |s|
  {
    if HasPrefix(s, sub) then Some(0)
    else if s == "" then None
    else
      match Index(s[1..], sub)
      case Some(i) => Some(i + 1)
      case None => None
  }

  predicate Contains(s: string, sub: string) {
    Index(s, sub).Some?
  }

  lemma {:induction false} ContainsInfix(a: string, sub: string, b: string)
    ensures Contains(a + sub + b, sub)
  {
    var s := a + sub + b;
    if a == "" {
      assert s[..|sub|] == sub;
    } else if !HasPrefix(s, sub) {
      assert s[1..] == a[1..] + sub + b;
      ContainsInfix(a[1..], sub, b);
    }
  }

  /** The part before the first comma, and the part after it if there is one. */
  function Cut(s: string): (string, Option<string>) {
    match Index(s, ",")
    case Some(i) => (s[..i], Some(s[i + 1..]))
    case None => (s, None)
  }

  predicate IsSpace(c: char) {
    c == ' ' || c == '\t' || c == '\n' || c == '\r' || c == 11 as char || c == 12 as char
  }

  predicate Blank(s: string) {
    forall i :: 0 <= i < |s| ==> IsSpace(s[i])
  }

  /** A non-empty run of non-space characters. */
  predicate Token(s: string) {
    s != "" && forall i :: 0 <= i < |s| ==> !IsSpace(s[i])
  }

  function TrimLeft(s: string): (r: string)
    ensures |r| <= |s| && (r == "" || !IsSpace(r[0]))
  {
    if s != "" && IsSpace(s[0]) then TrimLeft(s[1..]) else s
  }

  function TrimRight(s: string): string {
    if s != "" && IsSpace(s[|s| - 1]) then TrimRight(s[..|s| - 1]) else s
  }

  /** What is trimmed on the left is blank, and what is left starts with no space. */
  lemma {:induction false} TrimLeftIs(s: string)
    ensures var r := TrimLeft(s);
      && (r == "" || !IsSpace(r[0]))
      && |r| <= |s| && r == s[|s| - |r|..] && Blank(s[..|s| - |r|])
  {
    if s != "" && IsSpace(s[0]) {
      var r := TrimLeft(s[1..]);
      TrimLeftIs(s[1..]);
      assert s[..|s| - |r|] == [s[0]] + s[1..][..|s| - 1 - |r|];
    }
  }

  lemma {:induction false} TrimRightIs(s: string)
    ensures var r := TrimRight(s); (r == "" || !IsSpace(r[|r| - 1])) && r <= s && Blank(s[|r|..])
  {
    if s != "" && IsSpace(s[|s| - 1]) {
      TrimRightIs(s[..|s| - 1]);
    }
  }

  function TrimSpace(s: string): string {
    TrimRight(TrimLeft(s))
  }

  lemma TrimmedEnds(s: string)
    ensures var t := TrimSpace(s); t == "" || (!IsSpace(t[0]) && !IsSpace(t[|t| - 1]))
  {
    TrimRightIs(TrimLeft(s));
  }

  /** Length of the leading run of non-space characters. */
  function TokenLength(s: string): (n: nat)
    ensures n <= |s|
    ensures n < |s| ==> IsSpace(s[n])
    ensures forall i :: 0 <= i < n ==> !IsSpace(s[i])
  {
    if s == "" || IsSpace(s[0]) then 0 else 1 + TokenLength(s[1..])
  }

  function Fields(s: string): seq<string>
    decreases |s|
  {
    var t := TrimLeft(s);
    if t == "" then [] else
    var n := TokenLength(t);
    [t[..n]] + Fields(t[n..])
  }

  lemma FieldsOfToken(t: string, rest: string)
    requires Token(t) && (rest == "" || IsSpace(rest[0]))
    ensures Fields(t + rest) == [t] + Fields(rest)
  {
    var s := t + rest;
    assert TrimLeft(s) == s;
    var n := TokenLength(s);
    assert forall i :: 0 <= i < |t| ==> s[i] == t[i];
    assert rest != "" ==> s[|t|] == rest[0];
    assert n == |t|;
    assert s[..n] == t && s[n..] == rest;
  }

  lemma FieldsSkipsSpace(c: char, s: string)
    requires IsSpace(c)
    ensures Fields([c] + s) == Fields(s)
  {
    assert ([c] + s)[1..] == s;
    assert TrimLeft([c] + s) == TrimLeft(s);
  }

  lemma FieldsOfSpacedToken(t: string, u: string, rest: string)
    requires Token(t) && Token(u) && (rest == "" || IsSpace(rest[0]))
    ensures Fields(t + (" " + (u + rest))) == [t] + ([u] + Fields(rest))
  {
    hide Fields;
    FieldsOfToken(u, rest);
    FieldsSkipsSpace(' ', u + rest);
    FieldsOfToken(t, " " + (u + rest));
  }

  function Lower(c: char): char {
    if 'A' <= c <= 'Z' then (c as int + 32) as char else c
  }

  function ToLower(s: string): (r: string)
    ensures |r| == |s|
  {
    seq(|s|, i requires 0 <= i < |s| => Lower(s[i]))
  }

  function Upper(c: char): char {
    if 'a' <= c <= 'z' then (c as int - 32) as char else c
  }

  function ToUpper(s: string): (r: string)
    ensures |r| == |s|
  {
    seq(|s|, i requires 0 <= i < |s| => Upper(s[i]))
  }

  /** A full commit id: 40 or 64 lower-case hexadecimal digits. */
  predicate ValidOID(sha: string) {
    (|sha| == 40 || |sha| == 64) && forall i :: 0 <= i < |sha| ==> '0' <= sha[i] <= '9' || 'a' <= sha[i] <= 'f'
  }

  predicate EqualFold(a: string, b: string) {
    ToLower(a) == ToLower(b)
  }

  function Digit(c: char): Option<nat> {
    if '0' <= c <= '9' then Some(c as int - '0' as int) else None
  }

  function Digits(s: string): Option<nat> {
    if s == "" then Some(0) else
    match (Digits(s[..|s| - 1]), Digit(s[|s| - 1]))
    case (Some(n), Some(d)) => Some(10 * n + d)
    case _ => None
  }

  /** A signed decimal that fits in 64 bits. */
  function Atoi(s: string): Option<int> {
    var negative := HasPrefix(s, "-");
    var body := if negative || HasPrefix(s, "+") then s[1..] else s;
    match Digits(body)
    case None => None
    case Some(n) =>
      var v := if negative then 0 - n else n;
      if body != "" && -0x8000_0000_0000_0000 <= v < 0x8000_0000_0000_0000 then Some(v) else None
  }

  function Itoa(n: nat): (s: string)
    ensures s != "" && forall i :: 0 <= i < |s| ==> '0' <= s[i] <= '9'
  {
    var d := [('0' as int + n % 10) as char];
    if n < 10 then d else Itoa(n / 10) + d
  }

  /** The lines of a text; a text that ends in a newline has an empty last line. */
  function Split(s: string): (lines: seq<Line>)
    ensures lines != []
    ensures Join(lines) == s
  {
    if s == "" then [""]
    else
      var rest := Split(s[1..]);
      if s[0] == '\n' then
        assert ([""] + rest)[1..] == rest;
        [""] + rest
      else
        JoinPushChar(s[0], rest);
        [[s[0]] + rest[0]] + rest[1..]
  }

  function Join(lines: seq<string>): string {
    if lines == [] then ""
    else if |lines| == 1 then lines[0]
    else lines[0] + "\n" + Join(lines[1..])
  }

  /** The lines, each ended by a newline. */
  function Terminated(lines: seq<string>): string {
    if lines == [] then "" else lines[0] + "\n" + Terminated(lines[1..])
  }

  lemma JoinPushChar(c: char, lines: seq<string>)
    requires lines != []
    ensures Join([[c] + lines[0]] + lines[1..]) == [c] + Join(lines)
  {
    var pushed := [[c] + lines[0]] + lines[1..];
    assert pushed[1..] == lines[1..];
    if |lines| > 1 {
      assert [c] + lines[0] + "\n" + Join(lines[1..]) == [c] + (lines[0] + "\n" + Join(lines[1..]));
    }
  }

  lemma SplitLine(l: Line)
    ensures Split(l) == [l]
  {
    if l != "" {
      SplitLine(l[1..]);
    }
  }

  /** The first line takes the characters before the first newline. */
  lemma SplitFirst(s: string)
    requires s != ""
    ensures var rest := Split(s[1..]);
      Split(s) == if s[0] == '\n' then [""] + rest else [[s[0]] + rest[0]] + rest[1..]
  {
    hide Join;
  }

  lemma {:induction false} SplitConcat(l: Line, s: string)
    ensures Split(l + "\n" + s) == [l] + Split(s)
  {
    var text := l + "\n" + s;
    SplitFirst(text);
    hide Split, Join;
    if l == "" {
      assert text[0] == '\n' && text[1..] == s;
    } else {
      var c, rest := l[0], l[1..];
      SplitConcat(rest, s);
      assert text[0] == c && text[1..] == rest + "\n" + s;
      var tail := Split(text[1..]);
      assert tail[0] == rest && tail[1..] == Split(s) && [c] + rest == l;
    }
  }

  /** Splitting undoes joining. */
  lemma {:induction false} SplitJoin(lines: seq<Line>)
    requires lines != []
    ensures Split(Join(lines)) == lines
  {
    if |lines| == 1 {
      SplitLine(lines[0]);
    } else {
      SplitConcat(lines[0], Join(lines[1..]));
      SplitJoin(lines[1..]);
    }
  }
}
