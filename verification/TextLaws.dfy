/** What the string operations of `Text` mean, said of the characters alone. */
module TextLaws {
  import opened Text

  // ----- Searching -----

  /** `sub` stands in `s` at position `i`. */
  predicate StandsAt(s: string, sub: string, i: nat) {
    i + |sub| <= |s| && s[i..i + |sub|] == sub
  }

  lemma StandsFirst(s: string, sub: string)
    ensures HasPrefix(s, sub) <==> StandsAt(s, sub, 0)
  {
    if StandsAt(s, sub, 0) {
      assert s[..|sub|] == sub;
    }
  }

  lemma StandsLater(s: string, sub: string, i: nat)
    requires s != "" && i > 0
    ensures StandsAt(s, sub, i) <==> StandsAt(s[1..], sub, i - 1)
  {
    if i + |sub| <= |s| {
      assert s[1..][i - 1..i - 1 + |sub|] == s[i..i + |sub|];
    }
  }

  lemma IndexUnfolds(s: string, sub: string)
    ensures Index(s, sub) ==
      if StandsAt(s, sub, 0) then Some(0)
      else if s == "" then None
      else if Index(s[1..], sub).Some? then Some(Index(s[1..], sub).value + 1) else None
  {
    StandsFirst(s, sub);
  }

  lemma {:induction false} IndexIsFirst(s: string, sub: string)
    ensures var r := Index(s, sub);
      && (r.Some? ==> StandsAt(s, sub, r.value) && forall j: nat :: j < r.value ==> !StandsAt(s, sub, j))
      && (r.None? ==> forall j: nat :: !StandsAt(s, sub, j))
    decreases |s|
  {
    IndexUnfolds(s, sub);
    hide Index;
    if s != "" && !StandsAt(s, sub, 0) {
      IndexIsFirst(s[1..], sub);
      forall j: nat | j > 0
        ensures StandsAt(s, sub, j) <==> StandsAt(s[1..], sub, j - 1)
      {
        StandsLater(s, sub, j);
      }
      hide StandsAt;
    }
  }

  lemma IndexWhere(s: string, sub: string, i: nat)
    requires StandsAt(s, sub, i) && forall j: nat :: j < i ==> !StandsAt(s, sub, j)
    ensures Index(s, sub) == Some(i)
  {
    IndexIsFirst(s, sub);
    hide Index, StandsAt;
  }

  /** `sub` stands somewhere in `s`. */
  ghost predicate Carries(s: string, sub: string) {
    exists i: nat :: StandsAt(s, sub, i)
  }

  lemma ContainsIff(s: string, sub: string)
    ensures Contains(s, sub) <==> Carries(s, sub)
  {
    IndexIsFirst(s, sub);
  }

  // ----- Letters -----

  /** The same character, or the two cases of one letter of the alphabet. */
  predicate SameLetter(a: char, b: char) {
    || a == b
    || ('A' <= a <= 'Z' && b as int == a as int + 32)
    || ('A' <= b <= 'Z' && a as int == b as int + 32)
  }

  predicate SameLetters(a: string, b: string) {
    |a| == |b| && forall i :: 0 <= i < |a| ==> SameLetter(a[i], b[i])
  }

  lemma FoldsIff(a: string, b: string)
    ensures EqualFold(a, b) <==> SameLetters(a, b)
  {
    if EqualFold(a, b) {
      forall i | 0 <= i < |a|
        ensures SameLetter(a[i], b[i])
      {
        assert ToLower(a)[i] == ToLower(b)[i];
      }
    } else if |a| == |b| {
      var i :| 0 <= i < |a| && ToLower(a)[i] != ToLower(b)[i];
    }
  }

  lemma LowerIs(s: string)
    ensures SameLetters(ToLower(s), s) && forall i :: 0 <= i < |s| ==> !('A' <= ToLower(s)[i] <= 'Z')
  {
  }

  lemma UpperIs(s: string)
    ensures SameLetters(ToUpper(s), s) && forall i :: 0 <= i < |s| ==> !('a' <= ToUpper(s)[i] <= 'z')
  {
  }

  // ----- White space -----

  /** The space, and the five control characters from tab to carriage return. */
  lemma SpaceIs(c: char)
    ensures IsSpace(c) <==> c as int == 32 || 9 <= c as int <= 13
  {
  }

  predicate Bare(s: string) {
    s == "" || (!IsSpace(s[0]) && !IsSpace(s[|s| - 1]))
  }

  lemma {:induction false} TrimLeftBlank(a: string, t: string)
    requires Blank(a) && (t == "" || !IsSpace(t[0]))
    ensures TrimLeft(a + t) == t
  {
    if a == "" {
      assert a + t == t;
    } else {
      assert IsSpace(a[0]) && (a + t)[0] == a[0] && (a + t)[1..] == a[1..] + t;
      TrimLeftBlank(a[1..], t);
    }
  }

  lemma {:induction false} TrimRightBlank(t: string, b: string)
    requires Blank(b) && (t == "" || !IsSpace(t[|t| - 1]))
    ensures TrimRight(t + b) == t
  {
    if b == "" {
      assert t + b == t;
    } else {
      var front := b[..|b| - 1];
      assert IsSpace(b[|b| - 1]) && (t + b)[|t + b| - 1] == b[|b| - 1] && (t + b)[..|t + b| - 1] == t + front;
      TrimRightBlank(t, front);
    }
  }

  /** Trimming removes the white space around a text that neither starts nor ends with any, and nothing else. */
  lemma TrimSpaceIs(a: string, t: string, b: string)
    requires Blank(a) && Blank(b) && Bare(t)
    ensures TrimSpace(a + t + b) == t
  {
    if t == "" {
      assert Blank(a + b) && a + t + b == (a + b) + "";
      TrimLeftBlank(a + b, "");
    } else {
      assert a + t + b == a + (t + b) && (t + b)[0] == t[0];
      TrimLeftBlank(a, t + b);
      TrimRightBlank(t, b);
    }
  }

  // ----- Numbers -----

  function Power10(k: nat): (r: nat)
    ensures r > 0
  {
    if k == 0 then 1 else 10 * Power10(k - 1)
  }

  predicate AllDigits(s: string) {
    forall i :: 0 <= i < |s| ==> '0' <= s[i] <= '9'
  }

  /** The number a text of decimal digits stands for: each digit counts by its place from the right. */
  function ValueOf(s: string): int
    requires AllDigits(s)
  {
    if s == "" then 0 else (s[0] as int - '0' as int) * Power10(|s| - 1) + ValueOf(s[1..])
  }

  lemma PlaceUp(d: nat, p: nat)
    ensures d * (10 * p) == 10 * (d * p)
  {
  }

  lemma {:induction false} ValueSnoc(s: string, c: char)
    requires AllDigits(s) && '0' <= c <= '9'
    ensures AllDigits(s + [c]) && ValueOf(s + [c]) == 10 * ValueOf(s) + (c as int - '0' as int)
  {
    var t := s + [c];
    assert forall i :: 0 <= i < |t| ==> t[i] == if i < |s| then s[i] else c;
    if s == "" {
      assert t[1..] == "" && Power10(0) == 1;
    } else {
      var d := s[0] as int - '0' as int;
      assert t[1..] == s[1..] + [c];
      ValueSnoc(s[1..], c);
      var p := Power10(|s| - 1);
      assert Power10(|t| - 1) == 10 * p;
      PlaceUp(d, p);
      assert ValueOf(t) == d * (10 * p) + ValueOf(t[1..]);
      assert ValueOf(s) == d * p + ValueOf(s[1..]);
    }
  }

  lemma {:induction false} DigitsAre(s: string)
    ensures Digits(s).Some? <==> AllDigits(s)
    ensures AllDigits(s) ==> Digits(s) == Some(ValueOf(s))
  {
    if s != "" {
      var front, c := s[..|s| - 1], s[|s| - 1];
      DigitsAre(front);
      assert s == front + [c];
      assert AllDigits(s) <==> AllDigits(front) && '0' <= c <= '9';
      if AllDigits(s) {
        ValueSnoc(front, c);
      }
    }
  }

  /** The decimal text of a number: digits that stand for it, with no zero in front. */
  lemma {:induction false} ItoaIs(n: nat)
    ensures AllDigits(Itoa(n)) && ValueOf(Itoa(n)) == n
    ensures Itoa(n)[0] == '0' <==> n == 0
    ensures n == 0 ==> Itoa(n) == "0"
  {
    var c := ('0' as int + n % 10) as char;
    if n < 10 {
      assert Itoa(n) == "" + [c];
      ValueSnoc("", c);
    } else {
      ItoaIs(n / 10);
      ValueSnoc(Itoa(n / 10), c);
      assert Itoa(n) == Itoa(n / 10) + [c] && Itoa(n)[0] == Itoa(n / 10)[0];
    }
  }

  /** Numbers have texts of their own, whatever stands in front of them and the character that sets them off. */
  lemma ItoaApart(a: string, m: nat, b: string, n: nat, mark: char)
    requires !('0' <= mark <= '9') && a + [mark] + Itoa(m) == b + [mark] + Itoa(n)
    ensures m == n
  {
    var x, y := Itoa(m), Itoa(n);
    var s := a + [mark] + x;
    ItoaIs(m);
    ItoaIs(n);
    hide Itoa, ValueOf;
    assert s[|a|] == mark && s[|b|] == mark;
    assert forall i :: |a| < i < |s| ==> s[i] == x[i - |a| - 1];
    assert forall i :: |b| < i < |s| ==> s[i] == y[i - |b| - 1];
    assert |a| == |b|;
    assert x == s[|a| + 1..] == y;
  }

  const MAX_INT64 := 0x7FFF_FFFF_FFFF_FFFF

  /** Reading undoes writing, as far as 64 bits go. */
  lemma AtoiItoa(n: nat)
    ensures Atoi(Itoa(n)) == if n <= MAX_INT64 then Some(n) else None
    ensures Atoi("+" + Itoa(n)) == if n <= MAX_INT64 then Some(n) else None
    ensures Atoi("-" + Itoa(n)) == if n <= MAX_INT64 + 1 then Some(-(n as int)) else None
  {
    var s := Itoa(n);
    ItoaIs(n);
    DigitsAre(s);
    hide Itoa, Digits;
    assert ("+" + s)[1..] == s && ("-" + s)[1..] == s;
    assert s[0] != '-' && s[0] != '+';
    assert ("+" + s)[0] == '+' && ("-" + s)[0] == '-';
    assert !HasPrefix(s, "-") && !HasPrefix(s, "+") && !HasPrefix("+" + s, "-");
  }

  /** Whatever is read as a number is an optional sign and at least one digit. */
  lemma AtoiReadsDigits(s: string)
    ensures Atoi(s).Some? ==>
      var body := if s != "" && (s[0] == '-' || s[0] == '+') then s[1..] else s;
      && body != "" && AllDigits(body)
      && Atoi(s).value == if s[0] == '-' then -ValueOf(body) else ValueOf(body)
  {
    var body := if s != "" && (s[0] == '-' || s[0] == '+') then s[1..] else s;
    DigitsAre(body);
    hide Digits;
    assert s != "" ==> (HasPrefix(s, "-") <==> s[0] == '-') && (HasPrefix(s, "+") <==> s[0] == '+');
  }
}
