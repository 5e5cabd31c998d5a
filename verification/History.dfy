/** pkg/assistant/edit.go, summarizeGatedHistory: a long history is cut to its head and its tail without
    splitting a character. Texts are bytes; validity is that of section 4 of RFC 3629. */
module History {
  import opened Text

  newtype Byte = x: int | 0 <= x < 0x100

  // ----- UTF-8 -----

  /** utf8.RuneStart: not a continuation byte. */
  predicate RuneStart(b: Byte) {
    b < 0x80 || b >= 0xC0
  }

  predicate Tails(s: seq<Byte>, n: nat)
    requires n <= |s|
  {
    forall i :: 1 <= i < n ==> !RuneStart(s[i])
  }

  /** The length that a first byte announces; 0 if no character starts with it. */
  function Announced(b: Byte): nat {
    if b < 0x80 then 1 else if 0xC2 <= b <= 0xDF then 2 else if 0xE0 <= b <= 0xEF then 3
    else if 0xF0 <= b <= 0xF4 then 4 else 0
  }

  /** The second byte allowed after a first one: no overlong forms, no surrogates, nothing above U+10FFFF. */
  predicate SecondByte(first: Byte, second: Byte) {
    var low: Byte := if first == 0xE0 then 0xA0 else if first == 0xF0 then 0x90 else 0x80;
    var high: Byte := if first == 0xED then 0x9F else if first == 0xF4 then 0x8F else 0xBF;
    low <= second <= high
  }

  /** One character at the front of a text. */
  predicate StartsWithChar(s: seq<Byte>) {
    && s != [] && 1 <= Announced(s[0]) <= |s| && Tails(s, Announced(s[0]))
    && (Announced(s[0]) >= 2 ==> SecondByte(s[0], s[1]))
  }

  predicate ValidUTF8(s: seq<Byte>) {
    s == [] || (StartsWithChar(s) && ValidUTF8(s[Announced(s[0])..]))
  }

  /** A place between two characters, or the end. */
  predicate Boundary(s: seq<Byte>, i: nat) {
    i == |s| || (i < |s| && RuneStart(s[i]))
  }

  /** Whether a text starts with a character is seen from the bytes of that character. */
  lemma SameStart(s: seq<Byte>, t: seq<Byte>)
    requires StartsWithChar(s) && Announced(s[0]) <= |t| && s[..Announced(s[0])] == t[..Announced(s[0])]
    ensures StartsWithChar(t) && t[0] == s[0]
  {
    var n := Announced(s[0]);
    hide Announced, SecondByte;
    assert forall i :: 0 <= i < n ==> t[i] == t[..n][i] == s[..n][i] == s[i];
  }

  lemma AnnouncedFits(s: seq<Byte>)
    ensures StartsWithChar(s) ==> s != [] && 1 <= Announced(s[0]) <= |s|
  {
  }

  lemma UnfoldValid(s: seq<Byte>)
    ensures ValidUTF8(s) <==> s == [] || (StartsWithChar(s) && ValidUTF8(s[Announced(s[0])..]))
  {
  }

  lemma {:induction false} ConcatValid(a: seq<Byte>, b: seq<Byte>)
    requires ValidUTF8(a) && ValidUTF8(b)
    ensures ValidUTF8(a + b)
  {
    hide StartsWithChar, ValidUTF8;
    UnfoldValid(a);
    AnnouncedFits(a);
    if a == [] {
      assert a + b == b;
    } else {
      var n := Announced(a[0]);
      ConcatValid(a[n..], b);
      assert (a + b)[n..] == a[n..] + b && (a + b)[..n] == a[..n];
      SameStart(a, a + b);
      UnfoldValid(a + b);
    }
  }

  /** A valid text cut at a boundary gives two valid texts. */
  lemma {:induction false} CutValid(s: seq<Byte>, i: nat)
    requires ValidUTF8(s) && i <= |s| && Boundary(s, i)
    ensures ValidUTF8(s[..i]) && ValidUTF8(s[i..])
  {
    hide StartsWithChar, ValidUTF8, Announced;
    UnfoldValid(s);
    UnfoldValid([]);
    AnnouncedFits(s);
    if i == 0 {
      assert s[..0] == [] && s[0..] == s;
    } else {
      var n := Announced(s[0]);
      NotInsideChar(s, i);
      assert i < |s| ==> s[n..][i - n] == s[i];
      CutValid(s[n..], i - n);
      assert s[..i][n..] == s[n..][..i - n] && s[i..] == s[n..][i - n..] && s[..i][..n] == s[..n];
      SameStart(s, s[..i]);
      UnfoldValid(s[..i]);
    }
  }

  lemma NotInsideChar(s: seq<Byte>, i: nat)
    requires StartsWithChar(s) && 0 < i <= |s| && Boundary(s, i)
    ensures i >= Announced(s[0])
  {
  }

  /** Exactly the boundaries of a valid text leave a valid text in front of them. */
  lemma {:induction false} BoundaryIff(s: seq<Byte>, i: nat)
    requires ValidUTF8(s) && i <= |s|
    ensures Boundary(s, i) <==> ValidUTF8(s[..i])
  {
    if Boundary(s, i) {
      CutValid(s, i);
    } else if ValidUTF8(s[..i]) {
      BoundaryBack(s, i);
    }
  }

  lemma {:induction false} BoundaryBack(s: seq<Byte>, i: nat)
    requires ValidUTF8(s) && i <= |s| && ValidUTF8(s[..i])
    ensures Boundary(s, i)
  {
    hide ValidUTF8, Announced;
    UnfoldValid(s);
    AnnouncedFits(s);
    if i == 0 {
      FirstIsBoundary(s);
    } else {
      UnfoldValid(s[..i]);
      AnnouncedFits(s[..i]);
      var n := Announced(s[0]);
      assert s[..i][n..] == s[n..][..i - n];
      BoundaryBack(s[n..], i - n);
      assert i < |s| ==> s[n..][i - n] == s[i];
    }
  }

  // ----- Characters by their code points -----

  /** A code point that is no surrogate. */
  predicate Scalar(c: int) {
    0 <= c < 0xD800 || 0xE000 <= c <= 0x10FFFF
  }

  /** A byte that continues a character, and holds six bits of it. */
  function Six(bits: nat): Byte {
    (0x80 + bits % 64) as Byte
  }

  /** UTF-8 as in section 3 of RFC 3629. */
  function Encode(c: int): seq<Byte>
    requires Scalar(c)
  {
    if c <= 0x7F then [c as Byte]
    else if c <= 0x7FF then [(0xC0 + c / 64) as Byte, Six(c)]
    else if c <= 0xFFFF then [(0xE0 + c / 64 / 64) as Byte, Six(c / 64), Six(c)]
    else [(0xF0 + c / 64 / 64 / 64) as Byte, Six(c / 64 / 64), Six(c / 64), Six(c)]
  }

  function EncodeAll(cs: seq<int>): seq<Byte>
    requires forall c :: c in cs ==> Scalar(c)
  {
    if cs == [] then [] else Encode(cs[0]) + EncodeAll(cs[1..])
  }

  lemma EncodeStarts(c: int)
    requires Scalar(c)
    ensures StartsWithChar(Encode(c)) && Announced(Encode(c)[0]) == |Encode(c)|
  {
  }

  lemma SixMore(high: nat, low: nat)
    requires low < 64
    ensures (64 * high + low) / 64 == high && (64 * high + low) % 64 == low
  {
  }

  /** The character at the front of a text encodes a code point. */
  lemma CharDecodes(s: seq<Byte>) returns (c: int)
    requires StartsWithChar(s)
    ensures Scalar(c) && Encode(c) == s[..Announced(s[0])]
  {
    var n := Announced(s[0]);
    if n == 1 {
      c := s[0] as int;
    } else if n == 2 {
      c := TwoDecode(s[0] as int, s[1] as int);
    } else if n == 3 {
      c := ThreeDecode(s[0] as int, s[1] as int, s[2] as int);
    } else {
      c := FourDecode(s[0] as int, s[1] as int, s[2] as int, s[3] as int);
    }
  }

  lemma TwoDecode(a: int, b: int) returns (c: int)
    requires 0xC2 <= a <= 0xDF && 0x80 <= b <= 0xBF
    ensures Scalar(c) && Encode(c) == [a as Byte, b as Byte]
  {
    c := 64 * (a - 0xC0) + (b - 0x80);
    SixMore(a - 0xC0, b - 0x80);
  }

  lemma ThreeDecode(a: int, b: int, d: int) returns (c: int)
    requires 0xE0 <= a <= 0xEF && 0x80 <= b <= 0xBF && 0x80 <= d <= 0xBF
    requires SecondByte(a as Byte, b as Byte)
    ensures Scalar(c) && Encode(c) == [a as Byte, b as Byte, d as Byte]
  {
    var high := 64 * (a - 0xE0) + (b - 0x80);
    c := 64 * high + (d - 0x80);
    SixMore(a - 0xE0, b - 0x80);
    SixMore(high, d - 0x80);
  }

  lemma FourDecode(a: int, b: int, d: int, e: int) returns (c: int)
    requires 0xF0 <= a <= 0xF4 && 0x80 <= b <= 0xBF && 0x80 <= d <= 0xBF && 0x80 <= e <= 0xBF
    requires SecondByte(a as Byte, b as Byte)
    ensures Scalar(c) && Encode(c) == [a as Byte, b as Byte, d as Byte, e as Byte]
  {
    var top := 64 * (a - 0xF0) + (b - 0x80);
    var high := 64 * top + (d - 0x80);
    c := 64 * high + (e - 0x80);
    SixMore(a - 0xF0, b - 0x80);
    SixMore(top, d - 0x80);
    SixMore(high, e - 0x80);
  }

  lemma {:induction false} ValidDecodes(s: seq<Byte>) returns (cs: seq<int>)
    requires ValidUTF8(s)
    ensures (forall c :: c in cs ==> Scalar(c)) && EncodeAll(cs) == s
  {
    hide Encode, Scalar, StartsWithChar, ValidUTF8, Announced;
    UnfoldValid(s);
    AnnouncedFits(s);
    if s == [] {
      cs := [];
    } else {
      var c := CharDecodes(s);
      var rest := ValidDecodes(s[Announced(s[0])..]);
      cs := [c] + rest;
      assert cs[1..] == rest;
    }
  }

  lemma {:induction false} EncodedValid(cs: seq<int>)
    requires forall c :: c in cs ==> Scalar(c)
    ensures ValidUTF8(EncodeAll(cs))
  {
    if cs != [] {
      var first := Encode(cs[0]);
      EncodeStarts(cs[0]);
      hide Encode, Scalar, StartsWithChar, ValidUTF8, Announced;
      UnfoldValid([]);
      UnfoldValid(first);
      assert first[|first|..] == [];
      EncodedValid(cs[1..]);
      ConcatValid(first, EncodeAll(cs[1..]));
    }
  }

  /** A text is valid exactly if it is the encoding of some code points, one after the other. */
  lemma ValidIffEncoded(s: seq<Byte>)
    ensures ValidUTF8(s) <==> exists cs: seq<int> :: (forall c :: c in cs ==> Scalar(c)) && EncodeAll(cs) == s
  {
    hide ValidUTF8, Scalar, EncodeAll;
    if ValidUTF8(s) {
      var cs := ValidDecodes(s);
    } else if cs: seq<int> :| (forall c :: c in cs ==> Scalar(c)) && EncodeAll(cs) == s {
      EncodedValid(cs);
    }
  }

  /** In a valid text a boundary is at most three bytes back, and at most three bytes on. */
  lemma {:induction false} BoundaryNear(s: seq<Byte>, i: nat) returns (back: nat, on: nat)
    requires ValidUTF8(s) && i <= |s|
    ensures back <= i <= on <= |s| && i - back <= 3 && on - i <= 3 && Boundary(s, back) && Boundary(s, on)
  {
    if i == |s| {
      return i, i;
    }
    var n := Announced(s[0]);
    if i < n {
      back := 0;
      on := if i == 0 then 0 else n;
      if n < |s| {
        assert StartsWithChar(s[n..]) && s[n..][0] == s[n];
      }
    } else {
      var b, o := BoundaryNear(s[n..], i - n);
      back, on := b + n, o + n;
      assert back < |s| ==> s[n..][b] == s[back];
      assert on < |s| ==> s[n..][o] == s[on];
    }
  }

  function Bytes(s: string): (r: seq<Byte>)
    requires forall i :: 0 <= i < |s| ==> s[i] as int < 0x80
    ensures |r| == |s| && forall i :: 0 <= i < |r| ==> r[i] as int == s[i] as int < 0x80
  {
    seq(|s|, i requires 0 <= i < |s| => s[i] as int as Byte)
  }

  lemma {:induction false} AsciiValid(s: seq<Byte>)
    requires forall i :: 0 <= i < |s| ==> s[i] < 0x80
    ensures ValidUTF8(s)
  {
    if s != [] {
      AsciiValid(s[1..]);
    }
  }

  // ----- Summaries -----

  const THRESHOLD := 24000
  const HEAD_BYTES := 2000
  const TAIL_BYTES := 12000

  function Marker(dropped: nat): seq<Byte> {
    Bytes("\n...[summarized: ") + Bytes(Itoa(dropped)) + Bytes(" earlier bytes compressed]...\n")
  }

  /** A summary keeps `head` bytes of the front and everything from `tail` on. */
  function Summary(history: seq<Byte>, head: nat, tail: nat): seq<Byte>
    requires head <= tail <= |history|
  {
    history[..head] + Marker(tail - head) + history[tail..]
  }

  /** The cuts of a summary: the last boundary in the first bytes, and the first one that leaves no more
      than the tail, both found without leaving a boundary out. */
  predicate Cuts(history: seq<Byte>, keep: nat, head: nat, tail: nat) {
    && keep < |history| && head <= HEAD_BYTES < |history| && head <= tail <= |history|
    && (head == 0 || Boundary(history, head))
    && (forall i :: head < i <= HEAD_BYTES ==> !Boundary(history, i))
    && var from := if |history| - keep < head then head else |history| - keep;
       from <= tail && Boundary(history, tail) && (forall i :: from <= i < tail ==> !Boundary(history, i))
  }

  lemma MarkerText(dropped: nat)
    ensures Marker(dropped) == Bytes("\n...[summarized: " + Itoa(dropped) + " earlier bytes compressed]...\n")
  {
  }

  /** Histories within the threshold, or no longer than the tail to keep, are unchanged; a longer one is a
      summary of its head and tail, unless nothing would be dropped. */
  method SummarizeGatedHistory(history: seq<Byte>, keepTailBytes: int)
    returns (r: seq<Byte>, head: nat, tail: nat)
    ensures var keep := if keepTailBytes <= 0 then 12000 else keepTailBytes;
      if |history| <= 24000 || keep >= |history| then r == history
      else
        && Cuts(history, keep, head, tail)
        && r == if head == tail then history else Summary(history, head, tail)
  {
    hide Marker;
    if |history| <= THRESHOLD {
      return history, 0, 0;
    }
    var keep := keepTailBytes;
    if keep <= 0 {
      keep := TAIL_BYTES;
    }
    if keep > |history| {
      keep := |history|;
    }
    if keep >= |history| {
      return history, 0, 0;
    }
    head := HEAD_BYTES;
    while head > 0 && !RuneStart(history[head])
      invariant head <= HEAD_BYTES && forall i :: head < i <= HEAD_BYTES ==> !Boundary(history, i)
    {
      head := head - 1;
    }
    tail := |history| - keep;
    if tail < head {
      tail := head;
    }
    ghost var from := tail;
    while tail < |history| && !RuneStart(history[tail])
      invariant from <= tail <= |history| && forall i :: from <= i < tail ==> !Boundary(history, i)
    {
      tail := tail + 1;
    }
    var dropped := |history| - head - (|history| - tail);
    if dropped <= 0 {
      return history, head, tail;
    }
    r := history[..head] + Marker(dropped) + history[tail..];
  }

  /** A summary of valid UTF-8 is a valid head, marker and tail, accounts for every byte, and is bounded. */
  lemma SummaryValid(history: seq<Byte>, keep: nat, head: nat, tail: nat)
    requires ValidUTF8(history) && Cuts(history, keep, head, tail)
    ensures ValidUTF8(history[..head]) && ValidUTF8(Marker(tail - head)) && ValidUTF8(history[tail..])
    ensures ValidUTF8(Summary(history, head, tail))
    ensures head + (tail - head) + |history[tail..]| == |history|
    ensures |Summary(history, head, tail)| <= 2000 + keep + |Marker(tail - head)|
  {
    hide ValidUTF8;
    var marker := Marker(tail - head);
    assert Boundary(history, head) by {
      if head == 0 {
        FirstIsBoundary(history);
      }
    }
    CutValid(history, head);
    CutValid(history, tail);
    AsciiValid(marker);
    ConcatValid(history[..head], marker);
    ConcatValid(history[..head] + marker, history[tail..]);
  }

  lemma FirstIsBoundary(s: seq<Byte>)
    requires ValidUTF8(s)
    ensures Boundary(s, 0)
  {
  }

  /** Of valid UTF-8 the cuts drop at most three bytes more than asked at either end. */
  lemma CutsClose(history: seq<Byte>, keep: nat, head: nat, tail: nat)
    requires ValidUTF8(history) && Cuts(history, keep, head, tail)
    ensures 2000 - 3 <= head <= 2000
    ensures head < tail ==> |history[tail..]| >= keep - 3
  {
    hide ValidUTF8;
    FirstIsBoundary(history);
    var back, on := BoundaryNear(history, HEAD_BYTES);
    var from: nat := if |history| - keep < head then head else |history| - keep;
    var b, o := BoundaryNear(history, from);
  }
}
