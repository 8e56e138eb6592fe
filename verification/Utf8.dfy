/** The UTF-8 functions of libvdr-tools.c, without a system character table. */
module Utf8 {

  /** A C string with its terminator: exactly the last byte is zero. */
  ghost predicate Terminated(s: seq<bv8>) {
    && |s| > 0 && s[|s| - 1] == 0
    && forall i :: 0 <= i < |s| - 1 ==> s[i] != 0
  }

  predicate MaskTest(b: bv8, mask: bv8, value: bv8) {
    b & mask == value
  }

  /** Utf8CharLen: the number of bytes of the symbol at position p; an ill-formed byte counts as one symbol. */
  function CharLen(s: seq<bv8>, p: nat): (n: nat)
    requires Terminated(s) && p < |s|
    ensures 1 <= n <= 4
    ensures s[p] != 0 ==> p + n < |s|
  {
    if MaskTest(s[p], 0xE0, 0xC0) && MaskTest(s[p + 1], 0xC0, 0x80) then 2
    else if MaskTest(s[p], 0xF0, 0xE0) && MaskTest(s[p + 1], 0xC0, 0x80) && MaskTest(s[p + 2], 0xC0, 0x80) then 3
    else if MaskTest(s[p], 0xF8, 0xF0) && MaskTest(s[p + 1], 0xC0, 0x80) && MaskTest(s[p + 2], 0xC0, 0x80)
            && MaskTest(s[p + 3], 0xC0, 0x80) then 4
    else 1
  }

  function Join2(a: bv8, b: bv8): bv32 {
    ((a as bv32 & 0x1F) << 6) | (b as bv32 & 0x3F)
  }

  function Join3(a: bv8, b: bv8, d: bv8): bv32 {
    ((a as bv32 & 0x0F) << 12) | ((b as bv32 & 0x3F) << 6) | (d as bv32 & 0x3F)
  }

  function Join4(a: bv8, b: bv8, d: bv8, e: bv8): bv32 {
    ((a as bv32 & 0x07) << 18) | ((b as bv32 & 0x3F) << 12) | ((d as bv32 & 0x3F) << 6) | (e as bv32 & 0x3F)
  }

  /** A single byte is sign-extended, as `char` is. */
  function SignExtend(a: bv8): bv32 {
    if a < 0x80 then a as bv32 else 0xFFFFFF00 | (a as bv32)
  }

  /** Utf8CharGet at position p, with the length already known. */
  function CharGet(s: seq<bv8>, p: nat, length: nat): bv32
    requires 1 <= length <= 4 && p + length <= |s|
  {
    match length
    case 2 => Join2(s[p], s[p + 1])
    case 3 => Join3(s[p], s[p + 1], s[p + 2])
    case 4 => Join4(s[p], s[p + 1], s[p + 2], s[p + 3])
    case _ => SignExtend(s[p])
  }

  function Lead2(c: bv32): bv8 { ((c & 0x1F) | 0xC0) as bv8 }
  function Lead3(c: bv32): bv8 { ((c & 0x0F) | 0xE0) as bv8 }
  function Lead4(c: bv32): bv8 { ((c & 0x07) | 0xF0) as bv8 }
  function Continuation(c: bv32): bv8 { ((c & 0x3F) | 0x80) as bv8 }

  /** The bytes Utf8CharSet writes; none for a number that is no code point. */
  function CharSet(c: bv32): (e: seq<bv8>)
    ensures |e| <= 4
  {
    if c < 0x80 then [c as bv8]
    else if c < 0x800 then [Lead2(c >> 6), Continuation(c)]
    else if c < 0x10000 then [Lead3(c >> 12), Continuation(c >> 6), Continuation(c)]
    else if c < 0x110000 then [Lead4(c >> 18), Continuation(c >> 12), Continuation(c >> 6), Continuation(c)]
    else []
  }

  /** What Utf8CharSet returns: the number of those bytes. */
  function CharBytes(c: bv32): (n: nat)
    ensures n == |CharSet(c)|
  {
    if c < 0x80 then 1 else if c < 0x800 then 2 else if c < 0x10000 then 3 else if c < 0x110000 then 4 else 0
  }

  predicate CodePoint(c: bv32) {
    0 < c < 0x110000
  }

  predicate IsContinuation(b: bv8) {
    MaskTest(b, 0xC0, 0x80)
  }

  /** The lead byte and the continuation bytes of an encoded code point (section 3 of RFC 3629). */
  lemma CharSetShape(c: bv32)
    requires CodePoint(c)
    ensures var e := CharSet(c);
            && |e| == (if c < 0x80 then 1 else if c < 0x800 then 2 else if c < 0x10000 then 3 else 4)
            && (|e| == 1 ==> MaskTest(e[0], 0x80, 0x00))
            && (|e| == 2 ==> MaskTest(e[0], 0xE0, 0xC0))
            && (|e| == 3 ==> MaskTest(e[0], 0xF0, 0xE0))
            && (|e| == 4 ==> MaskTest(e[0], 0xF8, 0xF0))
            && (forall i :: 0 < i < |e| ==> IsContinuation(e[i]))
            && (forall i :: 0 <= i < |e| ==> e[i] != 0)
  {
  }

  lemma JoinSplit(c: bv32)
    ensures c < 0x800 ==> Join2(Lead2(c >> 6), Continuation(c)) == c
    ensures c < 0x10000 ==> Join3(Lead3(c >> 12), Continuation(c >> 6), Continuation(c)) == c
    ensures c < 0x110000 ==> Join4(Lead4(c >> 18), Continuation(c >> 12), Continuation(c >> 6), Continuation(c)) == c
  {
  }

  /** The bytes of an encoded code point stand at position p. */
  ghost predicate EncodedAt(c: bv32, s: seq<bv8>, p: nat) {
    p + |CharSet(c)| <= |s| && s[p..p + |CharSet(c)|] == CharSet(c)
  }

  /** Wherever a code point was encoded, Utf8CharLen finds its length and Utf8CharGet returns it. */
  lemma CharGetSet(c: bv32, s: seq<bv8>, p: nat)
    requires CodePoint(c) && Terminated(s) && EncodedAt(c, s, p)
    ensures s[p] != 0 && CharLen(s, p) == |CharSet(c)|
    ensures CharGet(s, p, |CharSet(c)|) == c
  {
    var e := CharSet(c);
    CharSetShape(c);
    assert forall i :: 0 <= i < |e| ==> s[p + i] == e[i];
    assert s[p] == e[0];
    JoinSplit(c);
  }

  /** The k bytes behind position p are continuation bytes. */
  ghost predicate Followed(s: seq<bv8>, p: nat, k: nat) {
    p + k < |s| && forall q :: p < q <= p + k ==> 0x80 <= s[q] < 0xC0
  }

  /** By the values of the bytes: the symbol a lead byte announces if it is complete, and otherwise a single byte. */
  lemma CharLenByValue(s: seq<bv8>, p: nat)
    requires Terminated(s) && p < |s|
    ensures CharLen(s, p) == if 0xC0 <= s[p] < 0xE0 && Followed(s, p, 1) then 2
                             else if 0xE0 <= s[p] < 0xF0 && Followed(s, p, 2) then 3
                             else if 0xF0 <= s[p] < 0xF8 && Followed(s, p, 3) then 4 else 1
  {
    LeadByValue(s[p]);
    forall q | p < q < |s| && q <= p + 3
      ensures MaskTest(s[q], 0xC0, 0x80) <==> 0x80 <= s[q] < 0xC0
    {
      LeadByValue(s[q]);
    }
    hide MaskTest;
  }

  lemma LeadByValue(b: bv8)
    ensures MaskTest(b, 0xC0, 0x80) <==> 0x80 <= b < 0xC0
    ensures MaskTest(b, 0xE0, 0xC0) <==> 0xC0 <= b < 0xE0
    ensures MaskTest(b, 0xF0, 0xE0) <==> 0xE0 <= b < 0xF0
    ensures MaskTest(b, 0xF8, 0xF0) <==> 0xF0 <= b < 0xF8
  {
  }

  /** By the values of the bytes, for overlong symbols as well: six bits from each continuation byte. */
  lemma CharGetByValue(s: seq<bv8>, p: nat)
    requires Terminated(s) && p < |s|
    ensures var n, c := CharLen(s, p), CharGet(s, p, CharLen(s, p));
            && (n == 2 ==> c == (s[p] as bv32 - 0xC0) * 64 + (s[p + 1] as bv32 - 0x80))
            && (n == 3 ==> c == ((s[p] as bv32 - 0xE0) * 64 + (s[p + 1] as bv32 - 0x80)) * 64
                                + (s[p + 2] as bv32 - 0x80))
            && (n == 4 ==> c == (((s[p] as bv32 - 0xF0) * 64 + (s[p + 1] as bv32 - 0x80)) * 64
                                 + (s[p + 2] as bv32 - 0x80)) * 64 + (s[p + 3] as bv32 - 0x80))
  {
    CharLenByValue(s, p);
    hide CharLen, Join2, Join3, Join4;
    match CharLen(s, p)
    case 2 => Join2Value(s[p], s[p + 1]);
    case 3 => Join3Value(s[p], s[p + 1], s[p + 2]);
    case 4 => Join4Value(s[p], s[p + 1], s[p + 2], s[p + 3]);
    case _ =>
  }

  lemma Join2Value(a: bv8, b: bv8)
    requires 0xC0 <= a < 0xE0 && 0x80 <= b < 0xC0
    ensures Join2(a, b) == (a as bv32 - 0xC0) * 64 + (b as bv32 - 0x80)
  {
  }

  lemma Join3Value(a: bv8, b: bv8, d: bv8)
    requires 0xE0 <= a < 0xF0 && 0x80 <= b < 0xC0 && 0x80 <= d < 0xC0
    ensures Join3(a, b, d) == ((a as bv32 - 0xE0) * 64 + (b as bv32 - 0x80)) * 64 + (d as bv32 - 0x80)
  {
  }

  lemma Join4Value(a: bv8, b: bv8, d: bv8, e: bv8)
    requires 0xF0 <= a < 0xF8 && 0x80 <= b < 0xC0 && 0x80 <= d < 0xC0 && 0x80 <= e < 0xC0
    ensures Join4(a, b, d, e) ==
            (((a as bv32 - 0xF0) * 64 + (b as bv32 - 0x80)) * 64 + (d as bv32 - 0x80)) * 64 + (e as bv32 - 0x80)
  {
  }

  /**
   * A byte from 0x80 up that is no symbol on its own gives its value as a signed char, which is no code point, so that
   * it gets lost on the way back.
   */
  lemma IllFormedByte(s: seq<bv8>, p: nat)
    requires Terminated(s) && p < |s| && s[p] >= 0x80
    ensures var c := CharGet(s, p, 1);
            c as int - 0x1_0000_0000 == s[p] as int - 0x100 && !CodePoint(c) && CharSet(c) == []
  {
    hide SignExtend, CharSet, CodePoint;
    var c := SignExtend(s[p]);
    assert CharGet(s, p, 1) == c;
    SignedByte(s[p]);
    NoCodePoint(c);
  }

  lemma NoCodePoint(c: bv32)
    requires c >= 0x110000
    ensures !CodePoint(c) && CharSet(c) == []
  {
  }

  lemma SignedByte(b: bv8)
    requires b >= 0x80
    ensures SignExtend(b) as int - 0x1_0000_0000 == b as int - 0x100 && SignExtend(b) >= 0x110000
  {
    var c: bv32 := b as bv32;
    assert 0xFFFFFF00 | c == 0xFFFFFF00 + c;
  }

  // --- symbol boundaries ----------------------------------------------------

  /** The position after k symbols, or of the terminator if there are fewer. */
  ghost function Bound(s: seq<bv8>, k: nat): (p: nat)
    requires Terminated(s)
    ensures p < |s|
  {
    if k == 0 then 0 else
      var p := Bound(s, k - 1);
      if s[p] == 0 then p else p + CharLen(s, p)
  }

  /** The number of symbols from position p on. */
  ghost function Count(s: seq<bv8>, p: nat): nat
    requires Terminated(s) && p < |s|
    decreases |s| - p
  {
    if s[p] == 0 then 0 else 1 + Count(s, p + CharLen(s, p))
  }

  /** Exactly the first Count(s, 0) bounds are in front of the terminator, each nearer to it than the one before. */
  lemma {:induction false} BoundsAndCount(s: seq<bv8>, k: nat)
    requires Terminated(s)
    ensures s[Bound(s, k)] == 0 <==> k >= Count(s, 0)
    ensures k <= Count(s, 0) ==> k + Count(s, Bound(s, k)) == Count(s, 0)
    ensures k >= Count(s, 0) ==> Bound(s, k) == |s| - 1
    ensures k > 0 && k <= Count(s, 0) ==> Bound(s, k - 1) < Bound(s, k)
  {
    if k > 0 {
      BoundsAndCount(s, k - 1);
    }
  }

  lemma {:induction false} BoundsIncrease(s: seq<bv8>, j: nat, k: nat)
    requires Terminated(s) && j < k <= Count(s, 0)
    ensures Bound(s, j) < Bound(s, k)
  {
    BoundsAndCount(s, k);
    if j < k - 1 {
      BoundsIncrease(s, j, k - 1);
    }
  }

  /** The count is the least k whose bound is the terminator. */
  lemma CountFromBounds(s: seq<bv8>, k: nat)
    requires Terminated(s) && s[Bound(s, k)] == 0
    requires k > 0 ==> s[Bound(s, k - 1)] != 0
    ensures Count(s, 0) == k
  {
    BoundsAndCount(s, k);
    if k > 0 {
      BoundsAndCount(s, k - 1);
    }
  }

  /** Utf8StrLen. */
  method StrLen(s: seq<bv8>) returns (n: nat)
    requires Terminated(s)
    ensures n == Count(s, 0)
  {
    n := 0;
    var p := 0;
    while s[p] != 0
      invariant 0 <= p < |s| && n + Count(s, p) == Count(s, 0)
      decreases |s| - p
    {
      p := p + CharLen(s, p);
      n := n + 1;
    }
  }

  /** How many symbols a count allows: a negative count never reaches zero and allows all. */
  ghost function Allowed(symbols: int, all: nat): nat {
    if 0 <= symbols <= all then symbols else all
  }

  /** Utf8SymChars. */
  method SymChars(s: seq<bv8>, symbols: int) returns (n: nat)
    requires Terminated(s)
    ensures n == Bound(s, Allowed(symbols, Count(s, 0)))
    ensures symbols < 0 ==> n == |s| - 1
  {
    BoundsAndCount(s, Count(s, 0));
    n := 0;
    var p, k := 0, symbols;
    ghost var j := 0;
    while s[p] != 0 && k != 0
      invariant 0 <= p < |s| && n == p == Bound(s, j) && j + Count(s, p) == Count(s, 0)
      invariant k == symbols - j && (symbols >= 0 ==> j <= symbols)
      decreases |s| - p
    {
      var sl := CharLen(s, p);
      p, n, k, j := p + sl, n + sl, k - 1, j + 1;
    }
  }

  /** The first k symbols of s as a string of their own. */
  ghost function Truncated(s: seq<bv8>, k: nat): seq<bv8>
    requires Terminated(s)
  {
    s[..Bound(s, k)] + [0]
  }

  /** Cutting a string at a symbol boundary keeps all the boundaries before the cut. */
  lemma {:induction false} TruncatedBounds(s: seq<bv8>, k: nat, j: nat)
    requires Terminated(s) && j <= k <= Count(s, 0)
    ensures Terminated(Truncated(s, k)) && Bound(Truncated(s, k), j) == Bound(s, j)
    ensures j < k ==> s[Bound(s, j)] != 0
  {
    hide CharLen;
    var t := Truncated(s, k);
    BoundsAndCount(s, j);
    if j > 0 {
      TruncatedBounds(s, k, j - 1);
      var p := Bound(s, j - 1);
      if j < k {
        BoundsIncrease(s, j, k);
      }
      assert p < Bound(s, j) <= Bound(s, k) && t[p] == s[p];
      TruncatedCharLen(s, t, p);
    }
  }

  lemma TruncatedCharLen(s: seq<bv8>, t: seq<bv8>, p: nat)
    requires Terminated(s) && Terminated(t) && |t| <= |s| && t[..|t| - 1] == s[..|t| - 1]
    requires p < |t| - 1 && p + CharLen(s, p) <= |t| - 1
    ensures CharLen(t, p) == CharLen(s, p)
  {
  }

  lemma TruncatedCount(s: seq<bv8>, n: nat)
    requires Terminated(s) && n <= Count(s, 0)
    ensures Terminated(Truncated(s, n)) && Count(Truncated(s, n), 0) == n
  {
    hide CharLen, Bound, Count;
    var t := Truncated(s, n);
    TruncatedBounds(s, n, n);
    if n > 0 {
      TruncatedBounds(s, n, n - 1);
      BoundsIncrease(s, n - 1, n);
    }
    CountFromBounds(t, n);
  }

  /**
   * Utf8StrLen of the first Utf8SymChars(s, k) bytes is min(k, Utf8StrLen(s)), and
   * Utf8SymChars(s, Utf8StrLen(s)) is the whole string.
   */
  lemma StrLenOfSymChars(s: seq<bv8>, k: nat)
    requires Terminated(s)
    ensures var t := Truncated(s, Allowed(k, Count(s, 0)));
            Terminated(t) && Count(t, 0) == if k < Count(s, 0) then k else Count(s, 0)
    ensures Bound(s, Allowed(Count(s, 0), Count(s, 0))) == |s| - 1
  {
    TruncatedCount(s, Allowed(k, Count(s, 0)));
    BoundsAndCount(s, Count(s, 0));
  }

  /** The largest number of symbols from position p on that take at most `room` bytes. */
  ghost function Fitting(s: seq<bv8>, p: nat, room: int): (k: nat)
    requires Terminated(s) && p < |s|
    ensures k <= Count(s, p)
    decreases |s| - p
  {
    if s[p] == 0 || CharLen(s, p) > room then 0 else 1 + Fitting(s, p + CharLen(s, p), room - CharLen(s, p))
  }

  lemma LaterBounds(s: seq<bv8>, j: nat, m: nat)
    requires Terminated(s) && j < m <= Count(s, 0)
    ensures Bound(s, j + 1) <= Bound(s, m)
  {
    if j + 1 < m {
      BoundsIncrease(s, j + 1, m);
    }
  }

  lemma FittingStep(s: seq<bv8>, j: nat, room: int)
    requires Terminated(s) && j < Count(s, 0)
    ensures var p, q := Bound(s, j), Bound(s, j + 1);
            && s[p] != 0 && q == p + CharLen(s, p)
            && Fitting(s, p, room) == if q > p + room then 0 else 1 + Fitting(s, q, room - (q - p))
  {
    hide CharLen;
    BoundsAndCount(s, j);
  }

  lemma FittingEnd(s: seq<bv8>, room: int)
    requires Terminated(s)
    ensures Fitting(s, Bound(s, Count(s, 0)), room) == 0
  {
    BoundsAndCount(s, Count(s, 0));
  }

  /** Among all symbol boundaries, the one Fitting finds is the last within the room. */
  lemma {:induction false} FittingIsMaximal(s: seq<bv8>, j: nat, room: int, m: nat)
    requires Terminated(s) && room >= 0 && j <= Count(s, 0)
    ensures var k := j + Fitting(s, Bound(s, j), room);
            && k <= Count(s, 0) && Bound(s, k) <= Bound(s, j) + room
            && (k < m <= Count(s, 0) ==> Bound(s, m) > Bound(s, j) + room)
    decreases Count(s, 0) - j
  {
    hide Bound, Count, Fitting, CharLen;
    if j == Count(s, 0) {
      FittingEnd(s, room);
    } else {
      FittingStep(s, j, room);
      var p, q := Bound(s, j), Bound(s, j + 1);
      if q <= p + room {
        FittingIsMaximal(s, j + 1, room - (q - p), m);
      } else if j < m <= Count(s, 0) {
        LaterBounds(s, j, m);
      }
    }
  }

  /** Utf8Strn0Cpy: copies the longest prefix of whole symbols that leaves room for the terminator in n bytes. */
  method Strn0Cpy(dest: array<bv8>, src: seq<bv8>, n: int)
    requires Terminated(src) && dest.Length >= n && dest.Length >= 1
    modifies dest
    ensures var length := Bound(src, Fitting(src, 0, n - 1));
            && length < dest.Length && dest[..length] == src[..length] && dest[length] == 0
            && dest[length + 1..] == old(dest[..])[length + 1..] && (length == 0 || length < n)
  {
    hide CharLen, Count, Fitting, Bound;
    var d, p, n' := 0, 0, n;
    ghost var j := 0;
    StartBound(src);
    while src[p] != 0
      invariant 0 <= p < |src| && d == p == Bound(src, j) && d < dest.Length
      invariant n' == n - p && (p > 0 ==> n' > 0) && j <= Count(src, 0)
      invariant j + Fitting(src, p, n' - 1) == Fitting(src, 0, n - 1)
      invariant dest[..d] == src[..p] && dest[d..] == old(dest[..])[d..]
      decreases |src| - p
    {
      NotAtEnd(src, j);
      FittingStep(src, j, n' - 1);
      var sl := CharLen(src, p);
      n' := n' - sl;
      if n' > 0 {
        CopyBytes(dest, d, src, p, sl);
        d, p, j := d + sl, p + sl, j + 1;
      } else {
        break;
      }
    }
    if src[p] == 0 {
      NotAtEnd(src, j);
      FittingEnd(src, n' - 1);
    }
    dest[d] := 0;
  }

  lemma StartBound(s: seq<bv8>)
    requires Terminated(s)
    ensures Bound(s, 0) == 0
  {
  }

  lemma NotAtEnd(s: seq<bv8>, j: nat)
    requires Terminated(s) && j <= Count(s, 0)
    ensures s[Bound(s, j)] == 0 <==> j == Count(s, 0)
  {
    BoundsAndCount(s, j);
  }

  /** The inner loop of Utf8Strn0Cpy. */
  method CopyBytes(dest: array<bv8>, d: nat, src: seq<bv8>, p: nat, n: nat)
    requires d + n <= dest.Length && p + n <= |src|
    modifies dest
    ensures dest[..d + n] == old(dest[..d]) + src[p..p + n] && dest[d + n..] == old(dest[..])[d + n..]
  {
    for i := 0 to n
      invariant dest[..d + i] == old(dest[..d]) + src[p..p + i] && dest[d + i..] == old(dest[..])[d + i..]
    {
      dest[d + i] := src[p + i];
    }
  }
}
