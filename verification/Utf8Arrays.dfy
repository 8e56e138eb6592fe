/** The conversions between strings and arrays of code points: Utf8ToArray and Utf8FromArray of libvdr-tools.c. */
module Utf8Arrays {
  import opened Utf8

  /** An array of code points up to and including its terminating zero. */
  ghost predicate ZeroEnded(a: seq<bv32>) {
    && |a| > 0 && a[|a| - 1] == 0
    && forall i :: 0 <= i < |a| - 1 ==> a[i] != 0
  }

  ghost predicate AllCodePoints(a: seq<bv32>) {
    forall i :: 0 <= i < |a| ==> CodePoint(a[i])
  }

  function EncodeAll(a: seq<bv32>): seq<bv8> {
    if a == [] then [] else EncodeAll(a[..|a| - 1]) + CharSet(a[|a| - 1])
  }

  /** The first n symbols of a string as code points. */
  ghost function Decoded(s: seq<bv8>, n: nat): (a: seq<bv32>)
    requires Terminated(s) && n <= Count(s, 0)
    ensures |a| == n
  {
    if n == 0 then [] else
      BoundsAndCount(s, n - 1);
      var p := Bound(s, n - 1);
      Decoded(s, n - 1) + [CharGet(s, p, CharLen(s, p))]
  }

  /** Each slot holds what stands at its own symbol boundary. */
  lemma {:induction false} DecodedAt(s: seq<bv8>, n: nat, i: nat)
    requires Terminated(s) && i < n <= Count(s, 0)
    ensures var p := Bound(s, i); Decoded(s, n)[i] == CharGet(s, p, CharLen(s, p))
  {
    hide CharLen, CharGet, Bound, Count;
    if i < n - 1 {
      DecodedAt(s, n - 1, i);
    }
  }

  /** Utf8ToArray gives up the last slot of the array only when the string ends before it. */
  ghost function ArraySymbols(s: seq<bv8>, size: int): (n: nat)
    requires Terminated(s)
  {
    if Count(s, 0) < size then Count(s, 0) else if size > 0 then size - 1 else 0
  }

  /** The array after Utf8ToArray. */
  ghost function AfterToArray(before: seq<bv32>, s: seq<bv8>, size: int): seq<bv32>
    requires Terminated(s) && |before| >= size
  {
    var n := ArraySymbols(s, size);
    Decoded(s, n) + if Count(s, 0) < size then [0] + before[n + 1..] else before[n..]
  }

  lemma DecodedNext(s: seq<bv8>, n: nat)
    requires Terminated(s) && n < Count(s, 0)
    ensures var p := Bound(s, n);
            Decoded(s, n + 1) == Decoded(s, n) + [CharGet(s, p, CharLen(s, p))] && Bound(s, n + 1) == p + CharLen(s, p)
  {
    BoundsAndCount(s, n);
  }

  /** *Array++ = c */
  method PutSlot(a: array<bv32>, n: nat, c: bv32)
    requires n < a.Length
    modifies a
    ensures a[..n + 1] == old(a[..n]) + [c] && a[n + 1..] == old(a[n..])[1..]
  {
    a[n] := c;
  }

  /** The loop of Utf8ToArray, which ends at the end of the string or when one slot is left. */
  method CopySymbols(s: seq<bv8>, a: array<bv32>, size: int) returns (n: nat, left: int)
    requires Terminated(s) && a.Length >= size
    modifies a
    ensures n == ArraySymbols(s, size) && n <= a.Length && (left > 0 <==> Count(s, 0) < size)
    ensures a[..n] == Decoded(s, n) && a[n..] == old(a[..])[n..]
  {
    hide CharLen, CharGet, Decoded, Bound, Count;
    n := 0;
    var p := 0;
    left := size;
    ghost var before := a[..];
    DecodedNone(s);
    while s[p] != 0
      invariant 0 <= p < |s| && p == Bound(s, n) && n <= Count(s, 0)
      invariant left == size - n && n <= a.Length && (n > 0 ==> left > 0)
      invariant a[..n] == Decoded(s, n) && a[n..] == before[n..]
      decreases |s| - p
    {
      BoundsAndCount(s, n);
      left := left - 1;
      if left <= 0 {
        return;
      }
      var sl := CharLen(s, p);
      DecodedNext(s, n);
      PutSlot(a, n, CharGet(s, p, sl));
      p := p + sl;
      n := n + 1;
      BoundsAndCount(s, n);
    }
    BoundsAndCount(s, n);
  }

  /** Utf8ToArray. */
  method ToArray(s: seq<bv8>, a: array<bv32>, size: int) returns (n: nat)
    requires Terminated(s) && a.Length >= size
    modifies a
    ensures n == ArraySymbols(s, size)
    ensures n <= Count(s, 0) && (n == 0 || n < size) && (n < Count(s, 0) ==> n + 1 >= size)
    ensures a[..] == AfterToArray(old(a[..]), s, size)
  {
    hide Decoded, Count, Bound, CharLen, CharGet, Terminated;
    var left;
    n, left := CopySymbols(s, a, size);
    ghost var before := old(a[..]);
    if left > 0 {
      PutSlot(a, n, 0);
      ZeroInBetween(a[..], n, Decoded(s, n), before);
    } else {
      InTwo(a[..], n, Decoded(s, n), before[n..]);
    }
  }

  lemma InTwo(a: seq<bv32>, n: nat, front: seq<bv32>, rest: seq<bv32>)
    requires n <= |a| && a[..n] == front && a[n..] == rest
    ensures a == front + rest
  {
    assert a == a[..n] + a[n..];
  }

  lemma ZeroInBetween(a: seq<bv32>, n: nat, front: seq<bv32>, before: seq<bv32>)
    requires n < |a| == |before| && a[..n + 1] == front + [0] && a[n + 1..] == before[n..][1..]
    ensures a == front + ([0] + before[n + 1..])
  {
    InTwo(a, n + 1, front + [0], before[n + 1..]);
  }

  lemma DecodedNone(s: seq<bv8>)
    requires Terminated(s)
    ensures Decoded(s, 0) == [] && Bound(s, 0) == 0
  {
  }

  /**
   * The header promises an array that includes the terminating 0. Whatever the array held before, it
   * is terminated exactly if the string has fewer symbols than the array has slots.
   */
  lemma TerminatedIff(s: seq<bv8>, size: nat)
    requires Terminated(s) && size > 0
    ensures (forall before: seq<bv32> | |before| == size ::
               0 in AfterToArray(before, s, size)[ArraySymbols(s, size)..]) <==> Count(s, 0) < size
  {
    if Count(s, 0) < size {
      forall before: seq<bv32> | |before| == size
        ensures 0 in AfterToArray(before, s, size)[ArraySymbols(s, size)..]
      {
        assert AfterToArray(before, s, size)[ArraySymbols(s, size)] == 0;
      }
    } else {
      var ones := seq(size, _ => 1 as bv32);
      assert AfterToArray(ones, s, size)[ArraySymbols(s, size)..] == ones[ArraySymbols(s, size)..];
    }
  }

  /** A string of one symbol and an array of one slot: the slot is left as it was. */
  lemma UnterminatedExample(before: bv32)
    ensures Terminated([0x41, 0]) && AfterToArray([before], [0x41, 0], 1) == [before]
  {
  }

  /** The number of code points from index i on that Utf8FromArray converts. */
  ghost function Converted(a: seq<bv32>, i: nat, room: int, max: int): (k: nat)
    requires ZeroEnded(a) && i < |a|
    ensures i + k < |a|
    decreases |a| - i
  {
    if a[i] == 0 || room <= 0 || max == 0 || CharBytes(a[i]) > room then 0
    else 1 + Converted(a, i + 1, room - CharBytes(a[i]), max - 1)
  }

  lemma EncodeStep(a: seq<bv32>, i: nat)
    requires i < |a|
    ensures EncodeAll(a[..i + 1]) == EncodeAll(a[..i]) + CharSet(a[i])
  {
    assert a[..i + 1][..i] == a[..i];
  }

  /** Utf8CharSet with a destination. */
  method PutChar(c: bv32, s: array<bv8>, p: nat)
    requires p + CharBytes(c) <= s.Length
    modifies s
    ensures s[..p + CharBytes(c)] == old(s[..p]) + CharSet(c)
    ensures s[p + CharBytes(c)..] == old(s[..])[p + CharBytes(c)..]
  {
    if c < 0x80 {
      s[p] := c as bv8;
    } else if c < 0x800 {
      s[p] := Lead2(c >> 6);
      s[p + 1] := Continuation(c);
    } else if c < 0x10000 {
      s[p] := Lead3(c >> 12);
      s[p + 1] := Continuation(c >> 6);
      s[p + 2] := Continuation(c);
    } else if c < 0x110000 {
      s[p] := Lead4(c >> 18);
      s[p + 1] := Continuation(c >> 12);
      s[p + 2] := Continuation(c >> 6);
      s[p + 3] := Continuation(c);
    }
  }

  /** Encodes code point i behind the numChars bytes that are there already. */
  method ConvertOne(a: seq<bv32>, i: nat, s: array<bv8>, numChars: nat, ghost was: seq<bv8>)
    requires i < |a| && numChars + CharBytes(a[i]) <= s.Length == |was|
    requires s[..numChars] == EncodeAll(a[..i]) && s[numChars..] == was[numChars..]
    modifies s
    ensures var n := numChars + CharBytes(a[i]); s[..n] == EncodeAll(a[..i + 1]) && s[n..] == was[n..]
  {
    hide CharSet, CharBytes, EncodeAll;
    PutChar(a[i], s, numChars);
    EncodeStep(a, i);
    assert old(s[..])[numChars..] == was[numChars..];
    var sl := CharBytes(a[i]);
    assert old(s[..])[numChars + sl..] == old(s[..])[numChars..][sl..] == was[numChars + sl..];
  }

  lemma ConvertedNext(a: seq<bv32>, i: nat, room: int, max: int)
    requires ZeroEnded(a) && i < |a|
    ensures Converted(a, i, room, max) ==
            if a[i] == 0 || room <= 0 || max == 0 || CharBytes(a[i]) > room then 0
            else 1 + Converted(a, i + 1, room - CharBytes(a[i]), max - 1)
  {
  }

  /** Utf8FromArray: a negative max is no limit. */
  method FromArray(a: seq<bv32>, s: array<bv8>, size: int, max: int) returns (numChars: nat)
    requires ZeroEnded(a) && s.Length >= size
    modifies s
    ensures var bytes := EncodeAll(a[..Converted(a, 0, size, max)]);
            && numChars == |bytes| <= s.Length && s[..numChars] == bytes
            && (numChars < size ==> s[numChars] == 0 && s[numChars + 1..] == old(s[..])[numChars + 1..])
            && (numChars >= size ==> s[numChars..] == old(s[..])[numChars..])
  {
    hide CharSet, CharBytes, Converted;
    numChars := 0;
    var numSyms := 0;
    var i := 0;
    while a[i] != 0 && numChars < size
      invariant 0 <= i < |a| && numChars <= s.Length && (i > 0 ==> numChars <= size)
      invariant max >= 0 ==> numSyms == i <= max
      invariant s[..numChars] == EncodeAll(a[..i]) && s[numChars..] == old(s[..])[numChars..]
      invariant i + Converted(a, i, size - numChars, max - i) == Converted(a, 0, size, max)
      decreases |a| - i
    {
      hide EncodeAll;
      ConvertedNext(a, i, size - numChars, max - i);
      if max >= 0 {
        numSyms := numSyms + 1;
        if numSyms - 1 >= max {
          break;
        }
      }
      var sl := CharBytes(a[i]);
      if numChars + sl <= size {
        ConvertOne(a, i, s, numChars, old(s[..]));
        i := i + 1;
        numChars := numChars + sl;
      } else {
        break;
      }
    }
    ConvertedNext(a, i, size - numChars, max - i);
    assert i == Converted(a, 0, size, max);
    if numChars < size {
      s[numChars] := 0;
    }
  }

  lemma {:induction false} CharBytesOf(a: seq<bv32>, i: nat)
    requires i < |a|
    ensures |EncodeAll(a[..i + 1])| == |EncodeAll(a[..i])| + CharBytes(a[i])
  {
    EncodeStep(a, i);
  }

  /**
   * What is converted fits into the buffer and keeps to the limit; one code point more would not, unless the buffer is
   * full. Of code points, as many as possible are converted.
   */
  lemma {:induction false} ConvertedIsMaximal(a: seq<bv32>, i: nat, room: int, max: int, m: nat)
    requires ZeroEnded(a) && i < |a| && room >= 0
    ensures var k := i + Converted(a, i, room, max);
            var used := |EncodeAll(a[..k])| - |EncodeAll(a[..i])|;
            && k < |a| && used <= room && (max >= 0 ==> k - i <= max)
            && (k < m < |a| ==> used == room || (max >= 0 && m - i > max)
                                || |EncodeAll(a[..m])| - |EncodeAll(a[..i])| > room)
    decreases |a| - i
  {
    hide CharSet, CharBytes, EncodeAll;
    ConvertedNext(a, i, room, max);
    var more := a[i] != 0 && room > 0 && max != 0;
    if more {
      CharBytesOf(a, i);
      EncodeAllMonotone(a, i, i + 1);
      if CharBytes(a[i]) <= room {
        ConvertedIsMaximal(a, i + 1, room - CharBytes(a[i]), max - 1, m);
      } else if i < m < |a| {
        EncodeAllMonotone(a, i + 1, m);
      }
    }
  }

  /** With enough room and no limit, every code point is converted. */
  lemma {:induction false} ConvertedAll(a: seq<bv32>, i: nat, room: int, max: int)
    requires ZeroEnded(a) && i < |a|
    requires room > |EncodeAll(a[..|a| - 1])| - |EncodeAll(a[..i])| && (max < 0 || max >= |a| - 1 - i)
    ensures Converted(a, i, room, max) == |a| - 1 - i
    decreases |a| - i
  {
    hide CharSet, CharBytes, EncodeAll;
    if i < |a| - 1 {
      EncodeStep(a, i);
      EncodeAllMonotone(a, i + 1, |a| - 1);
      ConvertedAll(a, i + 1, room - CharBytes(a[i]), max - 1);
    } else {
      assert a[i] == 0;
    }
  }

  lemma {:induction false} EncodeAllMonotone(a: seq<bv32>, i: nat, j: nat)
    requires i <= j <= |a|
    ensures EncodeAll(a[..i]) <= EncodeAll(a[..j])
  {
    if i < j {
      EncodeAllMonotone(a, i, j - 1);
      assert a[..j][..j - 1] == a[..j - 1];
    }
  }

  lemma {:induction false} EncodeAllNoZero(a: seq<bv32>)
    requires AllCodePoints(a)
    ensures forall i :: 0 <= i < |EncodeAll(a)| ==> EncodeAll(a)[i] != 0
  {
    if a != [] {
      EncodeAllNoZero(a[..|a| - 1]);
      CharSetShape(a[|a| - 1]);
    }
  }

  /** The string that holds the encoded code points. */
  ghost function Encoded(a: seq<bv32>): (s: seq<bv8>)
    requires AllCodePoints(a)
    ensures Terminated(s)
  {
    EncodeAllNoZero(a);
    EncodeAll(a) + [0]
  }

  lemma EncodedHere(a: seq<bv32>, k: nat)
    requires AllCodePoints(a) && k < |a|
    ensures EncodedAt(a[k], Encoded(a), |EncodeAll(a[..k])|)
  {
    hide CharSet;
    EncodeStep(a, k);
    EncodeAllMonotone(a, k + 1, |a|);
    assert a[..|a|] == a;
    var e, f := EncodeAll(a[..k]), CharSet(a[k]);
    assert e + f <= Encoded(a);
    assert Encoded(a)[|e|..|e| + |f|] == (e + f)[|e|..];
  }

  /** The symbol boundaries of an encoded array are where its code points were put. */
  lemma {:induction false} EncodedBounds(a: seq<bv32>, k: nat)
    requires AllCodePoints(a) && k <= |a|
    ensures Bound(Encoded(a), k) == |EncodeAll(a[..k])|
  {
    hide CharSet, CharLen, CharGet;
    if k > 0 {
      EncodedBounds(a, k - 1);
      EncodedHere(a, k - 1);
      CharGetSet(a[k - 1], Encoded(a), Bound(Encoded(a), k - 1));
      EncodeStep(a, k - 1);
    }
  }

  lemma EncodedCount(a: seq<bv32>)
    requires AllCodePoints(a)
    ensures Count(Encoded(a), 0) == |a|
  {
    hide CharSet, CharLen, CharGet, Count, Bound;
    var s := Encoded(a);
    EncodedBounds(a, |a|);
    assert a[..|a|] == a;
    if |a| > 0 {
      EncodedBounds(a, |a| - 1);
      EncodedHere(a, |a| - 1);
      CharGetSet(a[|a| - 1], s, Bound(s, |a| - 1));
    }
    CountFromBounds(s, |a|);
  }

  /** Decoding an encoded array gives the array back, symbol for symbol. */
  lemma {:induction false} DecodeEncoded(a: seq<bv32>, n: nat)
    requires AllCodePoints(a) && n <= |a|
    ensures Count(Encoded(a), 0) == |a| && Decoded(Encoded(a), n) == a[..n]
  {
    hide CharSet, CharLen, CharGet, Count, Bound, EncodeAll, EncodedAt;
    EncodedCount(a);
    if n > 0 {
      DecodeEncoded(a, n - 1);
      EncodedBounds(a, n - 1);
      EncodedHere(a, n - 1);
      CharGetSet(a[n - 1], Encoded(a), Bound(Encoded(a), n - 1));
      assert a[..n] == a[..n - 1] + [a[n - 1]];
    }
  }

  /** Utf8ToArray after Utf8FromArray, with large enough buffers: the same array and the same count. */
  method ThereAndBack(a: seq<bv32>, s: array<bv8>, b: array<bv32>) returns (n: nat)
    requires ZeroEnded(a) && AllCodePoints(a[..|a| - 1])
    requires s.Length > |EncodeAll(a[..|a| - 1])| && b.Length >= |a|
    modifies s, b
    ensures n == |a| - 1 && b[..|a|] == a
  {
    hide CharSet, CharBytes, CharLen, CharGet;
    ghost var c := a[..|a| - 1];
    ConvertedAll(a, 0, s.Length, -1);
    var numChars := FromArray(a, s, s.Length, -1);
    DecodeEncoded(c, |c|);
    var bytes := s[..numChars + 1];
    assert bytes == Encoded(c);
    n := ToArray(bytes, b, b.Length);
    assert b[..|a|] == c + [0];
  }
}
