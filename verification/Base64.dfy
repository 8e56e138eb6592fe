/** cBase64Encoder of libvdr-tools.c, and a decoder after section 4 of RFC 4648 to judge it by. */
module Base64 {
  import opened Options

  const UPPER := "ABCDEFGHIJKLMNOPQRSTUVWXYZ"
  const LOWER := "abcdefghijklmnopqrstuvwxyz"
  const DIGITS := "0123456789"
  const ALPHABET := UPPER + LOWER + DIGITS + "+/"

  function Digit(b: bv8): char
    requires b < 64
  {
    ALPHABET[b as int]
  }

  // --- the decoder ----------------------------------------------------------

  /** The position of a character in the alphabet, or 64. */
  function Position(c: char): (n: nat)
    ensures n <= 64
  {
    if 'A' <= c <= 'Z' then c as int - 'A' as int
    else if 'a' <= c <= 'z' then c as int - 'a' as int + 26
    else if '0' <= c <= '9' then c as int - '0' as int + 52
    else if c == '+' then 62 else if c == '/' then 63 else 64
  }

  function Value(c: char): bv8 {
    Position(c) as bv8
  }

  function First(v: bv8, w: bv8): bv8 { (v << 2) | ((w >> 4) & 0x03) }
  function Second(v: bv8, w: bv8): bv8 { (v << 4) | ((w >> 2) & 0x0F) }
  function Third(v: bv8, w: bv8): bv8 { (v << 6) | (w & 0x3F) }

  /** The bytes of four characters, of which the last one or two may be padding. */
  function DecodeGroup(a: char, b: char, c: char, d: char): seq<bv8> {
    var v, w, x, y := Value(a), Value(b), Value(c), Value(d);
    [First(v, w)] + if c == '=' then [] else [Second(w, x)] + if d == '=' then [] else [Third(x, y)]
  }

  function Decode(s: string): seq<bv8>
    requires |s| % 4 == 0
  {
    if s == "" then [] else DecodeGroup(s[0], s[1], s[2], s[3]) + Decode(s[4..])
  }

  // --- the encoder ----------------------------------------------------------

  // The bits of one byte that go into a sextet, at their place in it.
  function Sextet0(x: bv8): bv8 { (x >> 2) & 0x3F }
  function High1(x: bv8): bv8 { (x << 4) & 0x3F }
  function Low1(y: bv8): bv8 { (y >> 4) & 0x0F }
  function High2(x: bv8): bv8 { (x << 2) & 0x3F }
  function Low2(y: bv8): bv8 { (y >> 6) & 0x03 }
  function Sextet3(x: bv8): bv8 { x & 0x3F }

  function Sextet1(x: bv8, y: bv8): bv8 { High1(x) | Low1(y) }
  function Sextet2(x: bv8, y: bv8): bv8 { High2(x) | Low2(y) }

  lemma SextetRange(x: bv8, y: bv8)
    ensures Sextet0(x) < 64 && Sextet1(x, y) < 64 && Sextet2(x, y) < 64 && Sextet3(x) < 64
    ensures Sextet1(x, 0) == High1(x) && Sextet2(x, 0) == High2(x)
  {
  }

  /** The four characters for the one to three bytes at the front of d. */
  function Group(d: seq<bv8>): (g: string)
    requires d != []
    ensures |g| == 4
  {
    var x := d[0];
    var y := if |d| > 1 then d[1] else 0;
    var z := if |d| > 2 then d[2] else 0;
    SextetRange(x, y);
    SextetRange(y, z);
    SextetRange(z, z);
    [Digit(Sextet0(x)), Digit(Sextet1(x, y)), if |d| > 1 then Digit(Sextet2(y, z)) else '=',
     if |d| > 2 then Digit(Sextet3(z)) else '=']
  }

  /** A byte string in groups of three. */
  function Encode(d: seq<bv8>): (s: string)
    ensures |s| % 4 == 0
  {
    if d == [] then "" else if |d| <= 3 then Group(d) else Group(d) + Encode(d[3..])
  }

  lemma Ranges()
    ensures forall i :: 0 <= i < 26 ==> UPPER[i] as int == 'A' as int + i
    ensures forall i :: 0 <= i < 26 ==> LOWER[i] as int == 'a' as int + i
    ensures forall i :: 0 <= i < 10 ==> DIGITS[i] as int == '0' as int + i
  {
  }

  /** The decoder's table inverts the encoder's alphabet. */
  lemma AlphabetPosition(i: nat)
    requires i < 64
    ensures Position(ALPHABET[i]) == i && ALPHABET[i] != '='
  {
    Ranges();
    if i < 26 {
      assert ALPHABET[i] == UPPER[i];
    } else if i < 52 {
      assert ALPHABET[i] == LOWER[i - 26];
    } else if i < 62 {
      assert ALPHABET[i] == DIGITS[i - 52];
    }
  }

  lemma DigitValue(b: bv8)
    requires b < 64
    ensures Value(Digit(b)) == b && Digit(b) != '='
  {
    AlphabetPosition(b as int);
  }

  lemma JoinSextets(x: bv8, y: bv8, z: bv8)
    ensures First(Sextet0(x), Sextet1(x, y)) == x
    ensures Second(Sextet1(x, y), Sextet2(y, z)) == y
    ensures Third(Sextet2(y, z), Sextet3(z)) == z
  {
  }

  lemma DecodeOneGroup(d: seq<bv8>)
    requires d != []
    ensures var g := Group(d);
            DecodeGroup(g[0], g[1], g[2], g[3]) == if |d| <= 3 then d else d[..3]
  {
    var x := d[0];
    var y := if |d| > 1 then d[1] else 0;
    var z := if |d| > 2 then d[2] else 0;
    hide Value, Digit, First, Second, Third, Sextet0, Sextet1, Sextet2, Sextet3, High1, High2;
    SextetRange(x, y);
    SextetRange(y, z);
    SextetRange(z, z);
    DigitValue(Sextet0(x));
    DigitValue(Sextet1(x, y));
    DigitValue(Sextet2(y, z));
    DigitValue(Sextet3(z));
    JoinSextets(x, y, z);
  }

  /** Decoding is the inverse of encoding. */
  lemma {:induction false} DecodeEncode(d: seq<bv8>)
    ensures Decode(Encode(d)) == d
  {
    if d != [] {
      hide Group, DecodeGroup;
      DecodeOneGroup(d);
      var e, g := Encode(d), Group(d);
      assert forall i :: 0 <= i < 4 ==> e[i] == g[i];
      if |d| > 3 {
        assert e[4..] == Encode(d[3..]);
        DecodeEncode(d[3..]);
        assert d == d[..3] + d[3..];
      } else {
        assert e[4..] == "";
      }
    }
  }

  lemma DigitIs(b: bv8, c: char)
    requires b < 64 && Position(c) == b as int
    ensures Digit(b) == c
  {
    Ranges();
    var i := b as int;
    if i < 26 {
      assert ALPHABET[i] == UPPER[i];
    } else if i < 52 {
      assert ALPHABET[i] == LOWER[i - 26];
    } else if i < 62 {
      assert ALPHABET[i] == DIGITS[i - 52];
    }
  }

  /** Test vectors of section 10 of RFC 4648. */
  lemma TestVectors()
    ensures Encode([0x66]) == "Zg==" && Encode([0x66, 0x6F]) == "Zm8=" && Encode([0x66, 0x6F, 0x6F]) == "Zm9v"
  {
    DigitIs(25, 'Z');
    DigitIs(32, 'g');
    DigitIs(38, 'm');
    DigitIs(60, '8');
    DigitIs(61, '9');
    DigitIs(47, 'v');
    hide Digit;
  }

  /** The digits 62 and 63 of the alphabet. */
  lemma LastDigits()
    ensures Encode([0xFB, 0xEF, 0xBF]) == "+++/"
  {
    DigitIs(62, '+');
    DigitIs(63, '/');
    hide Digit;
  }

  lemma EncodeFirst(d: seq<bv8>)
    requires d != []
    ensures Encode(d) == if |d| <= 3 then Group(d) else Group(d) + Encode(d[3..])
  {
  }

  /** Whole groups can be cut off at the front and encoded on their own. */
  lemma {:induction false} EncodeSplit(d: seq<bv8>, k: nat)
    requires 3 * k <= |d|
    ensures Encode(d) == Encode(d[..3 * k]) + Encode(d[3 * k..])
    ensures |Encode(d[..3 * k])| == 4 * k
  {
    hide Group, Encode;
    EncodeNone();
    if k == 0 {
      assert d[..0] == [] && d[0..] == d;
    } else {
      var h, t, m := d[..3 * k], d[3..], 3 * (k - 1);
      EncodeSplit(t, k - 1);
      GroupPrefix(d, h);
      EncodeFirst(d);
      EncodeFirst(h);
      assert h[3..] == t[..m] && d[3 * k..] == t[m..];
      AppendAll(Group(d), Encode(t[..m]), Encode(t[m..]));
    }
  }

  lemma AppendAll(a: string, b: string, c: string)
    ensures a + (b + c) == (a + b) + c
    ensures a + "" == a && "" + a == a
  {
  }

  lemma EncodeNone()
    ensures Encode([]) == ""
  {
  }

  lemma GroupPrefix(d: seq<bv8>, h: seq<bv8>)
    requires 3 <= |h| <= |d| && h == d[..|h|]
    ensures Group(h) == Group(d)
  {
  }

  class Base64Encoder {
    const data: seq<bv8>
    const maxResult: int
    var i: nat
    const result: array<char>

    /** Between lines the index is a multiple of three, or past the end. */
    ghost predicate Valid()
      reads this
    {
      0 <= maxResult == result.Length - 1 && i % 3 == 0
    }

    /** The bytes that have not been encoded yet. */
    ghost function Rest(): seq<bv8>
      reads this
    {
      if i <= |data| then data[i..] else []
    }

    constructor (data: seq<bv8>, maxResult: int)
      requires maxResult >= 0
      ensures Valid() && Rest() == data && fresh(result)
      ensures this.data == data && this.maxResult == maxResult
    {
      this.data := data;
      this.maxResult := maxResult;
      i := 0;
      result := new char[maxResult + 1];
    }

    /** The six-bit values of one round of NextLine's loop; 64 stands for a padding character. */
    method NextSextets() returns (s0: bv8, s1: bv8, s2: bv8, s3: bv8)
      requires i < |data|
      modifies this`i
      ensures i == old(i) + 3
      ensures [Character(s0), Character(s1), Character(s2), Character(s3)] == Group(old(Rest()))
    {
      hide Digit, Sextet0, High1, Low1, High2, Low2, Sextet3;
      ghost var d := Rest();
      ghost var y := if |d| > 1 then d[1] else 0;
      ghost var z := if |d| > 2 then d[2] else 0;
      SextetRange(d[0], y);
      SextetRange(y, z);
      SextetRange(z, 0);
      s0 := Sextet0(data[i]);
      var c := High1(data[i]);
      i := i + 1;
      if i < |data| {
        c := c | Low1(data[i]);
      }
      s1 := c;
      if i < |data| {
        c := High2(data[i]);
        i := i + 1;
        if i < |data| {
          c := c | Low2(data[i]);
        }
        s2 := c;
      } else {
        i := i + 1;
        s2 := 64;
      }
      if i < |data| {
        s3 := Sextet3(data[i]);
      } else {
        s3 := 64;
      }
      i := i + 1;
    }

    method PutGroup(r: nat)
      requires i < |data| && r + 4 <= result.Length
      modifies this`i, result
      ensures i == old(i) + 3 && result[..r + 4] == old(result[..r]) + Group(old(Rest()))
      ensures Rest() == if |old(Rest())| > 3 then old(Rest())[3..] else []
    {
      hide Group, Character;
      var s0, s1, s2, s3 := NextSextets();
      result[r], result[r + 1] := Character(s0), Character(s1);
      result[r + 2], result[r + 3] := Character(s2), Character(s3);
      assert result[r..r + 4] == [Character(s0), Character(s1), Character(s2), Character(s3)];
    }

    /** One round of the loop: the next group of the line. */
    method FillOne(r: nat, ghost d: seq<bv8>, ghost k: nat) returns (ghost t: nat)
      requires i < |data| && r + 4 <= result.Length && 3 * k < |d|
      requires Rest() == d[3 * k..] && result[..r] == Encode(d[..3 * k])
      modifies this`i, result
      ensures i == old(i) + 3 && t == if 3 * k + 3 < |d| then 3 * k + 3 else |d|
      ensures Rest() == d[t..] && result[..r + 4] == Encode(d[..t])
    {
      hide Encode, Group, Rest;
      t := if 3 * k + 3 < |d| then 3 * k + 3 else |d|;
      EncodeGrow(d, k);
      RestGrow(d, k);
      PutGroup(r);
    }

    /** The loop of NextLine: k groups, as long as there are data and room for another one. */
    method FillLine() returns (r: nat, ghost k: nat, ghost t: nat)
      requires Valid()
      modifies this`i, result
      ensures r == 4 * k && r <= maxResult && i == old(i) + 3 * k
      ensures |old(Rest())| <= 3 * k || maxResult < 4 * k + 4
      ensures k > 0 ==> 3 * (k - 1) < |old(Rest())|
      ensures t == (if 3 * k < |old(Rest())| then 3 * k else |old(Rest())|)
      ensures Rest() == old(Rest())[t..] && result[..r] == Encode(old(Rest())[..t])
      ensures k == 0 ==> result[..] == old(result[..])
    {
      hide Encode, Group;
      ghost var d := Rest();
      assert |d| == if i <= |data| then |data| - i else 0;
      hide Rest;
      r, k, t := 0, 0, 0;
      EncodeNone();
      assert d[..0] == [] && d[0..] == d;
      while i < |data| && r < maxResult - 3
        invariant r == 4 * k && r <= maxResult && i == old(i) + 3 * k
        invariant t == (if 3 * k < |d| then 3 * k else |d|) && Rest() == d[t..]
        invariant k > 0 ==> 3 * (k - 1) < |d|
        invariant result[..r] == Encode(d[..t])
        invariant k == 0 ==> result[..] == old(result[..])
        decreases |data| - i
      {
        t := FillOne(r, d, k);
        r, k := r + 4, k + 1;
      }
    }

    /** NextLine; None stands for NULL. */
    method NextLine() returns (line: Option<string>)
      requires Valid()
      modifies this`i, result
      ensures Valid()
      ensures var n := LineBytes(|old(Rest())|, maxResult);
              if n == 0 then line == None && i == old(i) && result[..] == old(result[..])
              else && line == Some(Encode(old(Rest())[..n])) && Rest() == old(Rest())[n..]
                   && |line.value| <= maxResult && result[..|line.value| + 1] == line.value + "\0"
    {
      hide Encode, LineBytes;
      ghost var d := Rest();
      var r, k, t := FillLine();
      LineEnd(|d|, maxResult, k);
      if r > 0 {
        result[r] := '\0';
        line := Some(result[..r]);
      } else {
        line := None;
      }
    }
  }

  /** Where the loop stops: at the end of the data or when no further group fits. */
  lemma LineEnd(rest: nat, maxResult: int, k: nat)
    requires 4 * k <= maxResult && (rest <= 3 * k || maxResult < 4 * k + 4) && (k > 0 ==> 3 * (k - 1) < rest)
    ensures LineBytes(rest, maxResult) == if 3 * k < rest then 3 * k else rest
  {
  }

  function Character(b: bv8): char {
    if b < 64 then Digit(b) else '='
  }

  /** The number of bytes that go into the next line. */
  function LineBytes(rest: nat, maxResult: int): nat {
    if maxResult < 4 then 0 else if rest < 3 * (maxResult / 4) then rest else 3 * (maxResult / 4)
  }

  /** One more group. */
  lemma EncodeGrow(d: seq<bv8>, k: nat)
    requires 3 * k < |d|
    ensures Encode(d[..if 3 * k + 3 < |d| then 3 * k + 3 else |d|]) == Encode(d[..3 * k]) + Group(d[3 * k..])
  {
    hide Group, Encode;
    var e := d[..if 3 * k + 3 < |d| then 3 * k + 3 else |d|];
    EncodeSplit(e, k);
    assert e[..3 * k] == d[..3 * k];
    var f := e[3 * k..];
    EncodeFirst(f);
    if |d| > 3 * k + 3 {
      GroupPrefix(d[3 * k..], f);
    } else {
      assert f == d[3 * k..];
    }
  }

  lemma RestGrow(d: seq<bv8>, k: nat)
    requires 3 * k < |d|
    ensures var f := d[3 * k..];
            (if |f| > 3 then f[3..] else []) == d[if 3 * k + 3 < |d| then 3 * k + 3 else |d|..]
  {
  }

  function Concat(lines: seq<string>): string {
    if lines == [] then "" else Concat(lines[..|lines| - 1]) + lines[|lines| - 1]
  }

  /** The first line of what is left and the lines behind it make up the encoding of what is left. */
  lemma LineSplits(d: seq<bv8>, maxResult: int)
    requires maxResult >= 4
    ensures var n := LineBytes(|d|, maxResult); Encode(d) == Encode(d[..n]) + Encode(d[n..])
  {
    hide Encode;
    var n := LineBytes(|d|, maxResult);
    if n == |d| {
      EncodeNone();
      assert d[..n] == d && d[n..] == [];
    } else {
      EncodeSplit(d, maxResult / 4);
    }
  }

  /** A line that does not end the data has no room for another group. */
  lemma LineFull(d: seq<bv8>, maxResult: int)
    requires maxResult >= 4
    ensures var n := LineBytes(|d|, maxResult); n < |d| ==> |Encode(d[..n])| > maxResult - 4
  {
    hide Encode;
    if LineBytes(|d|, maxResult) < |d| {
      EncodeSplit(d, maxResult / 4);
    }
  }

  lemma LineNotEmpty(d: seq<bv8>)
    requires d != []
    ensures 0 < |Encode(d)|
  {
  }

  /** NextLine with room for a group: NULL exactly at the end of the data, otherwise a line that moves on. */
  method FetchLine(encoder: Base64Encoder) returns (line: Option<string>)
    requires encoder.Valid() && encoder.maxResult >= 4
    modifies encoder`i, encoder.result
    ensures encoder.Valid()
    ensures line.None? <==> old(encoder.Rest()) == []
    ensures line.Some? ==> |encoder.Rest()| < |old(encoder.Rest())|
    ensures line.Some? ==> 0 < |line.value| <= encoder.maxResult && |line.value| % 4 == 0
    ensures line.Some? ==> encoder.Rest() == [] || |line.value| > encoder.maxResult - 4
    ensures line.Some? ==> line.value + Encode(encoder.Rest()) == Encode(old(encoder.Rest()))
  {
    hide Encode;
    ghost var d := encoder.Rest();
    line := encoder.NextLine();
    ghost var n := LineBytes(|d|, encoder.maxResult);
    if n > 0 {
      LineSplits(d, encoder.maxResult);
      LineFull(d, encoder.maxResult);
      LineNotEmpty(d[..n]);
    }
  }

  /**
   * What the header asks of a caller: call NextLine until it returns NULL. It does return NULL, the
   * lines have the promised lengths, and together they decode to the data.
   */
  method EncodeLines(data: seq<bv8>, maxResult: int) returns (lines: seq<string>)
    requires maxResult >= 4
    ensures forall j :: 0 <= j < |lines| ==> 0 < |lines[j]| <= maxResult && |lines[j]| % 4 == 0
    ensures forall j :: 0 <= j < |lines| - 1 ==> |lines[j]| > maxResult - 4
    ensures Concat(lines) == Encode(data)
    ensures |Concat(lines)| % 4 == 0 && Decode(Concat(lines)) == data
  {
    hide Encode, Decode;
    var encoder := new Base64Encoder(data, maxResult);
    lines := [];
    ghost var rest := data;
    var line := FetchLine(encoder);
    while line.Some?
      invariant encoder.Valid() && encoder.maxResult == maxResult && fresh(encoder) && fresh(encoder.result)
      invariant forall j :: 0 <= j < |lines| ==> 0 < |lines[j]| <= maxResult && |lines[j]| % 4 == 0
      invariant forall j :: 0 <= j < |lines| && (j < |lines| - 1 || rest != []) ==> |lines[j]| > maxResult - 4
      invariant line.Some? && encoder.Rest() != [] ==> |line.value| > maxResult - 4
      invariant Concat(lines) + Encode(rest) == Encode(data)
      invariant line.None? <==> rest == []
      invariant line.Some? ==> 0 < |line.value| <= maxResult && |line.value| % 4 == 0
      invariant line.Some? ==> |encoder.Rest()| < |rest| && line.value + Encode(encoder.Rest()) == Encode(rest)
      decreases |rest|
    {
      ghost var before := lines;
      lines := lines + [line.value];
      assert lines[..|lines| - 1] == before;
      AppendAll(Concat(before), line.value, Encode(encoder.Rest()));
      rest := encoder.Rest();
      line := FetchLine(encoder);
    }
    EncodeNone();
    AppendAll(Concat(lines), "", "");
    DecodeEncode(data);
  }
}
