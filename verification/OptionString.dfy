/** What C strings have in common. */
module CStrings {

  ghost predicate NoNul(s: seq<char>) {
    forall i :: 0 <= i < |s| ==> s[i] != '\0'
  }
}

/** strescape of libvdr-tools.c, and the option strings it prints. */
module StringEscape {

  function Escape(s: string, chars: string): string {
    if s == "" then "" else (if s[0] in chars then ['\\', s[0]] else [s[0]]) + Escape(s[1..], chars)
  }

  lemma {:induction false} EscapeAppend(a: string, b: string, chars: string)
    ensures Escape(a + b, chars) == Escape(a, chars) + Escape(b, chars)
  {
    if a == "" {
      assert a + b == b;
    } else {
      assert (a + b)[1..] == a[1..] + b;
      EscapeAppend(a[1..], b, chars);
    }
  }

  function Specials(s: string, chars: string): nat {
    if s == "" then 0 else (if s[0] in chars then 1 else 0) + Specials(s[1..], chars)
  }

  /** Every character stays, in order; exactly the special ones get a backslash in front. */
  lemma {:induction false} EscapeMeaning(s: string, chars: string, k: nat)
    requires k < |s|
    ensures |Escape(s, chars)| == |s| + Specials(s, chars)
    ensures var p := k + Specials(s[..k], chars);
            && p < |Escape(s, chars)|
            && if s[k] in chars then p + 1 < |Escape(s, chars)| && Escape(s, chars)[p..p + 2] == ['\\', s[k]]
               else Escape(s, chars)[p] == s[k]
  {
    var e, t := Escape(s, chars), Escape(s[1..], chars);
    if k > 0 {
      EscapeMeaning(s[1..], chars, k - 1);
      assert s[..k][1..] == s[1..][..k - 1];
      var d := if s[0] in chars then 2 else 1;
      assert e[d..] == t;
    } else if |s| > 1 {
      EscapeMeaning(s[1..], chars, 0);
    } else {
      assert s[1..] == "" && t == "";
    }
  }

  lemma EscapeNext(s: string, p: nat, chars: string)
    requires p < |s|
    ensures s[..p + 1] == s[..p] + [s[p]]
    ensures Escape(s[..p + 1], chars) == Escape(s[..p], chars) + if s[p] in chars then ['\\', s[p]] else [s[p]]
  {
    assert s[..p + 1] == s[..p] + [s[p]];
    EscapeAppend(s[..p], [s[p]], chars);
    assert [s[p]][1..] == "";
  }

  method Put(buffer: array<char>, t: nat, c: char)
    requires t < buffer.Length
    modifies buffer
    ensures buffer[..t + 1] == old(buffer[..t]) + [c]
  {
    buffer[t] := c;
  }

  /** malloc and strcpy, which leave the first p characters at their places. */
  method Copied(s: string, p: nat) returns (buffer: array<char>)
    requires p <= |s|
    ensures fresh(buffer) && buffer.Length == 2 * |s| + 1 && buffer[..p] == s[..p]
  {
    buffer := new char[2 * |s| + 1](i requires i >= 0 => if i < |s| then s[i] else '\0');
  }

  /** What has been copied of the first p characters; the buffer is allocated at the first that needs a backslash. */
  ghost predicate Copying(s: string, p: nat, chars: string, buffer: array<char>, t: int)
    reads buffer
  {
    && p <= |s|
    && if t < 0 then Escape(s[..p], chars) == s[..p]
       else buffer.Length == 2 * |s| + 1 && t <= 2 * p && buffer[..t] == Escape(s[..p], chars)
  }

  /** One round of the loop; t is NULL (-1) as long as there is no buffer. */
  method EscapeOne(s: string, p: nat, chars: string, buffer: array<char>, t: int)
    returns (buffer': array<char>, t': int)
    requires p < |s| && Copying(s, p, chars, buffer, t)
    modifies buffer
    ensures Copying(s, p + 1, chars, buffer', t')
    ensures buffer' == buffer || fresh(buffer')
  {
    hide Escape;
    EscapeNext(s, p, chars);
    buffer', t' := buffer, t;
    if s[p] in chars {
      if t < 0 {
        buffer' := Copied(s, p);
        t' := p;
      }
      Put(buffer', t', '\\');
      t' := t' + 1;
    }
    if t' >= 0 {
      Put(buffer', t', s[p]);
      t' := t' + 1;
    }
  }

  method StrEscape(s: string, chars: string) returns (r: string)
    ensures r == Escape(s, chars)
  {
    var buffer := new char[0];
    var p, t := 0, -1;
    assert s[..0] == "" == Escape("", chars);
    hide Escape;
    while p < |s|
      invariant Copying(s, p, chars, buffer, t) && fresh(buffer)
    {
      buffer, t := EscapeOne(s, p, chars, buffer, t);
      p := p + 1;
    }
    assert s[..|s|] == s;
    if t >= 0 {
      buffer[t] := '\0';
      r := buffer[..t];
    } else {
      r := s;
    }
  }
}

/** The parser and the lookups of avahi-helper.h. */
module AvahiHelper {
  import opened CStrings
  import opened Options
  import opened StringEscape

  // --- what the parser computes ---------------------------------------------

  function SkipCommas(o: string): string {
    if o != "" && o[0] == ',' then SkipCommas(o[1..]) else o
  }

  /**
   * The items of the rest of an option string, where cur is the de-escaped beginning of the current
   * item. A comma after a character that is a backslash once de-escaped does not separate.
   */
  function ParseFrom(rest: string, cur: string): seq<string>
    decreases |rest|
  {
    if rest == "" then if cur != "" then [cur] else []
    else if rest[0] == '\\' && |rest| > 1 then ParseFrom(rest[2..], cur + [rest[1]])
    else if rest[0] == ',' && !EndsInBackslash(cur) then [cur] + ParseFrom(rest[1..], "")
    else ParseFrom(rest[1..], cur + [rest[0]])
  }

  predicate EndsInBackslash(s: string) {
    s != "" && s[|s| - 1] == '\\'
  }

  function Parse(options: string): seq<string> {
    ParseFrom(SkipCommas(options), "")
  }

  /** The string that starts at position p of a buffer: what strdup copies. */
  function CString(b: seq<char>, p: nat): string
    decreases |b| - p
  {
    if p >= |b| || b[p] == '\0' then "" else [b[p]] + CString(b, p + 1)
  }

  lemma NoNulEmpty()
    ensures NoNul("")
  {
  }

  lemma NoNulParts(cur: string, rest: string)
    requires NoNul(cur) && NoNul(rest) && rest != ""
    ensures NoNul(cur + [rest[0]]) && NoNul(rest[1..])
    ensures |rest| > 1 ==> NoNul(cur + [rest[1]]) && NoNul(rest[2..])
  {
  }

  lemma {:induction false} CStringOf(b: seq<char>, p: nat, q: nat)
    requires p <= q < |b| && b[q] == '\0' && NoNul(b[p..q])
    ensures CString(b, p) == b[p..q]
    decreases q - p
  {
    if p < q {
      assert b[p] == b[p..q][0] && b[p..q][1..] == b[p + 1..q];
      CStringOf(b, p + 1, q);
    }
  }

  lemma {:induction false} SkipCommasAt(o: string, k: nat)
    requires k <= |o| && (forall i :: 0 <= i < k ==> o[i] == ',') && (k < |o| ==> o[k] != ',')
    ensures SkipCommas(o) == o[k..]
  {
    if k > 0 {
      SkipCommasAt(o[1..], k - 1);
      assert o[1..][k - 1..] == o[k..];
    }
  }

  lemma ParseStart(options: string, k: nat)
    requires k <= |options| && (forall i :: 0 <= i < k ==> options[i] == ',') && (k < |options| ==> options[k] != ',')
    ensures Parse(options) == ParseFrom(options[k..], "")
  {
    SkipCommasAt(options, k);
  }

  lemma ParseStep(rest: string, cur: string)
    requires rest != ""
    ensures ParseFrom(rest, cur) ==
            if rest[0] == '\\' && |rest| > 1 then ParseFrom(rest[2..], cur + [rest[1]])
            else if rest[0] == ',' && !EndsInBackslash(cur) then [cur] + ParseFrom(rest[1..], "")
            else ParseFrom(rest[1..], cur + [rest[0]])
  {
  }

  lemma ParseEnd(cur: string)
    ensures ParseFrom("", cur) == if cur != "" then [cur] else []
  {
  }

  lemma LastChar(cur: string, b: seq<char>, p: nat, q: nat)
    requires p <= q <= |b| && cur == b[p..q]
    ensures EndsInBackslash(cur) <==> p < q && b[q - 1] == '\\'
  {
  }

  ghost predicate Matches(text: string, name: string) {
    |text| > |name| && text[..|name|] == name && text[|name|] == '='
  }

  /** The values of a name, in the order of the list. */
  ghost function Values(list: seq<string>, name: string): seq<string> {
    if list == [] then []
    else
      var init, text := list[..|list| - 1], list[|list| - 1];
      if Matches(text, name) then Values(init, name) + [text[|name| + 1..]] else Values(init, name)
  }

  /** The parser's buffer: behind the items before pos1, what has been read of the current one, and the rest. */
  ghost predicate Scanning(b: seq<char>, pos1: nat, pos2: nat, len: nat, cur: string, rest: string) {
    && pos1 <= pos2 <= len < |b| && b[len] == '\0'
    && cur == b[pos1..pos2] && rest == b[pos2..len] && NoNul(cur) && NoNul(rest)
    && (pos1 == pos2 > 0 ==> b[pos2 - 1] != '\\')
    && (pos1 == pos2 == 0 < len ==> b[0] != ',')
  }

  class Helper {
    var list: seq<string>

    constructor (options: Option<string>)
      requires options.Some? ==> NoNul(options.value)
      ensures list == if options.None? then [] else Parse(options.value)
    {
      list := [];
      new;
      if options.Some? {
        ParseInPlace(options.value);
      }
    }

    method ParseInPlace(options: string)
      requires NoNul(options) && list == []
      modifies this
      ensures list == Parse(options)
    {
      var s := new char[|options| + 1](i requires i >= 0 => if i < |options| then options[i] else '\0');
      var len := |options|;
      assert s[..len] == options;
      var pos1 := FirstNonComma(s, len);
      ParseStart(options, pos1);
      assert s[pos1..len] == options[pos1..];
      Split(s, pos1, len);
    }

    /** The main loop: splits the rest of the buffer and de-escapes it on the way. */
    method Split(s: array<char>, start: nat, length: nat)
      requires start <= length < s.Length && s[length] == '\0' && NoNul(s[start..length])
      requires start == 0 < length ==> s[0] != ','
      requires start > 0 ==> s[start - 1] != '\\'
      modifies this, s
      ensures list == old(list) + ParseFrom(old(s[start..length]), "")
    {
      hide ParseFrom;
      var pos1, pos2, len := start, start, length;
      ghost var cur, rest := "", s[start..length];
      while pos2 < len
        invariant Scanning(s[..], pos1, pos2, len, cur, rest)
        invariant list + ParseFrom(rest, cur) == old(list) + ParseFrom(old(s[start..length]), "")
        decreases len - pos2
      {
        pos1, len, cur, rest := ScanOne(s, pos1, pos2, len, cur, rest);
        pos2 := pos2 + 1;
      }
      ParseEnd(cur);
      if pos2 > pos1 {
        AddItem(s, pos1, pos2);
      }
    }

    /** One round of the loop, at pos2 < len. */
    method ScanOne(s: array<char>, pos1: nat, pos2: nat, len: nat, ghost cur: string, ghost rest: string)
      returns (pos1': nat, len': nat, ghost cur': string, ghost rest': string)
      requires Scanning(s[..], pos1, pos2, len, cur, rest) && pos2 < len
      modifies this, s
      ensures Scanning(s[..], pos1', pos2 + 1, len', cur', rest') && len' <= len
      ensures list + ParseFrom(rest', cur') == old(list) + ParseFrom(rest, cur)
    {
      hide ParseFrom, CString, EndsInBackslash, NoNul;
      NoNulEmpty();
      ParseStep(rest, cur);
      NoNulParts(cur, rest);
      LastChar(cur, s[..], pos1, pos2);
      assert rest[0] == s[pos2] && |rest| == len - pos2;
      pos1', len' := pos1, len;
      if s[pos2] == '\\' && pos2 < len - 1 {
        Deescape(s, pos1, pos2, len);
        len' := len - 1;
        cur', rest' := cur + [rest[1]], rest[2..];
      } else if s[pos2] == ',' && s[pos2 - 1] != '\\' {
        Separate(s, pos1, pos2, len);
        pos1' := pos2 + 1;
        cur', rest' := "", rest[1..];
      } else {
        cur', rest' := cur + [rest[0]], rest[1..];
      }
    }

    /** Ends the item at the separator and appends it. */
    method Separate(s: array<char>, pos1: nat, pos2: nat, ghost len: nat)
      requires pos1 <= pos2 < len < s.Length && NoNul(s[pos1..pos2])
      modifies this, s
      ensures list == old(list) + [old(s[pos1..pos2])] && s[pos2] == '\0'
      ensures s[pos2 + 1..len] == old(s[pos2..len])[1..] && s[len] == old(s[len])
    {
      s[pos2] := '\0';
      assert s[pos1..pos2] == old(s[pos1..pos2]);
      AddItem(s, pos1, pos2);
    }

    /** _list.Append(strdup(s + pos1)) */
    method AddItem(s: array<char>, pos1: nat, ghost pos2: nat)
      requires pos1 <= pos2 < s.Length && s[pos2] == '\0' && NoNul(s[pos1..pos2])
      modifies this
      ensures list == old(list) + [s[pos1..pos2]]
    {
      CStringOf(s[..], pos1, pos2);
      list := list + [CString(s[..], pos1)];
    }

    method FirstNonComma(s: array<char>, len: nat) returns (pos1: nat)
      requires len <= s.Length
      ensures pos1 <= len && (pos1 < len ==> s[..len][pos1] != ',')
      ensures forall i :: 0 <= i < pos1 ==> s[..len][i] == ','
    {
      pos1 := 0;
      while pos1 < len && s[pos1] == ','
        invariant 0 <= pos1 <= len && forall i :: 0 <= i < pos1 ==> s[i] == ','
      {
        pos1 := pos1 + 1;
      }
    }

    /** Drops the backslash at pos2: memmove of the characters behind it, and a new terminator. */
    method Deescape(s: array<char>, ghost pos1: nat, pos2: nat, len: nat)
      requires pos1 <= pos2 < len - 1 && len < s.Length
      modifies s
      ensures s[pos1..pos2 + 1] == old(s[pos1..pos2]) + [old(s[pos2 + 1])]
      ensures s[pos2 + 1..len - 1] == old(s[pos2..len])[2..]
      ensures s[len - 1] == '\0' && s[pos2] == old(s[pos2 + 1])
    {
      forall i | pos2 <= i < len - 1 {
        s[i] := s[i + 1];
      }
      s[len - 1] := '\0';
    }

    /** Get: a negative number means the first value. */
    method Get(name: Option<string>, number: int) returns (r: Option<string>)
      ensures name.None? || name.value == "" ==> r.None?
      ensures name.Some? && name.value != "" ==>
                var n := if number < 0 then 0 else number;
                r == if n < |Values(list, name.value)| then Some(Values(list, name.value)[n]) else None
    {
      if name.None? || |name.value| == 0 {
        return None;
      }
      var key, left := name.value, number;
      for i := 0 to |list|
        invariant left == number - |Values(list[..i], key)|
        invariant left >= 0 || i == 0 || |Values(list[..i], key)| == 0
      {
        var text := list[i];
        assert list[..i + 1][..i] == list[..i];
        if |text| > |key| {
          if text[..|key|] == key && text[|key|] == '=' {
            left := left - 1;
            if left < 0 {
              ValuesPrefix(list, key, i + 1);
              return Some(text[|key| + 1..]);
            }
          }
        }
      }
      assert list[..|list|] == list;
      return None;
    }

    method Count(name: Option<string>) returns (count: nat)
      ensures count == if name.None? || name.value == "" then 0 else |Values(list, name.value)|
    {
      if name.None? || |name.value| == 0 {
        return 0;
      }
      var key := name.value;
      count := 0;
      for i := 0 to |list|
        invariant count == |Values(list[..i], key)|
      {
        var text := list[i];
        assert list[..i + 1][..i] == list[..i];
        if |text| > |key| {
          if text[..|key|] == key && text[|key|] == '=' {
            count := count + 1;
          }
        }
      }
      assert list[..|list|] == list;
    }
  }

  lemma {:induction false} ValuesPrefix(list: seq<string>, name: string, i: nat)
    requires i <= |list|
    ensures Values(list[..i], name) <= Values(list, name)
    decreases |list|
  {
    if i < |list| {
      var init := list[..|list| - 1];
      assert init[..i] == list[..i];
      ValuesPrefix(init, name, i);
    } else {
      assert list[..i] == list;
    }
  }

  // --- printing and parsing -------------------------------------------------

  const SPECIAL := "\\,"

  /** Escaped items, separated by commas. */
  function Join(items: seq<string>): string
    decreases |items|, 0
  {
    if items == [] then "" else Escape(items[0], SPECIAL) + JoinRest(items[1..])
  }

  /** The items behind the first, with the separator in front of them. */
  function JoinRest(items: seq<string>): string
    decreases |items|, 1
  {
    if items == [] then "" else [','] + Join(items)
  }

  /** Reading an escaped item adds the item to what has been read, whatever else has a backslash in front of it. */
  lemma {:induction false} ParseEscaped(x: string, chars: string, rest: string, cur: string)
    requires '\\' in chars && ',' in chars
    ensures ParseFrom(Escape(x, chars) + rest, cur) == ParseFrom(rest, cur + x)
    decreases |x|
  {
    var e := Escape(x, chars) + rest;
    if x == "" {
      assert e == rest && cur + x == cur;
    } else {
      var tail := Escape(x[1..], chars) + rest;
      assert e == (if x[0] in chars then ['\\', x[0]] else [x[0]]) + tail;
      ParseEscaped(x[1..], chars, rest, cur + [x[0]]);
      assert cur + [x[0]] + x[1..] == cur + x;
      if x[0] in chars {
        assert e[2..] == tail;
      } else {
        assert e[1..] == tail && e[0] == x[0];
      }
    }
  }

  /** What the parser makes of an item in progress and the items behind it. */
  function Glue(cur: string, items: seq<string>): seq<string>
    decreases |items|
  {
    if items == [] then if cur != "" then [cur] else []
    else if EndsInBackslash(cur) then Glue(cur + "," + items[0], items[1..])
    else [cur] + Glue(items[0], items[1..])
  }

  lemma {:induction false} ParseJoinRest(items: seq<string>, cur: string)
    ensures ParseFrom(JoinRest(items), cur) == Glue(cur, items)
    decreases |items|
  {
    if items != [] {
      assert JoinRest(items)[1..] == Join(items);
      if EndsInBackslash(cur) {
        ParseEscaped(items[0], SPECIAL, JoinRest(items[1..]), cur + ",");
        ParseJoinRest(items[1..], cur + "," + items[0]);
      } else {
        ParseEscaped(items[0], SPECIAL, JoinRest(items[1..]), "");
        assert "" + items[0] == items[0];
        ParseJoinRest(items[1..], items[0]);
      }
    }
  }

  /** Gluing never makes more items, and keeps all of them exactly if it glues none and drops none. */
  lemma {:induction false} GlueKeeps(cur: string, items: seq<string>)
    ensures |Glue(cur, items)| <= 1 + |items|
    ensures Glue(cur, items) == [cur] + items <==>
            && ([cur] + items)[|items|] != ""
            && forall i :: 0 <= i < |items| ==> !EndsInBackslash(([cur] + items)[i])
    decreases |items|
  {
    if items != [] {
      var all := [cur] + items;
      var x, r := items[0], items[1..];
      assert items == [x] + r;
      if EndsInBackslash(cur) {
        GlueKeeps(cur + "," + x, r);
        assert all[0] == cur;
      } else {
        GlueKeeps(x, r);
        assert ([cur] + Glue(x, r))[1..] == Glue(x, r) && all[1..] == [x] + r;
        assert forall i :: 0 <= i < |r| ==> ([x] + r)[i] == all[i + 1];
        assert forall i :: 0 < i < |items| ==> all[i] == ([x] + r)[i - 1];
      }
    }
  }

  lemma EscapeStart(x: string, tail: string)
    requires x != ""
    ensures SkipCommas(Escape(x, SPECIAL) + tail) == Escape(x, SPECIAL) + tail
  {
  }

  lemma ParseJoinNonEmptyFirst(x: string, r: seq<string>)
    requires x != ""
    ensures Parse(Escape(x, SPECIAL) + JoinRest(r)) == Glue(x, r)
  {
    EscapeStart(x, JoinRest(r));
    hide Escape, Glue, JoinRest, ParseFrom;
    ParseEscaped(x, SPECIAL, JoinRest(r), "");
    assert "" + x == x;
    ParseJoinRest(r, x);
  }

  /** A backslash stands for the character behind it, whether that one is special or not, and at the end for itself. */
  lemma NeedlessBackslashes(x: string, chars: string)
    requires x != "" && '\\' in chars && ',' in chars
    ensures Parse(Escape(x, chars)) == [x] && Parse(Escape(x, chars) + "\\") == [x + "\\"]
  {
    assert SkipCommas(Escape(x, chars)) == Escape(x, chars) + "";
    assert SkipCommas(Escape(x, chars) + "\\") == Escape(x, chars) + "\\";
    ParseEscaped(x, chars, "", "");
    ParseEscaped(x, chars, "\\", "");
    assert "" + x == x;
    hide Escape, SkipCommas;
    ParseStep("\\", x);
  }

  lemma ParseLeadingComma(o: string)
    ensures Parse([','] + o) == Parse(o)
  {
  }

  lemma ParseJoinEmptyFirst(r: seq<string>)
    ensures Parse(Escape("", SPECIAL) + JoinRest(r)) == Parse(Join(r))
  {
    assert Escape("", SPECIAL) == "";
    hide Parse, Escape;
    assert "" + JoinRest(r) == JoinRest(r);
    if r != [] {
      ParseLeadingComma(Join(r));
    }
  }

  lemma {:induction false} ParseJoin(items: seq<string>)
    ensures Parse(Join(items)) ==
            if items == [] then [] else if items[0] == "" then Parse(Join(items[1..])) else Glue(items[0], items[1..])
    ensures |Parse(Join(items))| <= |items|
    decreases |items|
  {
    if items != [] {
      hide Escape, Glue, JoinRest, Parse;
      var x, r := items[0], items[1..];
      if x == "" {
        ParseJoinEmptyFirst(r);
        ParseJoin(r);
      } else {
        ParseJoinNonEmptyFirst(x, r);
        GlueKeeps(x, r);
      }
    }
  }

  ghost predicate RoundTrips(items: seq<string>) {
    items == [] || (
      && items[0] != "" && items[|items| - 1] != ""
      && forall i :: 0 <= i < |items| - 1 ==> !EndsInBackslash(items[i]))
  }

  /**
   * Printing a list with strescape and parsing it gives the list back exactly if the first and the
   * last item are not empty and no item except possibly the last ends in a backslash.
   */
  lemma PrintParse(items: seq<string>)
    ensures Parse(Join(items)) == items <==> RoundTrips(items)
  {
    ParseJoin(items);
    if items != [] {
      if items[0] == "" {
        ParseJoin(items[1..]);
      } else {
        assert [items[0]] + items[1..] == items;
        GlueKeeps(items[0], items[1..]);
      }
    }
  }

  /** An item that ends in a backslash swallows the separator behind it. */
  lemma BackslashExample()
    ensures Parse(Join(["a\\", "b"])) == ["a\\,b"]
  {
    ParseJoin(["a\\", "b"]);
    assert ["a\\", "b"][1..] == ["b"];
    assert ["b"][1..] == [];
    assert "a\\" + "," + "b" == "a\\,b";
    assert Glue("a\\", ["b"]) == Glue("a\\,b", []);
  }

  // --- keyed lookups --------------------------------------------------------

  datatype Pair = Pair(key: string, value: string)

  function Items(pairs: seq<Pair>): seq<string> {
    seq(|pairs|, i requires 0 <= i < |pairs| => pairs[i].key + "=" + pairs[i].value)
  }

  ghost function ValuesOf(pairs: seq<Pair>, key: string): seq<string> {
    if pairs == [] then []
    else
      var init, p := pairs[..|pairs| - 1], pairs[|pairs| - 1];
      if p.key == key then ValuesOf(init, key) + [p.value] else ValuesOf(init, key)
  }

  predicate GoodKey(key: string) {
    key != "" && '=' !in key
  }

  lemma ItemMatches(p: Pair, key: string)
    requires GoodKey(p.key) && GoodKey(key)
    ensures var text := p.key + "=" + p.value;
            && (Matches(text, key) <==> p.key == key)
            && (p.key == key ==> text[|key| + 1..] == p.value)
  {
    var text := p.key + "=" + p.value;
    assert text[|p.key|] == '=' && text[..|p.key|] == p.key;
    if |key| < |p.key| {
      assert text[|key|] == p.key[|key|] != '=';
    } else if |p.key| < |key| < |text| {
      assert text[..|key|][|p.key|] == text[|p.key|] && key[|p.key|] != '=';
    }
  }

  lemma {:induction false} ItemValues(pairs: seq<Pair>, key: string)
    requires GoodKey(key) && forall i :: 0 <= i < |pairs| ==> GoodKey(pairs[i].key)
    ensures Values(Items(pairs), key) == ValuesOf(pairs, key)
  {
    if pairs != [] {
      var init, p := pairs[..|pairs| - 1], pairs[|pairs| - 1];
      var items := Items(pairs);
      assert items[..|items| - 1] == Items(init);
      ItemMatches(p, key);
      ItemValues(init, key);
    }
  }

  lemma ItemEnds(p: Pair)
    ensures var text := p.key + "=" + p.value; text != "" && (EndsInBackslash(text) <==> EndsInBackslash(p.value))
  {
  }

  lemma ItemsRoundTrip(pairs: seq<Pair>)
    requires forall i :: 0 <= i < |pairs| - 1 ==> !EndsInBackslash(pairs[i].value)
    ensures RoundTrips(Items(pairs))
  {
    hide EndsInBackslash;
    forall i | 0 <= i < |pairs|
      ensures Items(pairs)[i] != "" && (EndsInBackslash(Items(pairs)[i]) <==> EndsInBackslash(pairs[i].value))
    {
      ItemEnds(pairs[i]);
    }
  }

  /**
   * Pairs printed as key=value and parsed again are found by their keys: Get(key, n) is the n-th value
   * of that key and Count(key) the number of its values (their contracts speak of Values).
   */
  lemma LookupAfterPrintParse(pairs: seq<Pair>, key: string)
    requires GoodKey(key) && forall i :: 0 <= i < |pairs| ==> GoodKey(pairs[i].key)
    requires forall i :: 0 <= i < |pairs| - 1 ==> !EndsInBackslash(pairs[i].value)
    ensures Values(Parse(Join(Items(pairs))), key) == ValuesOf(pairs, key)
  {
    hide Parse, Join, Values, ValuesOf, EndsInBackslash, RoundTrips;
    var items := Items(pairs);
    ItemsRoundTrip(pairs);
    PrintParse(items);
    ItemValues(pairs, key);
  }
}
