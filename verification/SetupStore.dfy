/** compactspace, skipspace, stripspace and endswith of libvdr-tools.c. */
module TextTools {
  import opened CStrings
  import opened Filters

  /** White space and control characters, as skipspace sees them. */
  predicate Blank(c: char) {
    c <= ' '
  }

  /** isspace in the C locale. */
  predicate IsSpace(c: char) {
    c == ' ' || '\t' <= c <= '\r'
  }

  function SkipSpace(s: string): string {
    if s != "" && Blank(s[0]) then SkipSpace(s[1..]) else s
  }

  function StripSpace(s: string): string {
    if s != "" && IsSpace(s[|s| - 1]) then StripSpace(s[..|s| - 1]) else s
  }

  /** Of each run of blanks only the first one stays. */
  function Collapse(s: string): string
    decreases |s|
  {
    if s == "" then "" else [s[0]] + Collapse(if Blank(s[0]) then SkipTail(s) else s[1..])
  }

  function SkipTail(s: string): (r: string)
    requires s != ""
    ensures |r| < |s|
  {
    SkipShorter(s[1..]);
    SkipSpace(s[1..])
  }

  lemma {:induction false} SkipShorter(s: string)
    ensures |SkipSpace(s)| <= |s|
  {
    if s != "" {
      SkipShorter(s[1..]);
    }
  }

  function CompactSpace(s: string): string {
    Collapse(StripSpace(SkipSpace(s)))
  }

  /** isspace as the C standard lists it for the C locale; skipspace takes all control characters for blanks as well. */
  lemma WhiteSpace(c: char)
    ensures IsSpace(c) <==> c in " \t\n\r" || c == '\U{0B}' || c == '\U{0C}'
    ensures Blank(c) <==> IsSpace(c) || c as int < 32
  {
  }

  // --- what compacting keeps and what it removes ----------------------------

  predicate Solid(c: char) {
    !Blank(c)
  }

  lemma {:induction false} SkipKeeps(s: string)
    ensures Filter(SkipSpace(s), Solid) == Filter(s, Solid)
    ensures SkipSpace(s) == "" || !Blank(SkipSpace(s)[0])
  {
    if s != "" {
      SkipKeeps(s[1..]);
    }
  }

  /** Stripping cuts off all white space at the end, and nothing else. */
  lemma {:induction false} StripKeeps(s: string)
    ensures Filter(StripSpace(s), Solid) == Filter(s, Solid)
    ensures StripSpace(s) <= s
    ensures StripSpace(s) == s <==> s == "" || !IsSpace(s[|s| - 1])
    ensures StripSpace(s) == "" || !IsSpace(StripSpace(s)[|StripSpace(s)| - 1])
    ensures forall i :: |StripSpace(s)| <= i < |s| ==> IsSpace(s[i])
    decreases |s|
  {
    if s != "" && IsSpace(s[|s| - 1]) {
      var init, c := s[..|s| - 1], s[|s| - 1];
      StripKeeps(init);
      FilterAppend(init, c, Solid);
      assert s == init + [c];
    }
  }

  /** No two blanks in a row. */
  predicate Single(s: string) {
    forall i :: 0 < i < |s| ==> !(Blank(s[i - 1]) && Blank(s[i]))
  }

  lemma {:induction false} CollapseKeeps(s: string)
    ensures Filter(Collapse(s), Solid) == Filter(s, Solid) && Single(Collapse(s)) && |Collapse(s)| <= |s|
    ensures s != "" ==> Collapse(s) != "" && Collapse(s)[0] == s[0]
    decreases |s|
  {
    if s != "" {
      var rest := if Blank(s[0]) then SkipTail(s) else s[1..];
      CollapseKeeps(rest);
      SkipKeeps(s[1..]);
      assert Collapse(s)[1..] == Collapse(rest);
      forall i | 0 < i < |Collapse(s)|
        ensures !(Blank(Collapse(s)[i - 1]) && Blank(Collapse(s)[i]))
      {
        assert Collapse(s)[i] == Collapse(rest)[i - 1];
        assert i > 1 ==> Collapse(s)[i - 1] == Collapse(rest)[i - 2];
      }
    }
  }

  lemma {:induction false} CollapseSingle(s: string)
    requires Single(s)
    ensures Collapse(s) == s
    decreases |s|
  {
    if s != "" {
      assert Single(s[1..]) by {
        assert forall i :: 0 < i < |s[1..]| ==> s[1..][i - 1] == s[i] && s[1..][i] == s[i + 1];
      }
      CollapseSingle(s[1..]);
      assert Blank(s[0]) ==> SkipTail(s) == s[1..];
    }
  }

  /** Everything that is not blank stays, in order; what stays of the blanks is single and not at the front. */
  lemma CompactSpaceShape(s: string)
    ensures Filter(CompactSpace(s), Solid) == Filter(s, Solid) && Single(CompactSpace(s))
    ensures CompactSpace(s) == "" || !Blank(CompactSpace(s)[0])
  {
    SkipKeeps(s);
    StripKeeps(SkipSpace(s));
    CollapseKeeps(StripSpace(SkipSpace(s)));
  }

  /**
   * Compacting a second time changes nothing if and only if white space at the end is gone the first time,
   * which a control character behind it prevents.
   */
  lemma CompactTwice(s: string)
    ensures var r := CompactSpace(s);
            CompactSpace(r) == r <==> r == "" || !IsSpace(r[|r| - 1])
  {
    var r := CompactSpace(s);
    CompactSpaceShape(s);
    StripKeeps(r);
    CollapseSingle(r);
    CollapseKeeps(StripSpace(r));
  }

  lemma CompactTwiceExample()
    ensures CompactSpace("a \U{0001}") == "a " && CompactSpace("a ") == "a"
  {
    var s := "a \U{0001}";
    assert SkipSpace(s) == s && StripSpace(s) == s;
    assert SkipTail(s[1..]) == "" by {
      assert s[1..][1..] == "\U{0001}" && "\U{0001}"[1..] == "";
    }
    assert Collapse(s[1..]) == " ";
    assert StripSpace("a ") == "a" by {
      assert "a "[..1] == "a";
    }
    assert Collapse("a") == "a";
  }

  lemma {:induction false} FilterHolds(s: string, c: char, p: char -> bool)
    requires p(c)
    ensures c in Filter(s, p) <==> c in s
  {
    if s != "" {
      FilterHolds(s[1..], c, p);
      assert s == [s[0]] + s[1..];
    }
  }

  lemma SolidStays(s: string, c: char)
    requires Solid(c)
    ensures c in CompactSpace(s) <==> c in s
  {
    CompactSpaceShape(s);
    FilterHolds(s, c, Solid);
    FilterHolds(CompactSpace(s), c, Solid);
  }

  // --- the part in front of a solid character -------------------------------

  lemma {:induction false} SkipHead(h: string, t: string)
    requires t != "" && !Blank(t[0])
    ensures SkipSpace(h + t) == SkipSpace(h) + t
  {
    if h == "" {
      assert h + t == t;
    } else {
      assert (h + t)[1..] == h[1..] + t;
      SkipHead(h[1..], t);
    }
  }

  lemma {:induction false} StripTail(h: string, t: string)
    requires h != "" && !IsSpace(h[|h| - 1])
    ensures StripSpace(h + t) == h + StripSpace(t)
    decreases |t|
  {
    if t == "" {
      assert h + t == h;
    } else {
      assert (h + t)[..|h + t| - 1] == h + t[..|t| - 1];
      StripTail(h, t[..|t| - 1]);
    }
  }

  lemma {:induction false} CollapseHead(h: string, t: string)
    requires t != "" && !Blank(t[0])
    ensures Collapse(h + t) == Collapse(h) + Collapse(t)
    decreases |h|
  {
    if h == "" {
      assert h + t == t;
    } else {
      assert (h + t)[1..] == h[1..] + t;
      SkipHead(h[1..], t);
      SkipShorter(h[1..]);
      CollapseHead(if Blank(h[0]) then SkipTail(h) else h[1..], t);
    }
  }

  /** What is in front of a dot is compacted on its own, except that it keeps a blank at its end. */
  lemma CompactHead(head: string, tail: string)
    ensures exists rest :: CompactSpace(head + "." + tail) == Collapse(SkipSpace(head)) + "." + rest
  {
    hide Collapse, SkipSpace, StripSpace;
    var h := SkipSpace(head);
    assert head + "." + tail == head + ("." + tail);
    SkipHead(head, "." + tail);
    assert h + ("." + tail) == (h + ".") + tail;
    StripTail(h + ".", tail);
    assert (h + ".") + StripSpace(tail) == h + ("." + StripSpace(tail));
    CollapseHead(h, "." + StripSpace(tail));
    CollapseFirst("." + StripSpace(tail));
    assert Collapse(h) + ("." + Collapse(StripSpace(tail))) == Collapse(h) + "." + Collapse(StripSpace(tail));
  }

  lemma CollapseFirst(s: string)
    requires s != "" && !Blank(s[0])
    ensures Collapse(s) == [s[0]] + Collapse(s[1..])
  {
  }

  lemma {:induction false} SkipLength(s: string)
    ensures |SkipSpace(s)| == |s| <==> s == "" || !Blank(s[0])
    ensures SkipSpace(s) == s <==> s == "" || !Blank(s[0])
  {
    if s != "" {
      SkipShorter(s[1..]);
    }
  }

  /** Collapsing shortens exactly the strings with two blanks in a row. */
  lemma {:induction false} CollapseLength(s: string)
    ensures |Collapse(s)| == |s| <==> Single(s)
    decreases |s|
  {
    if s != "" {
      var rest := if Blank(s[0]) then SkipTail(s) else s[1..];
      CollapseKeeps(rest);
      CollapseLength(rest);
      SkipLength(s[1..]);
      SkipShorter(s[1..]);
      assert Single(s) <==> Single(s[1..]) && !(Blank(s[0]) && |s| > 1 && Blank(s[1])) by {
        assert forall i :: 0 < i < |s[1..]| ==> s[1..][i - 1] == s[i] && s[1..][i] == s[i + 1];
        assert forall i :: 1 < i < |s| ==> s[i] == s[1..][i - 1];
      }
    }
  }

  // --- in place -------------------------------------------------------------

  lemma {:induction false} SkipAt(s: string, k: nat)
    requires k <= |s| && (forall i :: 0 <= i < k ==> Blank(s[i])) && (k < |s| ==> !Blank(s[k]))
    ensures SkipSpace(s) == s[k..]
  {
    if k > 0 {
      SkipAt(s[1..], k - 1);
      assert s[1..][k - 1..] == s[k..];
    }
  }

  lemma CollapseAt(s: string, k: nat)
    requires s != "" && k <= |s| && (forall i :: 0 <= i < k ==> Blank(s[i])) && (k < |s| ==> !Blank(s[k]))
    ensures Collapse(s) == [s[0]] + Collapse(s[if k > 0 then k else 1..])
  {
    if k > 0 {
      SkipAt(s[1..], k - 1);
      assert s[1..][k - 1..] == s[k..];
    }
  }

  /** skipspace, as the index of what it returns. */
  method SkipSpaceFrom(s: array<char>, p: nat, ghost len: nat) returns (q: nat)
    requires p <= len < s.Length && s[len] == '\0' && NoNul(s[p..len])
    ensures p <= q <= len && (forall i :: p <= i < q ==> Blank(s[i])) && (q < len ==> !Blank(s[q]))
  {
    q := p;
    if s[p] > ' ' {
      return;
    }
    while s[q] != '\0' && s[q] <= ' '
      invariant p <= q <= len && forall i :: p <= i < q ==> Blank(s[i])
      decreases len - q
    {
      assert s[q] != '\0' ==> q < len;
      q := q + 1;
    }
    assert q < len ==> s[p..len][q - p] != '\0';
  }

  /** stripspace: cuts off white space at the end. */
  method StripSpaceInPlace(s: array<char>, p: nat, len: nat) returns (end: nat)
    requires p <= len < s.Length && s[len] == '\0' && NoNul(s[p..len])
    modifies s
    ensures p <= end <= len && s[end] == '\0' && NoNul(s[p..end])
    ensures s[p..end] == StripSpace(old(s[p..len]))
  {
    end := len;
    while end > p && IsSpace(s[end - 1])
      invariant p <= end <= len && s[end] == '\0'
      invariant s[p..end] == old(s[p..len])[..end - p]
      invariant StripSpace(s[p..end]) == StripSpace(old(s[p..len]))
    {
      assert s[p..end][..|s[p..end]| - 1] == s[p..end - 1];
      end := end - 1;
      s[end] := '\0';
    }
    assert old(s[p..len])[..end - p] == s[p..end];
  }

  /** One character stays; if it is the first of several blanks, what follows them is moved next to it. */
  method CollapseOne(s: array<char>, ghost t: nat, p: nat, end: nat) returns (end': nat)
    requires t <= p < end < s.Length && s[end] == '\0' && NoNul(s[p..end])
    modifies s
    ensures p < end' <= end && s[end'] == '\0' && NoNul(s[p + 1..end'])
    ensures s[t..p + 1] == old(s[t..p + 1])
    ensures Collapse(old(s[p..end])) == [old(s[p])] + Collapse(s[p + 1..end'])
  {
    hide Collapse, SkipSpace;
    ghost var rest := s[p..end];
    var q := SkipSpaceFrom(s, p, end);
    CollapseAt(rest, q - p);
    end' := end;
    if q - p > 1 {
      MoveLeft(s, p + 1, q, end);
      assert s[t..p + 1] == s[..p + 1][t..];
      assert old(s[..p + 1])[t..] == old(s[t..p + 1]);
      end' := end - (q - p - 1);
    }
    assert s[p + 1..end'] == rest[if q > p then q - p else 1..];
  }

  method CollapseInPlace(s: array<char>, t: nat, len: nat) returns (end: nat)
    requires t <= len < s.Length && s[len] == '\0' && NoNul(s[t..len])
    modifies s
    ensures t <= end <= len && s[end] == '\0' && s[t..end] == Collapse(old(s[t..len])) && NoNul(s[t..end])
  {
    hide Collapse, SkipSpace;
    end := len;
    var p := t;
    while s[p] != '\0'
      invariant t <= p <= end <= len && s[end] == '\0' && NoNul(s[p..end]) && NoNul(s[t..p])
      invariant s[t..p] + Collapse(s[p..end]) == Collapse(old(s[t..len]))
      decreases end - p
    {
      assert p < end && s[p..end][0] == s[p];
      ghost var done, c := s[t..p], s[p];
      assert s[t..p + 1] == done + [c];
      end := CollapseOne(s, t, p, end);
      p := p + 1;
    }
    CollapseEmpty();
    assert s[p..end] == "";
  }

  lemma CollapseEmpty()
    ensures Collapse("") == ""
  {
  }

  /** memmove of a string and its terminator to a lower place. */
  method MoveLeft(s: array<char>, to: nat, start: nat, end: nat)
    requires to <= start <= end < s.Length && s[end] == '\0'
    modifies s
    ensures var d := start - to;
            && s[end - d] == '\0' && s[to..end - d] == old(s[start..end]) && s[..to] == old(s[..to])
  {
    var d := start - to;
    forall i | to <= i <= end - d {
      s[i] := s[i + d];
    }
  }

  /** compactspace on a string of length len. */
  method CompactSpaceInPlace(s: array<char>, len: nat) returns (end: nat)
    requires len < s.Length && s[len] == '\0' && NoNul(s[..len])
    modifies s
    ensures end <= len && s[end] == '\0' && s[..end] == CompactSpace(old(s[..len])) && NoNul(s[..end])
  {
    hide SkipSpace, StripSpace, Collapse;
    ghost var was := s[..len];
    assert s[0..len] == was;
    if len == 0 {
      end := 0;
      CompactEmpty();
      return;
    }
    var t := SkipSpaceFrom(s, 0, len);
    SkipAt(was, t);
    assert s[t..len] == was[t..];
    end := StripSpaceInPlace(s, t, len);
    end := CollapseInPlace(s, t, end);
    if t != 0 {
      MoveLeft(s, 0, t, end);
      end := end - t;
    }
    assert s[0..end] == s[..end];
  }

  lemma CompactEmpty()
    ensures CompactSpace("") == ""
  {
  }

  ghost predicate Suffix(s: string, p: string) {
    |s| >= |p| && s[|s| - |p|..] == p
  }

  /**
   * endswith, which looks at the character in front of an empty string: the answer is that of Suffix
   * if and only if the string is not empty or the pattern is not a single character found there.
   */
  method EndsWith(s: string, p: string, before: char) returns (r: bool)
    ensures r <==> Suffix(s, p) || (s == "" && p == [before])
  {
    var se, pe := |s| - 1, |p| - 1;
    while pe >= 0
      invariant -1 <= pe < |p| && se - pe == |s| - |p|
      invariant s != "" ==> se >= -1 && (pe >= 0 ==> se >= 0) && s[se + 1..] == p[pe + 1..]
      invariant s == "" ==> pe == |p| - 1 || (pe == -1 && p == [before])
    {
      var c := if se >= 0 then s[se] else before;
      var same := p[pe] == c;
      if s != "" {
        SuffixStep(s, p, se, pe);
      }
      pe, se := pe - 1, se - 1;
      if !same || (se < 0 && pe >= 0) {
        return false;
      }
    }
    return true;
  }

  /** The empty string seems to end with any single character that stands in front of it in memory. */
  method EndsWithExample(c: char) returns (r: bool)
    ensures r && !Suffix("", [c])
  {
    r := EndsWith("", [c], c);
  }

  lemma SuffixStep(s: string, p: string, se: nat, pe: nat)
    requires se < |s| && pe < |p| && se - pe == |s| - |p| && s[se + 1..] == p[pe + 1..]
    ensures s[se..] == p[pe..] <==> s[se] == p[pe]
    ensures s[se] != p[pe] ==> !Suffix(s, p)
  {
  }
}

/** Get, Set and Del of setup.c for names without a binding and plugins that are not loaded. */
module SetupStore {
  import opened CList
  import opened Filters
  import opened ListWalk
  import opened Options
  import opened Sequences
  import opened TextTools

  datatype SetupLine = SetupLine(plugin: Option<string>, name: string, value: string)

  /** What a request's name is about. */
  datatype Key = Key(plugin: Option<string>, name: string)

  function Lower(s: string): (r: string)
    ensures |r| == |s|
  {
    seq(|s|, i requires 0 <= i < |s| => if 'A' <= s[i] <= 'Z' then s[i] + 32 as char else s[i])
  }

  /** strcasecmp */
  predicate Same(a: string, b: string) {
    Lower(a) == Lower(b)
  }

  predicate SameKey(a: Key, b: Key) {
    && (a.plugin.None? <==> b.plugin.None?)
    && (a.plugin.Some? && b.plugin.Some? ==> Same(a.plugin.value, b.plugin.value))
    && Same(a.name, b.name)
  }

  function KeyOf(line: SetupLine): Key {
    Key(line.plugin, line.name)
  }

  function IndexOf(s: string, c: char): (k: nat)
    ensures k <= |s| && (forall i :: 0 <= i < k ==> s[i] != c) && (k < |s| ==> s[k] == c)
  {
    if s == "" || s[0] == c then 0 else 1 + IndexOf(s[1..], c)
  }

  /** A name without a dot is a key; otherwise what comes before the first dot, after compacting, is a plugin. */
  function Resolve(name: string): Key {
    if '.' !in name then Key(None, name) else
      var t := CompactSpace(name);
      SolidStays(name, '.');
      var point := IndexOf(t, '.');
      Key(Some(t[..point]), t[point + 1..])
  }

  function About(k: Key): SetupLine -> bool {
    line => SameKey(KeyOf(line), k)
  }

  function Other(k: Key): SetupLine -> bool {
    line => !SameKey(KeyOf(line), k)
  }

  function NotOf(plugin: string): SetupLine -> bool {
    (line: SetupLine) => !(line.plugin.Some? && Same(line.plugin.value, plugin))
  }

  /** The value of a key. */
  function Lookup(lines: seq<SetupLine>, k: Key): Option<string> {
    match FindFirst(lines, About(k))
    case None => None
    case Some(line) => Some(line.value)
  }

  function Position(lines: seq<SetupLine>, k: Key): (i: nat)
    ensures i <= |lines| && (forall j :: 0 <= j < i ==> !SameKey(KeyOf(lines[j]), k))
    ensures i < |lines| ==> SameKey(KeyOf(lines[i]), k)
  {
    if lines == [] || SameKey(KeyOf(lines[0]), k) then 0 else 1 + Position(lines[1..], k)
  }

  /** Setting replaces the first line of the key, or adds one at the end. */
  function Stored(lines: seq<SetupLine>, k: Key, value: string): seq<SetupLine> {
    var i := Position(lines, k);
    var line := SetupLine(k.plugin, k.name, value);
    if i < |lines| then lines[i := line] else lines + [line]
  }

  // --- what the operations mean for each other ------------------------------

  /** Get after Set: the new value under every spelling of the key, and what was there under any other key. */
  lemma {:induction false} GetAfterSet(lines: seq<SetupLine>, k: Key, value: string, m: Key)
    ensures Lookup(Stored(lines, k, value), m) == if SameKey(k, m) then Some(value) else Lookup(lines, m)
  {
    var r := Stored(lines, k, value);
    if lines == [] {
    } else if SameKey(KeyOf(lines[0]), k) {
      assert Position(lines, k) == 0 && r[1..] == lines[1..];
    } else {
      assert Position(lines, k) == 1 + Position(lines[1..], k);
      assert r[0] == lines[0] && r[1..] == Stored(lines[1..], k, value);
      GetAfterSet(lines[1..], k, value, m);
    }
  }

  /** Setting touches no line of another key, and adds one only for a key that has none. */
  lemma {:induction false} SetKeepsOthers(lines: seq<SetupLine>, k: Key, value: string)
    ensures Filter(Stored(lines, k, value), Other(k)) == Filter(lines, Other(k))
    ensures |Stored(lines, k, value)| == |lines| + if Lookup(lines, k).None? then 1 else 0
  {
    var r := Stored(lines, k, value);
    if lines == [] {
    } else if SameKey(KeyOf(lines[0]), k) {
      assert Position(lines, k) == 0 && r[1..] == lines[1..];
    } else {
      assert Position(lines, k) == 1 + Position(lines[1..], k);
      assert r[0] == lines[0] && r[1..] == Stored(lines[1..], k, value);
      SetKeepsOthers(lines[1..], k, value);
    }
  }

  /** Setting twice is setting once, with the last value. */
  lemma {:induction false} SetTwice(lines: seq<SetupLine>, k: Key, v: string, w: string)
    ensures Stored(Stored(lines, k, v), k, w) == Stored(lines, k, w)
  {
    if lines != [] && !SameKey(KeyOf(lines[0]), k) {
      SetTwice(lines[1..], k, v, w);
      assert forall x: string :: Stored(lines, k, x) == [lines[0]] + Stored(lines[1..], k, x);
      assert ([lines[0]] + Stored(lines[1..], k, v))[1..] == Stored(lines[1..], k, v);
    } else if lines != [] {
      assert forall x: string :: Stored(lines, k, x) == lines[0 := SetupLine(k.plugin, k.name, x)];
    }
  }

  /** Get after Del of a plugin: nothing of that plugin is left, and nothing else has changed. */
  lemma {:induction false} GetAfterDel(lines: seq<SetupLine>, plugin: string, m: Key)
    ensures Lookup(Filter(lines, NotOf(plugin)), m) ==
            if m.plugin.Some? && Same(m.plugin.value, plugin) then None else Lookup(lines, m)
  {
    if lines != [] {
      GetAfterDel(lines[1..], plugin, m);
      var rest := Filter(lines[1..], NotOf(plugin));
      assert ([lines[0]] + rest)[1..] == rest;
    }
  }

  /** No blanks to compact: single ones inside, none at the ends. */
  ghost predicate Compact(s: string) {
    Single(s) && (s != "" ==> !Blank(s[0]) && !IsSpace(s[|s| - 1]))
  }

  lemma CompactAlready(s: string)
    requires Compact(s)
    ensures CompactSpace(s) == s
  {
    hide Collapse, Single, StripSpace;
    StripKeeps(s);
    CollapseSingle(s);
  }

  lemma FirstDot(plugin: string, key: string)
    requires '.' !in plugin
    ensures IndexOf(plugin + "." + key, '.') == |plugin|
  {
    hide IndexOf;
    var name := plugin + "." + key;
    assert name[|plugin|] == '.';
    assert forall i :: 0 <= i < |plugin| ==> name[i] == plugin[i] && plugin[i] in plugin;
  }

  /** For a compact name, the plugin is what stands before the first dot and the key what stands behind it. */
  lemma ResolvePlain(plugin: string, key: string)
    requires '.' !in plugin && Compact(plugin + "." + key)
    ensures Resolve(plugin + "." + key) == Key(Some(plugin), key)
  {
    hide CompactSpace, IndexOf, Compact;
    var name := plugin + "." + key;
    assert name[|plugin|] == '.';
    CompactAlready(name);
    FirstDot(plugin, key);
    assert name[..|plugin|] == plugin && name[|plugin| + 1..] == key;
  }

  lemma ResolveSpaced()
    ensures Resolve(" p.k") == Key(Some("p"), "k")
  {
    assert "p" + "." + "k" == "p.k" == " p.k"[1..];
    ResolvePlain("p", "k");
    assert '.' == " p.k"[2] && '.' == "p.k"[1];
    assert SkipSpace(" p.k") == SkipSpace("p.k");
    hide Collapse, StripSpace, IndexOf;
  }

  /** Del does not compact the name, so that a blank in front of it hides the plugin that Set and Get mean. */
  lemma DelDoesNotCompact()
    ensures var lines := Stored([], Resolve(" p.k"), "v");
            && Lookup(lines, Resolve(" p.k")) == Some("v")
            && Lookup(Filter(lines, NotOf(" p")), Resolve(" p.k")) == Some("v")
            && Lookup(Filter(lines, NotOf("p")), Resolve(" p.k")) == None
  {
    hide Stored, Lookup, Resolve, Filter;
    ResolveSpaced();
    var k := Key(Some("p"), "k");
    GetAfterSet([], k, "v", k);
    GetAfterDel(Stored([], k, "v"), " p", k);
    GetAfterDel(Stored([], k, "v"), "p", k);
  }

  /** The plugin that Set and Get mean: what stands in front of the first dot, compacted. */
  lemma ResolvePlugin(head: string, tail: string)
    requires '.' !in head
    ensures Resolve(head + "." + tail).plugin == Some(Collapse(SkipSpace(head)))
  {
    hide Collapse, SkipSpace, StripSpace, IndexOf;
    var name := head + "." + tail;
    assert name[|head|] == '.';
    CompactHead(head, tail);
    var plugin := Collapse(SkipSpace(head));
    var rest :| CompactSpace(name) == plugin + "." + rest;
    DotStaysOut(head);
    FirstDot(plugin, rest);
    assert (plugin + "." + rest)[..|plugin|] == plugin;
  }

  lemma DotStaysOut(head: string)
    requires '.' !in head
    ensures '.' !in Collapse(SkipSpace(head))
  {
    SkipKeeps(head);
    CollapseKeeps(SkipSpace(head));
    FilterHolds(head, '.', Solid);
    FilterHolds(Collapse(SkipSpace(head)), '.', Solid);
  }

  /** A plugin name that Set and Get leave as it is. */
  predicate PlainPlugin(n: string) {
    '.' !in n && (n == "" || !Blank(n[0])) && Single(n)
  }

  /** Set and Get address n.key under the plugin n itself exactly if n is plain. */
  lemma AddressesPlugin(n: string, key: string)
    ensures Resolve(n + "." + key).plugin.Some?
    ensures Same(Resolve(n + "." + key).plugin.value, n) <==> PlainPlugin(n)
  {
    hide Collapse, SkipSpace, StripSpace, IndexOf, Resolve, Single;
    var d := IndexOf(n, '.');
    var head := n[..d];
    var tail := if d < |n| then n[d + 1..] + "." + key else key;
    assert n + "." + key == head + "." + tail by {
      if d < |n| {
        assert n == head + "." + n[d + 1..];
      }
    }
    ResolvePlugin(head, tail);
    SameCollapsed(head);
    if d < |n| {
      assert n[d] == '.';
      CollapsedShorter(head);
      SameLength(Collapse(SkipSpace(head)), n);
    } else {
      assert head == n && '.' !in n;
    }
  }

  lemma SameLength(a: string, b: string)
    ensures Same(a, b) ==> |a| == |b|
  {
  }

  lemma CollapsedShorter(s: string)
    ensures |Collapse(SkipSpace(s))| <= |s|
  {
    SkipShorter(s);
    CollapseKeeps(SkipSpace(s));
  }

  lemma SameCollapsed(s: string)
    ensures Same(Collapse(SkipSpace(s)), s) <==> (s == "" || !Blank(s[0])) && Single(s)
  {
    hide Collapse, SkipSpace, Single;
    SkipShorter(s);
    SkipLength(s);
    CollapseKeeps(SkipSpace(s));
    CollapseLength(s);
    CollapseSingleWhen(s);
    SameLength(Collapse(SkipSpace(s)), s);
  }

  lemma CollapseSingleWhen(s: string)
    ensures Single(s) ==> Collapse(s) == s
  {
    if Single(s) {
      CollapseSingle(s);
    }
  }

  /**
   * Del("n.*") removes everything that Set and Get address as n.key, whatever is stored, if and only if n has no
   * dot, no blank in front and no two blanks in a row.
   */
  lemma DelReachesPlugin(n: string, key: string)
    ensures (forall lines :: Lookup(Filter(lines, NotOf(n)), Resolve(n + "." + key)) == None) <==> PlainPlugin(n)
  {
    hide Resolve, Filter, Lookup, Stored, PlainPlugin, Same;
    var k := Resolve(n + "." + key);
    AddressesPlugin(n, key);
    if PlainPlugin(n) {
      forall lines
        ensures Lookup(Filter(lines, NotOf(n)), k) == None
      {
        GetAfterDel(lines, n, k);
      }
    } else {
      var lines := Stored([], k, "v");
      GetAfterSet([], k, "v", k);
      SameKeyReflexive(k);
      GetAfterDel(lines, n, k);
      assert Lookup(Filter(lines, NotOf(n)), k) == Some("v");
    }
  }

  lemma SameKeyReflexive(k: Key)
    ensures SameKey(k, k)
  {
  }

  /** The plugin of a.b.k is a, so that a line of it outlives Del("a.b.*"). */
  lemma DelTakesDots()
    ensures var k := Resolve("a.b.k");
            k == Key(Some("a"), "b.k") && Lookup(Filter(Stored([], k, "v"), NotOf("a.b")), k) == Some("v")
  {
    assert "a" + "." + "b.k" == "a.b.k";
    ResolvePlain("a", "b.k");
    var k := Key(Some("a"), "b.k");
    hide Resolve, Stored, Lookup, Filter;
    GetAfterSet([], k, "v", k);
    GetAfterDel(Stored([], k, "v"), "a.b", k);
  }

  // --- names as requests carry them -----------------------------------------

  /** c is a capital letter and d the small one. */
  predicate CaseOf(c: char, d: char) {
    'A' <= c <= 'Z' && d as int == c as int + 32
  }

  predicate Agree(c: char, d: char) {
    c == d || CaseOf(c, d) || CaseOf(d, c)
  }

  ghost predicate AgreeUpToCase(a: string, b: string) {
    |a| == |b| && forall i :: 0 <= i < |a| ==> Agree(a[i], b[i])
  }

  lemma SameMeaning(a: string, b: string)
    ensures Same(a, b) <==> AgreeUpToCase(a, b)
  {
    if |a| == |b| {
      assert Lower(a) == Lower(b) <==> forall i :: 0 <= i < |a| ==> Lower(a)[i] == Lower(b)[i];
      assert forall i :: 0 <= i < |a| ==> (Lower(a)[i] == Lower(b)[i] <==> Agree(a[i], b[i]));
    }
  }

  /** The whole name is the key, unless it has a dot: then its first dot, after compacting, separates plugin and key. */
  lemma ResolveMeaning(name: string)
    ensures var k := Resolve(name);
            if '.' in name then k.plugin.Some? && '.' !in k.plugin.value
                                && k.plugin.value + "." + k.name == CompactSpace(name)
            else k == Key(None, name)
  {
    hide CompactSpace;
    if '.' in name {
      SolidStays(name, '.');
      var t := CompactSpace(name);
      var point := IndexOf(t, '.');
      assert t == t[..point] + "." + t[point + 1..];
    }
  }

  lemma AgreeConcat(a: string, b: string, c: string, d: string)
    requires |a| == |c|
    ensures AgreeUpToCase(a + b, c + d) <==> AgreeUpToCase(a, c) && AgreeUpToCase(b, d)
  {
    hide Agree;
    var x, y := a + b, c + d;
    if |x| == |y| && AgreeUpToCase(x, y) {
      forall i | 0 <= i < |a|
        ensures Agree(a[i], c[i])
      {
        assert x[i] == a[i] && y[i] == c[i];
      }
      forall i | 0 <= i < |b|
        ensures Agree(b[i], d[i])
      {
        assert x[|a| + i] == b[i] && y[|a| + i] == d[i];
      }
    }
  }

  lemma DotAgrees(c: char)
    ensures Agree(c, '.') <==> c == '.'
    ensures Agree('.', c) <==> c == '.'
  {
  }

  lemma DotsAgree(a: string, b: string)
    requires AgreeUpToCase(a, b)
    ensures '.' in a <==> '.' in b
  {
    forall i | 0 <= i < |a|
      ensures a[i] == '.' <==> b[i] == '.'
    {
      DotAgrees(a[i]);
      DotAgrees(b[i]);
    }
  }

  /** Two names up to the first dot and behind it agree exactly if they agree as a whole. */
  lemma AgreeInParts(p: string, k: string, q: string, m: string)
    requires '.' !in q
    ensures '.' !in p && AgreeUpToCase(p + "." + k, q + "." + m) <==> AgreeUpToCase(p, q) && AgreeUpToCase(k, m)
  {
    var a, b := p + "." + k, q + "." + m;
    if |p| == |q| {
      AgreeConcat(p + ".", k, q + ".", m);
      AgreeConcat(p, ".", q, ".");
      if AgreeUpToCase(p, q) {
        DotsAgree(p, q);
      }
    } else {
      hide Agree;
      var n := if |p| < |q| then |p| else |q|;
      DotAgrees(a[n]);
      DotAgrees(b[n]);
      assert a[|p|] == '.' == b[|q|];
      assert n < |p| ==> a[n] == p[n];
      assert n < |q| ==> b[n] == q[n];
      assert AgreeUpToCase(a, b) ==> Agree(a[n], b[n]);
    }
  }

  /** A request's name means this line. */
  ghost predicate Addresses(name: string, line: SetupLine) {
    if '.' !in name then line.plugin.None? && AgreeUpToCase(line.name, name)
    else && line.plugin.Some? && '.' !in line.plugin.value
         && AgreeUpToCase(line.plugin.value + "." + line.name, CompactSpace(name))
  }

  lemma AddressesKey(name: string, line: SetupLine)
    ensures SameKey(KeyOf(line), Resolve(name)) <==> Addresses(name, line)
  {
    hide CompactSpace, Same, AgreeUpToCase, Resolve;
    ResolveMeaning(name);
    var k := Resolve(name);
    SameMeaning(line.name, k.name);
    if '.' in name && line.plugin.Some? {
      SameMeaning(line.plugin.value, k.plugin.value);
      AgreeInParts(line.plugin.value, line.name, k.plugin.value, k.name);
    }
  }

  /** Get finds the first line that its name means, and nothing exactly if there is none. */
  lemma GetFirst(lines: seq<SetupLine>, name: string)
    ensures Lookup(lines, Resolve(name)).None? <==> forall i :: 0 <= i < |lines| ==> !Addresses(name, lines[i])
    ensures forall v :: Lookup(lines, Resolve(name)) == Some(v) <==>
                        exists i :: 0 <= i < |lines| && Addresses(name, lines[i]) && lines[i].value == v
                                    && forall j :: 0 <= j < i ==> !Addresses(name, lines[j])
  {
    hide Resolve, Addresses, SameKey;
    forall line
      ensures SameKey(KeyOf(line), Resolve(name)) <==> Addresses(name, line)
    {
      AddressesKey(name, line);
    }
    var i := FirstMatch(lines, About(Resolve(name)));
  }

  /** Two names mean the same setting. */
  ghost predicate SameSetting(n: string, m: string) {
    if '.' in n then '.' in m && AgreeUpToCase(CompactSpace(n), CompactSpace(m)) else '.' !in m && AgreeUpToCase(n, m)
  }

  /** Get(m) after Set(n, v): v if both mean the same setting, and otherwise what it was before. */
  lemma SetThenGet(lines: seq<SetupLine>, n: string, value: string, m: string)
    ensures Lookup(Stored(lines, Resolve(n), value), Resolve(m)) ==
            if SameSetting(n, m) then Some(value) else Lookup(lines, Resolve(m))
  {
    hide Resolve, CompactSpace, Stored, Lookup, SameKey, AgreeUpToCase;
    GetAfterSet(lines, Resolve(n), value, Resolve(m));
    var k := Resolve(n);
    AddressesKey(m, SetupLine(k.plugin, k.name, ""));
    ResolveMeaning(n);
  }

  /** What Set stores: a line of the whole name without a plugin, or of the compacted name divided at its first dot. */
  lemma SetStores(lines: seq<SetupLine>, n: string, value: string) returns (i: nat, line: SetupLine)
    ensures i <= |lines| && (i < |lines| ==> Addresses(n, lines[i]))
    ensures forall j :: 0 <= j < i ==> !Addresses(n, lines[j])
    ensures Stored(lines, Resolve(n), value) == if i < |lines| then lines[i := line] else lines + [line]
    ensures line.value == value
    ensures if '.' in n then line.plugin.Some? && '.' !in line.plugin.value
                             && line.plugin.value + "." + line.name == CompactSpace(n)
            else line == SetupLine(None, n, value)
  {
    hide Resolve, CompactSpace, SameKey, Addresses;
    var k := Resolve(n);
    i, line := Position(lines, k), SetupLine(k.plugin, k.name, value);
    ResolveMeaning(n);
    forall j | 0 <= j < |lines|
      ensures SameKey(KeyOf(lines[j]), k) <==> Addresses(n, lines[j])
    {
      AddressesKey(n, lines[j]);
    }
  }

  /** A name without a dot never reaches a plugin's line, and Del("p.*") changes the answer for none. */
  lemma DotlessReaches(lines: seq<SetupLine>, plugin: string, m: string)
    requires '.' !in m
    ensures forall i :: 0 <= i < |lines| && Addresses(m, lines[i]) ==> lines[i].plugin.None?
    ensures Lookup(Filter(lines, NotOf(plugin)), Resolve(m)) == Lookup(lines, Resolve(m))
  {
    hide Resolve, Lookup, Filter, AgreeUpToCase;
    ResolveMeaning(m);
    GetAfterDel(lines, plugin, Resolve(m));
  }

  // --- the operations -------------------------------------------------------

  datatype Reply = Reply(code: int, value: string)

  method FindSetupLine(config: ListBase<SetupLine>, name: string, plugin: Option<string>)
    returns (sl: ListObject?<SetupLine>)
    requires config.Valid()
    ensures var i := Position(Values(config.nodes), Key(plugin, name));
            sl == if i < |config.nodes| then config.nodes[i] else null
  {
    hide ListBase.Valid;
    ghost var i, all, k := 0, Values(config.nodes), Key(plugin, name);
    assert all[0..] == all;
    sl := config.First();
    while sl != null
      invariant i <= |all| && sl == if i < |all| then config.nodes[i] else null
      invariant Position(all, k) == i + Position(all[i..], k)
      decreases |all| - i
    {
      assert all[i..][0] == sl.value && all[i..][1..] == all[i + 1..];
      if sl.value.plugin.None? == plugin.None? {
        if plugin.None? || (sl.value.plugin.Some? && Same(sl.value.plugin.value, plugin.value)) {
          if Same(sl.value.name, name) {
            return;
          }
        }
      }
      sl := config.Next(sl, i);
      i := i + 1;
    }
  }

  /** cConfig::Save, taken to be faithful. */
  method Save(config: ListBase<SetupLine>) returns (file: seq<SetupLine>)
    requires config.Valid()
    ensures file == Values(config.nodes)
  {
    hide ListBase.Valid;
    file := [];
    ghost var all := Values(config.nodes);
    var l := config.First();
    while l != null
      invariant |file| <= |all| && file == all[..|file|]
      invariant l == if |file| < |all| then config.nodes[|file|] else null
      decreases |all| - |file|
    {
      ghost var i := |file|;
      assert all[..i + 1] == all[..i] + [l.value];
      file := file + [l.value];
      l := config.Next(l, i);
    }
  }

  /** cConfig::Load, taken to be faithful: the list is cleared and gets new lines. */
  method Load(config: ListBase<SetupLine>, file: seq<SetupLine>)
    requires config.Valid()
    modifies config
    ensures config.Valid() && Values(config.nodes) == file && forall x | x in config.nodes :: fresh(x)
  {
    hide ListBase.Valid, Values;
    var _ := config.Clear();
    assert Values(config.nodes) == file[..0];
    for i := 0 to |file|
      invariant config.Valid() && Values(config.nodes) == file[..i] && forall x | x in config.nodes :: fresh(x)
    {
      assert forall j :: 0 <= j < |config.nodes| ==> config.nodes[j] in config.nodes;
      AppendLine(config, file[i]);
      assert file[..i + 1] == file[..i] + [file[i]];
    }
    assert file[..|file|] == file;
  }

  method AppendLine(config: ListBase<SetupLine>, line: SetupLine)
    requires config.Valid()
    modifies config, config.nodes
    ensures config.Valid() && Values(config.nodes) == old(Values(config.nodes)) + [line]
    ensures forall x | x in config.nodes :: x in old(config.nodes) || fresh(x)
  {
    var l := new ListObject<SetupLine>(line);
    config.Add(l, null);
  }

  /** Adds the new line behind the old one, and deletes the old one. */
  method Replace(config: ListBase<SetupLine>, l: ListObject<SetupLine>, line: SetupLine, ghost i: nat)
    requires config.Valid() && i < |config.nodes| && config.nodes[i] == l
    modifies config, config.nodes
    ensures config.Valid() && Values(config.nodes) == old(Values(config.nodes))[i := line]
  {
    hide Chain, ListBase.Linked;
    ghost var was := config.nodes;
    var newLine := new ListObject<SetupLine>(line);
    config.Add(newLine, l);
    assert config.nodes == InsertAt(was, i + 1, newLine);
    InsertBehind(was, i, newLine);
    assert forall x | x in config.nodes :: x in was || x == newLine;
    assert forall j :: 0 <= j < |config.nodes| ==> config.nodes[j] in config.nodes;
    config.Del(l);
  }

  lemma InsertBehind(nodes: seq<ListObject<SetupLine>>, i: nat, node: ListObject<SetupLine>)
    requires i < |nodes|
    ensures InsertAt(nodes, i + 1, node)[i] == nodes[i]
    ensures Values(RemoveAt(InsertAt(nodes, i + 1, node), i)) == Values(nodes)[i := node.value]
  {
  }

  class Setup {
    const lines: ListBase<SetupLine>
    var file: seq<SetupLine>  // setup.conf

    ghost predicate Valid()
      reads lines, lines.nodes
    {
      lines.Valid()
    }

    /** The lines in order. */
    ghost function Lines(): seq<SetupLine>
      reads lines`nodes
    {
      Values(lines.nodes)
    }

    constructor (file: seq<SetupLine>)
      ensures Valid() && Lines() == this.file == file && fresh(lines)
    {
      lines := new ListBase<SetupLine>();
      this.file := file;
      new;
      Load(lines, file);
    }

    method Get(name: string) returns (r: Reply)
      requires Valid()
      ensures r == match Lookup(Lines(), Resolve(name)) case None => Reply(501, "") case Some(v) => Reply(900, v)
      ensures r.code == 900 <==> exists i :: 0 <= i < |Lines()| && Addresses(name, Lines()[i])
      ensures r.code == 900 ==> exists i :: 0 <= i < |Lines()| && Addresses(name, Lines()[i])
                                            && Lines()[i].value == r.value
                                            && forall j :: 0 <= j < i ==> !Addresses(name, Lines()[j])
    {
      GetFirst(Lines(), name);
      hide ListBase.Valid, Addresses, Resolve;
      var k := Resolve(name);
      ghost var i, all := 0, Lines();
      assert all[0..] == all;
      var l := lines.First();
      while l != null
        invariant 0 <= i <= |all| && Lookup(all[i..], k) == Lookup(all, k)
        invariant l == if i < |all| then lines.nodes[i] else null
        decreases |all| - i
      {
        var line := l.value;
        assert all[i..][0] == line && all[i..][1..] == all[i + 1..];
        l := lines.Next(l, i);
        i := i + 1;
        if line.plugin.None? != k.plugin.None? {
          continue;
        }
        if k.plugin.Some? && !Same(k.plugin.value, line.plugin.value) {
          continue;
        }
        if !Same(k.name, line.name) {
          continue;
        }
        return Reply(900, line.value);
      }
      return Reply(501, "");
    }

    /** Set; the value is None if the argument is not a string. */
    method Set(name: string, value: Option<string>) returns (code: int)
      requires Valid()
      modifies `file, lines, lines.nodes
      ensures Valid() && code == if value.None? then 501 else 900
      ensures value.None? ==> Lines() == old(Lines()) && file == old(file)
      ensures value.Some? ==> Lines() == file == Stored(old(Lines()), Resolve(name), value.value)
    {
      if value.None? {
        return 501;
      }
      var k := Resolve(name);
      var line := FindSetupLine(lines, k.name, k.plugin);
      if line != null {
        SetLine(k, value.value);
      } else {
        AppendLine(lines, SetupLine(k.plugin, k.name, value.value));
        file := Save(lines);
      }
      return 900;
    }

    /** A line that exists is replaced in a copy of the setup, which is saved and loaded again. */
    method SetLine(k: Key, value: string)
      requires Valid() && Position(Lines(), k) < |Lines()|
      modifies `file, lines
      ensures Valid() && Lines() == file == Stored(old(Lines()), k, value)
    {
      hide ListBase.Valid, Values, Position, SameKey;
      file := Save(lines);
      var tmpSetup := new ListBase<SetupLine>();
      Load(tmpSetup, file);
      var line := FindSetupLine(tmpSetup, k.name, k.plugin);
      if line != null {
        assert forall j :: 0 <= j < |tmpSetup.nodes| ==> tmpSetup.nodes[j] in tmpSetup.nodes;
        Replace(tmpSetup, line, SetupLine(k.plugin, k.name, value), Position(Lines(), k));
        file := Save(tmpSetup);
        Load(lines, file);
      }
    }

    /** The part of Del that removes all lines of a plugin. */
    method DelPlugin(name: string, before: char) returns (done: bool)
      requires Valid()
      modifies `file, lines, lines.nodes
      ensures Valid() && (done <==> Suffix(name, ".*"))
      ensures done ==> Lines() == file == Filter(old(Lines()), NotOf(name[..|name| - 2]))
      ensures !done ==> Lines() == old(Lines()) && file == old(file)
    {
      done := EndsWith(name, ".*", before);
      if !done {
        return;
      }
      RemoveLines(lines, name[..|name| - 2]);
      file := Save(lines);
    }
  }

  /** The loop of Del, which takes the next line before it deletes one. */
  method RemoveLines(config: ListBase<SetupLine>, plugin: string)
    requires config.Valid()
    modifies config, config.nodes
    ensures config.Valid() && Values(config.nodes) == Filter(old(Values(config.nodes)), NotOf(plugin))
  {
    hide Filter, ListBase.Valid, Values, Dealing;
    ghost var n, all, owned := 0, Values(config.nodes), config.nodes;
    var line := config.First();
    DealingStarts(config.nodes, line, NotOf(plugin));
    while line != null
      invariant config.Valid() && forall x | x in config.nodes :: x in owned
      invariant n <= |all| && Dealing(config.nodes, line, all, n, NotOf(plugin))
      decreases |all| - n
    {
      line := RemoveOne(config, line, plugin, all, n, owned);
      n := n + 1;
    }
    DealingEnds(config.nodes, all, n, NotOf(plugin));
  }

  method RemoveOne(config: ListBase<SetupLine>, line: ListObject<SetupLine>, plugin: string,
                   ghost all: seq<SetupLine>, ghost n: nat, ghost owned: seq<ListObject<SetupLine>>)
    returns (next: ListObject?<SetupLine>)
    requires config.Valid() && Dealing(config.nodes, line, all, n, NotOf(plugin))
    requires forall x | x in config.nodes :: x in owned
    modifies config, owned
    ensures config.Valid() && forall x | x in config.nodes :: x in owned
    ensures n < |all| && Dealing(config.nodes, next, all, n + 1, NotOf(plugin))
  {
    hide Dealing, ListBase.Valid;
    ghost var i := DealingNext(config.nodes, line, all, n, NotOf(plugin));
    ghost var was := config.nodes;
    next := config.Next(line, i);
    if line.value.plugin.Some? && Same(line.value.plugin.value, plugin) {
      assert forall j :: 0 <= j < |was| ==> was[j] in was;
      config.Del(line);
      assert config.nodes == RemoveAt(was, i) && forall x | x in RemoveAt(was, i) :: x in was;
    }
  }
}
