/** cDBusHelper::IsValidUtf8 of helper.c. */
module Utf8Check {
  import opened Utf8
  import opened Utf8Arrays

  /** The scan can also step over the terminator; what it reads there is not known. */
  datatype Verdict = Accept | Reject | Overrun

  /** The number of bytes to follow a byte; -1 for a stray continuation byte. 0xFE and 0xFF keep the last number. */
  function Follow(b: bv8, nb: nat): int {
    if MaskTest(b, 0x80, 0x00) then 0
    else if MaskTest(b, 0xC0, 0x80) then -1
    else if MaskTest(b, 0xE0, 0xC0) then 1
    else if MaskTest(b, 0xF0, 0xE0) then 2
    else if MaskTest(b, 0xF8, 0xF0) then 3
    else if MaskTest(b, 0xFC, 0xF8) then 4
    else if MaskTest(b, 0xFE, 0xFC) then 5
    else nb
  }

  /** The bytes after p, up to nb of them and up to the terminator, are continuation bytes. */
  ghost predicate Tail(s: seq<bv8>, p: nat, nb: nat) {
    forall q :: p < q <= p + nb && q < |s| - 1 ==> IsContinuation(s[q])
  }

  /** The verdict of the scan from position p on, with nb left over from the iteration before. */
  ghost function Scan(s: seq<bv8>, p: nat, nb: nat): Verdict
    decreases |s| - p
  {
    if p >= |s| then Overrun
    else if s[p] == 0 then Accept
    else
      var n := Follow(s[p], nb);
      if n < 0 || !Tail(s, p, n) then Reject else Scan(s, p + n + 1, n)
  }

  /** IsValidUtf8. */
  method IsValidUtf8(s: seq<bv8>) returns (r: Verdict)
    requires Terminated(s)
    ensures r == Scan(s, 0, 0)
  {
    var c, nb := 0, 0;
    while c < |s| && s[c] != 0
      invariant Scan(s, c, nb) == Scan(s, 0, 0)
      decreases |s| - c
    {
      var n := Follow(s[c], nb);
      if n < 0 {
        return Reject;
      }
      nb := n;
      var na := 1;
      while s[c + na] != 0 && na <= nb
        invariant 1 <= na <= nb + 1 && c + na < |s|
        invariant forall q :: c < q < c + na ==> IsContinuation(s[q])
        decreases |s| - na
      {
        if !IsContinuation(s[c + na]) {
          return Reject;
        }
        na := na + 1;
      }
      c := c + nb + 1;
    }
    return if c < |s| then Accept else Overrun;
  }

  lemma FollowEncoded(c: bv32, nb: nat)
    requires CodePoint(c)
    ensures |CharSet(c)| > 0 && Follow(CharSet(c)[0], nb) == |CharSet(c)| - 1
  {
  }

  /** On an encoded array every iteration starts on a symbol boundary, and the verdict is to accept. */
  lemma {:induction false} AcceptsEncoded(a: seq<bv32>, k: nat, nb: nat)
    requires AllCodePoints(a) && k <= |a|
    ensures Scan(Encoded(a), Bound(Encoded(a), k), nb) == Accept
    ensures k < |a| ==>
              var p := Bound(Encoded(a), k);
              var n := Follow(Encoded(a)[p], nb);
              n >= 0 && Tail(Encoded(a), p, n) && p + n + 1 == Bound(Encoded(a), k + 1)
    decreases |a| - k
  {
    hide CharSet, CharLen, Follow;
    var s := Encoded(a);
    EncodedBounds(a, k);
    if k < |a| {
      EncodedHere(a, k);
      EncodedIteration(a[k], s, k, nb);
      AcceptsEncoded(a, k + 1, |CharSet(a[k])| - 1);
    } else {
      assert a[..|a|] == a;
    }
  }

  lemma EncodedIteration(c: bv32, s: seq<bv8>, k: nat, nb: nat)
    requires CodePoint(c) && Terminated(s) && EncodedAt(c, s, Bound(s, k))
    ensures var p := Bound(s, k);
            && s[p] != 0 && Follow(s[p], nb) == |CharSet(c)| - 1 >= 0 && Tail(s, p, |CharSet(c)| - 1)
            && p + |CharSet(c)| == Bound(s, k + 1)
  {
    hide CharSet, CharLen, CharGet, Follow, Terminated;
    var p, e := Bound(s, k), CharSet(c);
    CharSetShape(c);
    CharGetSet(c, s, p);
    FollowEncoded(c, nb);
    assert forall q :: p <= q < p + |e| ==> s[q] == e[q - p];
    assert s[p] == e[0];
  }

  /** Utf8CharLen did not have to fall back to a single byte. */
  ghost predicate Formed(s: seq<bv8>, p: nat)
    requires Terminated(s) && p < |s|
  {
    s[p] < 0x80 || CharLen(s, p) > 1
  }

  lemma FormedStep(s: seq<bv8>, p: nat, nb: nat)
    requires Terminated(s) && p < |s| && s[p] != 0 && s[p] < 0xF8
    ensures Formed(s, p) ==> Follow(s[p], nb) == CharLen(s, p) - 1 && Tail(s, p, CharLen(s, p) - 1)
    ensures !Formed(s, p) ==> var n := Follow(s[p], nb); n < 0 || !Tail(s, p, n) || p + n + 1 >= |s|
  {
  }

  /**
   * For a string without bytes from 0xF8 up, IsValidUtf8 accepts exactly if Utf8CharLen finds a
   * well-formed symbol at every boundary.
   */
  lemma {:induction false} AcceptsIffFormed(s: seq<bv8>, k: nat, nb: nat)
    requires Terminated(s) && k <= Count(s, 0)
    requires forall i :: 0 <= i < |s| ==> s[i] < 0xF8
    ensures Scan(s, Bound(s, k), nb) == Accept <==> forall j :: k <= j < Count(s, 0) ==> Formed(s, Bound(s, j))
    decreases Count(s, 0) - k
  {
    hide CharLen, Follow, Tail, Formed;
    BoundsAndCount(s, k);
    if k < Count(s, 0) {
      var p := Bound(s, k);
      FormedStep(s, p, nb);
      assert Bound(s, k + 1) == p + CharLen(s, p);
      AcceptsIffFormed(s, k + 1, CharLen(s, p) - 1);
    }
  }

  /** The string ends, as far as Utf8CharLen sees it, in a symbol that announces more bytes than there are. */
  ghost predicate CutOffAt(s: seq<bv8>, p: nat)
    requires Terminated(s) && p < |s|
  {
    && 0xC0 <= s[p] < 0xF8
    && |s| - 1 - p <= (if s[p] < 0xE0 then 1 else if s[p] < 0xF0 then 2 else 3)
    && forall q :: p < q < |s| - 1 ==> IsContinuation(s[q])
  }

  /** From symbol k on, all symbols are well formed up to one that is cut off. */
  ghost predicate FormedUntilCutOff(s: seq<bv8>, k: nat)
    requires Terminated(s)
  {
    exists m :: k <= m < Count(s, 0) && CutOffAt(s, Bound(s, m)) && forall j :: k <= j < m ==> Formed(s, Bound(s, j))
  }

  lemma FormedUntilCutOffNext(s: seq<bv8>, k: nat)
    requires Terminated(s) && k < Count(s, 0)
    ensures FormedUntilCutOff(s, k) <==>
            CutOffAt(s, Bound(s, k)) || (Formed(s, Bound(s, k)) && FormedUntilCutOff(s, k + 1))
  {
    hide Formed, CutOffAt, Bound, Count;
    if CutOffAt(s, Bound(s, k)) {
    } else if Formed(s, Bound(s, k)) && FormedUntilCutOff(s, k + 1) {
      var m :| k + 1 <= m < Count(s, 0) && CutOffAt(s, Bound(s, m))
               && forall j :: k + 1 <= j < m ==> Formed(s, Bound(s, j));
      assert forall j :: k <= j < m ==> Formed(s, Bound(s, j));
    }
  }

  lemma CutOffStep(s: seq<bv8>, p: nat, nb: nat)
    requires Terminated(s) && p < |s| && s[p] != 0 && s[p] < 0xF8
    ensures Formed(s, p) ==> !CutOffAt(s, p) && Scan(s, p, nb) == Scan(s, p + CharLen(s, p), CharLen(s, p) - 1)
    ensures !Formed(s, p) ==> (Scan(s, p, nb) == Overrun <==> CutOffAt(s, p))
  {
    FormedStep(s, p, nb);
    FollowIsAnnounced(s[p], nb);
  }

  /**
   * For a string without bytes from 0xF8 up, IsValidUtf8 steps over the terminator exactly if some symbol is cut
   * off by it and all symbols in front of that one are well formed.
   */
  lemma {:induction false} OverrunIffCutOff(s: seq<bv8>, k: nat, nb: nat)
    requires Terminated(s) && k <= Count(s, 0)
    requires forall i :: 0 <= i < |s| ==> s[i] < 0xF8
    ensures Scan(s, Bound(s, k), nb) == Overrun <==> FormedUntilCutOff(s, k)
    decreases Count(s, 0) - k
  {
    hide CharLen, Formed, CutOffAt, Scan, FormedUntilCutOff, Bound, Count;
    if k == Count(s, 0) {
      NothingCutOff(s, nb);
    } else {
      var p := Bound(s, k);
      FittingStep(s, k, 0);
      CutOffStep(s, p, nb);
      FormedUntilCutOffNext(s, k);
      OverrunIffCutOff(s, k + 1, CharLen(s, p) - 1);
    }
  }

  lemma NothingCutOff(s: seq<bv8>, nb: nat)
    requires Terminated(s)
    ensures Scan(s, Bound(s, Count(s, 0)), nb) == Accept && !FormedUntilCutOff(s, Count(s, 0))
  {
    BoundsAndCount(s, Count(s, 0));
  }

  // --- strings of any bytes -------------------------------------------------

  /** What a lead byte announces, by its value; the last two values leave what the group before announced. */
  function Announced(b: bv8, previous: nat): int {
    if b < 0x80 then 0 else if b < 0xC0 then -1 else if b < 0xE0 then 1 else if b < 0xF0 then 2
    else if b < 0xF8 then 3 else if b < 0xFC then 4 else if b < 0xFE then 5 else previous
  }

  /** How many one bits a byte starts with, from bit 7 - i on. */
  function LeadingOnes(b: bv8, i: nat): nat
    requires i <= 8
    decreases 8 - i
  {
    if i == 8 || (b >> (7 - i)) & 1 == 0 then 0 else 1 + LeadingOnes(b, i + 1)
  }

  /** One leading one is a stray continuation byte; two to six announce one byte less than there are leading ones. */
  lemma AnnouncedByOnes(b: bv8, previous: nat)
    ensures var n := LeadingOnes(b, 0);
            Announced(b, previous) == if n == 0 then 0 else if n == 1 then -1 else if n <= 6 then n - 1 else previous
  {
    assert LeadingOnes(b, 8) == 0;
  }

  lemma FollowIsAnnounced(b: bv8, nb: nat)
    ensures Follow(b, nb) == Announced(b, nb)
  {
  }

  ghost predicate Continued(g: seq<bv8>) {
    forall i :: 0 < i < |g| ==> IsContinuation(g[i])
  }

  /** A byte and exactly the continuation bytes that it announces. */
  ghost predicate Whole(g: seq<bv8>, previous: nat) {
    g != [] && Announced(g[0], previous) == |g| - 1 && Continued(g)
  }

  /** A byte and fewer continuation bytes than it announces. */
  ghost predicate CutOff(g: seq<bv8>, previous: nat) {
    g != [] && Announced(g[0], previous) > |g| - 1 && Continued(g)
  }

  function Concat(groups: seq<seq<bv8>>): seq<bv8> {
    if groups == [] then [] else groups[0] + Concat(groups[1..])
  }

  ghost predicate AllWhole(groups: seq<seq<bv8>>, previous: nat)
    decreases |groups|
  {
    groups == [] || (Whole(groups[0], previous) && AllWhole(groups[1..], |groups[0]| - 1))
  }

  /** Whole groups and then one that is cut off. */
  ghost predicate LastCutOff(groups: seq<seq<bv8>>, previous: nat)
    decreases |groups|
  {
    && groups != []
    && if |groups| == 1 then CutOff(groups[0], previous)
       else Whole(groups[0], previous) && LastCutOff(groups[1..], |groups[0]| - 1)
  }

  /** The text from position p on, without the terminator. */
  function Text(s: seq<bv8>, p: nat): seq<bv8>
    requires p < |s|
  {
    s[p..|s| - 1]
  }

  lemma TailIsContinued(s: seq<bv8>, p: nat, end: nat, n: nat)
    requires p < end <= |s| - 1 && (end == p + n + 1 || (end == |s| - 1 && end <= p + n))
    ensures Tail(s, p, n) <==> Continued(s[p..end])
  {
    var g := s[p..end];
    assert forall q :: p < q < end ==> s[q] == g[q - p];
    assert forall i :: 0 < i < |g| ==> g[i] == s[p + i];
  }

  /** One iteration of the scan takes a whole group or ends the scan. */
  lemma ScanGroup(s: seq<bv8>, p: nat, nb: nat)
    requires Terminated(s) && p < |s| - 1
    ensures var n := Announced(s[p], nb);
            && (0 <= n && p + n + 1 < |s| ==>
                  var g := s[p..p + n + 1];
                  && Text(s, p) == g + Text(s, p + n + 1)
                  && Scan(s, p, nb) == if Whole(g, nb) then Scan(s, p + n + 1, n) else Reject)
            && (p + n + 1 >= |s| ==> Scan(s, p, nb) == if CutOff(Text(s, p), nb) then Overrun else Reject)
            && (n < 0 ==> Scan(s, p, nb) == Reject)
  {
    FollowIsAnnounced(s[p], nb);
    hide Follow, Announced, Tail, Continued;
    var n := Announced(s[p], nb);
    if 0 <= n && p + n + 1 < |s| {
      TailIsContinued(s, p, p + n + 1, n);
    } else if 0 <= n {
      TailIsContinued(s, p, |s| - 1, n);
    }
  }

  /** What the scan accepts or steps over can be divided into groups. */
  lemma {:induction false} Divide(s: seq<bv8>, p: nat, nb: nat) returns (groups: seq<seq<bv8>>)
    requires Terminated(s) && p < |s| && Scan(s, p, nb) != Reject
    ensures Concat(groups) == Text(s, p)
    ensures if Scan(s, p, nb) == Accept then AllWhole(groups, nb) else LastCutOff(groups, nb)
    decreases |s| - p
  {
    if p == |s| - 1 {
      groups := [];
    } else {
      ScanGroup(s, p, nb);
      hide Scan, Announced;
      var n := Announced(s[p], nb);
      if p + n + 1 < |s| {
        var rest := Divide(s, p + n + 1, n);
        var g := s[p..p + n + 1];
        groups := [g] + rest;
        assert groups[1..] == rest;
      } else {
        groups := [Text(s, p)];
        assert Concat(groups[1..]) == [];
      }
    }
  }

  /** The first group of a division stands at p, and the rest of the division behind it. */
  lemma FirstGroup(s: seq<bv8>, p: nat, groups: seq<seq<bv8>>)
    requires Terminated(s) && p < |s| && Concat(groups) == Text(s, p) && groups != [] && groups[0] != []
    ensures p + |groups[0]| < |s| && s[p] == groups[0][0] && s[p..p + |groups[0]|] == groups[0]
    ensures Concat(groups[1..]) == Text(s, p + |groups[0]|)
    ensures |groups| == 1 ==> groups[0] == Text(s, p)
  {
    var g, rest := groups[0], groups[1..];
    assert Text(s, p) == g + Concat(rest);
    assert s[p] == Text(s, p)[0] && s[p..p + |g|] == Text(s, p)[..|g|];
    assert Text(s, p)[|g|..] == Text(s, p + |g|);
  }

  /** And what can be divided so gets that verdict. */
  lemma {:induction false} WholeAccepted(s: seq<bv8>, p: nat, nb: nat, groups: seq<seq<bv8>>)
    requires Terminated(s) && p < |s| && Concat(groups) == Text(s, p) && AllWhole(groups, nb)
    ensures Scan(s, p, nb) == Accept
    decreases |groups|
  {
    if groups == [] {
      assert |Text(s, p)| == 0;
    } else {
      FirstGroup(s, p, groups);
      ScanGroup(s, p, nb);
      hide Scan, Announced, Concat, Text, Continued, Terminated;
      WholeAccepted(s, p + |groups[0]|, |groups[0]| - 1, groups[1..]);
    }
  }

  lemma {:induction false} CutOffOverruns(s: seq<bv8>, p: nat, nb: nat, groups: seq<seq<bv8>>)
    requires Terminated(s) && p < |s| && Concat(groups) == Text(s, p) && LastCutOff(groups, nb)
    ensures Scan(s, p, nb) == Overrun
    decreases |groups|
  {
    FirstGroup(s, p, groups);
    ScanGroup(s, p, nb);
    hide Scan, Announced, Concat, Text, Continued, Terminated;
    if |groups| > 1 {
      CutOffOverruns(s, p + |groups[0]|, |groups[0]| - 1, groups[1..]);
    }
  }

  /**
   * For every string: IsValidUtf8 accepts exactly if the string is a row of whole groups, and steps over the
   * terminator exactly if it is whole groups and one that the terminator cuts off.
   */
  lemma VerdictIffGroups(s: seq<bv8>)
    requires Terminated(s)
    ensures Scan(s, 0, 0) == Accept <==> exists groups :: Concat(groups) == Text(s, 0) && AllWhole(groups, 0)
    ensures Scan(s, 0, 0) == Overrun <==> exists groups :: Concat(groups) == Text(s, 0) && LastCutOff(groups, 0)
  {
    hide Scan, AllWhole, LastCutOff;
    if Scan(s, 0, 0) != Reject {
      var groups := Divide(s, 0, 0);
    }
    forall groups | Concat(groups) == Text(s, 0) && AllWhole(groups, 0)
      ensures Scan(s, 0, 0) == Accept
    {
      WholeAccepted(s, 0, 0, groups);
    }
    forall groups | Concat(groups) == Text(s, 0) && LastCutOff(groups, 0)
      ensures Scan(s, 0, 0) == Overrun
    {
      CutOffOverruns(s, 0, 0, groups);
    }
  }

  /** A lead byte right before the terminator makes the scan step over it. */
  lemma OverrunExample()
    ensures Terminated([0xC3, 0]) && Scan([0xC3, 0], 0, 0) == Overrun
  {
  }

  /** So does 0xFE behind a two-byte symbol, which makes it announce one byte; at the front it announces none. */
  lemma CarriedOverExample()
    ensures Scan([0xC3, 0xA9, 0xFE, 0], 0, 0) == Overrun && Scan([0xFE, 0], 0, 0) == Accept
  {
    var s: seq<bv8> := [0xC3, 0xA9, 0xFE, 0];
    assert Follow(0xC3, 0) == 1 && Follow(0xFE, 1) == 1 && Follow(0xFE, 0) == 0;
    assert Scan(s, 4, 1) == Overrun && Scan(s, 2, 1) == Overrun;
    assert Scan([0xFE, 0], 1, 0) == Accept;
  }
}
