/** The read-ahead cache window of cUnbufferedFile in libvdr-tools.c, for reading. */
module CacheWindow {

  const FADVGRAN := 4 * 1024
  const READCHUNK := 8 * 1024 * 1024

  /**
   * The fields of a cUnbufferedFile, the file offset the kernel keeps, and the bytes that reading and
   * read-ahead have brought into the page cache and that have not been dropped since.
   */
  datatype Window = Window(curpos: int, cachedstart: int, cachedend: int, lastpos: int, ahead: int, readahead: int,
                           offset: int, resident: iset<int>)

  function Min(a: int, b: int): int { if a < b then a else b }
  function Max(a: int, b: int): int { if a > b then a else b }

  predicate Between(x: int, lo: int, hi: int) {
    lo <= x < hi
  }

  ghost function Range(lo: int, hi: int): iset<int> {
    iset x: int | Between(x, lo, hi)
  }

  /** The page of byte x lies completely between lo and hi. */
  predicate PageBetween(x: int, lo: int, hi: int) {
    lo <= x - x % FADVGRAN && x - x % FADVGRAN + FADVGRAN <= hi
  }

  /** POSIX_FADV_DONTNEED: the kernel drops the pages that lie completely inside the given range. */
  ghost function WholePages(lo: int, hi: int): iset<int> {
    iset x: int | PageBetween(x, lo, hi)
  }

  /** FadviseDrop widens the range so that partial pages at its ends are dropped as well. */
  ghost function Dropped(offset: int, len: int): iset<int> {
    WholePages(offset - (FADVGRAN - 1), offset - (FADVGRAN - 1) + (len + (FADVGRAN - 1) * 2))
  }

  /** The widening is enough: every byte of the range itself is dropped. */
  lemma DroppedCovers(offset: int, len: int)
    ensures Range(offset, offset + len) <= Dropped(offset, len)
  {
  }

  ghost function Opened(): Window {
    Window(0, 0, 0, 0, 0, 128 * 1024, 0, iset{})
  }

  /** Seek; the result of lseek is -1 if it fails, and the kernel's offset stays then. */
  ghost function SeekStep(w: Window, result: int): Window {
    w.(curpos := result, offset := if result < 0 then w.offset else result)
  }

  // --- Read, block by block -------------------------------------------------

  /** A position outside the window invalidates it; a position in front of it extends it. */
  ghost function EnterStep(w: Window): Window {
    var v := if w.cachedstart < w.cachedend && (w.curpos < w.cachedstart || w.curpos > w.cachedend)
             then w.(resident := w.resident - Dropped(w.cachedstart, w.cachedend - w.cachedstart),
                     cachedstart := w.curpos, cachedend := w.curpos)
             else w;
    v.(cachedstart := Min(v.cachedstart, v.curpos))
  }

  /** n bytes arrive. */
  ghost function FetchStep(w: Window, n: int): Window {
    w.(curpos := w.curpos + n, cachedend := Max(w.cachedend, w.curpos + n),
       offset := w.offset + n, resident := w.resident + Range(w.offset, w.offset + n))
  }

  ghost function AheadStep(w: Window, jumped: int, size: int): Window {
    if 0 <= jumped <= w.readahead then
      var v := if w.ahead - w.curpos < w.readahead / 2
               then w.(ahead := w.curpos + w.readahead, cachedend := Max(w.cachedend, w.curpos + w.readahead),
                       resident := w.resident + Range(w.curpos, w.curpos + w.readahead))
               else w;
      v.(readahead := Max(v.readahead, size * 32))
    else w.(ahead := w.curpos)
  }

  ghost function ShrinkStep(w: Window): Window {
    if w.cachedstart >= w.cachedend then w
    else if w.curpos - w.cachedstart > READCHUNK * 2
    then w.(resident := w.resident - Dropped(w.cachedstart, w.curpos - READCHUNK - w.cachedstart),
            cachedstart := w.curpos - READCHUNK)
    else if w.cachedend > w.ahead && w.cachedend - w.curpos > READCHUNK * 2
    then w.(resident := w.resident - Dropped(w.curpos + READCHUNK, w.cachedend - (w.curpos + READCHUNK)),
            cachedend := w.curpos + READCHUNK)
    else w
  }

  /** Read of up to `size` bytes that gets n, or an error if n is negative. */
  ghost function ReadStep(w: Window, size: nat, n: int): Window {
    var v := EnterStep(w);
    var u := if n > 0 then AheadStep(FetchStep(v, n), w.curpos - w.lastpos, size) else v;
    var s := ShrinkStep(u);
    s.(lastpos := s.curpos)
  }

  // --- safety ---------------------------------------------------------------

  /** Everything resident lies in the window, and the class knows where the kernel reads next. */
  ghost predicate Safe(w: Window) {
    && w.cachedstart <= w.cachedend
    && w.resident <= Range(w.cachedstart, w.cachedend)
    && w.offset == w.curpos
    && w.readahead >= 0
  }

  lemma EnterSafe(w: Window)
    requires Safe(w)
    ensures var e := EnterStep(w);
            && Safe(e) && e.cachedstart <= w.curpos == e.curpos
            && (e.cachedstart < e.cachedend ==> e.curpos <= e.cachedend)
  {
  }

  lemma FetchSafe(w: Window, n: int, jumped: int, size: nat)
    requires Safe(w) && n > 0 && w.cachedstart <= w.curpos
    ensures var v := AheadStep(FetchStep(w, n), jumped, size);
            Safe(v) && v.cachedstart <= v.curpos <= v.cachedend
  {
  }

  lemma ShrinkSafe(w: Window)
    requires Safe(w) && w.cachedstart <= w.curpos && (w.cachedstart < w.cachedend ==> w.curpos <= w.cachedend)
    ensures Safe(ShrinkStep(w))
    ensures w.cachedstart <= w.curpos <= w.cachedend ==>
              var s := ShrinkStep(w);
              s.cachedstart <= s.curpos <= s.cachedend && s.curpos - s.cachedstart <= READCHUNK * 2
  {
  }

  /** Every Read keeps the window safe; after one that got data the position is in the window, near its start. */
  lemma ReadSafe(w: Window, size: nat, n: int)
    requires Safe(w) && n <= size
    ensures var r := ReadStep(w, size, n);
            && Safe(r) && r.curpos == w.curpos + (if n > 0 then n else 0) == r.lastpos
            && (n > 0 ==> r.cachedstart <= r.curpos <= r.cachedend && r.curpos - r.cachedstart <= READCHUNK * 2)
  {
    hide EnterStep, FetchStep, ShrinkStep, AheadStep;
    EnterSafe(w);
    var v := EnterStep(w);
    if n > 0 {
      FetchSafe(v, n, w.curpos - w.lastpos, size);
      FetchPosition(v, n, w.curpos - w.lastpos, size);
      ShrinkSafe(AheadStep(FetchStep(v, n), w.curpos - w.lastpos, size));
      ShrinkPosition(AheadStep(FetchStep(v, n), w.curpos - w.lastpos, size));
    } else {
      ShrinkSafe(v);
      ShrinkPosition(v);
    }
  }

  lemma FetchPosition(w: Window, n: int, jumped: int, size: nat)
    ensures AheadStep(FetchStep(w, n), jumped, size).curpos == w.curpos + n
  {
  }

  lemma ShrinkPosition(w: Window)
    ensures ShrinkStep(w).curpos == w.curpos
  {
  }

  /** The bytes around a position that shrinking leaves alone: the rounding of FadviseDrop costs at most one page. */
  ghost predicate Near(x: int, position: int) {
    position - READCHUNK + FADVGRAN <= x < position + READCHUNK - FADVGRAN
  }

  /**
   * What Read may forget: unless the position was outside the window, it keeps every resident byte near
   * the new position, and it always keeps the bytes near it that it has just read.
   */
  lemma ReadKeepsNear(w: Window, size: nat, n: int, x: int)
    requires 0 < n <= size && Near(x, w.curpos + n)
    ensures Between(x, w.offset, w.offset + n) ==> x in ReadStep(w, size, n).resident
    ensures w.cachedstart <= w.curpos <= w.cachedend && x in w.resident ==> x in ReadStep(w, size, n).resident
  {
    var v := AheadStep(FetchStep(EnterStep(w), n), w.curpos - w.lastpos, size);
    assert v.curpos == w.curpos + n;
    if x in v.resident {
      ShrinkKeepsNear(v, x);
    }
  }

  lemma ShrinkKeepsNear(w: Window, x: int)
    requires Near(x, w.curpos) && x in w.resident
    ensures x in ShrinkStep(w).resident
  {
  }

  /**
   * Read-ahead: a Read that got data and did not jump leaves at least half of the read-ahead size
   * requested in front of the position, and requests nothing if that much was requested already; the size
   * never shrinks and covers 32 such Reads. After a jump nothing in front of the position is requested.
   */
  lemma ReadAheadKept(w: Window, size: nat, n: int)
    requires 0 < n <= size && w.readahead >= 0
    ensures var r := ReadStep(w, size, n);
            if 0 <= w.curpos - w.lastpos <= w.readahead
            then && r.ahead - r.curpos >= w.readahead / 2
                 && (w.ahead - r.curpos >= w.readahead / 2 ==> r.ahead == w.ahead)
                 && r.readahead >= w.readahead && r.readahead >= size * 32
                 && (r.readahead == w.readahead || r.readahead == size * 32)
            else r.ahead == r.curpos && r.readahead == w.readahead
                 && r.resident <= w.resident + Range(w.offset, w.offset + n)
  {
    hide Dropped;
  }

  /** A Read that gets nothing requests nothing, reads nothing and stays where it is. */
  lemma NothingAhead(w: Window, size: nat, n: int)
    requires n <= 0
    ensures var r := ReadStep(w, size, n);
            && r.curpos == r.lastpos == w.curpos && r.offset == w.offset
            && r.ahead == w.ahead && r.readahead == w.readahead && r.resident <= w.resident
  {
    hide Dropped;
  }

  /**
   * The window does not grow for ever: after a Read that got data it ends at the read-ahead request or at most two
   * chunks in front of the position, unless that Read has just cut it one chunk behind the position.
   */
  lemma WindowBounded(w: Window, size: nat, n: int)
    requires Safe(w) && 0 < n <= size
    ensures var r := ReadStep(w, size, n);
            || r.cachedend <= r.ahead || r.cachedend - r.curpos <= READCHUNK * 2
            || r.cachedstart == r.curpos - READCHUNK
  {
    hide Dropped, Range;
  }

  /**
   * When a Read does request read-ahead, the bytes in front of the new position are resident afterwards: up to where
   * the request ends, or as far as shrinking the window leaves them.
   */
  lemma ReadAheadResident(w: Window, size: nat, n: int, x: int)
    requires 0 < n <= size && 0 <= w.curpos - w.lastpos <= w.readahead
    requires w.ahead - (w.curpos + n) < w.readahead / 2
    requires Near(x, w.curpos + n) && w.curpos + n <= x
    ensures var r := ReadStep(w, size, n);
            && r.ahead == r.curpos + w.readahead && r.curpos == w.curpos + n
            && (x < r.ahead ==> x in r.resident)
  {
    var v := AheadStep(FetchStep(EnterStep(w), n), w.curpos - w.lastpos, size);
    assert v.curpos == w.curpos + n && v.ahead == v.curpos + w.readahead;
    if x < v.ahead {
      assert x in v.resident;
      ShrinkKeepsNear(v, x);
    }
  }

  /** A request that reaches to the end of the window is not dropped again, however large it is. */
  lemma ReadAheadWhole(w: Window, size: nat, n: int, x: int)
    requires 0 < n <= size && 0 <= w.curpos - w.lastpos <= w.readahead
    requires w.ahead - (w.curpos + n) < w.readahead / 2 && w.cachedend <= w.curpos + n + w.readahead
    ensures w.curpos + n <= x < w.curpos + n + w.readahead ==> x in ReadStep(w, size, n).resident
  {
    var v := AheadStep(FetchStep(EnterStep(w), n), w.curpos - w.lastpos, size);
    assert v.curpos == w.curpos + n && v.ahead == v.cachedend == v.curpos + w.readahead;
    if w.curpos + n <= x < v.ahead {
      assert x in v.resident;
    }
  }

  datatype Op = Seek(result: int) | Read(size: nat, n: int) | SetReadAhead(ra: nat)

  /** lseek succeeds, and the kernel reads no more than it is asked for. */
  ghost predicate Possible(op: Op) {
    match op
    case Seek(result) => result >= 0
    case Read(size, n) => -1 <= n <= size
    case SetReadAhead(_) => true
  }

  ghost function Step(w: Window, op: Op): Window {
    match op
    case Seek(result) => SeekStep(w, result)
    case Read(size, n) => ReadStep(w, size, n)
    case SetReadAhead(ra) => w.(readahead := ra)
  }

  ghost function Run(ops: seq<Op>): Window {
    if ops == [] then Opened() else Step(Run(ops[..|ops| - 1]), ops[|ops| - 1])
  }

  /** Safety over whole runs. */
  lemma {:induction false} RunSafe(ops: seq<Op>)
    requires forall i :: 0 <= i < |ops| ==> Possible(ops[i])
    ensures Safe(Run(ops))
    ensures ops != [] && ops[|ops| - 1].Read? && ops[|ops| - 1].n > 0 ==>
              var w := Run(ops);
              w.cachedstart <= w.curpos <= w.cachedend && w.curpos - w.cachedstart <= READCHUNK * 2
  {
    hide ReadStep;
    if ops != [] {
      var init, op := ops[..|ops| - 1], ops[|ops| - 1];
      RunSafe(init);
      assert Possible(op);
      if op.Read? {
        ReadSafe(Run(init), op.size, op.n);
      }
    }
  }

  lemma RunNext(ops: seq<Op>, op: Op)
    ensures Run(ops + [op]) == Step(Run(ops), op)
  {
    hide Step;
    assert (ops + [op])[..|ops|] == ops;
  }

  // --- when lseek fails -----------------------------------------------------

  /** What the system calls can give: lseek returns -1 if it fails. */
  predicate Realistic(op: Op) {
    match op
    case Seek(result) => result >= -1
    case Read(size, n) => -1 <= n <= size
    case SetReadAhead(_) => true
  }

  lemma {:induction false} KernelOffset(ops: seq<Op>)
    requires forall i :: 0 <= i < |ops| ==> Realistic(ops[i])
    ensures Run(ops).offset >= 0
  {
    if ops != [] {
      var init, op := ops[..|ops| - 1], ops[|ops| - 1];
      KernelOffset(init);
      assert Realistic(op);
      if op.Read? {
        ReadOffset(Run(init), op.size, op.n);
      }
      hide ReadStep;
    }
  }

  lemma ReadOffset(w: Window, size: nat, n: int)
    ensures ReadStep(w, size, n).offset == if n > 0 then w.offset + n else w.offset
  {
  }

  /** In every state of a run the window is safe if and only if no lseek of the run has failed. */
  lemma SafeIffSeeksSucceed(ops: seq<Op>)
    requires forall i :: 0 <= i < |ops| ==> Realistic(ops[i])
    ensures (forall k :: 0 <= k <= |ops| ==> Safe(Run(ops[..k]))) <==>
            forall i :: 0 <= i < |ops| && ops[i].Seek? ==> ops[i].result >= 0
  {
    hide Run, Step, Safe;
    if i :| 0 <= i < |ops| && ops[i].Seek? && ops[i].result < 0 {
      assert Realistic(ops[i]);
      assert ops[..i + 1] == ops[..i] + [ops[i]];
      RunNext(ops[..i], ops[i]);
      KernelOffset(ops[..i]);
      LostPosition(Run(ops[..i]), ops[i].result);
    } else {
      forall k | 0 <= k <= |ops|
        ensures Safe(Run(ops[..k]))
      {
        assert forall i :: 0 <= i < k ==> Realistic(ops[i]) && ops[..k][i] == ops[i];
        RunSafe(ops[..k]);
      }
    }
  }

  lemma LostPosition(w: Window, result: int)
    requires w.offset >= 0 && result < 0
    ensures !Safe(Step(w, Seek(result)))
  {
  }

  /** Nothing resident lies outside the window. */
  ghost predicate Inside(w: Window) {
    w.resident <= Range(w.cachedstart, w.cachedend)
  }

  /** The first page boundary not below x. */
  function PageEnd(x: int): int {
    x + (FADVGRAN - 1) - (x + (FADVGRAN - 1)) % FADVGRAN
  }

  /** How far behind an empty window a Read after a failed lseek may go: a head that is dropped takes its page along. */
  function StrayLimit(cachedend: int, n: int): int {
    if n <= READCHUNK * 2 < cachedend - (n - 1) then PageEnd(cachedend) else cachedend
  }

  /** The state of such a Read before it shrinks the window. */
  lemma StrayFetch(w: Window, size: nat, n: int)
    requires Safe(w) && w.cachedstart >= 0 && w.lastpos >= 0 && 0 < n <= size
    ensures var v := SeekStep(w, -1);
            var u := AheadStep(FetchStep(EnterStep(v), n), v.curpos - v.lastpos, size);
            && u.cachedstart == -1 && u.curpos == u.ahead == n - 1
            && ReadStep(v, size, n) == ShrinkStep(u).(lastpos := ShrinkStep(u).curpos)
            && (w.cachedstart == w.cachedend ==>
                  u.cachedend == Max(w.cachedend, n - 1) && u.resident == Range(w.offset, w.offset + n))
            && (w.cachedstart < w.cachedend ==> u.cachedend == n - 1 && w.offset + n - 1 in u.resident)
  {
    ShrinkPosition(AheadStep(FetchStep(EnterStep(SeekStep(w, -1)), n), -1 - w.lastpos, size));
    assert w.cachedstart == w.cachedend ==> w.resident == iset{};
  }

  /** Shrinking the head of a window drops what lies behind it up to the end of the page. */
  lemma HeadDropped(from: int, end: int, x: int)
    requires from <= x && from <= end
    ensures x in Dropped(from, end - from) <==> x < PageEnd(end)
  {
  }

  lemma TailKeeps(end: int, x: int)
    requires x >= end + FADVGRAN && end >= -1
    ensures x !in Dropped(-1, end + 1)
  {
  }

  /**
   * What a failed lseek leads to: the next Read that gets data leaves a resident byte outside the window, unless the
   * window was empty and all that is read lies in front of its end.
   */
  lemma ReadAfterFailedSeek(w: Window, size: nat, n: int)
    requires Safe(w) && w.cachedstart >= 0 && w.lastpos >= 0 && w.offset >= 0 && 0 < n <= size
    ensures Inside(ReadStep(SeekStep(w, -1), size, n)) <==>
            w.cachedstart == w.cachedend && w.offset + n <= StrayLimit(w.cachedend, n)
  {
    StrayFetch(w, size, n);
    var v := SeekStep(w, -1);
    var u := AheadStep(FetchStep(EnterStep(v), n), v.curpos - v.lastpos, size);
    StrayShrink(u, w.offset, n, w.cachedstart == w.cachedend, w.cachedend);
  }

  lemma StrayShrink(u: Window, offset: int, n: int, empty: bool, end: int)
    requires n > 0 && offset >= 0 && end >= 0
    requires u.cachedstart == -1 && u.curpos == u.ahead == n - 1
    requires empty ==> u.cachedend == Max(end, n - 1) && u.resident == Range(offset, offset + n)
    requires !empty ==> u.cachedend == n - 1 && offset + n - 1 in u.resident
    ensures Inside(ShrinkStep(u)) <==> empty && offset + n <= StrayLimit(end, n)
  {
    var r, last := ShrinkStep(u), offset + n - 1;
    if n > READCHUNK * 2 {
      DroppedCovers(-1, n - 1 - READCHUNK + 1);
      TailKeeps(n - 1 - READCHUNK, last);
      assert last in r.resident && r.cachedend == u.cachedend;
    } else if u.cachedend - (n - 1) > READCHUNK * 2 {
      var from := n - 1 + READCHUNK;
      assert empty && end == u.cachedend && r.cachedend == from && r.cachedstart == -1;
      forall x | x in u.resident && x >= from
        ensures x in Dropped(from, end - from) <==> x < PageEnd(end)
      {
        HeadDropped(from, end, x);
      }
      if last >= PageEnd(end) {
        assert last in r.resident;
      } else {
        assert forall x :: x in r.resident ==> x <= last;
      }
    } else if u.resident <= Range(-1, u.cachedend) {
      assert last in u.resident;
    }
  }

  /** In runs of successful Seeks these numbers are never negative. */
  lemma {:induction false} RunNonNegative(ops: seq<Op>)
    requires forall i :: 0 <= i < |ops| ==> Possible(ops[i])
    ensures var w := Run(ops); w.cachedstart >= 0 && w.lastpos >= 0 && w.curpos >= 0
  {
    if ops != [] {
      var init, op := ops[..|ops| - 1], ops[|ops| - 1];
      RunNonNegative(init);
      assert Possible(op);
      if op.Read? {
        ReadNonNegative(Run(init), op.size, op.n);
      }
      hide ReadStep;
    }
  }

  lemma ReadNonNegative(w: Window, size: nat, n: int)
    requires w.cachedstart >= 0 && w.lastpos >= 0 && w.curpos >= 0
    ensures var r := ReadStep(w, size, n); r.cachedstart >= 0 && r.lastpos >= 0 && r.curpos >= 0
  {
  }

  /** The last Seek succeeded, if there was one: the class knows the position. */
  predicate Located(ops: seq<Op>) {
    ops == [] ||
    match ops[|ops| - 1]
    case Seek(result) => result >= 0
    case _ => Located(ops[..|ops| - 1])
  }

  /** No Read comes between a failed lseek and the next Seek that succeeds. */
  predicate Careful(ops: seq<Op>) {
    forall i :: 0 <= i < |ops| && ops[i].Read? ==> Located(ops[..i])
  }

  lemma {:induction false} CarefulRun(ops: seq<Op>)
    requires (forall i :: 0 <= i < |ops| ==> Realistic(ops[i])) && Careful(ops)
    ensures var w := Run(ops);
            && Safe(w.(curpos := w.offset)) && w.cachedstart >= 0 && w.lastpos >= 0 && w.offset >= 0
            && w.curpos == if Located(ops) then w.offset else -1
  {
    if ops != [] {
      var init, op := ops[..|ops| - 1], ops[|ops| - 1];
      assert forall i :: 0 <= i < |init| ==> init[..i] == ops[..i];
      CarefulRun(init);
      assert Realistic(op);
      if op.Read? {
        assert Located(ops[..|init|]);
        assert Run(init).(curpos := Run(init).offset) == Run(init);
        ReadSafe(Run(init), op.size, op.n);
        ReadNonNegative(Run(init), op.size, op.n);
        ReadOffset(Run(init), op.size, op.n);
      }
      hide ReadStep;
    }
  }

  lemma NothingRead(w: Window, size: nat, n: int)
    requires Safe(w) && w.cachedstart >= 0 && n <= 0
    ensures Inside(ReadStep(SeekStep(w, -1), size, n))
  {
    DroppedCovers(w.cachedstart, w.cachedend - w.cachedstart);
  }

  /**
   * Whether resident bytes get outside the window in a run, up to and including the first Read that comes at a lost
   * position: they do not if and only if there is no such Read, or it gets nothing, or the window was empty and all
   * that is read lies in front of its end.
   */
  lemma RunInsideIff(ops: seq<Op>, size: nat, n: int)
    requires (forall i :: 0 <= i < |ops| ==> Realistic(ops[i])) && Careful(ops) && -1 <= n <= size
    ensures Inside(Run(ops))
    ensures Inside(Run(ops + [Read(size, n)])) <==>
            var w := Run(ops);
            Located(ops) || n <= 0 || (w.cachedstart == w.cachedend && w.offset + n <= StrayLimit(w.cachedend, n))
  {
    CarefulRun(ops);
    RunNext(ops, Read(size, n));
    hide Run, ReadStep, Located, StrayLimit;
    var w := Run(ops);
    var v := w.(curpos := w.offset);
    if Located(ops) {
      assert v == w;
      ReadSafe(w, size, n);
    } else {
      assert SeekStep(v, -1) == w;
      if n > 0 {
        ReadAfterFailedSeek(v, size, n);
      } else {
        NothingRead(v, size, n);
      }
    }
  }

  /** Ten bytes, a failed lseek and five bytes: byte 14 is resident and outside the window. */
  lemma FailedSeekExample()
    ensures var w := Run([Read(10, 10), Seek(-1), Read(5, 5)]);
            !Inside(w)
  {
    hide Run, ReadStep, Inside;
    RunNext([], Read(10, 10));
    RunNext([Read(10, 10)], Seek(-1));
    RunNext([Read(10, 10), Seek(-1)], Read(5, 5));
    assert [] + [Read(10, 10)] == [Read(10, 10)];
    assert [Read(10, 10)] + [Seek(-1)] == [Read(10, 10), Seek(-1)];
    assert [Read(10, 10), Seek(-1)] + [Read(5, 5)] == [Read(10, 10), Seek(-1), Read(5, 5)];
    RunNone();
    FirstRead();
    ReadSafe(Opened(), 10, 10);
    ReadAfterFailedSeek(ReadStep(Opened(), 10, 10), 5, 5);
  }

  lemma RunNone()
    ensures Run([]) == Opened()
  {
  }

  lemma FirstRead()
    ensures var a := ReadStep(Opened(), 10, 10);
            a.cachedend == 10 + 128 * 1024 && a.cachedstart == 0 && a.offset == a.curpos == a.lastpos == 10
  {
    hide Dropped, Range;
    var v := EnterStep(Opened());
    var u := AheadStep(FetchStep(v, 10), 0, 10);
    assert ReadStep(Opened(), 10, 10) == ShrinkStep(u).(lastpos := ShrinkStep(u).curpos);
    assert v.cachedstart == v.cachedend == v.curpos == v.offset == v.ahead == 0 && v.readahead == 128 * 1024;
    hide EnterStep, ReadStep;
    assert u.cachedend == 10 + 128 * 1024 && u.cachedstart == 0 && u.curpos == u.offset == 10;
    hide FetchStep, AheadStep;
  }

  // --- the class ------------------------------------------------------------

  class UnbufferedFile {
    var fd: int
    var curpos: int
    var cachedstart: int
    var cachedend: int
    var lastpos: int
    var ahead: int
    var readahead: int
    ghost var offset: int
    ghost var resident: iset<int>

    ghost function View(): Window
      reads this
    {
      Window(curpos, cachedstart, cachedend, lastpos, ahead, readahead, offset, resident)
    }

    /** Open; `fd` is the result of open(). */
    constructor (fd: int)
      ensures View() == Opened() && this.fd == fd
    {
      this.fd := fd;
      curpos := 0;
      lastpos, ahead := 0, 0;
      cachedstart := 0;
      cachedend := 0;
      readahead := 128 * 1024;
      offset, resident := 0, iset{};
    }

    method FadviseDrop(offset: int, len: int)
      modifies this`resident
      ensures resident == old(resident) - Dropped(offset, len)
    {
      resident := resident - WholePages(offset - (FADVGRAN - 1), offset - (FADVGRAN - 1) + (len + (FADVGRAN - 1) * 2));
    }

    /** Seek with SEEK_SET or another whence; `result` is what lseek returns if it is called. */
    method Seek(target: int, seekSet: bool, result: int) returns (r: int)
      modifies this`curpos, this`offset
      ensures View() == if seekSet && target == old(curpos) then old(View()) else SeekStep(old(View()), result)
      ensures r == curpos
    {
      if seekSet && target == curpos {
        return curpos;
      }
      curpos := result;
      offset := if result < 0 then offset else result;
      return curpos;
    }

    /** Read; `bytesRead` is what safe_read returns. */
    method Read(size: nat, bytesRead: int) returns (r: int)
      requires -1 <= bytesRead <= size
      modifies this
      ensures fd == old(fd)
      ensures if fd >= 0 then r == bytesRead && View() == ReadStep(old(View()), size, bytesRead)
              else r == -1 && View() == old(View())
    {
      if fd >= 0 {
        ReadOpen(size, bytesRead);
        return bytesRead;
      }
      return -1;
    }

    method ReadOpen(size: nat, bytesRead: int)
      requires -1 <= bytesRead <= size
      modifies this`curpos, this`cachedstart, this`cachedend, this`lastpos, this`ahead, this`readahead, this`offset,
               this`resident
      ensures View() == ReadStep(old(View()), size, bytesRead)
    {
      var jumped := curpos - lastpos;
      ghost var w := View();
      assert jumped == w.curpos - w.lastpos;
      hide View, EnterStep, FetchStep, ShrinkStep, AheadStep;
      EnterWindow();
      ghost var u := EnterStep(w);
      assert View() == u;
      if bytesRead > 0 {
        Fetch(bytesRead);
        ReadAhead(jumped, size);
        u := AheadStep(FetchStep(u, bytesRead), jumped, size);
        assert View() == u;
      }
      ShrinkWindow();
      assert View() == ShrinkStep(u);
      Remember();
    }

    // The blocks of Read.

    method EnterWindow()
      modifies this`cachedstart, this`cachedend, this`resident
      ensures View() == EnterStep(old(View()))
    {
      if cachedstart < cachedend && (curpos < cachedstart || curpos > cachedend) {
        FadviseDrop(cachedstart, cachedend - cachedstart);
        cachedstart := curpos;
        cachedend := curpos;
      }
      cachedstart := Min(cachedstart, curpos);
    }

    method Fetch(bytesRead: int)
      modifies this`curpos, this`cachedend, this`offset, this`resident
      ensures View() == FetchStep(old(View()), bytesRead)
    {
      offset, resident := offset + bytesRead, resident + Range(offset, offset + bytesRead);
      curpos := curpos + bytesRead;
      cachedend := Max(cachedend, curpos);
    }

    method ReadAhead(jumped: int, size: nat)
      modifies this`ahead, this`cachedend, this`readahead, this`resident
      ensures View() == AheadStep(old(View()), jumped, size)
    {
      if jumped >= 0 && jumped <= readahead {
        if ahead - curpos < readahead / 2 {
          resident := resident + Range(curpos, curpos + readahead);
          ahead := curpos + readahead;
          cachedend := Max(cachedend, ahead);
        }
        if readahead < size * 32 {
          readahead := size * 32;
        }
      } else {
        ahead := curpos;
      }
    }

    method ShrinkWindow()
      modifies this`cachedstart, this`cachedend, this`resident
      ensures View() == ShrinkStep(old(View()))
    {
      if cachedstart < cachedend {
        if curpos - cachedstart > READCHUNK * 2 {
          FadviseDrop(cachedstart, curpos - READCHUNK - cachedstart);
          cachedstart := curpos - READCHUNK;
        } else if cachedend > ahead && cachedend - curpos > READCHUNK * 2 {
          FadviseDrop(curpos + READCHUNK, cachedend - (curpos + READCHUNK));
          cachedend := curpos + READCHUNK;
        }
      }
    }

    method Remember()
      modifies this`lastpos
      ensures var w := old(View()); View() == w.(lastpos := w.curpos)
    {
      lastpos := curpos;
    }
  }
}
