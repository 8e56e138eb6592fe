/**
 * cMutex and cCondVar of libvdr-thread.c as a transition system: any number of threads take steps in any
 * order, and every access to `locked` and every pthread call is a step of its own.
 */
module CMutex {
  import opened Options

  /** Where a thread is. The numbers are what it keeps in registers and local variables. */
  datatype Pc =
    | Outside
    | LockCall                   // in pthread_mutex_lock
    | LockLoad                   // locked++
    | LockStore(value: int)
    | UnlockLoad                 // --locked
    | UnlockStore(value: int)
    | UnlockTest(value: int)     // if it became zero: pthread_mutex_unlock
    | WaitTest                   // if (Mutex.locked)
    | WaitSave                   // int locked = Mutex.locked
    | WaitClear(saved: int)      // Mutex.locked = 0
    | WaitCall(saved: int)       // entering pthread_cond_wait, which gives the mutex up
    | WaitSleep(saved: int)      // until a signal, a time-out or a spurious wake-up
    | WaitRelock(saved: int)     // pthread_cond_wait takes the mutex again
    | WaitRestore(saved: int)    // Mutex.locked = locked

  /** depth is the number of Lock calls of the thread that it has not undone by Unlock. */
  datatype Thread = Thread(pc: Pc, depth: int)

  /** The error-checking pthread mutex knows its owner; locked is cMutex's counter. */
  datatype State = State(owner: Option<nat>, locked: int, threads: seq<Thread>)

  datatype Action = BeginLock | BeginUnlock | BeginWait | Continue

  function Initial(n: nat): State {
    State(None, 0, seq(n, _ => Thread(Outside, 0)))
  }

  ghost predicate Enabled(s: State, t: nat, a: Action) {
    && t < |s.threads|
    && match a
       case Continue =>
         var pc := s.threads[t].pc;
         && pc != Outside
         && (pc == LockCall ==> s.owner == None || s.owner == Some(t))
         && (pc.WaitRelock? ==> s.owner == None)
       case _ => s.threads[t].pc == Outside
  }

  function At(s: State, t: nat, pc: Pc): State
    requires t < |s.threads|
  {
    s.(threads := s.threads[t := s.threads[t].(pc := pc)])
  }

  function Counted(s: State, t: nat, pc: Pc, delta: int): State
    requires t < |s.threads|
  {
    s.(threads := s.threads[t := Thread(pc, s.threads[t].depth + delta)])
  }

  /** One step of thread t. */
  function Step(s: State, t: nat, a: Action): State
    requires t < |s.threads|
  {
    match a
    case BeginLock => At(s, t, LockCall)
    case BeginUnlock => At(s, t, UnlockLoad)
    case BeginWait => At(s, t, WaitTest)
    case Continue =>
      match s.threads[t].pc
      case Outside => s
      // locking again what one owns is an error of the pthread mutex, which Lock ignores
      case LockCall => At(s.(owner := Some(t)), t, LockLoad)
      case LockLoad => At(s, t, LockStore(s.locked))
      case LockStore(v) => Counted(s.(locked := v + 1), t, Outside, 1)
      case UnlockLoad => At(s, t, UnlockStore(s.locked))
      case UnlockStore(v) => Counted(s.(locked := v - 1), t, UnlockTest(v - 1), -1)
      // unlocking what one does not own is an error as well
      case UnlockTest(v) => At(if v == 0 && s.owner == Some(t) then s.(owner := None) else s, t, Outside)
      case WaitTest => At(s, t, if s.locked != 0 then WaitSave else Outside)
      case WaitSave => At(s, t, WaitClear(s.locked))
      case WaitClear(v) => At(s.(locked := 0), t, WaitCall(v))
      // and so is waiting on it
      case WaitCall(v) =>
        if s.owner == Some(t) then At(s.(owner := None), t, WaitSleep(v)) else At(s, t, WaitRestore(v))
      case WaitSleep(v) => At(s, t, WaitRelock(v))
      case WaitRelock(v) => At(s.(owner := Some(t)), t, WaitRestore(v))
      case WaitRestore(v) => At(s.(locked := v), t, Outside)
  }

  /** Threads unlock and wait only while they have locked the mutex. */
  ghost predicate Disciplined(s: State, t: nat, a: Action) {
    t < |s.threads| && (a == BeginUnlock || a == BeginWait ==> s.threads[t].depth > 0)
  }

  // --- the invariant --------------------------------------------------------

  /** The thread counts on being the only one. */
  ghost predicate Holds(th: Thread) {
    match th.pc
    case Outside => th.depth > 0
    case LockCall => th.depth > 0
    case WaitSleep(_) => false
    case WaitRelock(_) => false
    case _ => true
  }

  /** What the owner's counter must be at its program point. */
  ghost function Counter(th: Thread): int {
    match th.pc
    case WaitCall(_) => 0
    case WaitRestore(_) => 0
    case _ => th.depth
  }

  /** A thread's own numbers agree with its nesting depth. */
  ghost predicate Local(th: Thread) {
    match th.pc
    case Outside => th.depth >= 0
    case LockCall => th.depth >= 0
    case LockLoad => th.depth >= 0
    case LockStore(v) => v == th.depth >= 0
    case UnlockLoad => th.depth > 0
    case UnlockStore(v) => v == th.depth > 0
    case UnlockTest(v) => v == th.depth >= 0
    case WaitTest => th.depth > 0
    case WaitSave => th.depth > 0
    case WaitClear(v) => v == th.depth > 0
    case WaitCall(v) => v == th.depth > 0
    case WaitSleep(v) => v == th.depth > 0
    case WaitRelock(v) => v == th.depth > 0
    case WaitRestore(v) => v == th.depth > 0
  }

  ghost predicate Inv(s: State) {
    && (forall t :: 0 <= t < |s.threads| ==> Local(s.threads[t]) && (Holds(s.threads[t]) <==> s.owner == Some(t)))
    && (s.owner.Some? ==> s.owner.value < |s.threads| && s.locked == Counter(s.threads[s.owner.value]))
    && (s.owner.None? ==> s.locked == 0)
  }

  lemma StepKeepsInv(s: State, t: nat, a: Action)
    requires Inv(s) && Enabled(s, t, a) && Disciplined(s, t, a)
    ensures Inv(Step(s, t, a))
  {
    var s' := Step(s, t, a);
    assert forall u :: 0 <= u < |s.threads| && u != t ==> s'.threads[u] == s.threads[u];
  }

  /** The discipline is also needed: the first step against it breaks the invariant. */
  lemma DisciplineIff(s: State, t: nat, a: Action)
    requires Inv(s) && Enabled(s, t, a)
    ensures Inv(Step(s, t, a)) <==> Disciplined(s, t, a)
  {
    if Disciplined(s, t, a) {
      StepKeepsInv(s, t, a);
    } else {
      assert s.threads[t].depth == 0;
      assert !Local(Step(s, t, a).threads[t]);
    }
  }

  // --- runs -----------------------------------------------------------------

  datatype Event = Event(t: nat, a: Action)

  /** The states of a run, one more than it has events. */
  ghost predicate IsRun(states: seq<State>, events: seq<Event>) {
    && |states| == |events| + 1
    && (exists n: nat :: states[0] == Initial(n))
    && forall i :: 0 <= i < |events| ==>
                     && Enabled(states[i], events[i].t, events[i].a) && Disciplined(states[i], events[i].t, events[i].a)
                     && states[i + 1] == Step(states[i], events[i].t, events[i].a)
  }

  lemma {:induction false} RunKeepsInv(states: seq<State>, events: seq<Event>, i: nat)
    requires IsRun(states, events) && i < |states|
    ensures Inv(states[i]) && |states[i].threads| == |states[0].threads|
  {
    if i > 0 {
      RunKeepsInv(states, events, i - 1);
      StepKeepsInv(states[i - 1], events[i - 1].t, events[i - 1].a);
    }
  }

  /** At most one thread at a time counts on being the only one, and the counter is its nesting depth. */
  lemma MutualExclusion(states: seq<State>, events: seq<Event>, i: nat, t: nat, u: nat)
    requires IsRun(states, events) && i < |states|
    requires t < |states[i].threads| && u < |states[i].threads|
    ensures var s := states[i];
            && (Holds(s.threads[t]) && Holds(s.threads[u]) ==> t == u)
            && (Holds(s.threads[t]) ==> s.owner == Some(t) && s.locked == Counter(s.threads[t]))
            && (s.owner == None ==> s.locked == 0 && !Holds(s.threads[t]))
  {
    RunKeepsInv(states, events, i);
  }

  ghost predicate Waiting(pc: Pc) {
    pc.WaitTest? || pc.WaitSave? || pc.WaitClear? || pc.WaitCall? || pc.WaitSleep? || pc.WaitRelock? || pc.WaitRestore?
  }

  /** Nobody else moves a thread, and waiting does not change its depth. */
  lemma WaitingKeepsDepth(s: State, t: nat, a: Action, u: nat)
    requires Enabled(s, t, a) && u < |s.threads| && (Waiting(s.threads[u].pc) || (t == u && a == BeginWait))
    ensures |Step(s, t, a).threads| == |s.threads| && Step(s, t, a).threads[u].depth == s.threads[u].depth
  {
  }

  lemma {:induction false} DepthAcrossWait(states: seq<State>, events: seq<Event>, i: nat, j: nat, u: nat)
    requires IsRun(states, events) && i < j < |states| && u < |states[0].threads|
    requires events[i] == Event(u, BeginWait) && u < |states[i].threads|
    requires forall k :: i < k < j ==> u < |states[k].threads| && Waiting(states[k].threads[u].pc)
    ensures |states[j].threads| == |states[0].threads| == |states[i].threads|
    ensures states[j].threads[u].depth == states[i].threads[u].depth
  {
    hide Inv, Enabled, Step, Disciplined, Waiting, Initial;
    RunKeepsInv(states, events, j);
    RunKeepsInv(states, events, i);
    if i + 1 < j {
      DepthAcrossWait(states, events, i, j - 1, u);
    }
    WaitingKeepsDepth(states[j - 1], events[j - 1].t, events[j - 1].a, u);
  }

  /**
   * A thread that enters cCondVar::Wait at step i and is back outside at j owns the mutex again, at
   * exactly the depth it had, and the counter says so.
   */
  lemma WaitRestoresDepth(states: seq<State>, events: seq<Event>, i: nat, j: nat, u: nat)
    requires IsRun(states, events) && i < j < |states| && u < |states[0].threads|
    requires u < |states[i].threads| && u < |states[j].threads|
    requires events[i] == Event(u, BeginWait) && states[j].threads[u].pc == Outside
    requires forall k :: i < k < j ==> u < |states[k].threads| && Waiting(states[k].threads[u].pc)
    ensures states[j].owner == Some(u) && states[j].locked == states[j].threads[u].depth == states[i].threads[u].depth
  {
    DepthAcrossWait(states, events, i, j, u);
    RunKeepsInv(states, events, j);
  }

  /** The thread has not given the mutex up yet. */
  ghost predicate BeforeRelease(pc: Pc) {
    pc.WaitTest? || pc.WaitSave? || pc.WaitClear? || pc.WaitCall?
  }

  /** A waiting thread that still has the mutex keeps it in the next step, or gives it up for everybody to take. */
  lemma ReleaseStep(s: State, t: nat, a: Action, u: nat)
    requires Inv(s) && Enabled(s, t, a) && u < |s.threads| && BeforeRelease(s.threads[u].pc)
    ensures var r := Step(s, t, a);
            && |r.threads| == |s.threads|
            && (BeforeRelease(r.threads[u].pc) ||
                (r.threads[u].pc.WaitSleep? && r.owner == None && r.locked == 0))
  {
  }

  lemma {:induction false} ReleaseBetween(states: seq<State>, events: seq<Event>, i: nat, j: nat, u: nat)
    returns (k: nat)
    requires IsRun(states, events) && i < j < |states|
    requires u < |states[i].threads| && u < |states[j].threads|
    requires BeforeRelease(states[i].threads[u].pc) && !BeforeRelease(states[j].threads[u].pc)
    ensures i < k <= j && u < |states[k].threads| && states[k].threads[u].pc.WaitSleep?
    ensures states[k].owner == None && states[k].locked == 0
    decreases j - i
  {
    hide Inv, Enabled, Step, Disciplined, BeforeRelease;
    RunKeepsInv(states, events, i);
    ReleaseStep(states[i], events[i].t, events[i].a, u);
    if BeforeRelease(states[i + 1].threads[u].pc) {
      k := ReleaseBetween(states, events, i + 1, j, u);
    } else {
      k := i + 1;
    }
  }

  lemma WaitBegins(s: State, u: nat)
    requires Enabled(s, u, BeginWait)
    ensures BeforeRelease(Step(s, u, BeginWait).threads[u].pc)
  {
  }

  /**
   * Between entering cCondVar::Wait at step i and being back at j a thread gives the mutex up: there is a moment at
   * which it is free, its counter 0, and every thread that is blocked in Lock can go on.
   */
  lemma WaitReleases(states: seq<State>, events: seq<Event>, i: nat, j: nat, u: nat) returns (k: nat)
    requires IsRun(states, events) && i < j < |states|
    requires u < |states[i].threads| && u < |states[j].threads|
    requires events[i] == Event(u, BeginWait) && states[j].threads[u].pc == Outside
    ensures i < k < j && states[k].owner == None && states[k].locked == 0
    ensures forall t :: 0 <= t < |states[k].threads| && states[k].threads[t].pc == LockCall ==>
                          Enabled(states[k], t, Continue)
  {
    WaitBegins(states[i], u);
    k := ReleaseBetween(states, events, i + 1, j, u);
  }

  /** The owner of the mutex never blocks on locking it again, and nobody blocks on a free one. */
  lemma LockProgress(states: seq<State>, events: seq<Event>, i: nat, t: nat)
    requires IsRun(states, events) && i < |states| && t < |states[i].threads|
    requires states[i].threads[t].pc == LockCall || states[i].threads[t].pc.WaitRelock?
    ensures Enabled(states[i], t, Continue) <==>
            forall u :: 0 <= u < |states[i].threads| && Holds(states[i].threads[u]) ==> u == t
  {
    RunKeepsInv(states, events, i);
    var s := states[i];
    if s.owner.Some? {
      assert Holds(s.threads[s.owner.value]);
    }
  }

  /** Unlocking without having locked leaves a free mutex with a counter that is not zero. */
  lemma UndisciplinedExample()
    ensures var s := Step(Step(Step(Step(Initial(1), 0, BeginUnlock), 0, Continue), 0, Continue), 0, Continue);
            s.owner == None && s.locked == -1
  {
  }

  // --- whole calls, when nobody comes in between ----------------------------

  function Continues(s: State, t: nat, n: nat): State
    requires t < |s.threads|
    decreases n
  {
    if n == 0 then s else Continues(Step(s, t, Continue), t, n - 1)
  }

  function LockCalled(s: State, t: nat): State
    requires t < |s.threads|
  {
    Continues(Step(s, t, BeginLock), t, 3)
  }

  function UnlockCalled(s: State, t: nat): State
    requires t < |s.threads|
  {
    Continues(Step(s, t, BeginUnlock), t, 3)
  }

  lemma LockCalledMeaning(s: State, t: nat)
    requires t < |s.threads| && s.threads[t].pc == Outside
    ensures LockCalled(s, t) == State(Some(t), s.locked + 1, s.threads[t := Thread(Outside, s.threads[t].depth + 1)])
  {
  }

  lemma UnlockCalledMeaning(s: State, t: nat)
    requires t < |s.threads| && s.threads[t].pc == Outside
    ensures UnlockCalled(s, t) ==
            State(if s.locked == 1 && s.owner == Some(t) then None else s.owner, s.locked - 1,
                  s.threads[t := Thread(Outside, s.threads[t].depth - 1)])
  {
  }

  /** The counter is 0 while the mutex is free, and otherwise what its owner counts on. */
  ghost predicate InStep(s: State) {
    match s.owner
    case None => s.locked == 0
    case Some(u) => u < |s.threads| && s.locked == Counter(s.threads[u])
  }

  /** Unlock leaves owner and counter in step if and only if its caller has a Lock to undo. */
  lemma UnlockInStepIff(s: State, t: nat)
    requires Inv(s) && t < |s.threads| && s.threads[t].pc == Outside
    ensures InStep(UnlockCalled(s, t)) <==> s.threads[t].depth > 0
  {
    UnlockCalledMeaning(s, t);
    hide UnlockCalled;
  }

  /** Unlock undoes Lock, for a thread that owns the mutex as well as for one that finds it free. */
  lemma LockUnlock(s: State, t: nat)
    requires Inv(s) && t < |s.threads| && s.threads[t].pc == Outside && (s.owner == None || s.owner == Some(t))
    ensures UnlockCalled(LockCalled(s, t), t) == s
  {
  }

  class Mutex {
    var owner: Option<nat>  // of the error-checking pthread mutex
    var locked: int
    ghost var threads: seq<Thread>
    ghost var released: seq<State>  // what other threads have found when a waiting thread gave the mutex up

    ghost function View(): State
      reads this
    {
      State(owner, locked, threads)
    }

    ghost predicate Calls(t: nat)
      reads this
    {
      t < |threads| && threads[t].pc == Outside
    }

    /** By thread t, which gets past pthread_mutex_lock only if the mutex is free or its own. */
    method Lock(t: nat)
      requires Calls(t) && (owner == None || owner == Some(t))
      modifies `owner, `locked, `threads
      ensures View() == LockCalled(old(View()), t)
    {
      LockCalledMeaning(View(), t);
      hide LockCalled;
      owner := Some(t);
      locked := locked + 1;
      threads := threads[t := threads[t].(depth := threads[t].depth + 1)];
    }

    method Unlock(t: nat)
      requires Calls(t)
      modifies `owner, `locked, `threads
      ensures View() == UnlockCalled(old(View()), t)
    {
      UnlockCalledMeaning(View(), t);
      hide UnlockCalled;
      locked := locked - 1;
      if locked == 0 {
        if owner == Some(t) {
          owner := None;
        }
      }
      threads := threads[t := threads[t].(depth := threads[t].depth - 1)];
    }

    /**
     * pthread_cond_wait: other threads use the mutex meanwhile and leave it free, with any counter at all. For a
     * caller that does not own the error-checking mutex it fails.
     */
    method PthreadCondWait(t: nat, lockedByOthers: int)
      modifies this
      ensures released == old(released) + if owner == Some(t) then [old(View()).(owner := None)] else []
      ensures owner == old(owner) && threads == old(threads)
      ensures locked == if owner == Some(t) then lockedByOthers else old(locked)
    {
      if owner == Some(t) {
        owner := None;
        released := released + [View()];
        locked := lockedByOthers;
        owner := Some(t);
      }
    }

    /**
     * cCondVar::Wait: the caller has the mutex again, at its own depth, whatever the others did. Meanwhile they have
     * found it free, with a counter of 0.
     */
    method Wait(t: nat, lockedByOthers: int)
      modifies this
      ensures View() == old(View())
      ensures released == old(released) + if locked != 0 && owner == Some(t) then [State(None, 0, threads)] else []
    {
      if locked != 0 {
        var saved := locked;
        locked := 0;
        PthreadCondWait(t, lockedByOthers);
        locked := saved;
      }
    }
  }

  class MutexLock {
    var mutex: Mutex?
    var locked: bool

    constructor (m: Mutex?, t: nat)
      requires m != null ==> m.Calls(t) && (m.owner == None || m.owner == Some(t))
      modifies m
      ensures mutex == m && (locked <==> m != null)
      ensures m != null ==> m.View() == LockCalled(old(m.View()), t)
    {
      mutex, locked := null, false;
      new;
      var _ := Lock(m, t);
    }

    /** Only the first mutex is ever locked. */
    method Lock(m: Mutex?, t: nat) returns (ok: bool)
      requires m != null && mutex == null ==> m.Calls(t) && (m.owner == None || m.owner == Some(t))
      modifies this, m
      ensures ok <==> m != null && old(mutex) == null
      ensures ok ==> mutex == m && locked && m.View() == LockCalled(old(m.View()), t)
      ensures !ok ==> mutex == old(mutex) && locked == old(locked) && (m != null ==> m.View() == old(m.View()))
    {
      if m != null && mutex == null {
        mutex := m;
        m.Lock(t);
        locked := true;
        return true;
      }
      return false;
    }

    /** ~cMutexLock */
    method Destroy(t: nat)
      requires mutex != null ==> mutex.Calls(t)
      modifies mutex
      ensures mutex != null ==> mutex.View() == if locked then UnlockCalled(old(mutex.View()), t) else old(mutex.View())
    {
      if mutex != null && locked {
        mutex.Unlock(t);
      }
    }
  }
}
