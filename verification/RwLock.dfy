// The reader/writer spin lock as interleaved steps.
module RwLock {
  import opened Counting

  const WLOCK: nat := 0xFFFF_FFFF

  function Wrap32(n: int): nat { n % 0x1_0000_0000 }

  // Where a thread stands; the numbers are what it last read from the lock word.
  datatype Pc =
    | Idle
    | WTry | WSwap                                       // ztl_rwlock_wlock: the word was 0
    | RTry | RSwap(readers: nat)                         // ztl_rwlock_rlock: the word was not WLOCK
    | Writing | Reading                                  // inside
    | WLeave | WClear                                    // ztl_rwlock_unlock by a writer
    | RLeave | RDrop(readers: nat) | RAgain              // and by a reader

  datatype State = State(lock: nat, pcs: seq<Pc>)

  // The thread holds the lock: from its successful exchange to the step that gives it back.
  predicate Writes(pc: Pc) { pc == Writing || pc == WLeave || pc == WClear }

  predicate Reads(pc: Pc) { pc == Reading || pc == RLeave || pc.RDrop? || pc == RAgain }

  function Go(s: State, t: nat, pc: Pc): State
    requires t < |s.pcs|
  {
    s.(pcs := s.pcs[t := pc])
  }

  // Thread t makes one step; each reads or writes the word at most once. A thread unlocks only what it holds.
  predicate Step(s: State, t: nat, s': State) {
    && t < |s.pcs|
    && match s.pcs[t]
       case Idle => s' == Go(s, t, WTry) || s' == Go(s, t, RTry)
       case WTry => s' == if s.lock == 0 then Go(s, t, WSwap) else s
       case WSwap => s' == if s.lock == 0 then Go(s, t, Writing).(lock := WLOCK) else Go(s, t, WTry)
       case RTry => s' == if s.lock != WLOCK then Go(s, t, RSwap(s.lock)) else s
       case RSwap(readers) =>
         s' == if s.lock == readers then Go(s, t, Reading).(lock := Wrap32(readers + 1)) else Go(s, t, RTry)
       case Writing => s' == Go(s, t, WLeave)
       case Reading => s' == Go(s, t, RLeave)
       case WLeave => s' == if s.lock == WLOCK then Go(s, t, WClear) else Go(s, t, RDrop(s.lock))
       case RLeave => s' == if s.lock == WLOCK then Go(s, t, WClear) else Go(s, t, RDrop(s.lock))
       case WClear => s' == Go(s, t, Idle).(lock := 0)
       case RDrop(readers) =>
         s' == if s.lock == readers then Go(s, t, Idle).(lock := Wrap32(readers - 1)) else Go(s, t, RAgain)
       case RAgain => s' == Go(s, t, RDrop(s.lock))
  }

  // The word against w writers and r readers.
  predicate Fits(lock: nat, w: int, r: int) { if lock == WLOCK then w == 1 && r == 0 else w == 0 && lock == r }

  // The word tells who is inside.
  predicate Inv(s: State) {
    && |s.pcs| < WLOCK && Fits(s.lock, HowMany(s.pcs, Writes), HowMany(s.pcs, Reads))
    && forall t :: 0 <= t < |s.pcs| && s.pcs[t].RSwap? ==> s.pcs[t].readers != WLOCK
  }

  predicate Init(s: State) {
    s.lock == 0 && |s.pcs| < WLOCK && forall t :: 0 <= t < |s.pcs| ==> s.pcs[t] == Idle
  }

  lemma InitInv(s: State)
    requires Init(s)
    ensures Inv(s)
  {
    NoneAtAll(s.pcs, Writes);
    NoneAtAll(s.pcs, Reads);
  }

  lemma StepFits(s: State, t: nat, s': State, w: int, r: int)
    requires Step(s, t, s') && Fits(s.lock, w, r) && 0 <= r <= |s.pcs| < WLOCK
    requires s.pcs[t].RSwap? ==> s.pcs[t].readers != WLOCK
    requires One(Writes(s.pcs[t])) <= w && One(Reads(s.pcs[t])) <= r && r + One(!Reads(s.pcs[t])) <= |s.pcs|
    ensures t < |s'.pcs| && s'.pcs == s.pcs[t := s'.pcs[t]]
    ensures Fits(s'.lock, w + One(Writes(s'.pcs[t])) - One(Writes(s.pcs[t])),
      r + One(Reads(s'.pcs[t])) - One(Reads(s.pcs[t])))
    ensures s'.pcs[t].RSwap? ==> s'.pcs[t].readers != WLOCK
  {
    assert s.pcs == s.pcs[t := s.pcs[t]];
  }

  lemma StepInv(s: State, t: nat, s': State)
    requires Inv(s) && Step(s, t, s')
    ensures Inv(s')
  {
    assert t < |s.pcs|;
    hide Step, HowMany, Reads, Writes;
    var w, r := HowMany(s.pcs, Writes), HowMany(s.pcs, Reads);
    NoneAtAll(s.pcs, Writes);
    NoneAtAll(s.pcs, Reads);
    NoneAtAll(s.pcs[t := Reading], Reads);
    HowManyUpdate(s.pcs, Reads, t, Reading);
    ReadingReads();
    StepFits(s, t, s', w, r);
    HowManyUpdate(s.pcs, Writes, t, s'.pcs[t]);
    HowManyUpdate(s.pcs, Reads, t, s'.pcs[t]);
  }

  lemma ReadingReads()
    ensures Reads(Reading)
  {
  }

  predicate History(run: seq<State>, who: seq<nat>) {
    |run| == |who| + 1 && Init(run[0]) && forall i :: 0 <= i < |who| ==> Step(run[i], who[i], run[i + 1])
  }

  lemma {:induction false} RunInv(run: seq<State>, who: seq<nat>, i: nat)
    requires History(run, who) && i < |run|
    ensures Inv(run[i])
    decreases i
  {
    if i == 0 {
      InitInv(run[0]);
    } else {
      RunInv(run, who, i - 1);
      StepInv(run[i - 1], who[i - 1], run[i]);
    }
  }

  // While a thread writes, no other thread reads or writes.
  lemma Exclusive(run: seq<State>, who: seq<nat>, i: nat, t: nat, u: nat)
    requires History(run, who) && i < |run| && t < |run[i].pcs| && u < |run[i].pcs| && t != u && Writes(run[i].pcs[t])
    ensures !Writes(run[i].pcs[u]) && !Reads(run[i].pcs[u])
  {
    var s := run[i];
    RunInv(run, who, i);
    NoneAtAll(s.pcs, Writes);
    NoneAtAll(s.pcs, Reads);
    if Writes(s.pcs[u]) {
      TwoOfThem(s.pcs, Writes, t, u, Idle);
    }
  }

  // The word is WLOCK exactly while some thread writes; otherwise it counts the readers.
  lemma WordTells(run: seq<State>, who: seq<nat>, i: nat)
    requires History(run, who) && i < |run|
    ensures run[i].lock == WLOCK <==> exists t :: 0 <= t < |run[i].pcs| && Writes(run[i].pcs[t])
    ensures run[i].lock != WLOCK ==> run[i].lock == HowMany(run[i].pcs, Reads)
  {
    RunInv(run, who, i);
    NoneAtAll(run[i].pcs, Writes);
  }

  // A writer leaves by clearing the word, a reader by taking itself off it: the word read on leaving tells which.
  lemma LeavesRightly(run: seq<State>, who: seq<nat>, i: nat, t: nat)
    requires History(run, who) && i < |run| && t < |run[i].pcs|
    ensures run[i].pcs[t] == WLeave ==> run[i].lock == WLOCK
    ensures run[i].pcs[t] == RLeave || run[i].pcs[t].RDrop? || run[i].pcs[t] == RAgain ==> 1 <= run[i].lock < WLOCK
  {
    RunInv(run, who, i);
    NoneAtAll(run[i].pcs, Writes);
    NoneAtAll(run[i].pcs, Reads);
  }

  // From an unlocked word on, a thread that runs alone gets in.
  lemma GetsIn(s: State, t: nat)
    requires t < |s.pcs| && s.lock == 0
    ensures s.pcs[t] == WTry ==>
      var s1 := Go(s, t, WSwap); Step(s, t, s1) && Step(s1, t, Go(s1, t, Writing).(lock := WLOCK))
    ensures s.pcs[t] == RTry ==>
      var s1 := Go(s, t, RSwap(0)); Step(s, t, s1) && Step(s1, t, Go(s1, t, Reading).(lock := 1))
  {
  }

  // Why there must be fewer than 2^32 - 1 threads: one reader too many makes the word look like a writer's.
  lemma OneReaderTooMany(s: State, t: nat)
    requires t < |s.pcs| && s.lock == WLOCK - 1 && s.pcs[t] == RSwap(WLOCK - 1)
    ensures Step(s, t, Go(s, t, Reading).(lock := WLOCK))
  {
  }
}
