// The combined strong/weak reference counter of an object: one 64-bit word,
// any number of threads, every atomic instruction a step of its own.
module RefCount {
  import opened AssocList

  const HALF: int := 0x1_0000_0000
  const STRONG_ONE: int := 1
  const WEAK_ONE: int := HALF
  const BOTH_ONE: int := WEAK_ONE + STRONG_ONE

  /** Where a thread stands inside DecRef, DecWeakRef or TryPromoteWeakPtr. */
  datatype Pc =
    | Idle
    | DeleteBoth      // DecRef took the last strong and the last weak reference; deleter(Both) is due
    | FreeBoth        // its destructor part is done
    | DeleteStrong    // DecRef took the last strong reference; deleter(Strong) is due
    | DropGroupWeak   // the destructor is done; the weak reference of the strong group is still counted
    | FreeLast        // the last weak reference is gone; deleter(Weak) is due
    | Promote(seen: int)  // TryPromoteWeakPtr has read seen, whose strong half is not zero

  /** The references a thread owns, and what it is doing. */
  datatype Thread = Thread(strong: nat, weak: nat, pc: Pc)

  /** fast records that the last DecRef found both counts at one; destroyed and freed count the calls. */
  datatype State = State(word: int, threads: seq<Thread>, destroyed: nat, freed: nat, fast: bool)

  datatype Step =
    | IncRef(t: nat) | IncWeakRef(t: nat) | DecRef(t: nat) | DecWeakRef(t: nat)
    | RunDestructor(t: nat) | DropGroup(t: nat) | Free(t: nat)
    | PromoteLoad(t: nat) | PromoteWin(t: nat) | PromoteRetry(t: nat)
    | GiveStrong(t: nat, u: nat) | GiveWeak(t: nat, u: nat)

  /** make_object: both counts one, one owner. */
  ghost predicate Init(s: State, owner: nat) {
    && owner < |s.threads| && s.word == BOTH_ONE && s.destroyed == 0 && s.freed == 0 && !s.fast
    && forall i :: 0 <= i < |s.threads| ==> s.threads[i] == Thread(if i == owner then 1 else 0, 0, Idle)
  }

  predicate StrongZero(word: int) { word % HALF == 0 }

  function Plus(word: int, d: int): int { (word + d) % WORD }

  /** The thread behind a fetch_sub of one strong reference from the value before. */
  function AfterDec(before: int): Pc {
    if before == BOTH_ONE then DeleteBoth
    else if before % HALF == STRONG_ONE then DeleteStrong
    else Idle
  }

  function AfterDecWeak(before: int): Pc {
    if before == WEAK_ONE then FreeLast else Idle
  }

  function Put(s: State, t: nat, th: Thread): State
    requires t < |s.threads|
  {
    s.(threads := s.threads[t := th])
  }

  /** May the step be taken? A thread works with references it owns, and on one call at a time. */
  predicate Enabled(s: State, a: Step) {
    a.t < |s.threads| &&
    var th := s.threads[a.t];
    match a
    case IncRef(_) => th.pc.Idle? && th.strong > 0
    case IncWeakRef(_) => th.pc.Idle? && (th.strong > 0 || th.weak > 0)
    case DecRef(_) => th.pc.Idle? && th.strong > 0
    case DecWeakRef(_) => th.pc.Idle? && th.weak > 0
    case RunDestructor(_) => th.pc.DeleteBoth? || th.pc.DeleteStrong?
    case DropGroup(_) => th.pc.DropGroupWeak?
    case Free(_) => th.pc.FreeBoth? || th.pc.FreeLast?
    case PromoteLoad(_) => th.pc.Idle? && th.weak > 0
    case PromoteWin(_) => th.pc.Promote? && s.word == th.pc.seen
    case PromoteRetry(_) => th.pc.Promote?
    case GiveStrong(_, u) => th.pc.Idle? && th.strong > 0 && u < |s.threads| && u != a.t
    case GiveWeak(_, u) => th.pc.Idle? && th.weak > 0 && u < |s.threads| && u != a.t
  }

  function Next(s: State, a: Step): State
    requires Enabled(s, a)
  {
    var th := s.threads[a.t];
    match a
    case IncRef(t) => Put(s, t, th.(strong := th.strong + 1)).(word := Plus(s.word, STRONG_ONE))
    case IncWeakRef(t) => Put(s, t, th.(weak := th.weak + 1)).(word := Plus(s.word, WEAK_ONE))
    case DecRef(t) =>
      Put(s, t, th.(strong := th.strong - 1, pc := AfterDec(s.word)))
        .(word := Plus(s.word, -STRONG_ONE), fast := s.fast || s.word == BOTH_ONE)
    case DecWeakRef(t) =>
      Put(s, t, th.(weak := th.weak - 1, pc := AfterDecWeak(s.word))).(word := Plus(s.word, -WEAK_ONE))
    case RunDestructor(t) =>
      Put(s, t, th.(pc := if th.pc.DeleteBoth? then FreeBoth else DropGroupWeak)).(destroyed := s.destroyed + 1)
    case DropGroup(t) => Put(s, t, th.(pc := AfterDecWeak(s.word))).(word := Plus(s.word, -WEAK_ONE))
    case Free(t) => Put(s, t, th.(pc := Idle)).(freed := s.freed + 1)
    case PromoteLoad(t) => Put(s, t, th.(pc := if StrongZero(s.word) then Idle else Promote(s.word)))
    case PromoteWin(t) => Put(s, t, th.(strong := th.strong + 1, pc := Idle)).(word := Plus(s.word, STRONG_ONE))
    case PromoteRetry(t) => Put(s, t, th.(pc := if StrongZero(s.word) then Idle else Promote(s.word)))
    case GiveStrong(t, u) =>
      var s1 := Put(s, t, th.(strong := th.strong - 1));
      Put(s1, u, s.threads[u].(strong := s.threads[u].strong + 1))
    case GiveWeak(t, u) =>
      var s1 := Put(s, t, th.(weak := th.weak - 1));
      Put(s1, u, s.threads[u].(weak := s.threads[u].weak + 1))
  }

  // -------------------------------------------------------------- accounting

  /** References and pending deleter work, summed over all threads. */
  datatype Tally = Tally(strong: nat, weak: nat, both: nat, slow: nat, last: nat)

  function Share(th: Thread): Tally {
    Tally(th.strong, th.weak,
          if th.pc.DeleteBoth? || th.pc.FreeBoth? then 1 else 0,
          if th.pc.DeleteStrong? || th.pc.DropGroupWeak? then 1 else 0,
          if th.pc.FreeLast? then 1 else 0)
  }

  function Add(a: Tally, b: Tally): Tally {
    Tally(a.strong + b.strong, a.weak + b.weak, a.both + b.both, a.slow + b.slow, a.last + b.last)
  }

  function Total(ts: seq<Thread>): Tally {
    if ts == [] then Tally(0, 0, 0, 0, 0) else Add(Share(ts[0]), Total(ts[1..]))
  }

  lemma {:induction false} TotalUpdate(ts: seq<Thread>, i: nat, th: Thread)
    requires i < |ts|
    ensures Add(Total(ts[i := th]), Share(ts[i])) == Add(Total(ts), Share(th))
    ensures var a, b := Total(ts), Share(ts[i]);
            a.strong >= b.strong && a.weak >= b.weak && a.both >= b.both && a.slow >= b.slow && a.last >= b.last
  {
    hide Share;
    if i == 0 {
      assert ts[0 := th][1..] == ts[1..];
    } else {
      TotalUpdate(ts[1..], i - 1, th);
      assert ts[i := th][1..] == ts[1..][i - 1 := th];
    }
  }

  /** One thread owns no more than the total. */
  lemma {:induction false} OneOfTotal(ts: seq<Thread>, i: nat)
    requires i < |ts|
    ensures var a, b := Total(ts), Share(ts[i]);
            a.strong >= b.strong && a.weak >= b.weak && a.both >= b.both && a.slow >= b.slow && a.last >= b.last
  {
    TotalUpdate(ts, i, ts[i]);
  }

  /** Two threads together own no more than the total. */
  lemma {:induction false} TotalOfTwo(ts: seq<Thread>, i: nat, j: nat)
    requires i < |ts| && j < |ts| && i != j
    ensures var a, b := Total(ts), Add(Share(ts[i]), Share(ts[j]));
            a.strong >= b.strong && a.weak >= b.weak && a.both >= b.both && a.slow >= b.slow && a.last >= b.last
  {
    var none := Thread(0, 0, Idle);
    TotalUpdate(ts, i, none);
    TotalUpdate(ts[i := none], j, none);
  }

  // -------------------------------------------------------------- invariant

  /** Is the weak reference of the strong group still part of the word? */
  function GroupWeak(n: Tally, fast: bool): int {
    if n.strong > 0 || n.both > 0 || n.slow > 0 || fast then 1 else 0
  }

  /** The word is the two counts side by side. */
  ghost predicate Packed(n: Tally, word: int, fast: bool) {
    word == n.strong + HALF * (n.weak + GroupWeak(n, fast)) && 0 <= word < WORD
  }

  /** Fewer than 2^32 references of either kind exist. */
  ghost predicate Few(n: Tally) {
    n.strong < HALF && n.weak < HALF - 1
  }

  ghost predicate Lifecycle(n: Tally, destroyed: nat, freed: nat, fast: bool) {
    if n.strong > 0 then
      n.both == n.slow == n.last == 0 && destroyed == freed == 0 && !fast
    else if n.slow > 0 then
      n.slow == 1 && n.both == n.last == 0 && destroyed <= 1 && freed == 0 && !fast
    else if fast then
      && n.weak == n.last == 0
      && (if n.both > 0 then n.both == 1 && destroyed <= 1 && freed == 0 else destroyed == freed == 1)
    else
      n.both == 0 && destroyed == 1 && (if n.weak > 0 then n.last == freed == 0 else n.last + freed == 1)
  }

  ghost predicate Account(n: Tally, word: int, destroyed: nat, freed: nat, fast: bool) {
    Few(n) && Packed(n, word, fast) && Lifecycle(n, destroyed, freed, fast)
  }

  /** What a thread in the middle of a call knows. */
  ghost predicate ThreadOk(destroyed: nat, th: Thread) {
    match th.pc
    case DeleteBoth => destroyed == 0
    case DeleteStrong => destroyed == 0
    case FreeBoth => destroyed == 1
    case DropGroupWeak => destroyed == 1
    case Promote(seen) => th.weak > 0 && 0 <= seen < WORD && !StrongZero(seen)
    case _ => true
  }

  ghost predicate Inv(s: State) {
    && Account(Total(s.threads), s.word, s.destroyed, s.freed, s.fast)
    && forall i :: 0 <= i < |s.threads| ==> ThreadOk(s.destroyed, s.threads[i])
  }

  // ---------------------------------------------------- the word, step by step

  /** Both halves of the word can be read off it: no carry has passed between them. */
  lemma {:induction false} WordTells(n: Tally, word: int, fast: bool)
    requires Few(n) && Packed(n, word, fast)
    ensures word % HALF == n.strong && word / HALF == n.weak + GroupWeak(n, fast)
    ensures word == BOTH_ONE <==> n.strong == 1 && n.weak + GroupWeak(n, fast) == 1
    ensures word == WEAK_ONE <==> n.strong == 0 && n.weak + GroupWeak(n, fast) == 1
  {
    var k := n.weak + GroupWeak(n, fast);
    assert word % HALF == n.strong % HALF;
  }

  lemma {:induction false} IncRefAccount(n: Tally, word: int, destroyed: nat, freed: nat, fast: bool)
    requires Account(n, word, destroyed, freed, fast) && n.strong > 0 && n.strong + 1 < HALF
    ensures Account(n.(strong := n.strong + 1), Plus(word, STRONG_ONE), destroyed, freed, fast)
  {
    assert word + STRONG_ONE < WORD;
    assert Plus(word, STRONG_ONE) == word + STRONG_ONE;
  }

  lemma {:induction false} IncWeakAccount(n: Tally, word: int, destroyed: nat, freed: nat, fast: bool)
    requires Account(n, word, destroyed, freed, fast) && (n.strong > 0 || n.weak > 0) && n.weak + 1 < HALF - 1
    ensures Account(n.(weak := n.weak + 1), Plus(word, WEAK_ONE), destroyed, freed, fast)
  {
    assert word + WEAK_ONE < WORD;
    assert Plus(word, WEAK_ONE) == word + WEAK_ONE;
  }

  /** The thread that drops the last strong reference, and no other, is sent to the deleter. */
  lemma {:induction false} DecRefAccount(n: Tally, word: int, destroyed: nat, freed: nat, fast: bool)
    requires Account(n, word, destroyed, freed, fast) && n.strong > 0
    ensures var pc := AfterDec(word);
            var m := n.(strong := n.strong - 1,
                        both := if pc.DeleteBoth? then n.both + 1 else n.both,
                        slow := if pc.DeleteStrong? then n.slow + 1 else n.slow);
            Account(m, Plus(word, -STRONG_ONE), destroyed, freed, fast || word == BOTH_ONE)
  {
    WordTells(n, word, fast);
    assert Plus(word, -STRONG_ONE) == word - STRONG_ONE;
  }

  lemma {:induction false} DecWeakAccount(n: Tally, word: int, destroyed: nat, freed: nat, fast: bool)
    requires Account(n, word, destroyed, freed, fast) && n.weak > 0
    ensures var m := n.(weak := n.weak - 1, last := if AfterDecWeak(word).FreeLast? then n.last + 1 else n.last);
            Account(m, Plus(word, -WEAK_ONE), destroyed, freed, fast)
  {
    WordTells(n, word, fast);
    assert Plus(word, -WEAK_ONE) == word - WEAK_ONE;
  }

  /** The same instruction ends DecRef's slow path; there it gives up the weak reference of the strong group. */
  lemma {:induction false} DropGroupAccount(n: Tally, word: int, destroyed: nat, freed: nat, fast: bool)
    requires Account(n, word, destroyed, freed, fast) && n.slow > 0 && destroyed == 1
    ensures var m := n.(slow := n.slow - 1, last := if AfterDecWeak(word).FreeLast? then n.last + 1 else n.last);
            Account(m, Plus(word, -WEAK_ONE), destroyed, freed, fast)
  {
    WordTells(n, word, fast);
    assert Plus(word, -WEAK_ONE) == word - WEAK_ONE;
  }

  // ------------------------------------------------------------------ steps

  /** Only one thread can be inside the deleter. */
  lemma {:induction false} OneDeleter(s: State, i: nat, j: nat)
    requires Inv(s) && i < |s.threads| && j < |s.threads| && i != j
    ensures Share(s.threads[i]).both + Share(s.threads[i]).slow + Share(s.threads[j]).both +
            Share(s.threads[j]).slow <= 1
  {
    TotalOfTwo(s.threads, i, j);
  }

  /** One thread's entry changes; the others still know what they knew. */
  lemma {:induction false} OneThread(s: State, u: State, t: nat, th: Thread)
    requires Inv(s) && t < |s.threads| && u.threads == s.threads[t := th]
    requires Account(Total(u.threads), u.word, u.destroyed, u.freed, u.fast)
    requires ThreadOk(u.destroyed, th)
    requires u.destroyed == s.destroyed || Share(s.threads[t]).both + Share(s.threads[t]).slow == 1
    ensures Inv(u)
  {
    hide Account, Total;
    forall i | 0 <= i < |u.threads| ensures ThreadOk(u.destroyed, u.threads[i]) {
      if i != t {
        assert ThreadOk(s.destroyed, s.threads[i]);
        OneDeleter(s, i, t);
      }
    }
  }

  lemma {:induction false} IncRefStep(s: State, t: nat)
    requires Inv(s) && Enabled(s, IncRef(t)) && Few(Total(Next(s, IncRef(t)).threads))
    ensures Inv(Next(s, IncRef(t)))
  {
    hide Account, Total, Plus;
    var n, u := Total(s.threads), Next(s, IncRef(t));
    TotalUpdate(s.threads, t, u.threads[t]);
    IncRefAccount(n, s.word, s.destroyed, s.freed, s.fast);
    assert Total(u.threads) == n.(strong := n.strong + 1);
    OneThread(s, u, t, u.threads[t]);
  }

  lemma {:induction false} IncWeakRefStep(s: State, t: nat)
    requires Inv(s) && Enabled(s, IncWeakRef(t)) && Few(Total(Next(s, IncWeakRef(t)).threads))
    ensures Inv(Next(s, IncWeakRef(t)))
  {
    hide Account, Total, Plus;
    var n, u := Total(s.threads), Next(s, IncWeakRef(t));
    TotalUpdate(s.threads, t, u.threads[t]);
    IncWeakAccount(n, s.word, s.destroyed, s.freed, s.fast);
    assert Total(u.threads) == n.(weak := n.weak + 1);
    OneThread(s, u, t, u.threads[t]);
  }

  lemma {:induction false} DecRefStep(s: State, t: nat)
    requires Inv(s) && Enabled(s, DecRef(t))
    ensures Inv(Next(s, DecRef(t)))
  {
    var n, u := Total(s.threads), Next(s, DecRef(t));
    TotalUpdate(s.threads, t, u.threads[t]);
    assert n.strong > 0;
    assert s.destroyed == 0;
    hide Account, Total, Plus;
    DecRefAccount(n, s.word, s.destroyed, s.freed, s.fast);
    OneThread(s, u, t, u.threads[t]);
  }

  lemma {:induction false} DecWeakRefStep(s: State, t: nat)
    requires Inv(s) && Enabled(s, DecWeakRef(t))
    ensures Inv(Next(s, DecWeakRef(t)))
  {
    hide Account, Total, Plus;
    var n, u := Total(s.threads), Next(s, DecWeakRef(t));
    TotalUpdate(s.threads, t, u.threads[t]);
    DecWeakAccount(n, s.word, s.destroyed, s.freed, s.fast);
    OneThread(s, u, t, u.threads[t]);
  }

  lemma {:induction false} RunDestructorStep(s: State, t: nat)
    requires Inv(s) && Enabled(s, RunDestructor(t))
    ensures Inv(Next(s, RunDestructor(t)))
  {
    hide Total;
    var n, u := Total(s.threads), Next(s, RunDestructor(t));
    TotalUpdate(s.threads, t, u.threads[t]);
    assert ThreadOk(s.destroyed, s.threads[t]);
    assert Total(u.threads) == n;
    assert Account(n, u.word, u.destroyed, u.freed, u.fast);
    OneThread(s, u, t, u.threads[t]);
  }

  lemma {:induction false} DropGroupStep(s: State, t: nat)
    requires Inv(s) && Enabled(s, DropGroup(t))
    ensures Inv(Next(s, DropGroup(t)))
  {
    hide Account, Total, Plus;
    var n, u := Total(s.threads), Next(s, DropGroup(t));
    TotalUpdate(s.threads, t, u.threads[t]);
    assert ThreadOk(s.destroyed, s.threads[t]);
    DropGroupAccount(n, s.word, s.destroyed, s.freed, s.fast);
    OneThread(s, u, t, u.threads[t]);
  }

  lemma {:induction false} FreeStep(s: State, t: nat)
    requires Inv(s) && Enabled(s, Free(t))
    ensures Inv(Next(s, Free(t)))
  {
    hide Total;
    var n, u := Total(s.threads), Next(s, Free(t));
    TotalUpdate(s.threads, t, u.threads[t]);
    assert ThreadOk(s.destroyed, s.threads[t]);
    assert Account(Total(u.threads), u.word, u.destroyed, u.freed, u.fast);
    OneThread(s, u, t, u.threads[t]);
  }

  /** Reading the word, at the start or after a failed exchange. */
  lemma {:induction false} PromoteReadStep(s: State, a: Step)
    requires Inv(s) && Enabled(s, a) && (a.PromoteLoad? || a.PromoteRetry?)
    ensures Inv(Next(s, a))
  {
    hide Total, Lifecycle;
    var n, u := Total(s.threads), Next(s, a);
    TotalUpdate(s.threads, a.t, u.threads[a.t]);
    assert ThreadOk(s.destroyed, s.threads[a.t]);
    assert Total(u.threads) == n;
    OneThread(s, u, a.t, u.threads[a.t]);
  }

  lemma {:induction false} PromoteWinStep(s: State, t: nat)
    requires Inv(s) && Enabled(s, PromoteWin(t)) && Few(Total(Next(s, PromoteWin(t)).threads))
    ensures Inv(Next(s, PromoteWin(t))) && Total(s.threads).strong > 0
  {
    var n, u := Total(s.threads), Next(s, PromoteWin(t));
    WordTells(n, s.word, s.fast);
    assert ThreadOk(s.destroyed, s.threads[t]);
    assert n.strong > 0;
    hide Account, Total, Plus;
    TotalUpdate(s.threads, t, u.threads[t]);
    IncRefAccount(n, s.word, s.destroyed, s.freed, s.fast);
    assert Total(u.threads) == n.(strong := n.strong + 1);
    OneThread(s, u, t, u.threads[t]);
  }

  lemma {:induction false} GiveTotal(s: State, a: Step)
    requires Enabled(s, a) && (a.GiveStrong? || a.GiveWeak?)
    ensures Total(Next(s, a).threads) == Total(s.threads)
  {
    hide Total;
    var u := Next(s, a);
    var mid := s.threads[a.t := u.threads[a.t]];
    assert u.threads == mid[a.u := u.threads[a.u]];
    TotalUpdate(s.threads, a.t, u.threads[a.t]);
    TotalUpdate(mid, a.u, u.threads[a.u]);
  }

  lemma {:induction false} GiveStep(s: State, a: Step)
    requires Inv(s) && Enabled(s, a) && (a.GiveStrong? || a.GiveWeak?)
    ensures Inv(Next(s, a)) && Total(Next(s, a).threads) == Total(s.threads)
  {
    hide Account, Total;
    GiveTotal(s, a);
    var u := Next(s, a);
    forall i | 0 <= i < |u.threads| ensures ThreadOk(u.destroyed, u.threads[i]) {
      assert ThreadOk(s.destroyed, s.threads[i]);
    }
  }

  /** Every atomic step of every thread keeps the invariant while fewer than 2^32 references exist. */
  lemma {:induction false} StepKeepsInv(s: State, a: Step)
    requires Inv(s) && Enabled(s, a) && Few(Total(Next(s, a).threads))
    ensures Inv(Next(s, a))
  {
    hide Inv, Enabled, Next, Few;
    match a
    case IncRef(t) => IncRefStep(s, t);
    case IncWeakRef(t) => IncWeakRefStep(s, t);
    case DecRef(t) => DecRefStep(s, t);
    case DecWeakRef(t) => DecWeakRefStep(s, t);
    case RunDestructor(t) => RunDestructorStep(s, t);
    case DropGroup(t) => DropGroupStep(s, t);
    case Free(t) => FreeStep(s, t);
    case PromoteLoad(_) => PromoteReadStep(s, a);
    case PromoteWin(t) => PromoteWinStep(s, t);
    case PromoteRetry(_) => PromoteReadStep(s, a);
    case GiveStrong(_, _) => GiveStep(s, a);
    case GiveWeak(_, _) => GiveStep(s, a);
  }

  // ------------------------------------------------------------ single states

  /** Every access to the block happens before it is freed, and each deleter part runs at its moment. */
  lemma {:induction false} StepIsSafe(s: State, a: Step)
    requires Inv(s) && Enabled(s, a)
    ensures s.freed == 0
    ensures a.RunDestructor? ==> s.destroyed == 0 && Total(s.threads).strong == 0
    ensures a.Free? ==> s.destroyed == 1 && Total(s.threads).strong == Total(s.threads).weak == 0
    ensures a.PromoteWin? ==> Total(s.threads).strong > 0
    ensures Total(Next(s, a).threads).strong > 0 ==> Total(s.threads).strong > 0
  {
    hide Inv, Total, Next;
    AccessIsSafe(s, a);
    if a.GiveStrong? || a.GiveWeak? {
      GiveStep(s, a);
    } else {
      StrongGrows(s, a);
    }
  }

  lemma {:induction false} AccessIsSafe(s: State, a: Step)
    requires Inv(s) && Enabled(s, a)
    ensures s.freed == 0
    ensures a.RunDestructor? ==> s.destroyed == 0 && Total(s.threads).strong == 0
    ensures a.Free? ==> s.destroyed == 1 && Total(s.threads).strong == Total(s.threads).weak == 0
    ensures a.PromoteWin? || a.IncRef? ==> Total(s.threads).strong > 0
  {
    hide Total, Packed;
    assert ThreadOk(s.destroyed, s.threads[a.t]);
    OneOfTotal(s.threads, a.t);
    if a.PromoteWin? { WinnerSeesStrong(s, a); }
  }

  lemma {:induction false} WinnerSeesStrong(s: State, a: Step)
    requires Inv(s) && Enabled(s, a) && a.PromoteWin?
    ensures Total(s.threads).strong > 0
  {
    hide Total, Packed;
    assert ThreadOk(s.destroyed, s.threads[a.t]);
    WordTells(Total(s.threads), s.word, s.fast);
  }

  /** Only these two steps make a strong reference. */
  lemma {:induction false} StrongGrows(s: State, a: Step)
    requires Enabled(s, a) && !a.GiveStrong? && !a.GiveWeak?
    ensures a.IncRef? || a.PromoteWin? || Total(Next(s, a).threads).strong <= Total(s.threads).strong
  {
    hide Total;
    var u := Next(s, a);
    assert u.threads == s.threads[a.t := u.threads[a.t]];
    TotalUpdate(s.threads, a.t, u.threads[a.t]);
  }

  /** What a reference guarantees its owner. */
  lemma {:induction false} OwnersAreSafe(s: State, i: nat)
    requires Inv(s) && i < |s.threads|
    ensures s.threads[i].strong > 0 ==> s.destroyed == 0 && s.word % HALF > 0
    ensures s.threads[i].strong > 0 || s.threads[i].weak > 0 || !s.threads[i].pc.Idle? ==> s.freed == 0
  {
    hide Total, Packed;
    WordTells(Total(s.threads), s.word, s.fast);
    assert ThreadOk(s.destroyed, s.threads[i]);
    OneOfTotal(s.threads, i);
  }

  lemma {:induction false} NothingOwned(ts: seq<Thread>)
    requires forall i :: 0 <= i < |ts| ==> ts[i] == Thread(0, 0, Idle)
    ensures Total(ts) == Tally(0, 0, 0, 0, 0)
  {
    if ts != [] {
      var rest := ts[1..];
      forall i | 0 <= i < |rest| ensures rest[i] == Thread(0, 0, Idle) {
        assert rest[i] == ts[i + 1];
      }
      NothingOwned(rest);
      assert Share(ts[0]) == Tally(0, 0, 0, 0, 0);
    }
  }

  /** No leak: once every reference is gone and every call has returned, both deleter parts have run. */
  lemma {:induction false} NothingLeaks(s: State)
    requires Inv(s) && forall i :: 0 <= i < |s.threads| ==> s.threads[i] == Thread(0, 0, Idle)
    ensures s.destroyed == 1 && s.freed == 1
  {
    NothingOwned(s.threads);
  }

  lemma {:induction false} InitInv(s: State, owner: nat)
    requires Init(s, owner)
    ensures Inv(s) && Total(s.threads) == Tally(1, 0, 0, 0, 0)
  {
    var rest := s.threads[owner := Thread(0, 0, Idle)];
    NothingOwned(rest);
    TotalUpdate(s.threads, owner, rest[owner]);
  }

  // ------------------------------------------------------- what a step does

  /** References the thread of a step gains or loses. */
  function StrongGain(a: Step): int {
    match a
    case IncRef(_) => 1
    case PromoteWin(_) => 1
    case DecRef(_) => -1
    case GiveStrong(_, _) => -1
    case _ => 0
  }

  function WeakGain(a: Step): int {
    match a
    case IncWeakRef(_) => 1
    case DecWeakRef(_) => -1
    case GiveWeak(_, _) => -1
    case _ => 0
  }

  predicate Gives(a: Step) { a.GiveStrong? || a.GiveWeak? }

  /** The references come and go in the word; the strong group gives up its weak reference in DropGroup. */
  function WordGain(a: Step): int {
    if Gives(a) then 0 else if a.DropGroup? then -WEAK_ONE else STRONG_ONE * StrongGain(a) + WEAK_ONE * WeakGain(a)
  }

  /** One reference more or less for the thread of the step, none for the others; a gift goes to one other thread. */
  ghost predicate Moves(s: State, a: Step, u: State) {
    && a.t < |s.threads| == |u.threads|
    && u.threads[a.t].strong == s.threads[a.t].strong + StrongGain(a)
    && u.threads[a.t].weak == s.threads[a.t].weak + WeakGain(a)
    && (forall i :: 0 <= i < |s.threads| && i != a.t && !(Gives(a) && i == a.u) ==> u.threads[i] == s.threads[i])
    && (Gives(a) ==>
          && a.u < |s.threads| && a.u != a.t && u.threads[a.t].pc == s.threads[a.t].pc
          && u.threads[a.u].strong == s.threads[a.u].strong - StrongGain(a)
          && u.threads[a.u].weak == s.threads[a.u].weak - WeakGain(a) && u.threads[a.u].pc == s.threads[a.u].pc)
  }

  /** What the thread of the step has to do next, told by the references that exist rather than by the word. */
  ghost predicate Continues(s: State, a: Step, next: Pc)
    requires a.t < |s.threads|
  {
    var n := Total(s.threads);
    match a
    case DecRef(_) =>
      next == if n.strong > 1 then Idle else if n.weak == 0 then DeleteBoth else DeleteStrong
    case DecWeakRef(_) => next == if n.weak == 1 && n.strong == n.slow == 0 then FreeLast else Idle
    case RunDestructor(_) => next == if s.threads[a.t].pc.DeleteBoth? then FreeBoth else DropGroupWeak
    case DropGroup(_) => next == if n.weak == 0 then FreeLast else Idle
    case PromoteLoad(_) => next == if n.strong == 0 then Idle else Promote(s.word)
    case PromoteRetry(_) => next == if n.strong == 0 then Idle else Promote(s.word)
    case _ => next == Idle
  }

  /** Every step has its effect, and no other: on the owners, on the word, without a carry or wrap-around, on the calls
      of the deleter, and on what is due next. */
  lemma {:induction false} StepEffect(s: State, a: Step)
    requires Inv(s) && Enabled(s, a) && Few(Total(Next(s, a).threads))
    ensures var u := Next(s, a);
            && Moves(s, a, u) && Continues(s, a, u.threads[a.t].pc)
            && u.destroyed == s.destroyed + (if a.RunDestructor? then 1 else 0)
            && u.freed == s.freed + if a.Free? then 1 else 0
    ensures var u, given := Next(s, a), Gives(a);
            && Total(u.threads).strong == Total(s.threads).strong + (if given then 0 else StrongGain(a))
            && Total(u.threads).weak == Total(s.threads).weak + if given then 0 else WeakGain(a)
    ensures Next(s, a).word == s.word + WordGain(a)
  {
    hide Inv, Total, Next, Moves, Continues, WordGain, Enabled;
    StepMoves(s, a);
    NextIsDue(s, a);
    StepKeepsInv(s, a);
    TotalsMove(s, a);
    WordMoves(s, a);
  }

  lemma {:induction false} StepMoves(s: State, a: Step)
    requires Enabled(s, a)
    ensures var u := Next(s, a);
            && a.t < |s.threads| == |u.threads| && Moves(s, a, u)
            && u.destroyed == s.destroyed + (if a.RunDestructor? then 1 else 0)
            && u.freed == s.freed + if a.Free? then 1 else 0
  {
    hide Next, Enabled, Moves;
    if Gives(a) { GiftMoves(s, a); } else { OwnMoves(s, a); }
  }

  lemma {:induction false} OwnMoves(s: State, a: Step)
    requires Enabled(s, a) && !Gives(a)
    ensures var u := Next(s, a);
            && a.t < |s.threads| == |u.threads| && Moves(s, a, u)
            && u.destroyed == s.destroyed + (if a.RunDestructor? then 1 else 0)
            && u.freed == s.freed + if a.Free? then 1 else 0
  {
    hide Plus, AfterDec, AfterDecWeak, StrongZero;
  }

  lemma {:induction false} GiftMoves(s: State, a: Step)
    requires Enabled(s, a) && Gives(a)
    ensures var u := Next(s, a);
            && a.t < |s.threads| == |u.threads| && Moves(s, a, u)
            && u.destroyed == s.destroyed && u.freed == s.freed
  {
  }

  lemma {:induction false} TotalsMove(s: State, a: Step)
    requires Enabled(s, a)
    ensures var u, given := Next(s, a), Gives(a);
            && Total(u.threads).strong == Total(s.threads).strong + (if given then 0 else StrongGain(a))
            && Total(u.threads).weak == Total(s.threads).weak + if given then 0 else WeakGain(a)
  {
    hide Total;
    if Gives(a) {
      GiveTotal(s, a);
    } else {
      var u := Next(s, a);
      assert u.threads == s.threads[a.t := u.threads[a.t]];
      TotalUpdate(s.threads, a.t, u.threads[a.t]);
    }
  }

  lemma {:induction false} NextIsDue(s: State, a: Step)
    requires Inv(s) && Enabled(s, a)
    ensures Continues(s, a, Next(s, a).threads[a.t].pc)
  {
    hide Total;
    WordTells(Total(s.threads), s.word, s.fast);
    assert ThreadOk(s.destroyed, s.threads[a.t]);
    OneOfTotal(s.threads, a.t);
  }

  lemma {:induction false} WordMoves(s: State, a: Step)
    requires Inv(s) && Enabled(s, a) && Inv(Next(s, a))
    ensures Next(s, a).word == s.word + WordGain(a)
  {
    hide Total;
    var u := Next(s, a);
    TotalsMove(s, a);
    assert 0 <= s.word < WORD && 0 <= u.word < WORD;
  }

  // --------------------------------------------------------------- progress

  /** What a thread still has to do before its call returns. */
  function Left(pc: Pc): nat {
    match pc
    case Idle => 0
    case DeleteBoth => 2
    case FreeBoth => 1
    case DeleteStrong => 3
    case DropGroupWeak => 2
    case FreeLast => 1
    case Promote(_) => 1
  }

  function AllLeft(ts: seq<Thread>): nat {
    if ts == [] then 0 else Left(ts[0].pc) + AllLeft(ts[1..])
  }

  lemma {:induction false} LeftUpdate(ts: seq<Thread>, i: nat, th: Thread)
    requires i < |ts|
    ensures AllLeft(ts[i := th]) + Left(ts[i].pc) == AllLeft(ts) + Left(th.pc)
  {
    hide Left;
    if i == 0 {
      assert ts[0 := th][1..] == ts[1..];
    } else {
      LeftUpdate(ts[1..], i - 1, th);
      assert ts[i := th][1..] == ts[1..][i - 1 := th];
    }
  }

  ghost predicate NoReferences(s: State) { Total(s.threads).strong == 0 && Total(s.threads).weak == 0 }

  /** No thread is ever stuck: an owner can let go of what it owns, and a call can go on. */
  lemma {:induction false} NobodyIsStuck(s: State, i: nat) returns (a: Step)
    requires i < |s.threads| && s.threads[i] != Thread(0, 0, Idle)
    ensures a.t == i && Enabled(s, a)
    ensures s.threads[i].pc.Idle? ==> a == if s.threads[i].strong > 0 then DecRef(i) else DecWeakRef(i)
  {
    a := match s.threads[i].pc
      case Idle => if s.threads[i].strong > 0 then DecRef(i) else DecWeakRef(i)
      case DropGroupWeak => DropGroup(i)
      case FreeBoth => Free(i)
      case FreeLast => Free(i)
      case Promote(_) => PromoteRetry(i)
      case _ => RunDestructor(i);
  }

  /** Without references, every step there is brings its call closer to its end and makes no reference. */
  lemma {:induction false} CallComesToEnd(s: State, a: Step)
    requires Inv(s) && NoReferences(s) && Enabled(s, a)
    ensures var u := Next(s, a); Inv(u) && NoReferences(u) && AllLeft(u.threads) < AllLeft(s.threads)
  {
    hide Total;
    OneOfTotal(s.threads, a.t);
    assert ThreadOk(s.destroyed, s.threads[a.t]);
    TotalsMove(s, a);
    StepKeepsInv(s, a);
    LeftUpdate(s.threads, a.t, Next(s, a).threads[a.t]);
  }

  /** A stretch of any interleaving from a state without references. */
  ghost predicate Drain(states: seq<State>, steps: seq<Step>) {
    && |states| == |steps| + 1 && Inv(states[0]) && NoReferences(states[0])
    && forall k :: 0 <= k < |steps| ==> Enabled(states[k], steps[k]) && states[k + 1] == Next(states[k], steps[k])
  }

  lemma {:induction false} DrainKeeps(states: seq<State>, steps: seq<Step>, k: nat)
    requires Drain(states, steps) && k < |states|
    ensures Inv(states[k]) && NoReferences(states[k]) && AllLeft(states[k].threads) + k <= AllLeft(states[0].threads)
  {
    hide Inv, NoReferences;
    if k > 0 {
      DrainKeeps(states, steps, k - 1);
      assert Enabled(states[k - 1], steps[k - 1]) && states[k - 1 + 1] == Next(states[k - 1], steps[k - 1]);
      CallComesToEnd(states[k - 1], steps[k - 1]);
    }
  }

  /** Once all references are gone, whatever the threads inside a call do, and in whatever order, comes to an end; when
      none can go on, every call has returned and destructor and release have run, once each. */
  lemma {:induction false} ObjectDies(states: seq<State>, steps: seq<Step>)
    requires Drain(states, steps)
    ensures |steps| <= AllLeft(states[0].threads)
    ensures var s := states[|steps|];
            (forall a: Step :: !Enabled(s, a)) ==> s.destroyed == 1 && s.freed == 1 && AllLeft(s.threads) == 0
  {
    hide Inv, NoReferences, Enabled;
    DrainKeeps(states, steps, |steps|);
    var s := states[|steps|];
    if forall a: Step :: !Enabled(s, a) {
      forall i | 0 <= i < |s.threads| ensures s.threads[i].pc.Idle? {
        if !s.threads[i].pc.Idle? { var a := NobodyIsStuck(s, i); }
      }
      AllReturned(s);
    }
  }

  lemma {:induction false} AllReturned(s: State)
    requires Inv(s) && NoReferences(s) && forall i :: 0 <= i < |s.threads| ==> s.threads[i].pc.Idle?
    ensures s.destroyed == 1 && s.freed == 1 && AllLeft(s.threads) == 0
  {
    forall i | 0 <= i < |s.threads| ensures s.threads[i] == Thread(0, 0, Idle) {
      OneOfTotal(s.threads, i);
    }
    NothingLeaks(s);
    NothingLeft(s.threads);
  }

  lemma {:induction false} NothingLeft(ts: seq<Thread>)
    requires forall i :: 0 <= i < |ts| ==> ts[i].pc.Idle?
    ensures AllLeft(ts) == 0
  {
    if ts != [] {
      assert forall i :: 0 <= i < |ts[1..]| ==> ts[1..][i] == ts[i + 1];
      NothingLeft(ts[1..]);
    }
  }

  // --------------------------------------------------------------------- runs

  /** A finished stretch of any interleaving, during which fewer than 2^32 references of a kind exist. */
  ghost predicate Run(states: seq<State>, steps: seq<Step>, owner: nat) {
    && |states| == |steps| + 1 && Init(states[0], owner)
    && (forall k, l :: 0 <= k < l == k + 1 < |states| ==>
            Enabled(states[k], steps[k]) && states[l] == Next(states[k], steps[k]))
    && (forall k :: 0 <= k < |states| ==> Few(Total(states[k].threads)))
  }

  lemma {:induction false} RunStep(states: seq<State>, steps: seq<Step>, owner: nat, k: nat)
    requires Run(states, steps, owner) && k < |steps|
    ensures Enabled(states[k], steps[k]) && states[k + 1] == Next(states[k], steps[k])
    ensures Few(Total(states[k + 1].threads))
  {
    var l := k + 1;
    var next := states[l];
    assert Enabled(states[k], steps[k]) && next == Next(states[k], steps[k]);
  }

  lemma {:induction false} RunKeepsInv(states: seq<State>, steps: seq<Step>, owner: nat, k: nat)
    requires Run(states, steps, owner) && k < |states|
    ensures Inv(states[k])
  {
    hide Inv;
    if k == 0 {
      InitInv(states[0], owner);
    } else {
      RunKeepsInv(states, steps, owner, k - 1);
      RunStep(states, steps, owner, k - 1);
      StepKeepsInv(states[k - 1], steps[k - 1]);
    }
  }

  /**
   * The life of an object, over every interleaving: the word is exactly the two counts; the destructor runs at
   * most once and not while a strong reference exists; the block is freed at most once, after the destructor, and
   * not while anybody owns a reference or is inside a call.
   */
  lemma {:induction false} LifeOfAnObject(states: seq<State>, steps: seq<Step>, owner: nat, k: nat)
    requires Run(states, steps, owner) && k < |states|
    ensures var s := states[k]; var n := Total(s.threads);
            && s.word == n.strong + HALF * (n.weak + GroupWeak(n, s.fast)) && s.word % HALF == n.strong
            && s.freed <= s.destroyed <= 1
            && (forall i :: 0 <= i < |s.threads| ==>
                  var th := s.threads[i];
                  (th.strong > 0 ==> s.destroyed == 0) &&
                  (th.strong > 0 || th.weak > 0 || !th.pc.Idle? ==> s.freed == 0))
  {
    RunKeepsInv(states, steps, owner, k);
    var s := states[k];
    WordTells(Total(s.threads), s.word, s.fast);
    assert s.freed <= s.destroyed <= 1;
    hide Run, Inv, Total;
    forall i | 0 <= i < |s.threads|
      ensures var th := s.threads[i];
              (th.strong > 0 ==> s.destroyed == 0) &&
              (th.strong > 0 || th.weak > 0 || !th.pc.Idle? ==> s.freed == 0)
    {
      OwnersAreSafe(s, i);
    }
  }

  /** Once no strong reference exists there never will be one, so a promotion succeeds only before that. */
  lemma {:induction false} StrongZeroIsFinal(states: seq<State>, steps: seq<Step>, owner: nat, j: nat, k: nat)
    requires Run(states, steps, owner) && j <= k < |states|
    ensures Total(states[j].threads).strong == 0 ==> Total(states[k].threads).strong == 0
    ensures k < |steps| && steps[k].PromoteWin? ==> Total(states[j].threads).strong > 0
    decreases k - j
  {
    hide Inv, Total;
    RunKeepsInv(states, steps, owner, j);
    if j < k {
      var l := j + 1;
      RunStep(states, steps, owner, j);
      StepIsSafe(states[j], steps[j]);
      StrongZeroIsFinal(states, steps, owner, l, k);
    } else if k < |steps| {
      RunStep(states, steps, owner, k);
      StepIsSafe(states[k], steps[k]);
    }
  }

  // --------------------------------------------------------------- uniqueness

  /** A use count of one, read by the owner of that reference: no other thread has a step left to take ... */
  lemma {:induction false} UniqueIsStable(s: State, t: nat, a: Step)
    requires Inv(s) && t < |s.threads| && s.threads[t].strong == 1 && s.word % HALF == 1
    requires forall i :: 0 <= i < |s.threads| && i != t ==> s.threads[i].weak == 0
    requires Enabled(s, a)
    ensures a.t == t
  {
    if a.t == t { return; }
    WordTells(Total(s.threads), s.word, s.fast);
    assert ThreadOk(s.destroyed, s.threads[a.t]);
    hide Total, Packed;
    TotalOfTwo(s.threads, t, a.t);
  }

  /** ... unless one of them owns a weak reference: that thread is two steps away from a second strong one. */
  lemma {:induction false} WeakOwnerCanShare(s: State, t: nat, i: nat)
    requires Inv(s) && t < |s.threads| && s.threads[t].strong > 0
    requires i < |s.threads| && i != t && s.threads[i].weak > 0
    ensures exists a: Step, b: Step :: a.t == b.t == i && Enabled(s, a) && Enabled(Next(s, a), b) &&
              Next(Next(s, a), b).threads[i].strong == s.threads[i].strong + 1
  {
    WordTells(Total(s.threads), s.word, s.fast);
    assert ThreadOk(s.destroyed, s.threads[i]);
    TotalOfTwo(s.threads, t, i);
    var a := if s.threads[i].pc.Idle? then PromoteLoad(i) else PromoteRetry(i);
    assert !StrongZero(s.word);
    assert Enabled(s, a) && Enabled(Next(s, a), PromoteWin(i));
  }
}
