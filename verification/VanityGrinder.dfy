/**
 cli/src/cmd/grind.rs: any number of worker threads race for a key with the wanted suffix,
 sharing a flag, an attempt counter and a mutex-guarded slot. Every access to shared state is
 one step; the scheduler picks the thread, and chance picks the keys.
*/
module VanityGrinder {
  import Bytes
  import opened Wrappers

  type Keypair = nat

  /** Whether a key's address ends with the wanted suffix. */
  type Needle = Keypair -> bool

  /** Where a worker is. */
  datatype Worker =
    | Checking                  // about to load `found`
    | Drawn(key: Keypair)       // drew a key, not yet counted
    | Counted(key: Keypair)     // counted it, not yet compared
    | Locking(key: Keypair)     // has a matching key, wants the mutex
    | Inside(key: Keypair)      // holds the mutex, about to look at the slot
    | Filled                    // holds the mutex, filled the slot, about to set `found`
    | Leaving                   // holds the mutex, about to drop it
    | Exited

  datatype State = State(
    found: bool,
    counter: nat,
    winner: Option<Keypair>,
    mutex: Option<nat>,
    workers: seq<Worker>)

  /** Thread `thread` runs; if it draws a key, it is `key`. */
  datatype Turn = Turn(thread: nat, key: Keypair)

  function Initial(threads: nat): State {
    State(false, 0, None, None, seq(threads, _ => Checking))
  }

  function Goto(s: State, t: nat, w: Worker): State
    requires t < |s.workers|
  {
    s.(workers := s.workers[t := w])
  }

  /** One step of one thread; a thread that waits for the mutex stays where it is. */
  function Act(hit: Needle, s: State, turn: Turn): State {
    var t := turn.thread;
    if t >= |s.workers| then s else
    match s.workers[t]
    case Checking => Goto(s, t, if s.found then Exited else Drawn(turn.key))
    case Drawn(k) => Goto(s, t, Counted(k)).(counter := (s.counter + 1) % (Bytes.U64_MAX + 1))
    case Counted(k) => Goto(s, t, if hit(k) then Locking(k) else Checking)
    case Locking(k) => if s.mutex == None then Goto(s, t, Inside(k)).(mutex := Some(t)) else s
    case Inside(k) => if s.winner == None then Goto(s, t, Filled).(winner := Some(k)) else Goto(s, t, Leaving)
    case Filled => Goto(s, t, Leaving).(found := true)
    case Leaving => Goto(s, t, Exited).(mutex := None)
    case Exited => s
  }

  function Run(hit: Needle, s: State, turns: seq<Turn>): State {
    if turns == [] then s else Act(hit, Run(hit, s, turns[..|turns| - 1]), turns[|turns| - 1])
  }

  // ---------------------------------------------------------------- invariant

  predicate Holds(w: Worker) {
    w.Inside? || w.Filled? || w.Leaving?
  }

  ghost predicate WorkerOk(hit: Needle, s: State, t: nat)
    requires t < |s.workers|
  {
    var w := s.workers[t];
    && (Holds(w) <==> s.mutex == Some(t))
    && (w.Locking? || w.Inside? ==> hit(w.key))
    && (w.Filled? || w.Leaving? || w.Exited? ==> s.winner.Some?)
  }

  ghost predicate Inv(hit: Needle, s: State) {
    && (forall t :: 0 <= t < |s.workers| ==> WorkerOk(hit, s, t))
    && (s.mutex.Some? ==> s.mutex.value < |s.workers|)
    && (s.found ==> s.winner.Some?)
    && (s.winner.Some? ==> hit(s.winner.value))
    && (s.winner.Some? && !s.found ==> s.mutex.Some? && s.workers[s.mutex.value].Filled?)
  }

  lemma InvStep(hit: Needle, s: State, turn: Turn)
    requires Inv(hit, s)
    ensures Inv(hit, Act(hit, s, turn))
    ensures s.winner.Some? ==> Act(hit, s, turn).winner == s.winner
    ensures s.found ==> Act(hit, s, turn).found
    ensures |Act(hit, s, turn).workers| == |s.workers|
  {
    var n := Act(hit, s, turn);
    if turn.thread < |s.workers| {
      assert WorkerOk(hit, s, turn.thread);
      forall t | 0 <= t < |n.workers| ensures WorkerOk(hit, n, t) {
        assert WorkerOk(hit, s, t);
        assert s.workers[t].Inside? && s.workers[turn.thread].Inside? ==> t == turn.thread;
      }
    }
  }

  lemma {:induction false} InvRun(hit: Needle, s: State, turns: seq<Turn>)
    requires Inv(hit, s)
    ensures Inv(hit, Run(hit, s, turns)) && |Run(hit, s, turns).workers| == |s.workers|
    ensures s.winner.Some? ==> Run(hit, s, turns).winner == s.winner
    ensures s.found ==> Run(hit, s, turns).found
  {
    if turns != [] {
      var m := |turns| - 1;
      InvRun(hit, s, turns[..m]);
      InvStep(hit, Run(hit, s, turns[..m]), turns[m]);
    }
  }

  lemma InitialInv(hit: Needle, threads: nat)
    ensures Inv(hit, Initial(threads))
  {
    forall t | 0 <= t < threads ensures WorkerOk(hit, Initial(threads), t) {
      assert Initial(threads).workers[t] == Checking;
    }
  }

  // ---------------------------------------------------------------- safety

  /** The slot is written at most once, with a matching key: what it holds after `n` turns, it keeps. */
  lemma {:induction false} WinnerIsFinal(hit: Needle, threads: nat, turns: seq<Turn>, n: nat)
    requires n <= |turns|
    ensures var s := Run(hit, Initial(threads), turns[..n]);
            s.winner.Some? ==> hit(s.winner.value) && Run(hit, Initial(threads), turns).winner == s.winner
  {
    InitialInv(hit, threads);
    InvRun(hit, Initial(threads), turns[..n]);
    var m := |turns| - 1;
    if n == |turns| {
      assert turns[..n] == turns;
    } else {
      WinnerIsFinal(hit, threads, turns[..m], n);
      assert turns[..m][..n] == turns[..n];
      InvRun(hit, Initial(threads), turns[..m]);
      InvStep(hit, Run(hit, Initial(threads), turns[..m]), turns[m]);
    }
  }

  /** At most one worker is inside the mutex. */
  lemma MutualExclusion(hit: Needle, threads: nat, turns: seq<Turn>, t: nat, u: nat)
    requires t < threads && u < threads
    requires var s := Run(hit, Initial(threads), turns);
             t < |s.workers| && u < |s.workers| && Holds(s.workers[t]) && Holds(s.workers[u])
    ensures t == u
  {
    InitialInv(hit, threads);
    InvRun(hit, Initial(threads), turns);
    assert WorkerOk(hit, Run(hit, Initial(threads), turns), t) && WorkerOk(hit, Run(hit, Initial(threads), turns), u);
  }

  /** `found`, or any exited worker, implies a matching key in the slot. */
  lemma FoundImpliesFilled(hit: Needle, threads: nat, turns: seq<Turn>)
    ensures var s := Run(hit, Initial(threads), turns);
            s.found || (exists t :: 0 <= t < |s.workers| && s.workers[t] == Exited) ==>
              s.winner.Some? && hit(s.winner.value)
  {
    InitialInv(hit, threads);
    InvRun(hit, Initial(threads), turns);
    var s := Run(hit, Initial(threads), turns);
    if t :| 0 <= t < |s.workers| && s.workers[t] == Exited {
      assert WorkerOk(hit, s, t);
    }
  }

  /** A taken mutex is held by a worker inside its critical section. */
  lemma MutexIsHeld(hit: Needle, s: State)
    requires Inv(hit, s)
    ensures s.mutex.Some? ==> s.mutex.value < |s.workers| && Holds(s.workers[s.mutex.value])
  {
    if s.mutex.Some? {
      assert WorkerOk(hit, s, s.mutex.value);
    }
  }

  /** After joining all of at least one worker, `slot.take()` yields a matching key. */
  lemma TakeAfterJoin(hit: Needle, threads: nat, turns: seq<Turn>)
    requires threads > 0
    requires var s := Run(hit, Initial(threads), turns);
             forall t :: 0 <= t < |s.workers| ==> s.workers[t] == Exited
    ensures var s := Run(hit, Initial(threads), turns);
            s.winner.Some? && hit(s.winner.value) && s.found && s.mutex == None
  {
    InitialInv(hit, threads);
    InvRun(hit, Initial(threads), turns);
    var s := Run(hit, Initial(threads), turns);
    assert WorkerOk(hit, s, 0) && s.workers[0] == Exited;
    MutexIsHeld(hit, s);
  }

  // ---------------------------------------------------------------- stopping

  /** An upper bound on the steps a worker can still take once `found` is set. */
  function Rank(w: Worker): nat {
    match w
    case Drawn(_) => 6
    case Counted(_) => 5
    case Locking(_) => 4
    case Inside(_) => 3
    case Filled => 2
    case Checking => 1
    case Leaving => 1
    case Exited => 0
  }

  /** The steps in which thread `t` got anywhere. */
  function Progress(hit: Needle, s: State, turns: seq<Turn>, t: nat): nat {
    if turns == [] then 0
    else
      var m := |turns| - 1;
      var u := Run(hit, s, turns[..m]);
      Progress(hit, s, turns[..m], t) + if turns[m].thread == t && Act(hit, u, turns[m]) != u then 1 else 0
  }

  /** Once `found` is set no worker draws another key, and every step it takes brings it nearer its exit. */
  lemma FoundStep(hit: Needle, s: State, turn: Turn, t: nat)
    requires Inv(hit, s) && s.found && t < |s.workers|
    ensures var n := Act(hit, s, turn);
            && t < |n.workers|
            && (n.workers[t].Drawn? ==> n.workers[t] == s.workers[t])
            && Rank(n.workers[t]) + (if turn.thread == t && n != s then 1 else 0) <= Rank(s.workers[t])
  {
    assert WorkerOk(hit, s, t);
  }

  /**
   Each worker stops within one iteration of its loop after `found` is set: from then on it
   makes at most as many steps as remain of the iteration it is in.
  */
  lemma {:induction false} StopsWithinOneIteration(hit: Needle, s: State, turns: seq<Turn>, t: nat)
    requires Inv(hit, s) && s.found && t < |s.workers|
    ensures var n := Run(hit, s, turns);
            && t < |n.workers|
            && Progress(hit, s, turns, t) + Rank(n.workers[t]) <= Rank(s.workers[t]) <= 6
  {
    InvRun(hit, s, turns);
    if turns != [] {
      var m := |turns| - 1;
      InvRun(hit, s, turns[..m]);
      StopsWithinOneIteration(hit, s, turns[..m], t);
      FoundStep(hit, Run(hit, s, turns[..m]), turns[m], t);
    }
  }

  /** No deadlock: unless all workers have exited, some worker can take a step. */
  lemma NoDeadlock(hit: Needle, s: State, t: nat, key: Keypair)
    requires Inv(hit, s) && t < |s.workers| && s.workers[t] != Exited
    ensures exists u :: 0 <= u < |s.workers| && Act(hit, s, Turn(u, key)) != s
  {
    var u := if s.mutex.Some? then s.mutex.value else t;
    assert WorkerOk(hit, s, u) && WorkerOk(hit, s, t);
    var n := Act(hit, s, Turn(u, key));
    assert n.workers[u] != s.workers[u];
  }

  // ---------------------------------------------------------------- termination

  /** An upper bound on the turns that all workers together can still use. */
  function TotalRank(workers: seq<Worker>): (r: nat)
    ensures r <= 6 * |workers|
  {
    if workers == [] then 0 else Rank(workers[0]) + TotalRank(workers[1..])
  }

  lemma {:induction false} TotalRankUpdate(workers: seq<Worker>, t: nat, w: Worker)
    requires t < |workers|
    ensures TotalRank(workers[t := w]) == TotalRank(workers) - Rank(workers[t]) + Rank(w)
  {
    if t == 0 {
      assert workers[t := w][1..] == workers[1..];
    } else {
      assert workers[t := w][1..] == workers[1..][t - 1 := w];
      TotalRankUpdate(workers[1..], t - 1, w);
    }
  }

  predicate AllExited(s: State) {
    forall t :: 0 <= t < |s.workers| ==> s.workers[t] == Exited
  }

  /** Every turn goes to a worker that is able to move. */
  ghost predicate Diligent(hit: Needle, s: State, turns: seq<Turn>) {
    forall i :: 0 <= i < |turns| ==>
      Act(hit, Run(hit, s, turns[..i]), turns[i]) != Run(hit, s, turns[..i])
  }

  /** A turn changes at most the worker that runs. */
  lemma OthersWait(hit: Needle, s: State, turn: Turn)
    requires turn.thread < |s.workers|
    ensures var n := Act(hit, s, turn);
            turn.thread < |n.workers| && n.workers == s.workers[turn.thread := n.workers[turn.thread]]
  {
  }

  /** Once `found` is set, each turn that moves a worker uses up part of the bound. */
  lemma RankFalls(hit: Needle, s: State, turn: Turn)
    requires Inv(hit, s) && s.found && Act(hit, s, turn) != s
    ensures TotalRank(Act(hit, s, turn).workers) < TotalRank(s.workers)
  {
    var t, n := turn.thread, Act(hit, s, turn);
    OthersWait(hit, s, turn);
    FoundStep(hit, s, turn, t);
    TotalRankUpdate(s.workers, t, n.workers[t]);
  }

  lemma DiligentPrefix(hit: Needle, s: State, turns: seq<Turn>)
    requires turns != [] && Diligent(hit, s, turns)
    ensures Diligent(hit, s, turns[..|turns| - 1])
    ensures Act(hit, Run(hit, s, turns[..|turns| - 1]), turns[|turns| - 1]) != Run(hit, s, turns[..|turns| - 1])
  {
    var m := |turns| - 1;
    forall i | 0 <= i < m
      ensures Act(hit, Run(hit, s, turns[..m][..i]), turns[..m][i]) != Run(hit, s, turns[..m][..i])
    {
      assert turns[..m][..i] == turns[..i];
    }
  }

  lemma {:induction false} DiligentTurns(hit: Needle, s: State, turns: seq<Turn>)
    requires Inv(hit, s) && s.found && Diligent(hit, s, turns)
    ensures |turns| + TotalRank(Run(hit, s, turns).workers) <= TotalRank(s.workers)
  {
    if turns != [] {
      var m := |turns| - 1;
      DiligentPrefix(hit, s, turns);
      DiligentTurns(hit, s, turns[..m]);
      InvRun(hit, s, turns[..m]);
      RankFalls(hit, Run(hit, s, turns[..m]), turns[m]);
    }
  }

  /**
   Termination: once `found` is set, a schedule that only gives turns to workers able to move
   has at most six turns per worker, and it cannot be continued exactly when all workers have
   exited; then the mutex is free and the take yields a matching key.
  */
  lemma {:induction false} Terminates(hit: Needle, s: State, turns: seq<Turn>)
    requires Inv(hit, s) && s.found && Diligent(hit, s, turns)
    ensures var n := Run(hit, s, turns);
            && |turns| <= 6 * |s.workers|
            && (AllExited(n) <==> forall turn: Turn :: Act(hit, n, turn) == n)
            && (AllExited(n) ==> n.mutex == None && n.winner.Some? && hit(n.winner.value))
  {
    var n := Run(hit, s, turns);
    DiligentTurns(hit, s, turns);
    InvRun(hit, s, turns);
    MutexIsHeld(hit, n);
    if !AllExited(n) {
      var t :| 0 <= t < |n.workers| && n.workers[t] != Exited;
      NoDeadlock(hit, n, t, 0);
    }
  }

  /** Such a schedule exists from every state: somebody can always be given the next turn. */
  lemma {:induction false} CanFinish(hit: Needle, s: State, turns: seq<Turn>) returns (all: seq<Turn>)
    requires Inv(hit, s) && s.found && Diligent(hit, s, turns)
    ensures turns <= all && Diligent(hit, s, all) && AllExited(Run(hit, s, all))
    decreases TotalRank(s.workers) - |turns|
  {
    var n := Run(hit, s, turns);
    Terminates(hit, s, turns);
    DiligentTurns(hit, s, turns);
    if AllExited(n) {
      all := turns;
    } else {
      var turn: Turn :| Act(hit, n, turn) != n;
      var more := turns + [turn];
      assert more[..|turns|] == turns;
      forall i | 0 <= i < |more| ensures Act(hit, Run(hit, s, more[..i]), more[i]) != Run(hit, s, more[..i]) {
        assert i < |turns| ==> more[..i] == turns[..i] && more[i] == turns[i];
      }
      DiligentTurns(hit, s, more);
      all := CanFinish(hit, s, more);
    }
  }

  // ---------------------------------------------------------------- attempts

  /** In turn `i` of the run a worker draws the key `turns[i].key`. */
  ghost predicate DrawsAt(hit: Needle, s: State, turns: seq<Turn>, i: nat)
    requires i < |turns|
  {
    Draws(Run(hit, s, turns[..i]), turns[i])
  }

  predicate Draws(s: State, turn: Turn) {
    turn.thread < |s.workers| && s.workers[turn.thread] == Checking && !s.found
  }

  /** How many keys were drawn. */
  function KeysDrawn(hit: Needle, s: State, turns: seq<Turn>): nat {
    if turns == [] then 0
    else
      var m := |turns| - 1;
      KeysDrawn(hit, s, turns[..m]) + if Draws(Run(hit, s, turns[..m]), turns[m]) then 1 else 0
  }

  /** How many workers hold a key that is not counted yet. */
  function Uncounted(workers: seq<Worker>): nat {
    if workers == [] then 0 else (if workers[0].Drawn? then 1 else 0) + Uncounted(workers[1..])
  }

  lemma {:induction false} UncountedUpdate(workers: seq<Worker>, t: nat, w: Worker)
    requires t < |workers|
    ensures Uncounted(workers[t := w])
            == Uncounted(workers) - (if workers[t].Drawn? then 1 else 0) + (if w.Drawn? then 1 else 0)
  {
    if t == 0 {
      assert workers[t := w][1..] == workers[1..];
    } else {
      assert workers[t := w][1..] == workers[1..][t - 1 := w];
      UncountedUpdate(workers[1..], t - 1, w);
    }
  }

  lemma {:induction false} NoneUncounted(workers: seq<Worker>)
    requires forall t :: 0 <= t < |workers| ==> !workers[t].Drawn?
    ensures Uncounted(workers) == 0
  {
    if workers != [] {
      NoneUncounted(workers[1..]);
    }
  }

  /** `drawn` keys were drawn, and the counter shows those that were counted, modulo 2^64. */
  ghost predicate CounterOk(s: State, drawn: int) {
    drawn >= Uncounted(s.workers) && s.counter == (drawn - Uncounted(s.workers)) % 18_446_744_073_709_551_616
  }

  /** What a turn does to the counter and to the keys that are not counted. */
  lemma CounterMoves(hit: Needle, s: State, turn: Turn)
    ensures var n := Act(hit, s, turn);
            var counts := turn.thread < |s.workers| && s.workers[turn.thread].Drawn?;
            && n.counter == (if counts then (s.counter + 1) % 18_446_744_073_709_551_616 else s.counter)
            && Uncounted(n.workers)
               == Uncounted(s.workers) + (if Draws(s, turn) then 1 else 0) - (if counts then 1 else 0)
  {
    if turn.thread < |s.workers| {
      OthersWait(hit, s, turn);
      UncountedUpdate(s.workers, turn.thread, Act(hit, s, turn).workers[turn.thread]);
    }
  }

  lemma CounterStep(hit: Needle, s: State, turn: Turn, drawn: nat)
    requires CounterOk(s, drawn)
    ensures CounterOk(Act(hit, s, turn), drawn + if Draws(s, turn) then 1 else 0)
  {
    CounterMoves(hit, s, turn);
    var x := drawn - Uncounted(s.workers);
    assert (x % 18_446_744_073_709_551_616 + 1) % 18_446_744_073_709_551_616 == (x + 1) % 18_446_744_073_709_551_616;
  }

  /**
   The counter in every interleaving: it shows, modulo 2^64, the keys drawn so far except those
   that a worker still has to count; once all workers have exited, all of them.
  */
  lemma {:induction false} CounterExact(hit: Needle, threads: nat, turns: seq<Turn>)
    ensures var s, drawn := Run(hit, Initial(threads), turns), KeysDrawn(hit, Initial(threads), turns);
            && CounterOk(s, drawn)
            && (AllExited(s) ==> s.counter == drawn % 18_446_744_073_709_551_616)
  {
    if turns == [] {
      NoneUncounted(Initial(threads).workers);
    } else {
      var m := |turns| - 1;
      CounterExact(hit, threads, turns[..m]);
      CounterStep(hit, Run(hit, Initial(threads), turns[..m]), turns[m],
                  KeysDrawn(hit, Initial(threads), turns[..m]));
    }
    if AllExited(Run(hit, Initial(threads), turns)) {
      NoneUncounted(Run(hit, Initial(threads), turns).workers);
    }
  }

  // ---------------------------------------------------------------- where the winner comes from

  /** The key was drawn in one of the turns. */
  ghost predicate WasDrawn(hit: Needle, s: State, turns: seq<Turn>, k: Keypair) {
    exists i :: 0 <= i < |turns| && DrawsAt(hit, s, turns, i) && turns[i].key == k
  }

  lemma StillDrawn(hit: Needle, s: State, turns: seq<Turn>, k: Keypair)
    requires turns != [] && WasDrawn(hit, s, turns[..|turns| - 1], k)
    ensures WasDrawn(hit, s, turns, k)
  {
    var m := |turns| - 1;
    var i :| 0 <= i < m && DrawsAt(hit, s, turns[..m], i) && turns[..m][i].key == k;
    assert turns[..m][..i] == turns[..i];
    assert DrawsAt(hit, s, turns, i);
  }

  predicate Holding(w: Worker, k: Keypair) {
    w == Drawn(k) || w == Counted(k) || w == Locking(k) || w == Inside(k)
  }

  /** A step hands on a key only from the worker's own hands, or draws it. */
  lemma KeyOrigin(hit: Needle, s: State, turn: Turn, k: Keypair)
    ensures var n := Act(hit, s, turn);
            && (forall t :: 0 <= t < |n.workers| && Holding(n.workers[t], k) ==>
                  || (t < |s.workers| && Holding(s.workers[t], k))
                  || (Draws(s, turn) && turn.key == k))
            && (n.winner == Some(k) ==>
                  s.winner == Some(k) || exists t :: 0 <= t < |s.workers| && Holding(s.workers[t], k))
  {
    var n := Act(hit, s, turn);
    if n.winner == Some(k) && s.winner != Some(k) {
      assert Holding(s.workers[turn.thread], k);
    }
  }

  /** Every key in a worker's hands, and the winner, was drawn in the run. */
  lemma {:induction false} KeysWereDrawn(hit: Needle, threads: nat, turns: seq<Turn>, k: Keypair)
    ensures var s := Run(hit, Initial(threads), turns);
            s.winner == Some(k) || (exists t :: 0 <= t < |s.workers| && Holding(s.workers[t], k)) ==>
              WasDrawn(hit, Initial(threads), turns, k)
  {
    if turns != [] {
      var m := |turns| - 1;
      var u := Run(hit, Initial(threads), turns[..m]);
      var n := Act(hit, u, turns[m]);
      KeysWereDrawn(hit, threads, turns[..m], k);
      KeyOrigin(hit, u, turns[m], k);
      if WasDrawn(hit, Initial(threads), turns[..m], k) {
        StillDrawn(hit, Initial(threads), turns, k);
      } else if n.winner == Some(k) || exists t :: 0 <= t < |n.workers| && Holding(n.workers[t], k) {
        assert DrawsAt(hit, Initial(threads), turns, m);
      }
    }
  }

  // ---------------------------------------------------------------- one worker

  /** One worker goes through these keys, three turns each. */
  function Tries(keys: seq<Keypair>): seq<Turn> {
    if keys == [] then []
    else
      var turn := Turn(0, keys[|keys| - 1]);
      Tries(keys[..|keys| - 1]) + [turn, turn, turn]
  }

  lemma RunThen(hit: Needle, s: State, turns: seq<Turn>, turn: Turn)
    ensures Run(hit, s, turns + [turn]) == Act(hit, Run(hit, s, turns), turn)
  {
    assert (turns + [turn])[..|turns|] == turns;
  }

  /** Three more turns of the same thread, through the states `v`, `w` and `x`. */
  lemma RunThenThree(hit: Needle, s: State, turns: seq<Turn>, turn: Turn, v: State, w: State, x: State)
    requires Act(hit, Run(hit, s, turns), turn) == v && Act(hit, v, turn) == w && Act(hit, w, turn) == x
    ensures Run(hit, s, turns + [turn, turn, turn]) == x
  {
    RunThen(hit, s, turns, turn);
    RunThen(hit, s, turns + [turn], turn);
    RunThen(hit, s, turns + [turn] + [turn], turn);
    assert turns + [turn] + [turn] + [turn] == turns + [turn, turn, turn];
  }

  /** The one worker at `w`, with an empty slot, after `c` attempts. */
  function Alone(c: int, w: Worker): State {
    State(false, c % 18_446_744_073_709_551_616, None, None, [w])
  }

  lemma AloneCounts(hit: Needle, c: nat, k: Keypair)
    ensures var turn := Turn(0, k);
            && Act(hit, Alone(c, Checking), turn) == Alone(c, Drawn(k))
            && Act(hit, Alone(c, Drawn(k)), turn) == Alone(c + 1, Counted(k))
            && Act(hit, Alone(c + 1, Counted(k)), turn) == Alone(c + 1, if hit(k) then Locking(k) else Checking)
  {
    assert [Checking][0 := Drawn(k)] == [Drawn(k)] && [Drawn(k)][0 := Counted(k)] == [Counted(k)];
    var w := if hit(k) then Locking(k) else Checking;
    assert [Counted(k)][0 := w] == [w];
  }

  lemma AloneWins(hit: Needle, c: nat, k: Keypair)
    ensures var turn, n := Turn(0, k), c % 18_446_744_073_709_551_616;
            && Act(hit, Alone(c, Locking(k)), turn) == State(false, n, None, Some(0), [Inside(k)])
            && Act(hit, State(false, n, None, Some(0), [Inside(k)]), turn)
               == State(false, n, Some(k), Some(0), [Filled])
            && Act(hit, State(false, n, Some(k), Some(0), [Filled]), turn)
               == State(true, n, Some(k), Some(0), [Leaving])
            && Act(hit, State(true, n, Some(k), Some(0), [Leaving]), turn) == State(true, n, Some(k), None, [Exited])
  {
    assert [Locking(k)][0 := Inside(k)] == [Inside(k)] && [Inside(k)][0 := Filled] == [Filled];
    assert [Filled][0 := Leaving] == [Leaving] && [Leaving][0 := Exited] == [Exited];
  }

  /** Keys that do not match are counted and dropped. */
  lemma {:induction false} MissesAreDropped(hit: Needle, keys: seq<Keypair>)
    requires forall k <- keys :: !hit(k)
    ensures Run(hit, Initial(1), Tries(keys)) == Alone(|keys|, Checking)
  {
    if keys == [] {
      assert Initial(1).workers == [Checking];
    } else {
      var m := |keys| - 1;
      var k := keys[m];
      MissesAreDropped(hit, keys[..m]);
      AloneCounts(hit, m, k);
      RunThenThree(hit, Initial(1), Tries(keys[..m]), Turn(0, k),
                   Alone(m, Drawn(k)), Alone(m + 1, Counted(k)), Alone(m + 1, Checking));
    }
  }

  /**
   What one worker computes: it stops at the first key that matches, leaves that key in the
   slot, and has counted that key and all keys before it.
  */
  lemma {:induction false} FirstHitWins(hit: Needle, misses: seq<Keypair>, k: Keypair)
    requires hit(k) && forall m <- misses :: !hit(m)
    ensures var turn := Turn(0, k);
            Run(hit, Initial(1), Tries(misses) + [turn, turn, turn] + [turn, turn, turn] + [turn])
            == State(true, (|misses| + 1) % 18_446_744_073_709_551_616, Some(k), None, [Exited])
  {
    var turn, tries, c := Turn(0, k), Tries(misses), |misses|;
    var n := (c + 1) % 18_446_744_073_709_551_616;
    MissesAreDropped(hit, misses);
    AloneCounts(hit, c, k);
    RunThenThree(hit, Initial(1), tries, turn,
                 Alone(c, Drawn(k)), Alone(c + 1, Counted(k)), Alone(c + 1, Locking(k)));
    AloneWins(hit, c + 1, k);
    RunThenThree(hit, Initial(1), tries + [turn, turn, turn], turn,
                 State(false, n, None, Some(0), [Inside(k)]), State(false, n, Some(k), Some(0), [Filled]),
                 State(true, n, Some(k), Some(0), [Leaving]));
    RunThen(hit, Initial(1), tries + [turn, turn, turn] + [turn, turn, turn], turn);
  }
}
