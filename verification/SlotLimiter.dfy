/**
 The limiter for concurrent searches (src/rg.rs, `try_acquire_rg_slot` and `RgActiveGuard`): a
 global atomic counter, raised by a compare-and-swap loop and lowered when a guard is dropped.
 Every atomic access is one move; any number of threads interleave, and the weak
 compare-and-swap may fail although the counter has the expected value.
 */
module SlotLimiter {
  import opened Text

  const MAX_ACTIVE := 3
  const USIZE_MAX := 0xFFFF_FFFF_FFFF_FFFF

  /** Where one call of `try_acquire_rg_slot` stands, and the guard it returned. */
  datatype Phase =
    | Starting            // before the first load
    | Looping(seen: nat)  // `current` is `seen`
    | Denied              // returned `None`
    | Holding             // returned a guard, which is live
    | Dropped             // that guard is gone

  datatype State = State(counter: nat, calls: map<nat, Phase>)

  const START := State(0, map[])

  datatype Move = Enter(call: nat) | Load(call: nat) | Deny(call: nat) | Swap(call: nat) | SwapFails(call: nat) | Drop(call: nat)

  function To(s: State, c: nat, phase: Phase, counter: nat): State {
    State(counter, s.calls[c := phase])
  }

  /** The state after a move, or `None` if the move is not possible. */
  function Next(s: State, move: Move): Option<State> {
    var c := move.call;
    if c !in s.calls then (if move.Enter? then Some(To(s, c, Starting, s.counter)) else None)
    else
      match (move, s.calls[c])
      case (Load(_), Starting) => Some(To(s, c, Looping(s.counter), s.counter))
      case (Deny(_), Looping(seen)) => if seen >= MAX_ACTIVE then Some(To(s, c, Denied, s.counter)) else None
      case (Swap(_), Looping(seen)) =>
        if seen < MAX_ACTIVE && s.counter == seen then Some(To(s, c, Holding, seen + 1)) else None
      case (SwapFails(_), Looping(seen)) =>
        if seen < MAX_ACTIVE then Some(To(s, c, Looping(s.counter), s.counter)) else None
      case (Drop(_), Holding) => Some(To(s, c, Dropped, if s.counter == 0 then USIZE_MAX else s.counter - 1))
      case _ => None
  }

  function Run(moves: seq<Move>): Option<State> {
    if moves == [] then Some(START)
    else
      match Run(moves[..|moves| - 1])
      case None => None
      case Some(s) => Next(s, moves[|moves| - 1])
  }

  function Live(s: State): set<nat> {
    set c | c in s.calls && s.calls[c].Holding?
  }

  ghost predicate Inv(s: State) {
    s.counter == |Live(s)| <= MAX_ACTIVE
  }

  lemma Step(s: State, move: Move)
    requires Inv(s) && Next(s, move).Some?
    ensures Inv(Next(s, move).value)
    ensures move.Drop? ==> s.counter > 0
  {
    var t, c := Next(s, move).value, move.call;
    if move.Swap? {
      assert Live(t) == Live(s) + {c};
    } else if move.Drop? {
      assert c in Live(s);
      assert Live(t) == Live(s) - {c};
    } else {
      assert Live(t) == Live(s);
    }
  }

  /** After every schedule the counter is the number of live guards, and there are at most three. */
  lemma {:induction false} CounterIsLiveGuards(moves: seq<Move>)
    requires Run(moves).Some?
    ensures Run(moves).value.counter == |Live(Run(moves).value)| <= 3
  {
    if moves != [] {
      CounterIsLiveGuards(moves[..|moves| - 1]);
      Step(Run(moves[..|moves| - 1]).value, moves[|moves| - 1]);
    }
  }

  /** Dropping a guard never makes the counter wrap around. */
  lemma DropNeverUnderflows(moves: seq<Move>, c: nat)
    requires Run(moves).Some? && Next(Run(moves).value, Drop(c)).Some?
    ensures Run(moves).value.counter > 0
    ensures Next(Run(moves).value, Drop(c)).value.counter == Run(moves).value.counter - 1
  {
    CounterIsLiveGuards(moves);
    Step(Run(moves).value, Drop(c));
  }

  /** When every guard has been dropped, the counter is back to zero. */
  lemma AllGone(moves: seq<Move>)
    requires Run(moves).Some?
    requires forall c | c in Run(moves).value.calls :: !Run(moves).value.calls[c].Holding?
    ensures Run(moves).value.counter == 0
  {
    CounterIsLiveGuards(moves);
    assert Live(Run(moves).value) == {};
  }

  /** Call `c` has begun and has not returned yet. */
  predicate Inside(s: State, c: nat) {
    c in s.calls && (s.calls[c].Starting? || s.calls[c].Looping?)
  }

  /** After the first `n` moves, call `c` was running and the counter was `seen`. */
  predicate Witness(moves: seq<Move>, n: nat, c: nat, seen: nat) {
    n <= |moves| && Run(moves[..n]).Some? && Inside(Run(moves[..n]).value, c) && Run(moves[..n]).value.counter == seen
  }

  lemma {:induction false} SeenInside(moves: seq<Move>, c: nat) returns (n: nat)
    requires Run(moves).Some? && c in Run(moves).value.calls
    requires Run(moves).value.calls[c].Looping? || Run(moves).value.calls[c].Denied?
    ensures match Run(moves).value.calls[c]
      case Looping(seen) => Witness(moves, n, c, seen)
      case _ => exists seen :: MAX_ACTIVE <= seen && Witness(moves, n, c, seen)
  {
    var front, move := moves[..|moves| - 1], moves[|moves| - 1];
    var s := Run(front).value;
    if move.call == c && !move.Deny? {
      n := |front|;
      assert moves[..n] == front;
      assert Witness(moves, n, c, s.counter);
    } else {
      n := SeenInside(front, c);
      assert moves[..n] == front[..n];
      var seen :| Witness(front, n, c, seen) && (s.calls[c].Looping? ==> s.calls[c].seen == seen)
                  && (s.calls[c].Denied? ==> MAX_ACTIVE <= seen);
      assert Witness(moves, n, c, seen);
    }
  }

  /** Whenever a call returns `None`, there was a moment during that call when three guards were live. */
  lemma DeniedWhenFull(moves: seq<Move>, c: nat)
    requires Run(moves).Some? && c in Run(moves).value.calls && Run(moves).value.calls[c].Denied?
    ensures exists n | 0 <= n <= |moves| ::
      Run(moves[..n]).Some? && Inside(Run(moves[..n]).value, c) && |Live(Run(moves[..n]).value)| == 3
  {
    var n := SeenInside(moves, c);
    CounterIsLiveGuards(moves[..n]);
  }

  lemma RunThen(moves: seq<Move>, move: Move)
    ensures Run(moves + [move]) == match Run(moves) case None => None case Some(s) => Next(s, move)
  {
    assert (moves + [move])[..|moves|] == moves;
  }

  /** A call that is made while fewer than three guards are live, and is not disturbed, gets one. */
  lemma FreeSlotIsTaken(moves: seq<Move>, c: nat)
    requires Run(moves).Some? && c !in Run(moves).value.calls && |Live(Run(moves).value)| < 3
    ensures var end := Run(moves + [Enter(c)] + [Load(c)] + [Swap(c)]);
      end.Some? && Live(end.value) == Live(Run(moves).value) + {c}
  {
    CounterIsLiveGuards(moves);
    RunThen(moves, Enter(c));
    RunThen(moves + [Enter(c)], Load(c));
    RunThen(moves + [Enter(c)] + [Load(c)], Swap(c));
  }
}
