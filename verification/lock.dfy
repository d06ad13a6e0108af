/**
 * The control flow of one pod's lock controller: the refresh loop with its ticker and its
 * one-slot retry channel, and the outer loop that applies, announces, refreshes and unlocks.
 */
module LockControl {

  /** What a Refresh call comes back with. `Broken` is every error but the deadline. */
  datatype Refresh = Refreshed | TimedOut | Broken

  /** The loop's state: the retry counter, and whether a token waits in the retry channel. */
  datatype Ctl = Ctl(retryCnt: nat, token: bool)

  /** `Stuck`: the loop is sending on a full channel that only the loop itself would drain. */
  datatype Next = Loop(ctl: Ctl) | Fail | Stuck

  const MAX_RETRIES := 3

  function TickAnswered(c: Ctl, r: Refresh): Next {
    match r
    case TimedOut => if c.token then Stuck else Loop(c.(token := true))
    case Broken => Fail
    case Refreshed => Loop(c.(retryCnt := 0))
  }

  function RetryTaken(c: Ctl): Ctl
    requires c.token
  {
    Ctl(c.retryCnt + 1, false)
  }

  function RetryAnswered(c: Ctl, r: Refresh): Next {
    match r
    case TimedOut => if c.retryCnt > MAX_RETRIES then Fail else if c.token then Stuck else Loop(c.(token := true))
    case Broken => Fail
    case Refreshed => Loop(c.(retryCnt := 0))
  }

  /** What the select statement takes, with the answer of the refresh it leads to. */
  datatype Input = Tick(answer: Refresh) | Retry(answer: Refresh) | Done

  datatype Verdict = RefreshFailed | Cancelled | Blocked | Crashed | Looping(ctl: Ctl)

  /** The select statement takes a retry only when a token is there. */
  predicate Selectable(c: Ctl, inputs: seq<Input>)
    decreases |inputs|
  {
    inputs == [] ||
    match inputs[0]
    case Done => true
    case Tick(r) => TickAnswered(c, r).Loop? ==> Selectable(TickAnswered(c, r).ctl, inputs[1..])
    case Retry(r) =>
      (c.token &&
       (RetryAnswered(RetryTaken(c), r).Loop? ==> Selectable(RetryAnswered(RetryTaken(c), r).ctl, inputs[1..])))
  }

  function VerdictOf(n: Next): Verdict {
    match n
    case Loop(c) => Looping(c)
    case Fail => RefreshFailed
    case Stuck => Blocked
  }

  function AutoRefreshing(c: Ctl, inputs: seq<Input>): Verdict
    requires Selectable(c, inputs)
    decreases |inputs|
  {
    if inputs == [] then Looping(c) else
    match inputs[0]
    case Done => Cancelled
    case Tick(r) =>
      var n := TickAnswered(c, r);
      if n.Loop? then AutoRefreshing(n.ctl, inputs[1..]) else VerdictOf(n)
    case Retry(r) =>
      var n := RetryAnswered(RetryTaken(c), r);
      if n.Loop? then AutoRefreshing(n.ctl, inputs[1..]) else VerdictOf(n)
  }

  datatype Applied = Acquired | ApplyCancelled | ApplyFailed

  datatype Round = Round(applied: Applied, inputs: seq<Input>)

  datatype Signal = Start | Stop | Unlock

  const FRESH := Ctl(0, false)

  /** The signals one round gives, and whether the outer loop goes on after it. */
  function RoundSignals(r: Round): (seq<Signal>, bool)
    requires Selectable(FRESH, r.inputs)
  {
    match r.applied
    case ApplyCancelled => ([], false)
    case Acquired =>
      (match AutoRefreshing(FRESH, r.inputs)
       case RefreshFailed => ([Start, Stop, Unlock], true)
       case Cancelled => ([Start, Stop, Unlock], false)
       case _ => ([Start], false))
    case ApplyFailed =>
      if r.inputs != [] && r.inputs[0].Done? then ([Start, Stop], false) else ([Start], false)
  }

  function Signals(rounds: seq<Round>): seq<Signal>
    requires forall r :: r in rounds ==> Selectable(FRESH, r.inputs)
    decreases |rounds|
  {
    if rounds == [] then [] else
    var (now, more) := RoundSignals(rounds[0]);
    if more then now + Signals(rounds[1..]) else now
  }

  /** Whether the lock is held after these rounds: only while a loop goes on or blocks. */
  function HoldsAfter(held: bool, rounds: seq<Round>): bool
    requires forall r :: r in rounds ==> Selectable(FRESH, r.inputs)
    decreases |rounds|
  {
    if rounds == [] || rounds[0].applied == ApplyCancelled then held
    else if RoundSignals(rounds[0]).1 then HoldsAfter(false, rounds[1..])
    else rounds[0].applied == Acquired && AutoRefreshing(FRESH, rounds[0].inputs) != Cancelled
  }

  class LockController {
    /** `m.l` is set. */
    var holding: bool
    var signals: seq<Signal>

    constructor ()
      ensures !holding && signals == []
    {
      holding, signals := false, [];
    }

    /** The refresh loop; with no lock its first refresh crashes the process. */
    method AutoRefresh(holding: bool, inputs: seq<Input>) returns (v: Verdict)
      requires Selectable(FRESH, inputs)
      ensures holding ==> v == AutoRefreshing(FRESH, inputs)
      ensures !holding ==> v == if inputs == [] then Looping(FRESH) else if inputs[0].Done? then Cancelled else Crashed
    {
      var retryCnt, retryCh := 0, false;
      var i := 0;
      while i < |inputs|
        invariant 0 <= i <= |inputs| && retryCnt >= 0
        invariant !holding ==> i == 0 && retryCnt == 0 && !retryCh
        invariant Selectable(Ctl(retryCnt, retryCh), inputs[i..])
        invariant AutoRefreshing(Ctl(retryCnt, retryCh), inputs[i..]) == AutoRefreshing(FRESH, inputs)
      {
        assert inputs[i..][0] == inputs[i] && inputs[i..][1..] == inputs[i + 1..];
        match inputs[i] {
          case Done => return Cancelled;
          case Tick(err) =>
            if !holding { return Crashed; }
            if err == TimedOut {
              if retryCh { return Blocked; }
              retryCh := true;
            } else if err == Broken {
              return RefreshFailed;
            } else {
              retryCnt := 0;
            }
          case Retry(err) =>
            if !holding { return Crashed; }
            retryCh := false;
            retryCnt := retryCnt + 1;
            if err == TimedOut {
              if retryCnt > MAX_RETRIES { return RefreshFailed; }
              retryCh := true;
            } else if err == Broken {
              return RefreshFailed;
            } else {
              retryCnt := 0;
            }
        }
        i := i + 1;
      }
      v := Looping(Ctl(retryCnt, retryCh));
    }

    /** One round of the outer loop; `more` tells whether it goes on. */
    method RunRound(r: Round) returns (more: bool)
      requires Selectable(FRESH, r.inputs)
      modifies this
      ensures signals == old(signals) + RoundSignals(r).0 && more == RoundSignals(r).1
      ensures holding == HoldsAfter(old(holding), [r])
    {
      assert [r][1..] == [];
      if r.applied == ApplyCancelled { return false; }
      holding := r.applied == Acquired;
      signals := signals + [Start];
      var v := AutoRefresh(holding, r.inputs);
      if v != RefreshFailed && v != Cancelled { return false; }
      signals := signals + [Stop];
      if !holding { return false; }  // unlocking a lock that is not there crashes the process
      signals := signals + [Unlock];
      holding := false;
      more := v != Cancelled;
    }

    method Run(rounds: seq<Round>)
      requires forall r :: r in rounds ==> Selectable(FRESH, r.inputs)
      modifies this
      ensures signals == old(signals) + Signals(rounds)
      ensures holding == HoldsAfter(old(holding), rounds)
    {
      var i := 0;
      while i < |rounds|
        invariant 0 <= i <= |rounds|
        invariant signals + Signals(rounds[i..]) == old(signals) + Signals(rounds)
        invariant HoldsAfter(holding, rounds[i..]) == HoldsAfter(old(holding), rounds)
      {
        NextRound(holding, rounds[i], rounds[i + 1..]);
        assert rounds[i..] == [rounds[i]] + rounds[i + 1..];
        var more := RunRound(rounds[i]);
        if !more { return; }
        i := i + 1;
      }
    }
  }

  lemma NextRound(held: bool, r: Round, rest: seq<Round>)
    requires Selectable(FRESH, r.inputs) && forall q :: q in rest ==> Selectable(FRESH, q.inputs)
    ensures Signals([r] + rest) == RoundSignals(r).0 + if RoundSignals(r).1 then Signals(rest) else []
    ensures HoldsAfter(held, [r] + rest)
         == if RoundSignals(r).1 then HoldsAfter(HoldsAfter(held, [r]), rest) else HoldsAfter(held, [r])
  {
    assert ([r] + rest)[1..] == rest && [r][1..] == [];
  }

  // ---------------------------------------------------------------- what the loops keep

  /** Start, Stop, Unlock, Start, Stop, Unlock, ... */
  predicate InTurn(s: seq<Signal>) {
    forall i :: 0 <= i < |s| ==> s[i] == if i % 3 == 0 then Start else if i % 3 == 1 then Stop else Unlock
  }

  lemma {:induction false} TurnsConcatenate(s: seq<Signal>, t: seq<Signal>)
    requires InTurn(s) && InTurn(t) && |s| % 3 == 0
    ensures InTurn(s + t)
  {
    forall i | 0 <= i < |s + t|
      ensures (s + t)[i] == if i % 3 == 0 then Start else if i % 3 == 1 then Stop else Unlock
    {
      if i >= |s| {
        assert (s + t)[i] == t[i - |s|] && (i - |s|) % 3 == i % 3;
      }
    }
  }

  /** Every run announces start and stop in turn, and gives the lock up only after announcing the stop. */
  lemma {:induction false} SignalsInTurn(rounds: seq<Round>)
    requires forall r :: r in rounds ==> Selectable(FRESH, r.inputs)
    ensures InTurn(Signals(rounds))
    decreases |rounds|
  {
    if rounds != [] {
      var (now, more) := RoundSignals(rounds[0]);
      assert InTurn(now);
      if more {
        SignalsInTurn(rounds[1..]);
        TurnsConcatenate(now, Signals(rounds[1..]));
      }
    }
  }

  // ---------------------------------------------------------------- the loop's state from the history

  predicate TimesOut(x: Input) { !x.Done? && x.answer.TimedOut? }

  /** Some refresh timed out and no retry has been taken since. */
  predicate Queued(past: seq<Input>) {
    exists j :: 0 <= j < |past| && TimesOut(past[j]) && forall m :: j < m < |past| ==> !past[m].Retry?
  }

  /** The retries taken since a refresh last succeeded. */
  function RetriesSince(past: seq<Input>): nat {
    if past == [] then 0 else
    var last := past[|past| - 1];
    if !last.Done? && last.answer.Refreshed? then 0
    else RetriesSince(past[..|past| - 1]) + if last.Retry? then 1 else 0
  }

  /** After this past the input neither ends the loop nor blocks it. */
  predicate Continues(past: seq<Input>, x: Input) {
    match x
    case Done => false
    case Tick(answer) => answer.Refreshed? || (answer.TimedOut? && !Queued(past))
    case Retry(answer) => answer.Refreshed? || (answer.TimedOut? && RetriesSince(past) < 3)
  }

  predicate Lasts(inputs: seq<Input>) {
    forall i :: 0 <= i < |inputs| ==> Continues(inputs[..i], inputs[i])
  }

  /** Taking one more input: from where the loop is, if it still loops. */
  lemma {:induction false} OneMoreInput(c: Ctl, past: seq<Input>, x: Input)
    requires Selectable(c, past + [x])
    ensures Selectable(c, past)
    ensures var v := AutoRefreshing(c, past);
            if v.Looping? then Selectable(v.ctl, [x]) && AutoRefreshing(c, past + [x]) == AutoRefreshing(v.ctl, [x])
            else AutoRefreshing(c, past + [x]) == v
    decreases |past|
  {
    if past == [] {
      assert past + [x] == [x];
    } else {
      assert (past + [x])[1..] == past[1..] + [x];
      match past[0]
      case Done =>
      case Tick(r) => if TickAnswered(c, r).Loop? { OneMoreInput(TickAnswered(c, r).ctl, past[1..], x); }
      case Retry(r) =>
        if RetryAnswered(RetryTaken(c), r).Loop? { OneMoreInput(RetryAnswered(RetryTaken(c), r).ctl, past[1..], x); }
    }
  }

  lemma QueuedStep(past: seq<Input>, x: Input)
    ensures Queued(past + [x]) <==> TimesOut(x) || (Queued(past) && !x.Retry?)
  {
    var all := past + [x];
    if TimesOut(x) {
      assert TimesOut(all[|past|]);
    } else {
      if Queued(past) && !x.Retry? {
        var j :| 0 <= j < |past| && TimesOut(past[j]) && forall m :: j < m < |past| ==> !past[m].Retry?;
        assert TimesOut(all[j]);
      }
      if Queued(all) {
        var j :| 0 <= j < |all| && TimesOut(all[j]) && forall m :: j < m < |all| ==> !all[m].Retry?;
        assert TimesOut(past[j]) && !all[|past|].Retry?;
        assert forall m :: j < m < |past| ==> past[m] == all[m];
      }
    }
  }

  lemma LastsStep(past: seq<Input>, x: Input)
    ensures Lasts(past + [x]) <==> Lasts(past) && Continues(past, x)
  {
    var all := past + [x];
    assert all[..|past|] == past && all[|past|] == x;
    assert forall i :: 0 <= i < |past| ==> all[..i] == past[..i] && all[i] == past[i];
    if Lasts(all) {
      assert Continues(all[..|past|], all[|past|]);
      forall i | 0 <= i < |past| ensures Continues(past[..i], past[i]) { assert Continues(all[..i], all[i]); }
    }
  }

  lemma ContinuesExactly(past: seq<Input>, x: Input)
    requires Selectable(Ctl(RetriesSince(past), Queued(past)), [x])
    ensures var v := AutoRefreshing(Ctl(RetriesSince(past), Queued(past)), [x]);
            && (v.Looping? <==> Continues(past, x))
            && (v.Looping? ==> v.ctl == Ctl(RetriesSince(past + [x]), Queued(past + [x])))
            && (v.Blocked? <==> x == Tick(TimedOut) && Queued(past))
  {
    QueuedStep(past, x);
    assert (past + [x])[..|past|] == past;
    assert [x][1..] == [];
  }

  /**
   * The loop still loops exactly when no input has ended or blocked it; then its counter is the
   * number of retries since the last success, and a token is queued exactly when some refresh has
   * timed out with no retry since.
   */
  lemma {:induction false} LoopsExactly(inputs: seq<Input>)
    requires Selectable(FRESH, inputs)
    ensures var v := AutoRefreshing(FRESH, inputs);
            && (v.Looping? <==> Lasts(inputs))
            && (v.Looping? ==> v.ctl == Ctl(RetriesSince(inputs), Queued(inputs)))
    decreases |inputs|
  {
    if inputs != [] {
      var past, x := inputs[..|inputs| - 1], inputs[|inputs| - 1];
      assert inputs == past + [x];
      OneMoreInput(FRESH, past, x);
      LoopsExactly(past);
      LastsStep(past, x);
      if Lasts(past) { ContinuesExactly(past, x); }
    }
  }

  lemma {:induction false} SelectableLast(c: Ctl, past: seq<Input>, x: Input)
    requires Selectable(c, past)
    ensures var v := AutoRefreshing(c, past);
            Selectable(c, past + [x]) <==> (v.Looping? ==> Selectable(v.ctl, [x]))
    decreases |past|
  {
    if past == [] {
      assert past + [x] == [x];
    } else {
      assert (past + [x])[1..] == past[1..] + [x];
      match past[0]
      case Done =>
      case Tick(r) => if TickAnswered(c, r).Loop? { SelectableLast(TickAnswered(c, r).ctl, past[1..], x); }
      case Retry(r) =>
        if RetryAnswered(RetryTaken(c), r).Loop? { SelectableLast(RetryAnswered(RetryTaken(c), r).ctl, past[1..], x); }
    }
  }

  /** The select statement may take input i: a retry only with a token queued, anything else at any time. */
  predicate MayTake(inputs: seq<Input>, i: nat)
    requires i < |inputs|
  {
    Lasts(inputs[..i]) && inputs[i].Retry? ==> Queued(inputs[..i])
  }

  predicate AllTaken(inputs: seq<Input>) {
    forall i :: 0 <= i < |inputs| ==> MayTake(inputs, i)
  }

  lemma AllTakenStep(past: seq<Input>, x: Input)
    ensures AllTaken(past + [x]) <==> AllTaken(past) && (Lasts(past) && x.Retry? ==> Queued(past))
  {
    var all := past + [x];
    assert all[..|past|] == past && all[|past|] == x;
    forall i | 0 <= i < |past| ensures MayTake(all, i) <==> MayTake(past, i) {
      assert past[..i] == all[..i];
    }
    assert MayTake(all, |past|) <==> (Lasts(past) && x.Retry? ==> Queued(past));
  }

  lemma SelectableOne(c: Ctl, x: Input)
    ensures Selectable(c, [x]) <==> (x.Retry? ==> c.token)
  {
    assert [x][1..] == [];
  }

  /** The orders of inputs these results are about are exactly those the select statement allows. */
  lemma {:induction false} SelectableExactly(inputs: seq<Input>)
    ensures Selectable(FRESH, inputs) <==> AllTaken(inputs)
    decreases |inputs|
  {
    if inputs != [] {
      var past, x := inputs[..|inputs| - 1], inputs[|inputs| - 1];
      assert inputs == past + [x];
      SelectableExactly(past);
      AllTakenStep(past, x);
      SelectablePast(FRESH, past, x);
      if Selectable(FRESH, past) {
        SelectableLast(FRESH, past, x);
        LoopsExactly(past);
        if Lasts(past) { SelectableOne(Ctl(RetriesSince(past), Queued(past)), x); }
      }
    }
  }

  lemma {:induction false} SelectablePast(c: Ctl, past: seq<Input>, x: Input)
    ensures Selectable(c, past + [x]) ==> Selectable(c, past)
  {
    if Selectable(c, past + [x]) { OneMoreInput(c, past, x); }
  }

  lemma {:induction false} EndedStaysEnded(past: seq<Input>, more: seq<Input>)
    requires Selectable(FRESH, past + more)
    ensures Selectable(FRESH, past)
    ensures var v := AutoRefreshing(FRESH, past);
            !v.Looping? ==> AutoRefreshing(FRESH, past + more) == v
    decreases |more|
  {
    if more == [] {
      assert past + more == past;
    } else {
      var front, x := more[..|more| - 1], more[|more| - 1];
      assert past + more == (past + front) + [x];
      OneMoreInput(FRESH, past + front, x);
      EndedStaysEnded(past, front);
    }
  }

  /** Input i is the first one that ends or blocks the loop. */
  predicate EndsAt(inputs: seq<Input>, i: nat) {
    i < |inputs| && Lasts(inputs[..i]) && !Continues(inputs[..i], inputs[i])
  }

  /** The first input that does not continue the loop decides what becomes of it. */
  lemma VerdictExactly(inputs: seq<Input>, i: nat)
    requires Selectable(FRESH, inputs) && EndsAt(inputs, i)
    ensures AutoRefreshing(FRESH, inputs)
         == if inputs[i] == Done then Cancelled else if inputs[i] == Tick(TimedOut) then Blocked else RefreshFailed
  {
    var past, x := inputs[..i], inputs[i];
    assert inputs == (past + [x]) + inputs[i + 1..];
    EndedStaysEnded(past + [x], inputs[i + 1..]);
    OneMoreInput(FRESH, past, x);
    LoopsExactly(past);
    ContinuesExactly(past, x);
    LastsStep(past, x);
    LoopsExactly(past + [x]);
    OneInputVerdict(Ctl(RetriesSince(past), Queued(past)), x);
  }

  lemma OneInputVerdict(c: Ctl, x: Input)
    requires Selectable(c, [x]) && !AutoRefreshing(c, [x]).Looping?
    ensures AutoRefreshing(c, [x])
         == if x == Done then Cancelled else if x == Tick(TimedOut) then Blocked else RefreshFailed
  {
    assert [x][1..] == [];
  }

  /** A loop that no input ends is still looping. */
  lemma {:induction false} EndsOrLasts(inputs: seq<Input>)
    ensures Lasts(inputs) || exists i: nat :: EndsAt(inputs, i)
    decreases |inputs|
  {
    if inputs != [] {
      var n := |inputs| - 1;
      assert inputs == inputs[..n] + [inputs[n]];
      EndsOrLasts(inputs[..n]);
      LastsStep(inputs[..n], inputs[n]);
      if i: nat :| EndsAt(inputs[..n], i) {
        assert inputs[..n][..i] == inputs[..i];
        assert EndsAt(inputs, i);
      } else if !Continues(inputs[..n], inputs[n]) {
        assert EndsAt(inputs, n);
      }
    }
  }

  // ---------------------------------------------------------------- the outer loop from the histories

  /** The round gets the lock and loses it to a failed refresh: an input other than the end and a blocking tick. */
  predicate GoesOn(r: Round) {
    r.applied == Acquired
    && exists i :: 0 <= i < |r.inputs| && EndsAt(r.inputs, i) && r.inputs[i] != Done && r.inputs[i] != Tick(TimedOut)
  }

  /** The round gets the lock and is ended by the cancellation. */
  predicate IsCancelled(r: Round) {
    r.applied == Acquired && exists i :: 0 <= i < |r.inputs| && EndsAt(r.inputs, i) && r.inputs[i] == Done
  }

  /** How many signals a last round gives. */
  function LastSignals(r: Round): nat {
    if r.applied == ApplyCancelled then 0
    else if r.applied == Acquired then (if IsCancelled(r) then 3 else 1)
    else if r.inputs != [] && r.inputs[0] == Done then 2 else 1
  }

  lemma RoundExactly(r: Round)
    requires Selectable(FRESH, r.inputs)
    ensures RoundSignals(r).1 <==> GoesOn(r)
    ensures |RoundSignals(r).0| == if GoesOn(r) then 3 else LastSignals(r)
  {
    if r.applied == Acquired {
      EndsOrLasts(r.inputs);
      LoopsExactly(r.inputs);
      if i: nat :| EndsAt(r.inputs, i) {
        forall j: nat | EndsAt(r.inputs, j) ensures j == i {
          EndsOnce(r.inputs, i, j);
        }
        VerdictExactly(r.inputs, i);
      }
    }
  }

  lemma LastsSoFar(inputs: seq<Input>, i: nat, j: nat)
    requires i < j <= |inputs| && Lasts(inputs[..j])
    ensures Continues(inputs[..i], inputs[i])
  {
    assert inputs[..j][..i] == inputs[..i] && inputs[..j][i] == inputs[i];
  }

  lemma EndsOnce(inputs: seq<Input>, i: nat, j: nat)
    requires EndsAt(inputs, i) && EndsAt(inputs, j)
    ensures i == j
  {
    if i < j { LastsSoFar(inputs, i, j); } else if j < i { LastsSoFar(inputs, j, i); }
  }

  /**
   * The controller applies again after a failed refresh and after nothing else: three signals for each
   * round that goes on, and then those of the first round that does not. (SignalsInTurn says which.)
   */
  lemma {:induction false} SignalsExactly(rounds: seq<Round>, k: nat)
    requires forall r :: r in rounds ==> Selectable(FRESH, r.inputs)
    requires k <= |rounds| && (forall j :: 0 <= j < k ==> GoesOn(rounds[j])) && (k < |rounds| ==> !GoesOn(rounds[k]))
    ensures |Signals(rounds)| == 3 * k + if k < |rounds| then LastSignals(rounds[k]) else 0
    ensures InTurn(Signals(rounds))
    decreases |rounds|
  {
    SignalsInTurn(rounds);
    if rounds != [] {
      RoundExactly(rounds[0]);
      if k > 0 { SignalsExactly(rounds[1..], k - 1); }
    }
  }

  /** The lock is held on exactly in a round that got it and was not cancelled, failed or followed by another. */
  lemma {:induction false} HoldsExactly(held: bool, rounds: seq<Round>, k: nat)
    requires forall r :: r in rounds ==> Selectable(FRESH, r.inputs)
    requires k < |rounds| && (forall j :: 0 <= j < k ==> GoesOn(rounds[j])) && !GoesOn(rounds[k])
    ensures HoldsAfter(held, rounds)
         == match rounds[k].applied
            case ApplyCancelled => held && k == 0
            case ApplyFailed => false
            case Acquired => !IsCancelled(rounds[k])
    decreases |rounds|
  {
    RoundExactly(rounds[0]);
    if k > 0 {
      HoldsExactly(false, rounds[1..], k - 1);
    } else if rounds[0].applied == Acquired {
      CancelledExactly(rounds[0]);
    }
  }

  lemma CancelledExactly(r: Round)
    requires Selectable(FRESH, r.inputs) && r.applied == Acquired
    ensures AutoRefreshing(FRESH, r.inputs) == Cancelled <==> IsCancelled(r)
  {
    EndsOrLasts(r.inputs);
    LoopsExactly(r.inputs);
    if i: nat :| EndsAt(r.inputs, i) {
      forall j: nat | EndsAt(r.inputs, j) ensures j == i {
        EndsOnce(r.inputs, i, j);
      }
      VerdictExactly(r.inputs, i);
    }
  }

  // ---------------------------------------------------------------- when the loop blocks

  /** The loop is still looping after i inputs, and blocks on the next one. */
  predicate BlocksAt(inputs: seq<Input>, i: nat) {
    i < |inputs| && Lasts(inputs[..i]) && inputs[i] == Tick(TimedOut) && Queued(inputs[..i])
  }

  /**
   * The loop blocks for ever exactly when, still looping, it has a tick's refresh time out although
   * an earlier refresh timed out and no retry has been taken since.
   */
  lemma {:induction false} BlocksExactly(inputs: seq<Input>)
    requires Selectable(FRESH, inputs)
    ensures AutoRefreshing(FRESH, inputs) == Blocked <==> exists i :: BlocksAt(inputs, i)
    decreases |inputs|
  {
    if inputs != [] {
      var n := |inputs| - 1;
      var past, x := inputs[..n], inputs[n];
      assert inputs == past + [x];
      OneMoreInput(FRESH, past, x);
      LoopsExactly(past);
      BlocksExactly(past);
      forall i: nat ensures BlocksAt(past, i) <==> BlocksAt(inputs, i) && i < n {
        if i < n { assert inputs[..i] == past[..i]; }
      }
      if Lasts(past) {
        ContinuesExactly(past, x);
        assert BlocksAt(inputs, n) <==> x == Tick(TimedOut) && Queued(past);
        forall i: nat ensures !BlocksAt(past, i) {}
      } else {
        assert !BlocksAt(inputs, n);
      }
    }
  }

  /** In any order of ticks and retries, at most three retries are counted while the loop keeps looping. */
  lemma {:induction false} RetriesBounded(c: Ctl, inputs: seq<Input>)
    requires Selectable(c, inputs) && c.retryCnt <= 3
    ensures var v := AutoRefreshing(c, inputs);
            v.Looping? ==> v.ctl.retryCnt <= 3
    decreases |inputs|
  {
    if inputs != [] {
      match inputs[0]
      case Done =>
      case Tick(r) => if TickAnswered(c, r).Loop? { RetriesBounded(TickAnswered(c, r).ctl, inputs[1..]); }
      case Retry(r) =>
        if RetryAnswered(RetryTaken(c), r).Loop? { RetriesBounded(RetryAnswered(RetryTaken(c), r).ctl, inputs[1..]); }
    }
  }
}
