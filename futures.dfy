/**
 * The sequential select combinators: poll the first future until it is ready;
 * keep its output if it counts (Ok, or Some), otherwise switch for good to the
 * second future. Each inner future is scripted: it answers Pending a fixed number
 * of times and then Ready with its output, and counts how often it was polled.
 */
module Futures {
  import opened Results

  datatype Poll<T> = Pending | Ready(value: T)

  datatype SelectSeqState = PollFirst | PollSecond

  class ScriptedFuture<T> {
    var pendingLeft: nat
    const output: T
    var polls: nat

    constructor (pending: nat, output: T)
      ensures pendingLeft == pending && this.output == output && polls == 0
    {
      pendingLeft := pending;
      this.output := output;
      polls := 0;
    }

    /** What the next poll answers. */
    ghost function Next(): Poll<T>
      reads this
    {
      if pendingLeft > 0 then Pending else Ready(output)
    }

    method Poll() returns (p: Poll<T>)
      modifies this
      ensures p == old(Next())
      ensures polls == old(polls) + 1
      ensures pendingLeft == if old(pendingLeft) > 0 then old(pendingLeft) - 1 else 0
    {
      polls := polls + 1;
      if pendingLeft > 0 {
        pendingLeft := pendingLeft - 1;
        p := Pending;
      } else {
        p := Ready(output);
      }
    }
  }

  /** `SelectSeqOk`: the first future's Ok, otherwise whatever the second future yields. */
  class SelectSeqOk<T, E> {
    const fut1: ScriptedFuture<Result<T, E>>
    const fut2: ScriptedFuture<Result<T, E>>
    var state: SelectSeqState
    /** How often `fut2` had been polled when the combinator was built. */
    ghost const fut2PollsAtStart: nat

    /** The output the combinator completes with. */
    ghost function Outcome(): Result<T, E>
      reads this
    {
      if fut1.output.Ok? then fut1.output else fut2.output
    }

    /** `fut2` is untouched while the first future runs, and the switch happens only after `fut1` failed. */
    ghost predicate Valid()
      reads this, fut1, fut2
    {
      && fut1 != fut2
      && (state == PollFirst ==> fut2.polls == fut2PollsAtStart)
      && (state == PollSecond ==> fut1.pendingLeft == 0 && fut1.output.Err?)
    }

    /** How many more polls answer Pending before the combinator is ready. */
    ghost function Remaining(): nat
      reads this, fut1, fut2
    {
      if state == PollSecond then fut2.pendingLeft
      else if fut1.output.Ok? then fut1.pendingLeft
      else fut1.pendingLeft + fut2.pendingLeft
    }

    /** `select_seq_ok`. */
    constructor (fut1: ScriptedFuture<Result<T, E>>, fut2: ScriptedFuture<Result<T, E>>)
      requires fut1 != fut2
      ensures this.fut1 == fut1 && this.fut2 == fut2
      ensures state == PollFirst && Valid()
    {
      this.fut1 := fut1;
      this.fut2 := fut2;
      state := PollFirst;
      fut2PollsAtStart := fut2.polls;
    }

    method Poll() returns (p: Poll<Result<T, E>>)
      requires Valid()
      modifies this, fut1, fut2
      ensures Valid()
      // fut1 pending: Pending, nothing else moves
      ensures old(state) == PollFirst && old(fut1.pendingLeft) > 0 ==>
        p.Pending? && state == PollFirst && fut1.polls == old(fut1.polls) + 1 && unchanged(fut2)
      // fut1 ready with Ok: that is the output, fut2 untouched
      ensures old(state) == PollFirst && old(fut1.pendingLeft) == 0 && fut1.output.Ok? ==>
        p == Ready(fut1.output) && state == PollFirst && unchanged(fut2)
      // fut1 ready with Err: switch, and the same call answers with fut2's poll
      ensures old(state) == PollFirst && old(fut1.pendingLeft) == 0 && fut1.output.Err? ==>
        state == PollSecond && p == old(fut2.Next()) && fut1.polls == old(fut1.polls) + 1 && fut2.polls == old(fut2.polls) + 1
      // second phase: only fut2 is polled, and the state never goes back
      ensures old(state) == PollSecond ==>
        state == PollSecond && p == old(fut2.Next()) && unchanged(fut1) && fut2.polls == old(fut2.polls) + 1
      // the progress of each inner future that was polled
      ensures old(state) == PollFirst ==>
        fut1.polls == old(fut1.polls) + 1 && fut1.pendingLeft == if old(fut1.pendingLeft) > 0 then old(fut1.pendingLeft) - 1 else 0
      ensures state == PollSecond ==>
        fut2.pendingLeft == if old(fut2.pendingLeft) > 0 then old(fut2.pendingLeft) - 1 else 0
      ensures p.Ready? ==> p.value == Outcome()
      // every Pending brings completion one poll closer; Ready comes when none are left
      ensures p.Pending? ==> Remaining() == old(Remaining()) - 1
      ensures p.Ready? ==> old(Remaining()) == 0 && Remaining() == 0
    {
      match state {
        case PollFirst =>
          var r := fut1.Poll();
          if r.Pending? {
            p := Pending;
          } else if r.value.Ok? {
            p := r;
          } else {
            state := PollSecond;
            p := fut2.Poll();
          }
        case PollSecond =>
          p := fut2.Poll();
      }
    }

    /**
     * Polls until ready. A fresh combinator answers Pending once per pending poll of the
     * first future and, when that future's output is `Err`, once per pending poll of the
     * second; then it is ready with the first future's `Ok`, or else the second future's output.
     */
    method RunToCompletion() returns (pendings: nat, out: Result<T, E>)
      requires Valid()
      modifies this, fut1, fut2
      ensures Valid()
      ensures out == Outcome()
      ensures pendings == old(Remaining())
      ensures old(state) == PollFirst ==>
        pendings == old(fut1.pendingLeft) + if fut1.output.Ok? then 0 else old(fut2.pendingLeft)
    {
      pendings := 0;
      var p := Poll();
      while p.Pending?
        invariant Valid()
        invariant p.Pending? ==> pendings + 1 + Remaining() == old(Remaining())
        invariant p.Ready? ==> pendings == old(Remaining()) && p.value == Outcome()
        decreases Remaining() + if p.Pending? then 1 else 0
      {
        pendings := pendings + 1;
        p := Poll();
      }
      out := p.value;
    }
  }

  /** `SelectSeqSome`: the first future's Some, otherwise whatever the second future yields. */
  class SelectSeqSome<T> {
    const fut1: ScriptedFuture<Option<T>>
    const fut2: ScriptedFuture<Option<T>>
    var state: SelectSeqState
    /** How often `fut2` had been polled when the combinator was built. */
    ghost const fut2PollsAtStart: nat

    /** The output the combinator completes with. */
    ghost function Outcome(): Option<T>
      reads this
    {
      if fut1.output.Some? then fut1.output else fut2.output
    }

    /** `fut2` is untouched while the first future runs, and the switch happens only after `fut1` gave None. */
    ghost predicate Valid()
      reads this, fut1, fut2
    {
      && fut1 != fut2
      && (state == PollFirst ==> fut2.polls == fut2PollsAtStart)
      && (state == PollSecond ==> fut1.pendingLeft == 0 && fut1.output.None?)
    }

    /** How many more polls answer Pending before the combinator is ready. */
    ghost function Remaining(): nat
      reads this, fut1, fut2
    {
      if state == PollSecond then fut2.pendingLeft
      else if fut1.output.Some? then fut1.pendingLeft
      else fut1.pendingLeft + fut2.pendingLeft
    }

    /** `select_seq_some`. */
    constructor (fut1: ScriptedFuture<Option<T>>, fut2: ScriptedFuture<Option<T>>)
      requires fut1 != fut2
      ensures this.fut1 == fut1 && this.fut2 == fut2
      ensures state == PollFirst && Valid()
    {
      this.fut1 := fut1;
      this.fut2 := fut2;
      state := PollFirst;
      fut2PollsAtStart := fut2.polls;
    }

    method Poll() returns (p: Poll<Option<T>>)
      requires Valid()
      modifies this, fut1, fut2
      ensures Valid()
      // fut1 pending: Pending, nothing else moves
      ensures old(state) == PollFirst && old(fut1.pendingLeft) > 0 ==>
        p.Pending? && state == PollFirst && fut1.polls == old(fut1.polls) + 1 && unchanged(fut2)
      // fut1 ready with Some: that is the output, fut2 untouched
      ensures old(state) == PollFirst && old(fut1.pendingLeft) == 0 && fut1.output.Some? ==>
        p == Ready(fut1.output) && state == PollFirst && unchanged(fut2)
      // fut1 ready with None: switch, and the same call answers with fut2's poll
      ensures old(state) == PollFirst && old(fut1.pendingLeft) == 0 && fut1.output.None? ==>
        state == PollSecond && p == old(fut2.Next()) && fut1.polls == old(fut1.polls) + 1 && fut2.polls == old(fut2.polls) + 1
      // second phase: only fut2 is polled, and the state never goes back
      ensures old(state) == PollSecond ==>
        state == PollSecond && p == old(fut2.Next()) && unchanged(fut1) && fut2.polls == old(fut2.polls) + 1
      // the progress of each inner future that was polled
      ensures old(state) == PollFirst ==>
        fut1.polls == old(fut1.polls) + 1 && fut1.pendingLeft == if old(fut1.pendingLeft) > 0 then old(fut1.pendingLeft) - 1 else 0
      ensures state == PollSecond ==>
        fut2.pendingLeft == if old(fut2.pendingLeft) > 0 then old(fut2.pendingLeft) - 1 else 0
      ensures p.Ready? ==> p.value == Outcome()
      // every Pending brings completion one poll closer; Ready comes when none are left
      ensures p.Pending? ==> Remaining() == old(Remaining()) - 1
      ensures p.Ready? ==> old(Remaining()) == 0 && Remaining() == 0
    {
      match state {
        case PollFirst =>
          var r := fut1.Poll();
          if r.Pending? {
            p := Pending;
          } else if r.value.Some? {
            p := r;
          } else {
            state := PollSecond;
            p := fut2.Poll();
          }
        case PollSecond =>
          p := fut2.Poll();
      }
    }

    /**
     * Polls until ready. A fresh combinator answers Pending once per pending poll of the
     * first future and, when that future's output is `None`, once per pending poll of the
     * second; then it is ready with the first future's `Some`, or else the second future's output.
     */
    method RunToCompletion() returns (pendings: nat, out: Option<T>)
      requires Valid()
      modifies this, fut1, fut2
      ensures Valid()
      ensures out == Outcome()
      ensures pendings == old(Remaining())
      ensures old(state) == PollFirst ==>
        pendings == old(fut1.pendingLeft) + if fut1.output.Some? then 0 else old(fut2.pendingLeft)
    {
      pendings := 0;
      var p := Poll();
      while p.Pending?
        invariant Valid()
        invariant p.Pending? ==> pendings + 1 + Remaining() == old(Remaining())
        invariant p.Ready? ==> pendings == old(Remaining()) && p.value == Outcome()
        decreases Remaining() + if p.Pending? then 1 else 0
      {
        pendings := pendings + 1;
        p := Poll();
      }
      out := p.value;
    }
  }
}
