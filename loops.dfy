/**
 * The shape every dispatch loop of the core shares: one step per item, in
 * order, until a step leaves the loops (a `return` or a `throw`).
 */
module Loops {
  import opened Seqs

  /** The loops over `items` from state `s`; once `stopped` holds, the remaining items change nothing. */
  function Run<S, T>(s: S, items: seq<T>, step: (S, T) -> S, stopped: S -> bool): S
  {
    if items == [] then s
    else
      var prev := Run(s, DropLast(items), step, stopped);
      if stopped(prev) then prev else step(prev, Last(items))
  }

  /** A stopped state is final. */
  lemma {:induction false} StaysStopped<S, T>(s: S, items: seq<T>, step: (S, T) -> S, stopped: S -> bool)
    requires stopped(s)
    ensures Run(s, items, step, stopped) == s
  {
    if items != [] {
      StaysStopped(s, DropLast(items), step, stopped);
    }
  }

  /** The loops over `xs + ys` are the loops over `xs`, then over `ys`. */
  lemma {:induction false} RunAppend<S, T>(s: S, xs: seq<T>, ys: seq<T>, step: (S, T) -> S, stopped: S -> bool)
    ensures Run(s, xs + ys, step, stopped) == Run(Run(s, xs, step, stopped), ys, step, stopped)
  {
    if ys == [] {
      assert xs + ys == xs;
    } else {
      LastSplit(ys);
      assert xs + ys == (xs + DropLast(ys)) + [Last(ys)];
      DropLastAppend(xs + DropLast(ys), Last(ys));
      RunAppend(s, xs, DropLast(ys), step, stopped);
    }
  }

  /** Once the loops have stopped after `done`, the items after it change nothing. */
  lemma StopsAt<S, T>(s: S, done: seq<T>, rest: seq<T>, step: (S, T) -> S, stopped: S -> bool)
    requires stopped(Run(s, done, step, stopped))
    ensures Run(s, done + rest, step, stopped) == Run(s, done, step, stopped)
  {
    RunAppend(s, done, rest, step, stopped);
    StaysStopped(Run(s, done, step, stopped), rest, step, stopped);
  }

  /**
   * One iteration: item `t` is the next step after `done`, and if that step
   * stops the loops, the items after it change nothing.
   */
  lemma StepOrStop<S, T>(s: S, done: seq<T>, t: T, rest: seq<T>, step: (S, T) -> S, stopped: S -> bool)
    requires !stopped(Run(s, done, step, stopped))
    ensures Run(s, done + [t], step, stopped) == step(Run(s, done, step, stopped), t)
    ensures stopped(Run(s, done + [t], step, stopped)) ==>
              Run(s, done + [t] + rest, step, stopped) == Run(s, done + [t], step, stopped)
  {
    DropLastAppend(done, t);
    if stopped(Run(s, done + [t], step, stopped)) {
      StopsAt(s, done + [t], rest, step, stopped);
    }
  }
}
