/** Hop failures: which frames of a relay, and which replies, are lost. */
module Fates {

  /** What becomes of a hop: the frame arrives and is answered, the frame never reaches the worker, or
      the worker runs it and the reply never reaches the sender. */
  datatype Fate = Answered | LostBefore | LostAfter

  /** The fate of hop `k`; a schedule says nothing about the hops that are answered behind its end. */
  function FateAt(fates: seq<Fate>, k: nat): Fate
  {
    if k < |fates| then fates[k] else Answered
  }

  /** The first hop from `k` on whose sender misses its reply, or `n` if none of the `n` does. */
  function FirstLost(fates: seq<Fate>, k: nat, n: nat): (f: nat)
    requires k <= n
    ensures k <= f <= n && (f < n ==> FateAt(fates, f) != Answered)
    ensures forall j :: k <= j < f ==> FateAt(fates, j) == Answered
    decreases n - k
  {
    if k == n || FateAt(fates, k) != Answered then k else FirstLost(fates, k + 1, n)
  }

  /** The first hop from `k` on whose worker never sees the frame, or `n`. */
  function FirstUnseen(fates: seq<Fate>, k: nat, n: nat): (b: nat)
    requires k <= n
    ensures k <= b <= n && (b < n ==> FateAt(fates, b) == LostBefore)
    ensures forall j :: k <= j < b ==> FateAt(fates, j) != LostBefore
    decreases n - k
  {
    if k == n || FateAt(fates, k) == LostBefore then k else FirstUnseen(fates, k + 1, n)
  }

  /** A hop that is answered is not where a relay fails, and one whose reply alone is lost is not where
      it stops. */
  lemma ScheduleStep(fates: seq<Fate>, k: nat, n: nat)
    requires k < n
    ensures FirstLost(fates, k, n) == if FateAt(fates, k) == Answered then FirstLost(fates, k + 1, n) else k
    ensures FirstUnseen(fates, k, n) == if FateAt(fates, k) == LostBefore then k else FirstUnseen(fates, k + 1, n)
  {
  }

  /** Where every reply arrives, every worker saw the frame. */
  lemma AnsweredIsSeen(fates: seq<Fate>, k: nat, n: nat)
    requires k <= n && FirstLost(fates, k, n) == n
    ensures FirstUnseen(fates, k, n) == n
  {
    if FirstUnseen(fates, k, n) < n {
      assert false;
    }
  }

  /** Every worker from `k` up to worker `j` sees the frame. */
  predicate Seen(fates: seq<Fate>, k: nat, n: nat, j: nat)
    requires k <= n
  {
    j < FirstUnseen(fates, k, n)
  }

  /** Whether worker `k` runs the frame.  A star sends nothing behind the hop it misses a reply from;
      a chain is past the sender's reach, and runs on to the first worker that never sees it. */
  predicate Runs(chain: bool, fates: seq<Fate>, n: nat, k: nat)
    requires k < n
  {
    if chain then Seen(fates, 0, n, k)
    else k < FirstLost(fates, 0, n) || (k == FirstLost(fates, 0, n) && FateAt(fates, k) == LostAfter)
  }
}
