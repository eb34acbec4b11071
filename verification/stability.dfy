/** The debounce between the raw per-frame winner and the confirmed colour:
    the confirmed colour follows a candidate only after the candidate has
    repeated more than five times in a row. */
module Stability {

  /** The confirmed colour changes once the streak of repeats exceeds this. */
  const StreakLimit := 5

  /** `last_stable_color`, `stable_counter` and `current_color`. */
  datatype Filter = Filter(last: string, streak: nat, confirmed: string)

  const Initial := Filter("", 0, "")

  /** One active frame with raw winner `candidate` (possibly empty). */
  function Step(f: Filter, candidate: string): (r: Filter)
    ensures r.last == candidate
    ensures r.streak == if candidate == f.last then f.streak + 1 else 0
    ensures r.confirmed != f.confirmed ==> r.confirmed == candidate && r.streak > StreakLimit
    ensures r.streak > StreakLimit ==> r.confirmed == candidate
    ensures candidate != f.last ==> r.confirmed == f.confirmed
  {
    var streak := if candidate == f.last then f.streak + 1 else 0;
    Filter(candidate, streak, if streak > StreakLimit then candidate else f.confirmed)
  }

  /** `k` consecutive active frames with the same raw winner `c`. */
  function Repeat(f: Filter, c: string, k: nat): Filter
    decreases k
  {
    if k == 0 then f else Step(Repeat(f, c, k - 1), c)
  }

  /** After a run of `k` identical candidates the streak has grown by `k`
      when the run continues the last candidate and counts `k - 1` when it
      starts a new one; the confirmed colour is the candidate exactly when
      the streak has passed the limit, and the earlier one otherwise. */
  lemma {:induction false} RepeatRun(f: Filter, c: string, k: nat)
    requires k >= 1
    ensures Repeat(f, c, k).last == c
    ensures Repeat(f, c, k).streak == if c == f.last then f.streak + k else k - 1
    ensures Repeat(f, c, k).confirmed ==
      if Repeat(f, c, k).streak > StreakLimit then c else f.confirmed
    decreases k
  {
    if k > 1 {
      RepeatRun(f, c, k - 1);
    }
  }

  /** How many identical frames it takes before `c` is confirmed. */
  function FramesToConfirm(f: Filter, c: string): (n: nat)
    ensures 1 <= n <= StreakLimit + 2
  {
    if c != f.last then StreakLimit + 2
    else if f.streak >= StreakLimit then 1
    else StreakLimit + 1 - f.streak
  }

  /** A new candidate is confirmed on its seventh consecutive frame, a
      continuing one once its streak passes five; until then the confirmed
      colour is held, even when the candidate is the empty name. */
  lemma ConfirmLatency(f: Filter, c: string, k: nat)
    requires k >= 1
    ensures k >= FramesToConfirm(f, c) ==> Repeat(f, c, k).confirmed == c
    ensures k < FramesToConfirm(f, c) ==> Repeat(f, c, k).confirmed == f.confirmed
  {
    RepeatRun(f, c, k);
  }
}
