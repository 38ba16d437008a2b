/**
  The round-robin choice of src/process/scheduler.cpp, as a function of the process states.
 */
module Scheduler {
  const MAX_PROCESSES: nat := 64

  datatype ProcessState = Unused | Ready | Running | Blocked | Zombie

  type States = s: seq<ProcessState> | |s| == MAX_PROCESSES witness seq(MAX_PROCESSES, _ => Unused)

  /** The slot d places after `cur`, going round. */
  function Ahead(cur: nat, d: nat): (i: nat)
    ensures i < MAX_PROCESSES
  {
    (cur + d) % MAX_PROCESSES
  }

  /** How far ahead slot p lies; a slot is a full round ahead of itself. */
  function Distance(cur: nat, p: nat): (d: nat)
    requires cur < MAX_PROCESSES && p < MAX_PROCESSES
    ensures 1 <= d <= MAX_PROCESSES && Ahead(cur, d) == p
  {
    if p > cur then p - cur else p + MAX_PROCESSES - cur
  }

  /** The running process becomes ready before the search. */
  function Marked(states: States, cur: nat): (r: States)
    requires cur < MAX_PROCESSES
  {
    if states[cur].Running? then states[cur := Ready] else states
  }

  /** Distance of the first ready slot from d on, or more than a round if there is none. */
  function FirstReady(states: States, cur: nat, d: nat): (e: nat)
    requires d <= MAX_PROCESSES + 1
    ensures d <= e <= MAX_PROCESSES + 1
    ensures e <= MAX_PROCESSES ==> states[Ahead(cur, e)].Ready?
    ensures forall k :: d <= k < e ==> !states[Ahead(cur, k)].Ready?
    decreases MAX_PROCESSES + 1 - d
  {
    if d > MAX_PROCESSES || states[Ahead(cur, d)].Ready? then d else FirstReady(states, cur, d + 1)
  }

  /** The slot that runs after a call of schedule. */
  function NextIndex(states: States, cur: nat): (next: nat)
    requires cur < MAX_PROCESSES
    ensures next < MAX_PROCESSES
  {
    var e := FirstReady(Marked(states, cur), cur, 1);
    if e <= MAX_PROCESSES then Ahead(cur, e) else cur
  }

  /** The states after a call of schedule. */
  function Scheduled(states: States, cur: nat): (r: States)
    requires cur < MAX_PROCESSES
  {
    var marked, next := Marked(states, cur), NextIndex(states, cur);
    if marked[next].Ready? then marked[next := Running] else marked
  }

  predicate OnlyCurrentRuns(states: States, cur: nat)
  {
    forall i :: 0 <= i < MAX_PROCESSES && states[i].Running? ==> i == cur
  }

  lemma DistanceFrom(cur: nat, p: nat, d: nat)
    requires cur < MAX_PROCESSES && p < MAX_PROCESSES && 1 <= d < Distance(cur, p)
    ensures Distance(Ahead(cur, d), p) == Distance(cur, p) - d
  {
  }

  /** schedule dispatches a ready process if there is one, and then it alone runs; otherwise nothing changes. */
  lemma SchedulesReady(states: States, cur: nat)
    requires cur < MAX_PROCESSES && OnlyCurrentRuns(states, cur)
    ensures var r, next := Scheduled(states, cur), NextIndex(states, cur);
      && OnlyCurrentRuns(r, next)
      && (if exists p :: 0 <= p < MAX_PROCESSES && (states[p].Ready? || states[p].Running?)
          then (states[next].Ready? || states[next].Running?) && r[next].Running?
          else r == states && next == cur)
      && (forall i :: 0 <= i < MAX_PROCESSES && i != next && i != cur ==> r[i] == states[i])
      && (next != cur ==> r[cur] == if states[cur].Running? then Ready else states[cur])
  {
    var marked := Marked(states, cur);
    var e := FirstReady(marked, cur, 1);
    if p :| 0 <= p < MAX_PROCESSES && (states[p].Ready? || states[p].Running?) {
      assert marked[p].Ready?;
      assert Ahead(cur, Distance(cur, p)) == p;
      assert e <= Distance(cur, p);
    }
  }

  /** A ready process is chosen, or the choice comes strictly closer to it. */
  lemma ChosenOrCloser(states: States, cur: nat, p: nat)
    requires cur < MAX_PROCESSES && p < MAX_PROCESSES && states[p].Ready?
    ensures var next := NextIndex(states, cur); next == p || Distance(next, p) < Distance(cur, p)
  {
    var e, d := FirstReady(Marked(states, cur), cur, 1), Distance(cur, p);
    assert Marked(states, cur)[Ahead(cur, d)].Ready?;
    if e < d { DistanceFrom(cur, p, e); }
  }

  /** Who is current after the first n calls, if call i finds the table as ts[i]. */
  function CurrentAfter(cur: nat, ts: seq<States>, n: nat): (c: nat)
    requires cur < MAX_PROCESSES && n <= |ts|
    ensures c < MAX_PROCESSES
  {
    if n == 0 then cur else NextIndex(ts[n - 1], CurrentAfter(cur, ts, n - 1))
  }

  /** While p stays ready and is passed over, every call brings the choice closer, whatever the other slots do. */
  lemma {:induction false} PassedOver(cur: nat, ts: seq<States>, p: nat, n: nat)
    requires cur < MAX_PROCESSES && p < MAX_PROCESSES && n <= |ts|
    requires forall i :: 0 <= i < n ==> ts[i][p].Ready?
    requires forall i :: 0 < i <= n ==> CurrentAfter(cur, ts, i) != p
    ensures Distance(CurrentAfter(cur, ts, n), p) + n <= Distance(cur, p)
  {
    hide NextIndex, Distance, Ahead;
    if n > 0 {
      PassedOver(cur, ts, p, n - 1);
      ChosenOrCloser(ts[n - 1], CurrentAfter(cur, ts, n - 1), p);
    }
  }

  ghost predicate NotYet(cur: nat, ts: seq<States>, p: nat, n: nat)
    requires cur < MAX_PROCESSES && n <= |ts|
  {
    forall i :: 0 < i <= n ==> CurrentAfter(cur, ts, i) != p
  }

  /** Bounded waiting: a process that stays ready until it runs does so within a round, and within its distance. */
  lemma BoundedWaiting(cur: nat, ts: seq<States>, p: nat)
    requires cur < MAX_PROCESSES && p < MAX_PROCESSES && |ts| >= Distance(cur, p)
    requires forall i :: 0 <= i < |ts| && NotYet(cur, ts, p, i) ==> ts[i][p].Ready?
    ensures exists n :: 0 < n <= Distance(cur, p) && CurrentAfter(cur, ts, n) == p
  {
    var d := Distance(cur, p);
    if NotYet(cur, ts, p, d) {
      forall i | 0 <= i < d ensures ts[i][p].Ready? {
        assert NotYet(cur, ts, p, i);
      }
      PassedOver(cur, ts, p, d);
      assert false;
    }
  }
}
