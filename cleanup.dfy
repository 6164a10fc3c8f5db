/**
 * The `Cleaner` of cli-application-template.py (and the same class in
 * clone_OS_bootable.py): a list of cleanup jobs that grows by `append` and is
 * drained by `pop`, so jobs run last-added first, and the `main` wrapper that
 * drains it in a `finally` clause.
 *
 * A job is identified by a value of type `J`; calling it is recorded by
 * appending it to `ran`, and whether it raises is given by the set `fails`.
 */
module Cleanup {

  import opened Common

  /** `s` read from back to front: the order in which a LIFO list is drained. */
  function Reverse<T>(s: seq<T>): (r: seq<T>)
    ensures |r| == |s|
    ensures forall i :: 0 <= i < |s| ==> r[i] == s[|s| - 1 - i]
  {
    seq(|s|, i requires 0 <= i < |s| => s[|s| - 1 - i])
  }

  /** The position in `order` of the first job that raises, or `|order|`. */
  function FirstFailing<T>(order: seq<T>, fails: set<T>): (k: nat)
    ensures k <= |order|
    ensures forall i :: 0 <= i < k ==> order[i] !in fails
    ensures k < |order| ==> order[k] in fails
  {
    if order == [] then 0
    else if order[0] in fails then 0
    else 1 + FirstFailing(order[1..], fails)
  }

  /** The jobs `do_all_jobs` calls when the list holds `jobs`: in reverse order,
      up to and including the first one that raises. */
  function Drained<T>(jobs: seq<T>, fails: set<T>): (r: seq<T>)
    ensures |r| <= |jobs|
  {
    var order := Reverse(jobs);
    var k := FirstFailing(order, fails);
    if k == |order| then order else order[..k + 1]
  }

  /** Draining runs every job exactly once when none raises. */
  lemma {:induction false} ReverseIsPermutation<T>(s: seq<T>)
    ensures multiset(Reverse(s)) == multiset(s)
    decreases |s|
  {
    if s != [] {
      var t := s[..|s| - 1];
      ReverseIsPermutation(t);
      assert Reverse(s) == [s[|s| - 1]] + Reverse(t);
      assert s == t + [s[|s| - 1]];
    }
  }

  /** Draining an extended list runs the new job first and then drains the old list. */
  lemma ReverseAppend<T>(s: seq<T>, x: T)
    ensures Reverse(s + [x]) == [x] + Reverse(s)
  {
  }

  /** The drain calls every job exactly when none but the oldest raises, and
      then the oldest job is the last one called. */
  lemma DrainedAll<T>(jobs: seq<T>, fails: set<T>)
    requires |jobs| >= 1
    ensures |Drained(jobs, fails)| == |jobs| <==> forall i :: 1 <= i < |jobs| ==> jobs[i] !in fails
    ensures |Drained(jobs, fails)| == |jobs| ==> Drained(jobs, fails)[|jobs| - 1] == jobs[0]
    ensures forall i :: 0 <= i < |Drained(jobs, fails)| ==> Drained(jobs, fails)[i] == jobs[|jobs| - 1 - i]
  {
    var order := Reverse(jobs);
    var k := FirstFailing(order, fails);
    if forall i :: 1 <= i < |jobs| ==> jobs[i] !in fails {
      forall i | 0 <= i < |jobs| - 1 ensures order[i] !in fails {
        assert order[i] == jobs[|jobs| - 1 - i];
      }
      assert k >= |jobs| - 1;
    } else {
      var i :| 1 <= i < |jobs| && jobs[i] in fails;
      assert order[|jobs| - 1 - i] in fails;
    }
  }

  /** A job registered first and never again is called last, and it is called
      exactly when none of the later jobs raises. */
  lemma FirstRegisteredRunsLast<T>(jobs: seq<T>, fails: set<T>, first: T)
    requires |jobs| >= 1 && jobs[0] == first
    requires forall i :: 1 <= i < |jobs| ==> jobs[i] != first
    ensures first in Drained(jobs, fails) ==> Drained(jobs, fails)[|Drained(jobs, fails)| - 1] == first
    ensures first in Drained(jobs, fails) <==> forall i :: 1 <= i < |jobs| ==> jobs[i] !in fails
  {
    var ran := Drained(jobs, fails);
    DrainedAll(jobs, fails);
    if first in ran {
      var i :| 0 <= i < |ran| && ran[i] == first;
      assert jobs[|jobs| - 1 - i] == first;
    }
    if |ran| == |jobs| {
      assert ran[|jobs| - 1] == first;
    }
  }

  /** A fresh cleaner holding `jobs`, registered oldest first. */
  method Registered<J(==)>(jobs: seq<J>) returns (cleaner: Cleaner<J>)
    ensures fresh(cleaner)
    ensures cleaner.jobs == jobs && cleaner.ran == []
  {
    cleaner := new Cleaner<J>();
    for i := 0 to |jobs|
      invariant cleaner.jobs == jobs[..i] && cleaner.ran == []
    {
      cleaner.AddJob(jobs[i]);
      assert jobs[..i + 1] == jobs[..i] + [jobs[i]];
    }
    assert jobs[..|jobs|] == jobs;
  }

  /** How a job call or a drain ends. */
  datatype JobOutcome<T> = Done | Raised(job: T) | EmptyQueue

  class Cleaner<J(==)> {
    /** `_jobs`, oldest first. */
    var jobs: seq<J>
    /** The jobs called so far, in call order. */
    var ran: seq<J>

    /** `__init__`. */
    constructor ()
      ensures jobs == [] && ran == []
    {
      jobs := [];
      ran := [];
    }

    /** `add_job`: append one entry at the end. */
    method AddJob(job: J)
      modifies this
      ensures jobs == old(jobs) + [job]
      ensures ran == old(ran)
    {
      jobs := jobs + [job];
    }

    /** `do_one_job`: pop the most recently added job, then call it. Popping an
        empty list raises and changes nothing. */
    method DoOneJob(fails: set<J>) returns (r: JobOutcome<J>)
      modifies this
      ensures old(jobs) == [] ==> r == EmptyQueue && jobs == old(jobs) && ran == old(ran)
      ensures old(jobs) != [] ==>
        var last := old(jobs)[|old(jobs)| - 1];
        && jobs == old(jobs)[..|old(jobs)| - 1]
        && ran == old(ran) + [last]
        && r == (if last in fails then Raised(last) else Done)
    {
      if jobs == [] {
        return EmptyQueue;
      }
      var job := jobs[|jobs| - 1];
      jobs := jobs[..|jobs| - 1];
      ran := ran + [job];
      r := if job in fails then Raised(job) else Done;
    }

    /** `do_all_jobs`: `do_one_job` while the list is not empty. A job that
        raises ends the drain; it has already been removed and the older jobs
        stay queued. */
    method DoAllJobs(fails: set<J>) returns (r: JobOutcome<J>)
      modifies this
      ensures r != EmptyQueue
      ensures ran == old(ran) + Drained(old(jobs), fails)
      ensures jobs == old(jobs)[..|old(jobs)| - |Drained(old(jobs), fails)|]
      ensures r == Done <==> FirstFailing(Reverse(old(jobs)), fails) == |old(jobs)|
      ensures r == Done ==> jobs == [] && ran == old(ran) + Reverse(old(jobs))
      ensures r.Raised? ==> r.job in fails && r.job == ran[|ran| - 1]
    {
      ghost var order := Reverse(jobs);
      ghost var k := FirstFailing(order, fails);
      ghost var n := 0;
      r := Done;
      while jobs != []
        invariant 0 <= n <= k
        invariant jobs == old(jobs)[..|old(jobs)| - n]
        invariant ran == old(ran) + order[..n]
        invariant r == Done
      {
        r := DoOneJob(fails);
        assert order[n] == old(jobs)[|old(jobs)| - 1 - n];
        assert order[..n + 1] == order[..n] + [order[n]];
        n := n + 1;
        if r.Raised? {
          return;
        }
      }
    }

    /** `do_jobs` of clone_OS_bootable.py: the same drain written as one loop. */
    method DoJobs(fails: set<J>) returns (r: JobOutcome<J>)
      modifies this
      ensures r != EmptyQueue
      ensures ran == old(ran) + Drained(old(jobs), fails)
      ensures jobs == old(jobs)[..|old(jobs)| - |Drained(old(jobs), fails)|]
      ensures r == Done <==> FirstFailing(Reverse(old(jobs)), fails) == |old(jobs)|
      ensures r == Done ==> jobs == [] && ran == old(ran) + Reverse(old(jobs))
      ensures r.Raised? ==> r.job in fails && r.job == ran[|ran| - 1]
    {
      ghost var order := Reverse(jobs);
      ghost var k := FirstFailing(order, fails);
      while jobs != []
        invariant |jobs| <= |old(jobs)|
        invariant |old(jobs)| - |jobs| <= k
        invariant jobs == old(jobs)[..|jobs|]
        invariant ran == old(ran) + order[..|old(jobs)| - |jobs|]
      {
        var job := jobs[|jobs| - 1];
        ghost var n := |old(jobs)| - |jobs|;
        assert order[n] == job;
        jobs := jobs[..|jobs| - 1];
        ran := ran + [job];
        assert order[..n + 1] == order[..n] + [order[n]];
        if job in fails {
          return Raised(job);
        }
      }
      return Done;
    }
  }

  /** How `main` ends: normally, by re-raising the exception of `caught_main`,
      or by an exception of a cleanup job, which replaces any earlier one. */
  datatype Termination<T> = Success | MainRaised | CleanupRaised(job: T)

  /** `main` of cli-application-template.py: `caught_main` adds `added` and then
      returns (or raises when `mainRaises`); the cleanup jobs run in the
      `finally` clause either way; `ran` is the cleanup calls made. */
  method RunMain<J(==)>(added: seq<J>, mainRaises: bool, fails: set<J>) returns (t: Termination<J>, ran: seq<J>)
    ensures ran == Drained(added, fails)
    ensures var k := FirstFailing(Reverse(added), fails);
      t == if k < |added| then CleanupRaised(Reverse(added)[k])
           else if mainRaises then MainRaised else Success
  {
    var cleaner := Registered(added);
    var drained := cleaner.DoAllJobs(fails);
    ran := cleaner.ran;
    if drained.Raised? {
      t := CleanupRaised(drained.job);
    } else if mainRaises {
      t := MainRaised;
    } else {
      t := Success;
    }
  }
}
