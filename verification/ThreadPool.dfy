/** The shared state of the pool as a class: the three critical sections of thread_pool.h, and the
    worker's loop once the pool has been stopped. */
module ThreadPool {
  import opened Pool

  class TaskQueue {
    var tasks: seq<nat>
    var stop: bool

    constructor ()
      ensures tasks == [] && !stop
    {
      tasks, stop := [], false;
    }

    /** `enqueue`, up to the notification; refused exactly when the pool has been stopped. */
    method Push(task: nat) returns (accepted: bool)
      modifies this`tasks
      ensures accepted <==> !stop
      ensures tasks == if accepted then old(tasks) + [task] else old(tasks)
    {
      if stop {
        return false;
      }
      tasks := tasks + [task];
      return true;
    }

    /** The worker's critical section, one pass of the wait predicate. */
    method Next() returns (outcome: Outcome)
      modifies this`tasks
      ensures outcome == Check(old(tasks), stop)
      ensures tasks == if outcome.Take? then outcome.rest else old(tasks)
      ensures stop && old(tasks) != [] ==> outcome == Take(old(tasks)[0], old(tasks)[1..])
    {
      if !stop && tasks == [] {
        return Park;
      }
      if stop && tasks == [] {
        return Exit;
      }
      var task := tasks[0];
      tasks := tasks[1..];
      return Take(task, tasks);
    }

    method RequestStop()
      modifies this`stop
      ensures stop
    {
      stop := true;
    }

    /** A worker left alone with a stopped pool runs every remaining task, in order, and returns. */
    method WorkUntilExit() returns (ran: seq<nat>)
      requires stop
      modifies this`tasks
      ensures tasks == [] && ran == old(tasks)
    {
      ran := [];
      while true
        invariant ran + tasks == old(tasks)
        decreases |tasks|
      {
        var outcome := Next();
        if outcome.Exit? {
          return;
        }
        ran := ran + [outcome.task];
      }
    }

    /** The destructor of a pool with one worker: what was accepted before is run, in order, and
        nothing is accepted after. */
    method Shutdown() returns (ran: seq<nat>)
      modifies this
      ensures stop && tasks == [] && ran == old(tasks)
    {
      RequestStop();
      ran := WorkUntilExit();
    }
  }
}
