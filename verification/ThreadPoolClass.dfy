/** The shared state of the pool and its critical sections, each shown to be a step of the transition system. */
module ThreadPoolClass {
  import opened ThreadPool

  ghost predicate Shows<T>(tasks: seq<T>, stop: bool, s: Pool<T>) {
    s.queue == tasks && s.stop == stop
  }

  class Queue<T(!new)> {
    var tasks: seq<T>
    var stop: bool

    constructor ()
      ensures forall threads: nat :: Shows(tasks, stop, Start(threads))
    {
      tasks, stop := [], false;
    }

    /** The locked part of enqueue. */
    method PushTask(task: T)
      modifies this`tasks
      ensures tasks == old(tasks) + [task]
      ensures forall s: Pool<T> ::
                Shows(old(tasks), old(stop), s) && Enabled(s, Push(task)) ==> Shows(tasks, stop, Apply(s, Push(task)))
    {
      tasks := tasks + [task];
    }

    /** The locked part of the destructor. */
    method RequestStop()
      modifies this`stop
      ensures stop
      ensures forall s: Pool<T> ::
                Shows(old(tasks), old(stop), s) && Enabled(s, SetStop) ==> Shows(tasks, stop, Apply(s, SetStop))
    {
      stop := true;
    }

    /** One passage of a worker through its critical section: the wait predicate, the exit test and the removal. */
    method PassSection() returns (verdict: Verdict<T>)
      modifies this`tasks
      ensures verdict.Wait? <==> !(stop || old(tasks) != [])
      ensures verdict.Return? <==> stop && old(tasks) == []
      ensures verdict.Run? ==> [verdict.task] + tasks == old(tasks)
      ensures !verdict.Run? ==> tasks == old(tasks)
      ensures forall s: Pool<T>, w: nat ::
                Shows(old(tasks), old(stop), s) && Enabled(s, Section(w)) ==>
                  && Shows(tasks, stop, Apply(s, Section(w)))
                  && Apply(s, Section(w)).workers[w] ==
                     match verdict { case Run(t) => Running(t) case Return => Exited case Wait => Sleeping }
    {
      if !(stop || tasks != []) {
        return Wait;
      }
      if stop && tasks == [] {
        return Return;
      }
      verdict := Run(tasks[0]);
      tasks := tasks[1..];
    }

    /** The loop of a worker that finds `stop` set: it leaves only when the queue is empty, and until then takes
        every task in order. */
    method DrainAfterStop() returns (taken: seq<T>)
      requires stop
      modifies this`tasks
      ensures tasks == [] && taken == old(tasks)
    {
      taken := [];
      while true
        invariant taken + tasks == old(tasks)
        decreases |tasks|
      {
        var verdict := PassSection();
        match verdict
        case Wait => assert false;
        case Return =>
          assert taken + [] == taken;
          return;
        case Run(task) =>
          assert taken + ([task] + tasks) == taken + [task] + tasks;
          taken := taken + [task];
      }
    }
  }
}
