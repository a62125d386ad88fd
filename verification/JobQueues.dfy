/** The in-memory job queue. */
module JobQueues {
  import opened Sequences

  datatype Status = Pending | Done

  /** The fields of a job's dictionary that change. */
  datatype Job = Job(status: Status, worker: Option<string>)

  /** The queue: the pending list and the in-flight dictionary hold references to job dictionaries. There is
      one dictionary per job, shared by everyone that holds the job, so a reference is its job id, and `jobs`
      holds the dictionaries themselves; a write through one reference is seen through all. */
  datatype Queue = Queue(pending: seq<string>, inFlight: seq<string>, jobs: map<string, Job>)

  function EmptyQueue(): Queue { Queue([], [], map[]) }

  /** A new job, with an id that was not used before. */
  function Enqueue(q: Queue, id: string): Queue {
    q.(pending := q.pending + [id], jobs := q.jobs[id := Job(Pending, None)])
  }

  /** The resumption of `get` with the first pending job, which is recorded as in flight. */
  function Dequeue(q: Queue): Queue
    requires q.pending != []
  {
    var id := q.pending[0];
    q.(pending := q.pending[1..], inFlight := if id in q.inFlight then q.inFlight else q.inFlight + [id])
  }

  /** job["worker_id"] = worker */
  function Assign(q: Queue, id: string, worker: string): Queue {
    if id in q.jobs then q.(jobs := q.jobs[id := q.jobs[id].(worker := Some(worker))]) else q
  }

  function Requeue(q: Queue, id: string): Queue {
    Queue(q.pending + [id], Without(q.inFlight, id), if id in q.jobs then q.jobs[id := Job(Pending, None)] else q.jobs)
  }

  function Complete(q: Queue, id: string): Queue {
    if id in q.inFlight then
      q.(inFlight := Without(q.inFlight, id),
         jobs := if id in q.jobs then q.jobs[id := q.jobs[id].(status := Done)] else q.jobs)
    else q
  }

  function Depth(q: Queue): nat { |q.pending| + |q.inFlight| }

  function HeldBy(q: Queue, worker: string): string -> bool {
    id => id in q.jobs && q.jobs[id].worker == Some(worker)
  }

  function RequeueAll(q: Queue, ids: seq<string>): Queue
    decreases |ids|
  {
    if ids == [] then q else Requeue(RequeueAll(q, ids[..|ids| - 1]), ids[|ids| - 1])
  }

  /** What requeueing a list of jobs adds up to. */
  lemma {:induction false} RequeueAllSpec(q: Queue, ids: seq<string>)
    ensures var r := RequeueAll(q, ids);
            && r.pending == q.pending + ids
            && (forall id :: id in r.inFlight <==> id in q.inFlight && id !in ids)
            && (Distinct(q.inFlight) ==> Distinct(r.inFlight))
            && r.jobs.Keys == q.jobs.Keys
            && (forall id :: id in q.jobs ==> r.jobs[id] == if id in ids then Job(Pending, None) else q.jobs[id])
    decreases |ids|
  {
    if ids != [] {
      var before, id := ids[..|ids| - 1], ids[|ids| - 1];
      assert ids == before + [id];
      RequeueAllSpec(q, before);
      var r := RequeueAll(q, before);
      KeepMembers(r.inFlight, OtherThan(id));
      if Distinct(q.inFlight) {
        KeepDistinct(r.inFlight, OtherThan(id));
      }
    }
  }

  class InMemoryJobQueue {
    var pending: seq<string>
    var inFlight: seq<string>
    var jobs: map<string, Job>

    function State(): Queue
      reads this
    {
      Queue(pending, inFlight, jobs)
    }

    constructor ()
      ensures State() == EmptyQueue()
    {
      pending, inFlight, jobs := [], [], map[];
    }

    method EnqueueJob(id: string)
      requires id !in jobs
      modifies this
      ensures State() == Enqueue(old(State()), id)
      ensures pending == old(pending) + [id] && inFlight == old(inFlight)
      ensures jobs == old(jobs)[id := Job(Pending, None)]
    {
      jobs := jobs[id := Job(Pending, None)];
      pending := pending + [id];
    }

    method DequeueJob() returns (id: string)
      requires pending != []
      modifies this
      ensures id == old(pending)[0] && State() == Dequeue(old(State()))
      ensures old(pending) == [id] + pending && jobs == old(jobs)
      ensures forall j :: j in inFlight <==> j in old(inFlight) || j == id
    {
      id := pending[0];
      assert pending == [id] + pending[1..];
      pending := pending[1..];
      if id !in inFlight {
        inFlight := inFlight + [id];
      }
    }

    method AssignJob(id: string, worker: string)
      requires id in jobs
      modifies this
      ensures State() == Assign(old(State()), id, worker)
      ensures pending == old(pending) && inFlight == old(inFlight)
      ensures jobs == old(jobs)[id := Job(old(jobs)[id].status, Some(worker))]
    {
      jobs := jobs[id := jobs[id].(worker := Some(worker))];
    }

    method RequeueJob(id: string)
      requires id in jobs
      modifies this
      ensures State() == Requeue(old(State()), id)
      ensures pending == old(pending) + [id] && jobs == old(jobs)[id := Job(Pending, None)]
      ensures forall j :: j in inFlight <==> j in old(inFlight) && j != id
    {
      jobs := jobs[id := jobs[id].(status := Pending)];
      jobs := jobs[id := jobs[id].(worker := None)];
      pending := pending + [id];
      KeepMembers(inFlight, OtherThan(id));
      inFlight := Without(inFlight, id);
    }

    method CompleteJob(id: string)
      requires id in jobs
      modifies this
      ensures State() == Complete(old(State()), id)
      ensures pending == old(pending)
      ensures jobs == if id in old(inFlight) then old(jobs)[id := Job(Done, old(jobs)[id].worker)] else old(jobs)
      ensures forall j :: j in inFlight <==> j in old(inFlight) && j != id
    {
      KeepMembers(inFlight, OtherThan(id));
      if id in inFlight {
        jobs := jobs[id := jobs[id].(status := Done)];
        inFlight := Without(inFlight, id);
      }
    }

    /** What is reported to the control plane */
    method Stats() returns (waiting: nat, running: nat, total: nat)
      ensures waiting == |pending| && running == |inFlight| && total == |pending| + |inFlight|
      ensures total == Depth(State())
    {
      waiting, running := |pending|, |inFlight|;
      total := waiting + running;
    }
  }
}
