/** The three modes of the big batch search, and its checkpoints. */
module BatchSearch {
  import opened Permutations
  import Pipeline
  import opened TopK
  import opened Wrappers

  // Everything is stated for one query; `cand[l]` holds the distances that bucket l
  // contributes to it.

  /** The reference: the k best candidates of all buckets. */
  function Exhaustive(k: nat, cand: seq<seq<real>>): seq<real> {
    Best(k, Concat(cand, Identity(|cand|)))
  }

  function Range(first: nat, last: nat): (r: seq<nat>)
    requires first <= last
    ensures |r| == last - first && forall i :: 0 <= i < |r| ==> r[i] == first + i
  {
    seq(last - first, i requires 0 <= i < last - first => first + i)
  }

  lemma AddBucket(k: nat, cand: seq<seq<real>>, added: seq<nat>, l: nat)
    requires k > 0 && l < |cand| && forall i :: 0 <= i < |added| ==> added[i] < |cand|
    ensures PushAll(k, Best(k, Concat(cand, added)), cand[l]) == Best(k, Concat(cand, added + [l]))
  {
    ConcatOne(cand, added, l);
    PushAllBest(k, Concat(cand, added), cand[l]);
  }

  /** The k best candidates of the buckets first .. last-1. */
  function Upto(k: nat, cand: seq<seq<real>>, first: nat, last: nat): seq<real>
    requires first <= last <= |cand|
  {
    Best(k, Concat(cand, Range(first, last)))
  }

  lemma UptoNext(k: nat, cand: seq<seq<real>>, first: nat, l: nat, next: nat)
    requires k > 0 && first <= l < |cand| && next == l + 1
    ensures PushAll(k, Upto(k, cand, first, l), cand[l]) == Upto(k, cand, first, next)
  {
    AddBucket(k, cand, Range(first, l), l);
    assert Range(first, next) == Range(first, l) + [l];
  }

  // ---- threaded = 0 ----

  /** One bucket after the other. */
  method Sequential(k: nat, cand: seq<seq<real>>, first: nat, last: nat) returns (heap: seq<real>)
    requires k > 0 && last <= |cand|
    ensures heap == if first <= last then Upto(k, cand, first, last) else []
  {
    heap := [];
    var stop := if first <= last then last else first;
    for l := first to stop
      invariant heap == if first <= last then Upto(k, cand, first, l) else []
    {
      UptoNext(k, cand, first, l, l + 1);
      heap := PushAll(k, heap, cand[l]);
    }
  }

  // ---- threaded = 1 ----

  /** While bucket l is computed, the pool thread adds the previous result and
      prefetches bucket l + 1.  An empty range fails: there is no last result to add. */
  method Overlapped(k: nat, cand: seq<seq<real>>, first: nat, last: nat) returns (heap: Option<seq<real>>)
    requires k > 0 && last <= |cand|
    ensures heap.Some? <==> first < last
    ensures heap.Some? ==> heap.value == Upto(k, cand, first, last)
  {
    if first >= |cand| {
      return None;  // nothing to prefetch
    }
    var stop := if first <= last then last else first;
    var prefetched := Some(first);
    var toAdd: Option<nat> := None;
    var h := [];
    for l := first to stop
      invariant l < last ==> prefetched == Some(l)
      invariant Pending(k, cand, first, l, toAdd, h)
    {
      var bucket := prefetched.value;
      // the pool thread
      if toAdd.Some? {
        h := AddPending(k, cand, first, l, toAdd, h);
      }
      var next: Option<nat> := if l + 1 < |cand| then Some(l + 1) else None;
      // the main thread computes `bucket` meanwhile, then both meet
      toAdd := Some(bucket);
      prefetched := next;
    }
    if toAdd == None {
      return None;
    }
    h := AddPending(k, cand, first, last, toAdd, h);
    return Some(h);
  }

  /** The result of bucket l - 1 has still to be added, except before the first bucket. */
  ghost predicate Pending(k: nat, cand: seq<seq<real>>, first: nat, l: nat, toAdd: Option<nat>, h: seq<real>)
    requires first <= l && (l <= |cand| || l == first)
  {
    if l == first then toAdd == None && h == []
    else toAdd == Some(l - 1) && h == Upto(k, cand, first, l - 1)
  }

  method AddPending(k: nat, cand: seq<seq<real>>, first: nat, ghost l: nat, toAdd: Option<nat>, h0: seq<real>)
    returns (h: seq<real>)
    requires k > 0 && first <= l <= |cand| && Pending(k, cand, first, l, toAdd, h0) && toAdd.Some?
    ensures h == Upto(k, cand, first, l)
  {
    UptoNext(k, cand, first, l - 1, l);
    h := PushAll(k, h0, cand[toAdd.value]);
  }

  // ---- threaded > 1, with checkpoints ----

  /** The checkpoint file: the completed buckets and the result list.  `order`
      is the order in which they were added; the file does not store it. */
  datatype Disk = NoFile | File(completed: set<nat>, heap: seq<real>, order: seq<nat>)

  /** One process: its configuration, its threads, its result list. */
  datatype Process = Process(c: Pipeline.Config, p: Pipeline.State, heap: seq<real>, added: seq<nat>)

  datatype System = System(proc: Process, disk: Disk)

  datatype Event =
    | Act(a: Pipeline.Action)                       // some thread moves
    | Save                                          // main replaces the checkpoint file
    | CrashAndRestart(prefetch: nat, workers: nat)  // the process dies and is started again

  function Launch(disk: Disk, nlist: nat, prefetch: nat, workers: nat): Process {
    var c := Pipeline.Config(0, nlist, if disk.File? then disk.completed else {}, prefetch, workers);
    Process(c, Pipeline.Init(c), if disk.File? then disk.heap else [], if disk.File? then disk.order else [])
  }

  predicate CanHappen(s: System, e: Event) {
    match e
    case Act(a) => Pipeline.Enabled(s.proc.c, s.proc.p, a)
    case Save => s.proc.p.main.Looping?
    case CrashAndRestart(prefetch, workers) => prefetch > 0 && workers > 0
  }

  function Apply(k: nat, cand: seq<seq<real>>, s: System, e: Event): System
    requires k > 0 && CanHappen(s, e) && (e.Act? && e.a.MainAdd? ==> s.proc.p.main.l < |cand|)
  {
    match e
    case Act(a) =>
      var proc := s.proc.(p := Pipeline.Next(s.proc.c, s.proc.p, a));
      if a.MainAdd? then
        var l := s.proc.p.main.l;
        s.(proc := proc.(heap := PushAll(k, s.proc.heap, cand[l]), added := s.proc.added + [l]))
      else s.(proc := proc)
    case Save => s.(disk := File(s.proc.p.completed, s.proc.heap, s.proc.added))
    case CrashAndRestart(prefetch, workers) => s.(proc := Launch(s.disk, |cand|, prefetch, workers))
  }

  /** A result list that is the merge of exactly the given buckets, each added once. */
  ghost predicate Exact(k: nat, cand: seq<seq<real>>, completed: set<nat>, heap: seq<real>, order: seq<nat>) {
    && (forall i :: 0 <= i < |order| ==> order[i] < |cand|)
    && (forall i, j :: 0 <= i < j < |order| ==> order[i] != order[j])
    && (forall l :: l in completed <==> l in order)
    && heap == Best(k, Concat(cand, order))
  }

  ghost predicate Inv(k: nat, cand: seq<seq<real>>, s: System) {
    && s.proc.c.first == 0 && s.proc.c.last == |cand|
    && Pipeline.Inv(s.proc.c, s.proc.p)
    && Exact(k, cand, s.proc.p.completed, s.proc.heap, s.proc.added)
    && (s.disk.File? ==> Exact(k, cand, s.disk.completed, s.disk.heap, s.disk.order))
  }

  lemma LaunchInv(k: nat, cand: seq<seq<real>>, disk: Disk, prefetch: nat, workers: nat)
    requires prefetch > 0 && workers > 0
    requires disk.File? ==> Exact(k, cand, disk.completed, disk.heap, disk.order)
    ensures Inv(k, cand, System(Launch(disk, |cand|, prefetch, workers), disk))
  {
    var proc := Launch(disk, |cand|, prefetch, workers);
    Pipeline.InitInv(proc.c);
    BestEmpty(k);
  }

  /** The bucket main is about to add is a real one that it has not added before. */
  lemma AddingFresh(c: Pipeline.Config, p: Pipeline.State)
    requires Pipeline.Inv(c, p) && p.main.Adding?
    ensures p.main.l < c.last && p.main.l !in p.completed
  {
    assert Pipeline.Places(p, p.main.l) > 0;
    Pipeline.InLogMember(p.results, p.main.l);
  }

  lemma StepInv(k: nat, cand: seq<seq<real>>, s: System, e: Event)
    requires k > 0 && Inv(k, cand, s) && CanHappen(s, e)
    ensures e.Act? && e.a.MainAdd? ==> s.proc.p.main.l < |cand|
    ensures Inv(k, cand, Apply(k, cand, s, e))
  {
    match e
    case Act(a) =>
      Pipeline.StepInv(s.proc.c, s.proc.p, a);
      if a.MainAdd? {
        AddingFresh(s.proc.c, s.proc.p);
        AddBucket(k, cand, s.proc.added, s.proc.p.main.l);
      }
    case Save =>
    case CrashAndRestart(prefetch, workers) =>
      LaunchInv(k, cand, s.disk, prefetch, workers);
  }

  ghost predicate History(k: nat, cand: seq<seq<real>>, s: System, events: seq<Event>, t: System)
    requires k > 0
    decreases |events|
  {
    if events == [] then s == t
    else
      && CanHappen(s, events[0])
      && (events[0].Act? && events[0].a.MainAdd? ==> s.proc.p.main.l < |cand|)
      && History(k, cand, Apply(k, cand, s, events[0]), events[1..], t)
  }

  lemma {:induction false} HistoryInv(k: nat, cand: seq<seq<real>>, s: System, events: seq<Event>, t: System)
    requires k > 0 && Inv(k, cand, s) && History(k, cand, s, events, t)
    ensures Inv(k, cand, t)
    decreases |events|
  {
    if events != [] {
      StepInv(k, cand, s, events[0]);
      HistoryInv(k, cand, Apply(k, cand, s, events[0]), events[1..], t);
    }
  }

  /** Only main's checkpoints change the file. */
  lemma {:induction false} FileKept(k: nat, cand: seq<seq<real>>, s: System, events: seq<Event>, t: System)
    requires k > 0 && History(k, cand, s, events, t) && Save !in events
    ensures t.disk == s.disk
    decreases |events|
  {
    if events != [] {
      FileKept(k, cand, Apply(k, cand, s, events[0]), events[1..], t);
    }
  }

  /** Main writes a checkpoint in state s, then anything but another one happens, crashes
      included; a process started after that has the results of state s, and what was
      completed then is not wanted again. */
  lemma Resumes(k: nat, cand: seq<seq<real>>, s: System, events: seq<Event>, t: System, prefetch: nat, workers: nat)
    requires k > 0 && Inv(k, cand, s) && CanHappen(s, Save) && prefetch > 0 && workers > 0
    requires History(k, cand, Apply(k, cand, s, Save), events, t) && Save !in events
    ensures var proc := Apply(k, cand, t, CrashAndRestart(prefetch, workers)).proc;
            && proc.heap == s.proc.heap && proc.added == s.proc.added && proc.p.completed == s.proc.p.completed
            && (forall l: nat :: Pipeline.Wanted(proc.c, l) <==> l < |cand| && l !in s.proc.p.completed)
            && proc.p == Pipeline.Init(proc.c)
            && proc.c.prefetch == prefetch && proc.c.workers == workers
  {
    FileKept(k, cand, Apply(k, cand, s, Save), events, t);
  }

  /** Whatever crashed and however the threads interleaved: when main sees the
      end marker the result list is that of the sequential pass over all buckets. */
  lemma CrashSafe(k: nat, cand: seq<seq<real>>, prefetch: nat, workers: nat, events: seq<Event>, t: System)
    requires k > 0 && prefetch > 0 && workers > 0
    requires History(k, cand, System(Launch(NoFile, |cand|, prefetch, workers), NoFile), events, t)
    requires t.proc.p.main.Stopped?
    ensures t.proc.heap == Exhaustive(k, cand)
  {
    var start := System(Launch(NoFile, |cand|, prefetch, workers), NoFile);
    LaunchInv(k, cand, NoFile, prefetch, workers);
    HistoryInv(k, cand, start, events, t);
    var c, p := t.proc.c, t.proc.p;
    forall l: nat ensures l in t.proc.added <==> l < |cand| {
      Pipeline.NothingElsewhere(c, p, l);
      Pipeline.InLogMember(p.results, l);
      assert Pipeline.Places(p, l) == Pipeline.One(Pipeline.Wanted(c, l) && l < p.scan);
    }
    IdentityPermutation(t.proc.added, |cand|);
    ConcatPermutation(cand, t.proc.added, Identity(|cand|));
    BestPermutation(k, Concat(cand, t.proc.added), Concat(cand, Identity(|cand|)));
  }
}
