/** The sandbox allocator: job calls interleave between its two critical sections. */
module SandboxPool {
  import opened Prelude

  type Box = nat
  type Job = nat

  /** The status map, whose keys are sandboxes or nil (None), and what the calls in progress hold. */
  datatype State = State(status: map<Option<Box>, bool>, inFlight: map<Job, Box>, failed: set<Box>)

  /** The atomic steps of `ExecuteJob`: find a sandbox (None refuses the job), then release it or lose it. */
  datatype Event = Acquire(job: Job, box: Option<Box>) | Succeed(job: Job) | Fail(job: Job)

  function Start(boxes: set<Box>): State {
    State(map b | b in boxes :: Some(b) := false, map[], {})
  }

  function Members(boxes: seq<Box>): set<Box> {
    set b | b in boxes
  }

  predicate AllBusy(status: map<Option<Box>, bool>) {
    forall k | k in status :: status[k]
  }

  /** The map may be walked in any order, so any idle key may be found; nil is the answer if there is none. */
  predicate Enabled(st: State, e: Event) {
    match e
    case Acquire(job, box) =>
      && job !in st.inFlight
      && (if AllBusy(st.status) then box == None else box in st.status && !st.status[box])
    case Succeed(job) => job in st.inFlight
    case Fail(job) => job in st.inFlight
  }

  function Next(st: State, e: Event): State
    requires Enabled(st, e)
  {
    match e
    case Acquire(job, None) => st.(status := st.status[None := true])
    case Acquire(job, Some(b)) => st.(status := st.status[Some(b) := true], inFlight := st.inFlight[job := b])
    case Succeed(job) => st.(status := st.status[Some(st.inFlight[job]) := false], inFlight := st.inFlight - {job})
    case Fail(job) => st.(inFlight := st.inFlight - {job}, failed := st.failed + {st.inFlight[job]})
  }

  predicate Possible(boxes: set<Box>, es: seq<Event>)
    decreases |es|, 0
  {
    es == [] || (Possible(boxes, es[..|es| - 1]) && Enabled(After(boxes, es[..|es| - 1]), es[|es| - 1]))
  }

  function After(boxes: set<Box>, es: seq<Event>): State
    requires Possible(boxes, es)
    decreases |es|, 1
  {
    if es == [] then Start(boxes) else Next(After(boxes, es[..|es| - 1]), es[|es| - 1])
  }

  // ---- What every interleaving keeps ----

  function Idle(boxes: set<Box>, st: State): set<Box> {
    set b | b in boxes && Some(b) in st.status && !st.status[Some(b)]
  }

  predicate NoSharing(inFlight: map<Job, Box>) {
    forall i, j | i in inFlight && j in inFlight && i != j :: inFlight[i] != inFlight[j]
  }

  predicate Held(st: State, b: Box) {
    b in st.inFlight.Values
  }

  /** A sandbox is marked exactly while it is held or after it failed; nil is only ever marked. */
  ghost predicate Good(boxes: set<Box>, st: State) {
    && NoSharing(st.inFlight)
    && (None in st.status ==> st.status[None])
    && (forall b: Box :: Some(b) in st.status <==> b in boxes)
    && (forall b | b in boxes :: st.status[Some(b)] <==> Held(st, b) || b in st.failed)
    && (forall j | j in st.inFlight :: st.inFlight[j] in boxes && st.inFlight[j] !in st.failed)
    && st.failed <= boxes
  }

  lemma StartIsGood(boxes: set<Box>)
    ensures Good(boxes, Start(boxes))
  {
  }

  lemma NextIsGood(boxes: set<Box>, st: State, e: Event)
    requires Good(boxes, st) && Enabled(st, e)
    ensures Good(boxes, Next(st, e))
  {
    var st' := Next(st, e);
    if e.Acquire? && e.box.Some? {
      var b := e.box.value;
      assert !Held(st, b) && b !in st.failed;
      assert e.job in st'.inFlight && st'.inFlight[e.job] == b;
      forall c
        ensures Held(st', c) <==> Held(st, c) || c == b
      {
        if Held(st, c) {
          var j :| j in st.inFlight && st.inFlight[j] == c;
          assert j in st'.inFlight && st'.inFlight[j] == c;
        }
      }
    } else if e.Succeed? || e.Fail? {
      var b := st.inFlight[e.job];
      assert Held(st, b);
      forall c
        ensures Held(st', c) <==> Held(st, c) && c != b
      {
        if Held(st, c) && c != b {
          var j :| j in st.inFlight && st.inFlight[j] == c;
          assert j in st'.inFlight && st'.inFlight[j] == c;
        }
      }
    }
  }

  /** Under every interleaving, no two calls in progress hold one sandbox, and the marks are right. */
  lemma {:induction false} RunIsGood(boxes: set<Box>, es: seq<Event>)
    requires Possible(boxes, es)
    ensures Good(boxes, After(boxes, es))
  {
    if es == [] {
      StartIsGood(boxes);
    } else {
      RunIsGood(boxes, es[..|es| - 1]);
      NextIsGood(boxes, After(boxes, es[..|es| - 1]), es[|es| - 1]);
    }
  }

  /** A map without repeats has as many values as keys. */
  lemma {:induction false} ValuesCount(m: map<Job, Box>)
    requires NoSharing(m)
    ensures |m.Values| == |m|
  {
    if m != map[] {
      var j :| j in m;
      var n := m - {j};
      ValuesCount(n);
      assert m.Values == n.Values + {m[j]} by {
        forall b | b in m.Values
          ensures b in n.Values + {m[j]}
        {
          var i :| i in m && m[i] == b;
          assert i != j ==> i in n && n[i] == b;
        }
      }
      assert m[j] !in n.Values;
      assert m.Keys == n.Keys + {j};
    }
  }

  lemma GoodPartition(boxes: set<Box>, st: State)
    requires Good(boxes, st)
    ensures Idle(boxes, st) + st.inFlight.Values + st.failed == boxes
    ensures Idle(boxes, st) !! st.inFlight.Values && (Idle(boxes, st) + st.inFlight.Values) !! st.failed
  {
    forall b | b in boxes
      ensures b in Idle(boxes, st) + st.inFlight.Values + st.failed
    {
      assert st.status[Some(b)] <==> Held(st, b) || b in st.failed;
    }
  }

  lemma GoodAddsUp(boxes: set<Box>, st: State)
    requires Good(boxes, st)
    ensures |Idle(boxes, st)| + |st.inFlight| + |st.failed| == |boxes|
  {
    ValuesCount(st.inFlight);
    GoodPartition(boxes, st);
    hide Good, Idle, NoSharing;
    assert |Idle(boxes, st) + st.inFlight.Values| == |Idle(boxes, st)| + |st.inFlight.Values|;
  }

  /** Sandboxes are neither lost nor made: idle, in flight and failed add up to the initial number. */
  lemma SandboxesAddUp(boxes: set<Box>, es: seq<Event>)
    requires Possible(boxes, es)
    ensures var st := After(boxes, es);
            |Idle(boxes, st)| + |st.inFlight| + |st.failed| == |boxes|
  {
    RunIsGood(boxes, es);
    GoodAddsUp(boxes, After(boxes, es));
  }

  // ---- What happened, read off the steps alone ----

  /** Which job has which sandbox. */
  function Holding(es: seq<Event>): map<Job, Box> {
    if es == [] then map[]
    else
      var before := Holding(es[..|es| - 1]);
      match es[|es| - 1]
      case Acquire(_, None) => before
      case Acquire(job, Some(b)) => before[job := b]
      case Succeed(job) => before - {job}
      case Fail(job) => before - {job}
  }

  /** The sandboxes on which a job failed. */
  function Lost(es: seq<Event>): set<Box> {
    if es == [] then {}
    else
      var before := es[..|es| - 1];
      match es[|es| - 1]
      case Acquire(_, _) => Lost(before)
      case Succeed(_) => Lost(before)
      case Fail(job) => if job in Holding(before) then Lost(before) + {Holding(before)[job]} else Lost(before)
  }

  predicate Refused(es: seq<Event>) {
    exists i | 0 <= i < |es| :: es[i].Acquire? && es[i].box == None
  }

  /**
    * In every interleaving a sandbox is marked exactly while a job has it or after a job failed on it,
    * and nil is in the map exactly after a refusal.
    */
  lemma {:induction false} MarksAreWhatHappened(boxes: set<Box>, es: seq<Event>)
    requires Possible(boxes, es)
    ensures var st := After(boxes, es);
            && st.inFlight == Holding(es) && st.failed == Lost(es)
            && (forall b | b in boxes ::
                  Some(b) in st.status && (st.status[Some(b)] <==> Held(st, b) || b in st.failed))
            && (None in st.status <==> Refused(es))
  {
    RunIsGood(boxes, es);
    if es != [] {
      var before := es[..|es| - 1];
      MarksAreWhatHappened(boxes, before);
      RefusedSoFar(es);
    }
  }

  lemma RefusedSoFar(es: seq<Event>)
    requires es != []
    ensures Refused(es) <==> Refused(es[..|es| - 1]) || (es[|es| - 1].Acquire? && es[|es| - 1].box == None)
  {
    var before := es[..|es| - 1];
    if i :| 0 <= i < |before| && before[i].Acquire? && before[i].box == None {
      assert es[i] == before[i];
    }
    if i :| 0 <= i < |es| - 1 && es[i].Acquire? && es[i].box == None {
      assert before[i] == es[i];
    }
  }

  /** A job is refused exactly when every sandbox is in flight or failed; otherwise it gets an idle one. */
  lemma RefusedExactlyWhenNoneIsIdle(boxes: set<Box>, es: seq<Event>)
    requires Possible(boxes, es) && es != [] && es[|es| - 1].Acquire?
    ensures var st, e := After(boxes, es[..|es| - 1]), es[|es| - 1];
            && (e.box == None <==> forall b | b in boxes :: Held(st, b) || b in st.failed)
            && (e.box.Some? ==> e.box.value in Idle(boxes, st))
  {
    RunIsGood(boxes, es[..|es| - 1]);
    var st, e := After(boxes, es[..|es| - 1]), es[|es| - 1];
    assert Enabled(st, e);
    forall b | b in boxes
      ensures Some(b) in st.status
    {
    }
    if e.box == None {
      assert AllBusy(st.status);
    } else {
      assert e.box.value in boxes;
    }
  }

  lemma {:induction false} PossiblePrefix(boxes: set<Box>, es: seq<Event>, i: nat)
    requires Possible(boxes, es) && i <= |es|
    ensures Possible(boxes, es[..i])
  {
    if i == |es| {
      assert es[..i] == es;
    } else {
      PossiblePrefix(boxes, es[..|es| - 1], i);
      assert es[..|es| - 1][..i] == es[..i];
    }
  }

  lemma {:induction false} FailedForGood(boxes: set<Box>, es: seq<Event>, i: nat)
    requires Possible(boxes, es) && i <= |es|
    ensures Possible(boxes, es[..i]) && After(boxes, es[..i]).failed <= After(boxes, es).failed
  {
    if i == |es| {
      assert es[..i] == es;
    } else {
      FailedForGood(boxes, es[..|es| - 1], i);
      assert es[..|es| - 1][..i] == es[..i];
    }
  }

  /** Once a call has failed on a sandbox, no later call gets that sandbox. */
  lemma FailedIsNeverHandedOut(boxes: set<Box>, es: seq<Event>, i: nat, j: nat)
    requires Possible(boxes, es) && i < j < |es| && es[i].Fail? && es[j].Acquire?
    ensures Possible(boxes, es[..i]) && Enabled(After(boxes, es[..i]), es[i])
    ensures es[j].box != Some(After(boxes, es[..i]).inFlight[es[i].job])
  {
    PossiblePrefix(boxes, es, i + 1);
    PossiblePrefix(boxes, es, j + 1);
    assert es[..i + 1][..i] == es[..i] && es[..j + 1][..j] == es[..j];
    var lost := After(boxes, es[..i]).inFlight[es[i].job];
    assert lost in After(boxes, es[..i + 1]).failed;
    FailedForGood(boxes, es[..j], i + 1);
    assert es[..j][..i + 1] == es[..i + 1];
    RunIsGood(boxes, es[..j]);
  }

  // ---- The manager ----

  class SandboxManager {
    var BoxStatusMap: map<Option<Box>, bool>
    ghost var InFlight: map<Job, Box>
    ghost var Failed: set<Box>

    /** With no sandboxes given, the code starts one of its own. */
    constructor (sandboxes: seq<Box>, own: Box)
      ensures AsState() == Start(if sandboxes == [] then {own} else Members(sandboxes))
    {
      var boxes := if |sandboxes| == 0 then [own] else sandboxes;
      var status: map<Option<Box>, bool> := map[];
      for i := 0 to |boxes|
        invariant status == map b | b in Members(boxes[..i]) :: Some(b) := false
      {
        assert boxes[..i + 1] == boxes[..i] + [boxes[i]];
        assert Members(boxes[..i + 1]) == Members(boxes[..i]) + {boxes[i]};
        status := status[Some(boxes[i]) := false];
      }
      assert boxes[..|boxes|] == boxes;
      assert sandboxes == [] ==> Members(boxes) == {own};
      BoxStatusMap := status;
      InFlight := map[];
      Failed := {};
    }

    ghost function AsState(): State
      reads this
    {
      State(BoxStatusMap, InFlight, Failed)
    }

    /** First critical section. Returns None, after marking nil, if nothing is idle. */
    method FindIdleSandbox(ghost job: Job) returns (b: Option<Box>)
      requires job !in InFlight
      modifies this
      ensures Enabled(old(AsState()), Acquire(job, b))
      ensures AsState() == Next(old(AsState()), Acquire(job, b))
    {
      b := None;
      var keys := BoxStatusMap.Keys;
      while keys != {}
        invariant keys <= BoxStatusMap.Keys
        invariant forall k | k in BoxStatusMap && k !in keys :: BoxStatusMap[k]
        invariant b == None
        decreases |keys|
      {
        var box :| box in keys;
        if !BoxStatusMap[box] {
          b := box;
          break;
        }
        keys := keys - {box};
      }
      BoxStatusMap := BoxStatusMap[b := true];
      if b.Some? {
        InFlight := InFlight[job := b.value];
      }
    }

    /** Second critical section, entered only if the sandbox ran the job without an error. */
    method Release(box: Box, ghost job: Job)
      requires job in InFlight && InFlight[job] == box
      modifies this
      ensures AsState() == Next(old(AsState()), Succeed(job))
    {
      BoxStatusMap := BoxStatusMap[Some(box) := false];
      InFlight := InFlight - {job};
    }

    /** A call ends: with an error it takes no lock and leaves the sandbox marked. */
    method Finish(box: Box, err: bool, ghost job: Job)
      requires job in InFlight && InFlight[job] == box
      modifies this
      ensures AsState() == Next(old(AsState()), if err then Fail(job) else Succeed(job))
    {
      if !err {
        Release(box, job);
      } else {
        InFlight := InFlight - {job};
        Failed := Failed + {box};
      }
    }
  }
}
