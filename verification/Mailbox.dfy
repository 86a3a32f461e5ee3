/**
 The actor's mailbox: a queue and one drain loop. A task is the list of state changes it makes
 between its awaits, and whether it ends by throwing. The drain loop's awaits are its phases:
 at rest, inside a task, or between a settled task and the next turn of the loop; anything may
 be posted in any of them. Whatever the interleaving, the shared state is that of the tasks
 run to their end one after another in the order they were posted.
 */
module Mailboxes {
  import opened Basics

  datatype Task<!S> = Task(steps: seq<S -> S>, rejects: bool)

  datatype Phase<!S> = AtRest | Inside(task: Task<S>, done: nat) | BetweenTasks

  /** The queue, the draining flag, where the loop is, the shared state, and what each task's poster was told. */
  datatype Box<!S> = Box(queue: seq<Task<S>>, draining: bool, phase: Phase<S>, state: S, outcomes: seq<bool>)

  datatype Action<!S> = Post(task: Task<S>) | Advance

  // --- One action ---

  /** A turn of the loop: take the next task, or stop draining. */
  function Turn<S>(b: Box<S>): Box<S> {
    if b.queue == [] then b.(draining := false, phase := AtRest)
    else b.(queue := b.queue[1..], phase := Inside(b.queue[0], 0))
  }

  function Posted<S>(b: Box<S>, task: Task<S>): Box<S> {
    var pushed := b.(queue := b.queue + [task]);
    if b.draining then pushed else Turn(pushed.(draining := true))
  }

  /** The running task makes its next change, or settles; a settled one lets the loop turn. */
  function Advanced<S>(b: Box<S>): Box<S> {
    match b.phase
    case AtRest => b
    case Inside(t, d) =>
      if d < |t.steps| then b.(state := t.steps[d](b.state), phase := Inside(t, d + 1))
      else b.(outcomes := b.outcomes + [t.rejects], phase := BetweenTasks)
    case BetweenTasks => Turn(b)
  }

  function Act<S>(b: Box<S>, a: Action<S>): Box<S> {
    match a
    case Post(t) => Posted(b, t)
    case Advance => Advanced(b)
  }

  function AfterActions<S>(b: Box<S>, actions: seq<Action<S>>): Box<S> {
    if actions == [] then b
    else Act(AfterActions(b, actions[..|actions| - 1]), actions[|actions| - 1])
  }

  class Mailbox<S(!new)> {
    var queue: seq<Task<S>>
    var draining: bool
    var phase: Phase<S>
    var state: S
    var outcomes: seq<bool>

    function Value(): Box<S>
      reads this
    {
      Box(queue, draining, phase, state, outcomes)
    }

    constructor (init: S)
      ensures Value() == Box([], false, AtRest, init, [])
    {
      queue, draining, phase, state, outcomes := [], false, AtRest, init, [];
    }

    method Post(task: Task<S>)
      modifies this
      ensures Value() == Posted(old(Value()), task)
    {
      queue := queue + [task];
      Drain();
    }

    method Drain()
      modifies this
      ensures Value() == if old(draining) then old(Value()) else Turn(old(Value()).(draining := true))
    {
      if draining { return; }
      draining := true;
      LoopTurn();
    }

    method LoopTurn()
      modifies this
      ensures Value() == Turn(old(Value()))
    {
      if |queue| > 0 {
        phase := Inside(queue[0], 0);
        queue := queue[1..];
      } else {
        draining := false;
        phase := AtRest;
      }
    }

    method Advance()
      modifies this
      ensures Value() == Advanced(old(Value()))
    {
      match phase {
        case AtRest =>
        case Inside(t, d) =>
          if d < |t.steps| {
            state := t.steps[d](state);
            phase := Inside(t, d + 1);
          } else {
            outcomes := outcomes + [t.rejects];
            phase := BetweenTasks;
          }
        case BetweenTasks => LoopTurn();
      }
    }
  }

  // --- Serial execution in post order ---

  function RunSteps<S>(s: S, steps: seq<S -> S>): S {
    if steps == [] then s
    else steps[|steps| - 1](RunSteps(s, steps[..|steps| - 1]))
  }

  function RunAll<S>(s: S, tasks: seq<Task<S>>): S {
    if tasks == [] then s
    else RunSteps(RunAll(s, tasks[..|tasks| - 1]), tasks[|tasks| - 1].steps)
  }

  function PostedIn<S>(actions: seq<Action<S>>): seq<Task<S>> {
    if actions == [] then []
    else
      var last := actions[|actions| - 1];
      PostedIn(actions[..|actions| - 1]) + (if last.Post? then [last.task] else [])
  }

  /**
   The first |outcomes| posted tasks have run to their end, one after another; at most the next
   one has begun; the rest wait in post order; and nothing waits unless the loop is draining.
   */
  ghost predicate Serial<S(!new)>(b: Box<S>, init: S, posted: seq<Task<S>>) {
    var k := |b.outcomes|;
    && k <= |posted|
    && (forall i :: 0 <= i < k ==> b.outcomes[i] == posted[i].rejects)
    && (b.draining <==> !b.phase.AtRest?)
    && match b.phase
       case AtRest => k == |posted| && b.queue == [] && b.state == RunAll(init, posted)
       case Inside(t, d) =>
         && k < |posted| && t == posted[k] && b.queue == posted[k + 1..]
         && d <= |t.steps| && b.state == RunSteps(RunAll(init, posted[..k]), t.steps[..d])
       case BetweenTasks => b.queue == posted[k..] && b.state == RunAll(init, posted[..k])
  }

  lemma TurnIsSerial<S(!new)>(b: Box<S>, init: S, posted: seq<Task<S>>)
    requires |b.outcomes| <= |posted| && b.draining && b.queue == posted[|b.outcomes|..]
    requires forall i :: 0 <= i < |b.outcomes| ==> b.outcomes[i] == posted[i].rejects
    requires b.state == RunAll(init, posted[..|b.outcomes|])
    ensures Serial(Turn(b), init, posted)
  {
    if b.queue == [] {
      assert posted[..|b.outcomes|] == posted;
    } else {
      assert posted[|b.outcomes|].steps[..0] == [];
    }
  }

  lemma PostIsSerial<S(!new)>(b: Box<S>, init: S, posted: seq<Task<S>>, task: Task<S>)
    requires Serial(b, init, posted)
    ensures Serial(Posted(b, task), init, posted + [task])
  {
    var all, k := posted + [task], |b.outcomes|;
    assert all[..k] == posted[..k];
    match b.phase
    case AtRest =>
      assert posted[..k] == posted;
      TurnIsSerial(b.(queue := b.queue + [task], draining := true), init, all);
    case Inside(_, _) => assert all[k + 1..] == posted[k + 1..] + [task];
    case BetweenTasks => assert all[k..] == posted[k..] + [task];
  }

  lemma AdvanceIsSerial<S(!new)>(b: Box<S>, init: S, posted: seq<Task<S>>)
    requires Serial(b, init, posted)
    ensures Serial(Advanced(b), init, posted)
  {
    var k := |b.outcomes|;
    match b.phase
    case AtRest =>
    case Inside(t, d) =>
      if d < |t.steps| {
        assert t.steps[..d + 1][..d] == t.steps[..d];
      } else {
        assert t.steps[..d] == t.steps;
        assert posted[..k + 1][..k] == posted[..k];
      }
    case BetweenTasks => TurnIsSerial(b, init, posted);
  }

  /** Any interleaving of posts and progress: one task at a time, in post order, none lost. */
  lemma {:induction false} AlwaysSerial<S(!new)>(init: S, actions: seq<Action<S>>)
    ensures Serial(AfterActions(Box([], false, AtRest, init, []), actions), init, PostedIn(actions))
  {
    var b0 := Box([], false, AtRest, init, []);
    if actions != [] {
      var n := |actions| - 1;
      AlwaysSerial(init, actions[..n]);
      var b, posted := AfterActions(b0, actions[..n]), PostedIn(actions[..n]);
      match actions[n]
      case Post(t) => PostIsSerial(b, init, posted, t);
      case Advance =>
        AdvanceIsSerial(b, init, posted);
        assert posted + [] == posted;
    }
  }

  /** A waiting task always has a drain loop at work: no wake-up is lost, whenever it was posted. */
  lemma NoLostWakeup<S(!new)>(init: S, actions: seq<Action<S>>)
    ensures
      var b := AfterActions(Box([], false, AtRest, init, []), actions);
      b.queue != [] ==> b.draining && !b.phase.AtRest?
  {
    AlwaysSerial(init, actions);
  }

  // --- Everything posted gets done ---

  /** How many advances are left until the mailbox is at rest. */
  function Work<S>(b: Box<S>): nat {
    QueueWork(b.queue) +
    match b.phase
    case AtRest => 0
    case Inside(t, d) => Max(|t.steps| - d, 0) + 2
    case BetweenTasks => 1
  }

  function QueueWork<S>(queue: seq<Task<S>>): nat {
    if queue == [] then 0 else |queue[0].steps| + 2 + QueueWork(queue[1..])
  }

  function AdvancedBy<S>(b: Box<S>, n: nat): Box<S>
    decreases n
  {
    if n == 0 then b else AdvancedBy(Advanced(b), n - 1)
  }

  /**
   Left alone, the mailbox comes to rest in a known number of steps with every posted task run
   to its end and every poster told its own task's outcome; a task that throws delays nobody.
   */
  lemma {:induction false} EverythingSettles<S(!new)>(b: Box<S>, init: S, posted: seq<Task<S>>)
    requires Serial(b, init, posted)
    ensures
      var r := AdvancedBy(b, Work(b));
      && r.phase.AtRest? && r.state == RunAll(init, posted)
      && |r.outcomes| == |posted| && forall i :: 0 <= i < |posted| ==> r.outcomes[i] == posted[i].rejects
    decreases Work(b)
  {
    if !b.phase.AtRest? {
      AdvanceIsSerial(b, init, posted);
      assert Work(Advanced(b)) == Work(b) - 1;
      EverythingSettles(Advanced(b), init, posted);
    }
  }
}
