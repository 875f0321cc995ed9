/** The game-state stack: the engine keeps a stack of game states, hands
    each frame's key presses and then the frame's time step to the state on
    top, and pushes, pops or replaces states as their answers say. The states
    themselves are opaque: what a state answers to a key or a time step is
    given by two functions, and initialising and rendering a state are
    recorded rather than performed. */
module GameState {
  import Input

  /** `StateTransition`: exactly one of None, Push, Pop and Transition; Push
      and Transition carry the new state. */
  datatype StateTransition<S> = None | Push(state: S) | Pop | Transition(state: S)

  /** The stack after a transition: None keeps it, Pop removes the top, Push
      puts a new state on top and Transition replaces the top. */
  function Apply<S>(stack: seq<S>, t: StateTransition<S>): seq<S>
    requires |stack| > 0 || t.None? || t.Push?
  {
    match t
    case None => stack
    case Pop => stack[..|stack| - 1]
    case Push(s) => stack + [s]
    case Transition(s) => stack[|stack| - 1 := s]
  }

  /** What each transition does to the stack, in terms of its size, the
      states kept below the top and the new top. */
  lemma ApplySpec<S>(stack: seq<S>, t: StateTransition<S>)
    requires |stack| > 0
    ensures var r := Apply(stack, t);
      && (t.None? ==> r == stack)
      && (t.Pop? ==> r + [stack[|stack| - 1]] == stack)
      && (t.Push? ==> |r| == |stack| + 1 && r[..|stack|] == stack && r[|stack|] == t.state)
      && (t.Transition? ==>
            |r| == |stack| && r[..|stack| - 1] == stack[..|stack| - 1] && r[|stack| - 1] == t.state)
  {
    if t.Pop? {
      assert stack[..|stack| - 1] + [stack[|stack| - 1]] == stack;
    }
    if t.Push? {
      assert (stack + [t.state])[..|stack|] == stack;
    }
  }

  /** A Transition is a Pop followed by a Push, in one step: even on a
      stack of one state, where a Pop on its own would end the main loop. */
  lemma TransitionIsPopThenPush<S>(stack: seq<S>, s: S)
    requires |stack| > 0
    ensures Apply(stack, Transition(s)) == Apply(Apply(stack, Pop), Push(s))
  {
    assert stack[|stack| - 1 := s] == stack[..|stack| - 1] + [s];
  }

  /** The input loop: keys are taken from the back of the queue (the most
      recent first), each is removed as it is handled, and the first answer
      that is not None stops the loop. Answers the transition (None if every
      key was answered None) and what is left of the queue. */
  function Drain<S>(top: S, queue: seq<Input.InputEvent>, handle: (S, Input.InputEvent) -> StateTransition<S>)
    : (StateTransition<S>, seq<Input.InputEvent>)
    decreases |queue|
  {
    if |queue| == 0 then (None, queue)
    else
      var t := handle(top, queue[|queue| - 1]);
      if t.None? then Drain(top, queue[..|queue| - 1], handle) else (t, queue[..|queue| - 1])
  }

  /** What is left of the queue is a front part of it; every key behind that
      part was handled, the last one handled being the one that answered the
      transition; the result is None exactly when the whole queue was drained
      with every key answered None. */
  lemma {:induction false} DrainSpec<S>(top: S, queue: seq<Input.InputEvent>,
                                        handle: (S, Input.InputEvent) -> StateTransition<S>)
    ensures var (t, rest) := Drain(top, queue, handle);
      && |rest| <= |queue| && rest == queue[..|rest|]
      && (forall k :: |rest| < k < |queue| ==> handle(top, queue[k]).None?)
      && (t.None? <==> rest == [] && forall k :: 0 <= k < |queue| ==> handle(top, queue[k]).None?)
      && (!t.None? ==> |rest| < |queue| && t == handle(top, queue[|rest|]))
    decreases |queue|
  {
    if |queue| > 0 {
      var n := |queue| - 1;
      DrainSpec(top, queue[..n], handle);
      var (t, rest) := Drain(top, queue[..n], handle);
      assert queue[..n][..|rest|] == queue[..|rest|];
    }
  }

  /** What one frame decides: the transition, what is left of the queue and
      whether the top state is rendered. */
  datatype Decision<S> = Decision(trans: StateTransition<S>, rest: seq<Input.InputEvent>, render: bool)

  /** One frame's decision: the input loop first; if every key answered None,
      the state's update decides, and the state is rendered only if that
      answered None too. */
  function Decide<S>(top: S, queue: seq<Input.InputEvent>, dt: real,
                     handle: (S, Input.InputEvent) -> StateTransition<S>,
                     update: (S, real) -> StateTransition<S>): Decision<S>
  {
    var (t, rest) := Drain(top, queue, handle);
    if !t.None? then Decision(t, rest, false)
    else Decision(update(top, dt), rest, update(top, dt).None?)
  }

  /** A frame whose input answers a transition neither updates nor renders;
      the state is rendered exactly when every key and the update answered
      None, and only then does the stack stay as it is. */
  lemma DecideSpec<S>(top: S, queue: seq<Input.InputEvent>, dt: real,
                      handle: (S, Input.InputEvent) -> StateTransition<S>,
                      update: (S, real) -> StateTransition<S>)
    ensures var d := Decide(top, queue, dt, handle, update);
      && (d.render <==> (forall k :: 0 <= k < |queue| ==> handle(top, queue[k]).None?) && update(top, dt).None?)
      && (d.render <==> d.trans.None?)
      && (!Drain(top, queue, handle).0.None? ==> d.trans == Drain(top, queue, handle).0)
  {
    DrainSpec(top, queue, handle);
  }

  /** What the engine has done so far: the stack, and the states it has
      initialised and rendered, in order. */
  datatype Trace<S> = Trace(states: seq<S>, initialized: seq<S>, rendered: seq<S>)

  /** One frame of the main loop on a non-empty stack: the top state at the
      start of the frame is the one that handles input, updates and renders;
      the stack changes by the frame's transition; a pushed or replacing
      state is initialised. */
  function Frame<S>(tr: Trace<S>, queue: seq<Input.InputEvent>, dt: real,
                    handle: (S, Input.InputEvent) -> StateTransition<S>,
                    update: (S, real) -> StateTransition<S>): (r: Trace<S>)
    requires |tr.states| > 0
  {
    var top := tr.states[|tr.states| - 1];
    var d := Decide(top, queue, dt, handle, update);
    var stack := Apply(tr.states, d.trans);
    Trace(stack,
          tr.initialized + (if d.trans.Push? || d.trans.Transition? then [d.trans.state] else []),
          tr.rendered + (if d.render then [top] else []))
  }

  /** The main loop over a run of frames, each with the keys pressed since
      the previous one and its time step; it stops early when the stack
      becomes empty. */
  function RunFrames<S>(tr: Trace<S>, frames: seq<(seq<Input.InputEvent>, real)>,
                        handle: (S, Input.InputEvent) -> StateTransition<S>,
                        update: (S, real) -> StateTransition<S>): Trace<S>
    decreases |frames|
  {
    if |frames| == 0 || |tr.states| == 0 then tr
    else RunFrames(Frame(tr, frames[0].0, frames[0].1, handle, update), frames[1..], handle, update)
  }

  /** The stack only shrinks by a Pop, so it empties only when a Pop removes
      its last state; states are initialised only when pushed or swapped in,
      and each frame renders at most one state. */
  lemma FrameSpec<S>(tr: Trace<S>, queue: seq<Input.InputEvent>, dt: real,
                     handle: (S, Input.InputEvent) -> StateTransition<S>,
                     update: (S, real) -> StateTransition<S>)
    requires |tr.states| > 0
    ensures var r := Frame(tr, queue, dt, handle, update);
      var d := Decide(tr.states[|tr.states| - 1], queue, dt, handle, update);
      && (|r.states| == 0 <==> d.trans.Pop? && |tr.states| == 1)
      && |r.states| == |tr.states| + (if d.trans.Push? then 1 else if d.trans.Pop? then -1 else 0)
      && |r.initialized| <= |tr.initialized| + 1 && |r.rendered| <= |tr.rendered| + 1
      && (|r.initialized| == |tr.initialized| + 1 ==> r.states[|r.states| - 1] == r.initialized[|r.initialized| - 1])
      && (|r.rendered| == |tr.rendered| + 1 ==> r.states == tr.states)
  {
    ApplySpec(tr.states, Decide(tr.states[|tr.states| - 1], queue, dt, handle, update).trans);
  }

  /** The engine: the stack of game states and the record of what it has
      initialised and rendered. */
  class Core<S> {
    var states: seq<S>
    var initialized: seq<S>
    var rendered: seq<S>

    function Snapshot(): Trace<S>
      reads this
    {
      Trace(states, initialized, rendered)
    }

    /** `Core::Core`: the stack holds exactly the initial state, which is not
        yet initialised. */
    constructor(initial: S)
      ensures states == [initial] && initialized == [] && rendered == []
    {
      states := [initial];
      initialized := [];
      rendered := [];
    }

    /** `setupState`: initialises the top state. */
    method SetupState()
      requires |states| > 0
      modifies this
      ensures states == old(states) && rendered == old(rendered)
      ensures initialized == old(initialized) + [states[|states| - 1]]
    {
      initialized := initialized + [states[|states| - 1]];
    }

    /** One pass of the main loop's body on the frame's keys: the input loop
        (jumping out on the first answer that is not None), then update and
        render, then the jump target that pops, pushes or replaces. Answers
        what is left of the queue and whether the loop goes on. */
    method RunFrame(queue: seq<Input.InputEvent>, dt: real,
                    handle: (S, Input.InputEvent) -> StateTransition<S>,
                    update: (S, real) -> StateTransition<S>)
      returns (rest: seq<Input.InputEvent>, running: bool)
      requires |states| > 0
      modifies this
      ensures Snapshot() == Frame(old(Snapshot()), queue, dt, handle, update)
      ensures rest == Decide(old(states)[|old(states)| - 1], queue, dt, handle, update).rest
      ensures running <==> |states| > 0
    {
      var current := |states| - 1;
      var top := states[current];
      var trans: StateTransition<S> := None;
      rest := queue;
      while |rest| > 0 && trans.None?
        invariant rest == queue[..|rest|]
        invariant trans.None? ==> Drain(top, queue, handle) == Drain(top, rest, handle)
        invariant !trans.None? ==> Drain(top, queue, handle) == (trans, rest)
        decreases |rest|
      {
        var key := rest[|rest| - 1];
        rest := rest[..|rest| - 1];
        trans := handle(top, key);
      }
      if trans.None? {
        trans := update(top, dt);
        if trans.None? {
          rendered := rendered + [top];
        }
      }
      match trans {
        case None =>
        case Pop =>
          states := states[..|states| - 1];
        case Push(s) =>
          states := states + [s];
          SetupState();
        case Transition(s) =>
          states := states[current := s];
          SetupState();
      }
      running := |states| > 0;
    }

    /** `Core::run`: initialises the first state, then runs frames until the
        window closes (the frames run out) or the stack is empty. Each frame
        sees only the keys pressed since the previous frame. */
    method Run(frames: seq<(seq<Input.InputEvent>, real)>,
               handle: (S, Input.InputEvent) -> StateTransition<S>,
               update: (S, real) -> StateTransition<S>)
      requires |states| > 0
      modifies this
      ensures var start := old(Snapshot()).(initialized := old(initialized) + [old(states)[|old(states)| - 1]]);
        Snapshot() == RunFrames(start, frames, handle, update)
    {
      SetupState();
      var f := 0;
      while f < |frames|
        invariant 0 <= f <= |frames|
        invariant |states| > 0
        invariant RunFrames(old(Snapshot()).(initialized := old(initialized) + [old(states)[|old(states)| - 1]]),
                            frames, handle, update)
               == RunFrames(Snapshot(), frames[f..], handle, update)
      {
        var rest, running := RunFrame(frames[f].0, frames[f].1, handle, update);
        assert frames[f..][1..] == frames[f + 1..];
        if !running {
          return;
        }
        f := f + 1;
      }
    }
  }
}
