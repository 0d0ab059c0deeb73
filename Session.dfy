/** The session reducer of src/components/Session/Session.tsx. */
module Session {
  import opened Models

  /** `State`: waiting for a task, or editing one. */
  datatype State = Idle | InProgress(task: Task)

  /** `Action`: the three dispatched messages. */
  datatype Action = RequestTask | SetTask(task: Task) | PublishTask

  /** The state `useReducer` starts from. */
  const InitialState: State := Idle

  /**
   * `reducer`: `set-task` starts editing exactly the given task; every other
   * action returns to idle, dropping a task in progress. The prior state is
   * never consulted.
   */
  function Reducer(state: State, action: Action): (next: State)
    ensures action.SetTask? <==> next.InProgress?
    ensures next.InProgress? ==> next.task == action.task
  {
    match action
    case SetTask(task) => InProgress(task)
    case _ => Idle
  }

  /** The reducer ignores its state argument. */
  lemma ReducerIgnoresState(s1: State, s2: State, action: Action)
    ensures Reducer(s1, action) == Reducer(s2, action)
  {
  }

  /** The state after dispatching `actions` in order. */
  function Run(state: State, actions: seq<Action>): State
    decreases |actions|
  {
    if |actions| == 0 then state else Run(Reducer(state, actions[0]), actions[1..])
  }

  /** After any non-empty run of actions, the state is decided by the last action alone. */
  lemma {:induction false} LastActionDecides(state: State, actions: seq<Action>)
    requires |actions| > 0
    ensures Run(state, actions) == Reducer(Idle, actions[|actions| - 1])
    decreases |actions|
  {
    if |actions| > 1 {
      LastActionDecides(Reducer(state, actions[0]), actions[1..]);
    }
  }

  /**
   * `requestNewTask`: dispatch `request-task` (back to idle while the task is
   * fetched), then `set-task` with the fetched task.
   */
  function RequestNewTask(state: State, fetched: Task): (states: (State, State))
    ensures states.0 == Idle
    ensures states.1 == InProgress(fetched)
  {
    var waiting := Reducer(state, RequestTask);
    (waiting, Reducer(waiting, SetTask(fetched)))
  }

  /**
   * A session starts idle and is editing after a run of dispatches exactly
   * when the last one was `set-task`, with that task.
   */
  lemma FromInitialState(actions: seq<Action>)
    ensures Run(InitialState, actions).InProgress? <==> |actions| > 0 && actions[|actions| - 1].SetTask?
    ensures Run(InitialState, actions).InProgress? ==> Run(InitialState, actions).task == actions[|actions| - 1].task
  {
    if |actions| > 0 {
      LastActionDecides(InitialState, actions);
    }
  }

  /** Publishing, or asking for another task, leaves editing. */
  lemma LeavingEditing(task: Task)
    ensures Reducer(InProgress(task), PublishTask) == Idle
    ensures Reducer(InProgress(task), RequestTask) == Idle
  {
  }
}
