/**
 * The window manager of src/manager.rs: a step function `Step` that says what
 * processing one received action does, the class `ManagerState` whose methods
 * do it in place, and the processing loop `StartManager` with its
 * specification `Run`.
 */
module Manager {
  import opened Wrappers
  import opened Protocol
  import opened WindowsApi
  import opened Registry

  /** The `Result<(), String>` of processing one action. */
  datatype Status = Ok | Err(message: string)

  const StartedError := "Error sending started reply"
  const StoppedError := "Error sending stopped reply"
  const CurrentHwndsError := "Error sending current managed hwnds reply"
  const StateError := "Error sending state reply"

  /**
   * What processing one action does: the new state, the `SetWindowPos`
   * requests issued, the reply handed to the sender (if any) and the result.
   */
  datatype Effect = Effect(state: Snapshot, moves: seq<Move>, reply: Option<Reply>, result: Status)

  /** Publishing on the watch channel fails exactly when no receiver is left. */
  function Send(hasReceivers: bool, context: string): Status
  {
    if hasReceivers then Ok else Err(context)
  }

  /** Reply with the current handles, in list order. */
  function ReplyCurrent(s: Snapshot, moves: seq<Move>, hasReceivers: bool): Effect
  {
    Effect(s, moves, Some(CurrentManagedHwnds(Hwnds(s.windows))), Send(hasReceivers, CurrentHwndsError))
  }

  /** Manage `hwnd` unless its rectangle cannot be read or it is already managed. */
  function AddHwnd(s: Snapshot, hwnd: Hwnd, host: Host, hasReceivers: bool): Effect
  {
    match host.windowRect(hwnd)
    case None => Effect(s, [], None, Ok)
    case Some(rect) =>
      if IsManaged(s.windows, hwnd) then Effect(s, [], None, Ok)
      else ReplyCurrent(s.(windows := s.windows + [WindowState(hwnd, rect.left, rect.top)]), [], hasReceivers)
  }

  /** Processing one result of `recv()`. */
  function Step(s: Snapshot, received: Option<Action>, host: Host, hasReceivers: bool): Effect
  {
    match received
    case None => Effect(s, [], None, Ok)
    case Some(action) =>
      match action
      case Start => Effect(s.(started := true), [], Some(Started), Send(hasReceivers, StartedError))
      case Stop => Effect(s.(started := false), [], Some(Stopped), Send(hasReceivers, StoppedError))
      case Capture =>
        (match host.cursorPos
         case None => Effect(s, [], None, Ok)
         case Some(point) => AddHwnd(s, host.rootAncestor(host.windowFromPoint(point)), host, hasReceivers))
      case Add(hwnd) => AddHwnd(s, hwnd, host, hasReceivers)
      case Remove(hwnd) => ReplyCurrent(s.(windows := Discard(s.windows, [hwnd])), [], hasReceivers)
      case RemoveAll => ReplyCurrent(s.(windows := []), [], hasReceivers)
      case Update(offset) =>
        if !s.started then Effect(s, [], None, Ok)
        else
          var moves := Targets(s.windows, offset);
          var failed := FailedHwnds(s.windows, offset, host.setWindowPos);
          if |failed| == 0 then Effect(s, moves, None, Ok)
          else ReplyCurrent(s.(windows := Discard(s.windows, failed)), moves, hasReceivers)
      case Refresh =>
        Effect(s, [], Some(Reply.Refresh(s.started, Hwnds(s.windows))), Send(hasReceivers, StateError))
  }

  lemma {:induction false} StepKeepsNoDuplicates(s: Snapshot, received: Option<Action>, host: Host, hasReceivers: bool)
    requires NoDuplicates(s.windows)
    ensures NoDuplicates(Step(s, received, host, hasReceivers).state.windows)
  {
    match received
    case None =>
    case Some(action) =>
      match action
      case Capture =>
        if host.cursorPos.Some? {
          var root := host.rootAncestor(host.windowFromPoint(host.cursorPos.value));
          if host.windowRect(root).Some? && !IsManaged(s.windows, root) {
            var rect := host.windowRect(root).value;
            AppendKeepsNoDuplicates(s.windows, WindowState(root, rect.left, rect.top));
          }
        }
      case Add(hwnd) =>
        if host.windowRect(hwnd).Some? && !IsManaged(s.windows, hwnd) {
          var rect := host.windowRect(hwnd).value;
          AppendKeepsNoDuplicates(s.windows, WindowState(hwnd, rect.left, rect.top));
        }
      case Remove(hwnd) =>
        DiscardKeepsNoDuplicates(s.windows, [hwnd]);
      case Update(offset) =>
        DiscardKeepsNoDuplicates(s.windows, FailedHwnds(s.windows, offset, host.setWindowPos));
      case _ =>
  }

  /**
   * The `for` loop of an update: ask every managed window, in order, to move
   * to its recorded position plus the offset, and collect the handles whose
   * move failed.
   */
  method MoveAll(windows: seq<WindowState>, offset: UpdatePayload, setWindowPos: Move -> bool)
    returns (moves: seq<Move>, toBeRemoved: seq<Hwnd>)
    ensures moves == Targets(windows, offset)
    ensures toBeRemoved == FailedHwnds(windows, offset, setWindowPos)
  {
    moves, toBeRemoved := [], [];
    for i := 0 to |windows|
      invariant moves == Targets(windows[..i], offset)
      invariant toBeRemoved == FailedHwnds(windows[..i], offset, setWindowPos)
    {
      var w := windows[i];
      var move := Target(w, offset);
      PassExtends(windows, i, offset, setWindowPos);
      if !setWindowPos(move) {
        toBeRemoved := toBeRemoved + [w.hwnd];
      }
      moves := moves + [move];
    }
    assert windows[..|windows|] == windows;
  }

  /** The manager's state: the started flag and the managed windows, in the order they were added. */
  class ManagerState {
    var started: bool
    var managedWindows: seq<WindowState>

    /** No handle is managed twice. */
    ghost predicate Valid()
      reads this
    {
      NoDuplicates(managedWindows)
    }

    function View(): Snapshot
      reads this
    {
      Snapshot(started, managedWindows)
    }

    constructor ()
      ensures Valid()
      ensures View() == Snapshot(false, [])
    {
      started := false;
      managedWindows := [];
    }

    /** Process one result of `recv()`, as `Step` says. */
    method ProcessAction(received: Option<Action>, host: Host, hasReceivers: bool)
      returns (reply: Option<Reply>, moves: seq<Move>, result: Status)
      requires Valid()
      modifies this
      ensures Valid()
      ensures var e := Step(old(View()), received, host, hasReceivers);
        View() == e.state && moves == e.moves && reply == e.reply && result == e.result
    {
      ghost var before := View();
      moves := [];
      match received {
        case None =>
          reply, result := None, Ok;
        case Some(action) =>
          match action {
            case Start =>
              started := true;
              reply, result := Some(Started), Send(hasReceivers, StartedError);
            case Stop =>
              started := false;
              reply, result := Some(Stopped), Send(hasReceivers, StoppedError);
            case Capture =>
              match host.cursorPos {
                case None =>
                  reply, result := None, Ok;
                case Some(point) =>
                  var hwnd := host.windowFromPoint(point);
                  var root := host.rootAncestor(hwnd);
                  reply, result := AddHwndReplyCurrent(root, host, hasReceivers);
              }
            case Add(hwnd) =>
              reply, result := AddHwndReplyCurrent(hwnd, host, hasReceivers);
            case Remove(hwnd) =>
              managedWindows := Discard(managedWindows, [hwnd]);
              reply, result := ReplyCurrentManagedHwnds(hasReceivers);
            case RemoveAll =>
              managedWindows := [];
              reply, result := ReplyCurrentManagedHwnds(hasReceivers);
            case Update(offset) =>
              if !started {
                reply, result := None, Ok;
              } else {
                var toBeRemoved;
                moves, toBeRemoved := MoveAll(managedWindows, offset, host.setWindowPos);
                if |toBeRemoved| == 0 {
                  reply, result := None, Ok;
                } else {
                  managedWindows := Discard(managedWindows, toBeRemoved);
                  reply, result := ReplyCurrentManagedHwnds(hasReceivers);
                }
              }
            case Refresh =>
              reply := Some(Reply.Refresh(started, Hwnds(managedWindows)));
              result := Send(hasReceivers, StateError);
          }
      }
      StepKeepsNoDuplicates(before, received, host, hasReceivers);
    }

    /** Manage `hwnd` with its current top-left corner as reference, unless that cannot be read or it is managed already. */
    method AddHwndReplyCurrent(hwnd: Hwnd, host: Host, hasReceivers: bool) returns (reply: Option<Reply>, result: Status)
      requires Valid()
      modifies this
      ensures Valid()
      ensures var e := AddHwnd(old(View()), hwnd, host, hasReceivers);
        View() == e.state && reply == e.reply && result == e.result
    {
      match host.windowRect(hwnd) {
        case None =>
          reply, result := None, Ok;
        case Some(rect) =>
          if IsManaged(managedWindows, hwnd) {
            reply, result := None, Ok;
          } else {
            var windowState := WindowState(hwnd, rect.left, rect.top);
            AppendKeepsNoDuplicates(managedWindows, windowState);
            managedWindows := managedWindows + [windowState];
            reply, result := ReplyCurrentManagedHwnds(hasReceivers);
          }
      }
    }

    /** Publish the managed handles, in list order. */
    method ReplyCurrentManagedHwnds(hasReceivers: bool) returns (reply: Option<Reply>, result: Status)
      ensures reply == Some(CurrentManagedHwnds(Hwnds(managedWindows)))
      ensures result.Ok? <==> hasReceivers
      ensures result == ReplyCurrent(View(), [], hasReceivers).result
    {
      reply := Some(CurrentManagedHwnds(Hwnds(managedWindows)));
      result := Send(hasReceivers, CurrentHwndsError);
    }
  }

  /** The inputs of one turn of the processing loop. */
  datatype Tick = Tick(received: Option<Action>, host: Host, hasReceivers: bool)

  /**
   * The end of a run: the last state, the replies published and the moves
   * requested, both in order, and whether the loop broke on an error.
   */
  datatype RunResult = RunResult(state: Snapshot, published: seq<Reply>, moves: seq<Move>, aborted: bool)

  /** What a successful send puts on the watch channel. */
  function Sent(reply: Option<Reply>): seq<Reply>
  {
    match reply
    case None => []
    case Some(r) => [r]
  }

  /** One turn of the loop: process what `recv()` returned. */
  function TickStep(s: Snapshot, tick: Tick): Effect
  {
    Step(s, tick.received, tick.host, tick.hasReceivers)
  }

  /**
   * The loop of `start_manager` over any one-action step: process the ticks
   * in order and stop at the first error.
   */
  function Loop(step: (Snapshot, Tick) -> Effect, s: Snapshot, ticks: seq<Tick>): RunResult
    decreases |ticks|
  {
    if ticks == [] then RunResult(s, [], [], false)
    else
      var e := step(s, ticks[0]);
      if e.result.Err? then RunResult(e.state, [], e.moves, true)
      else
        var rest := Loop(step, e.state, ticks[1..]);
        RunResult(rest.state, Sent(e.reply) + rest.published, e.moves + rest.moves, rest.aborted)
  }

  /** The manager's loop: `Loop` over `Step`. */
  function Run(s: Snapshot, ticks: seq<Tick>): RunResult
  {
    Loop(TickStep, s, ticks)
  }

  /** How a run that processes at least one tick begins. */
  lemma RunFirst(s: Snapshot, ticks: seq<Tick>, e: Effect)
    requires ticks != []
    requires e == Step(s, ticks[0].received, ticks[0].host, ticks[0].hasReceivers)
    ensures e.result.Err? ==> Run(s, ticks) == RunResult(e.state, [], e.moves, true)
    ensures e.result.Ok? ==>
      var rest := Run(e.state, ticks[1..]);
      Run(s, ticks) == RunResult(rest.state, Sent(e.reply) + rest.published, e.moves + rest.moves, rest.aborted)
  {
    assert TickStep(s, ticks[0]) == e;
  }

  /** The processing loop, from the initial state, over a finite sequence of ticks. */
  method StartManager(ticks: seq<Tick>)
    returns (final: Snapshot, published: seq<Reply>, moves: seq<Move>, aborted: bool)
    ensures RunResult(final, published, moves, aborted) == Run(Snapshot(false, []), ticks)
  {
    var state := new ManagerState();
    published, moves, aborted := [], [], false;
    var i := 0;
    while i < |ticks|
      invariant 0 <= i <= |ticks|
      invariant state.Valid()
      invariant var rest := Run(state.View(), ticks[i..]);
        Run(Snapshot(false, []), ticks)
        == RunResult(rest.state, published + rest.published, moves + rest.moves, rest.aborted)
    {
      var tick := ticks[i];
      ghost var before := state.View();
      var reply, stepMoves, result := state.ProcessAction(tick.received, tick.host, tick.hasReceivers);
      RunFirst(before, ticks[i..], Effect(state.View(), stepMoves, reply, result));
      assert ticks[i..][1..] == ticks[i + 1..];
      ghost var prefix := moves;
      moves := moves + stepMoves;
      if result.Err? {
        aborted := true;
        break;
      }
      ghost var rest := Run(state.View(), ticks[i + 1..]);
      assert published + (Sent(reply) + rest.published) == (published + Sent(reply)) + rest.published;
      assert prefix + (stepMoves + rest.moves) == moves + rest.moves;
      published := published + Sent(reply);
      i := i + 1;
    }
    final := state.View();
  }
}
