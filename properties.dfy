/**
 * What the window manager promises, stated over `Manager.Step` and
 * `Manager.Run` for all states, hosts and channel conditions.
 */
module ManagerProperties {
  import opened Wrappers
  import opened Protocol
  import opened WindowsApi
  import opened Registry
  import opened Manager

  /** Start and Stop only set the flag, and announce it. */
  lemma StartAndStop(s: Snapshot, host: Host, hasReceivers: bool)
    ensures var e := Step(s, Some(Start), host, hasReceivers);
      e.state == Snapshot(true, s.windows) && e.moves == [] && e.reply == Some(Started)
      && (e.result.Ok? <==> hasReceivers)
    ensures var e := Step(s, Some(Stop), host, hasReceivers);
      e.state == Snapshot(false, s.windows) && e.moves == [] && e.reply == Some(Stopped)
      && (e.result.Ok? <==> hasReceivers)
  {
  }

  /** No action other than Start and Stop changes the started flag. */
  lemma OnlyStartAndStopToggle(s: Snapshot, action: Action, host: Host, hasReceivers: bool)
    requires !action.Start? && !action.Stop?
    ensures Step(s, Some(action), host, hasReceivers).state.started == s.started
  {
  }

  /** Only Update asks windows to move. */
  lemma OnlyUpdateMoves(s: Snapshot, received: Option<Action>, host: Host, hasReceivers: bool)
    requires received.None? || !received.value.Update?
    ensures Step(s, received, host, hasReceivers).moves == []
  {
  }

  /** An empty `recv()` changes nothing and publishes nothing. */
  lemma NothingReceived(s: Snapshot, host: Host, hasReceivers: bool)
    ensures Step(s, None, host, hasReceivers) == Effect(s, [], None, Ok)
  {
  }

  /** Adding a handle that is already managed changes nothing and publishes nothing. */
  lemma AddManagedIsNoOp(s: Snapshot, hwnd: Hwnd, host: Host, hasReceivers: bool)
    requires hwnd in Hwnds(s.windows)
    ensures Step(s, Some(Add(hwnd)), host, hasReceivers) == Effect(s, [], None, Ok)
  {
  }

  /** Adding a window whose rectangle cannot be read changes nothing, publishes nothing and is not an error. */
  lemma AddWithoutRectIsNoOp(s: Snapshot, hwnd: Hwnd, host: Host, hasReceivers: bool)
    requires host.windowRect(hwnd).None?
    ensures Step(s, Some(Add(hwnd)), host, hasReceivers) == Effect(s, [], None, Ok)
  {
  }

  /** Capture without a cursor position changes nothing; with one it adds the root window under the cursor. */
  lemma CaptureAddsRootUnderCursor(s: Snapshot, host: Host, hasReceivers: bool)
    ensures host.cursorPos.None? ==> Step(s, Some(Capture), host, hasReceivers) == Effect(s, [], None, Ok)
    ensures host.cursorPos.Some? ==>
      var root := host.rootAncestor(host.windowFromPoint(host.cursorPos.value));
      Step(s, Some(Capture), host, hasReceivers) == Step(s, Some(Add(root)), host, hasReceivers)
  {
  }

  /**
   * A successful add appends exactly one record, holding the window's current
   * top-left corner, and publishes the handles in list order.
   */
  lemma {:induction false} SuccessfulAdd(s: Snapshot, hwnd: Hwnd, rect: Rect, host: Host, hasReceivers: bool)
    requires hwnd !in Hwnds(s.windows)
    requires host.windowRect(hwnd) == Some(rect)
    ensures var e := Step(s, Some(Add(hwnd)), host, hasReceivers);
      && e.state == Snapshot(s.started, s.windows + [WindowState(hwnd, rect.left, rect.top)])
      && e.moves == []
      && e.reply == Some(CurrentManagedHwnds(Hwnds(s.windows) + [hwnd]))
      && (e.result.Ok? <==> hasReceivers)
  {
    var w := WindowState(hwnd, rect.left, rect.top);
    HwndsAppend(s.windows, [w]);
    assert Hwnds([w]) == [hwnd];
  }

  /**
   * Adding the same handle twice: once the first add has read the rectangle,
   * the handle is managed exactly once and the second add is a no-op.
   */
  lemma {:induction false} AddTwiceKeepsOneEntry(s: Snapshot, hwnd: Hwnd, host1: Host, host2: Host,
                                                 hasReceivers1: bool, hasReceivers2: bool)
    requires NoDuplicates(s.windows)
    requires host1.windowRect(hwnd).Some?
    ensures var s1 := Step(s, Some(Add(hwnd)), host1, hasReceivers1).state;
      && hwnd in Hwnds(s1.windows)
      && NoDuplicates(s1.windows)
      && Step(s1, Some(Add(hwnd)), host2, hasReceivers2) == Effect(s1, [], None, Ok)
  {
    var s1 := Step(s, Some(Add(hwnd)), host1, hasReceivers1).state;
    StepKeepsNoDuplicates(s, Some(Add(hwnd)), host1, hasReceivers1);
    if hwnd !in Hwnds(s.windows) {
      SuccessfulAdd(s, hwnd, host1.windowRect(hwnd).value, host1, hasReceivers1);
      HwndsAppend(s.windows, [s1.windows[|s.windows|]]);
    }
  }

  /**
   * Remove deletes every record with the handle, keeps every other record,
   * and publishes the remaining handles in list order; removing a handle
   * that is not managed leaves the list as it was.
   */
  lemma {:induction false} RemoveDeletesHandle(s: Snapshot, hwnd: Hwnd, host: Host, hasReceivers: bool)
    ensures var e := Step(s, Some(Remove(hwnd)), host, hasReceivers);
      && e.state.started == s.started
      && e.state.windows == Discard(s.windows, [hwnd])
      && hwnd !in Hwnds(e.state.windows)
      && (forall w :: w in e.state.windows <==> w in s.windows && w.hwnd != hwnd)
      && e.moves == []
      && e.reply == Some(CurrentManagedHwnds(Hwnds(e.state.windows)))
      && (e.result.Ok? <==> hasReceivers)
    ensures hwnd !in Hwnds(s.windows) ==> Step(s, Some(Remove(hwnd)), host, hasReceivers).state == s
  {
    var r := Discard(s.windows, [hwnd]);
    forall k | 0 <= k < |r| ensures Hwnds(r)[k] != hwnd {
      assert r[k] in r;
    }
    if hwnd !in Hwnds(s.windows) {
      forall w | w in s.windows ensures w.hwnd !in [hwnd] {
        var k :| 0 <= k < |s.windows| && s.windows[k] == w;
        assert Hwnds(s.windows)[k] == w.hwnd;
      }
      DiscardNothing(s.windows, [hwnd]);
    }
  }

  /** Remove keeps the survivors' relative order: it works piecewise on any split of the list. */
  lemma RemoveKeepsOrder(s: Snapshot, hwnd: Hwnd, host: Host, hasReceivers: bool,
                         front: seq<WindowState>, back: seq<WindowState>)
    requires s.windows == front + back
    ensures Step(s, Some(Remove(hwnd)), host, hasReceivers).state.windows
         == Discard(front, [hwnd]) + Discard(back, [hwnd])
  {
    DiscardAppend(front, back, [hwnd]);
  }

  /** RemoveAll empties the list, keeps the flag and publishes the empty list. */
  lemma RemoveAllEmpties(s: Snapshot, host: Host, hasReceivers: bool)
    ensures var e := Step(s, Some(RemoveAll), host, hasReceivers);
      e.state == Snapshot(s.started, []) && e.moves == [] && e.reply == Some(CurrentManagedHwnds([]))
      && (e.result.Ok? <==> hasReceivers)
  {
  }

  /** While stopped, Update moves nothing, changes nothing and publishes nothing. */
  lemma UpdateWhileStopped(s: Snapshot, offset: UpdatePayload, host: Host, hasReceivers: bool)
    requires !s.started
    ensures Step(s, Some(Update(offset)), host, hasReceivers) == Effect(s, [], None, Ok)
  {
  }

  /** Two records with the same handle in a list without duplicate handles are the same record. */
  lemma SameHandleSameRecord(ws: seq<WindowState>, v: WindowState, w: WindowState)
    requires NoDuplicates(ws) && v in ws && w in ws && v.hwnd == w.hwnd
    ensures v == w
  {
    var i :| 0 <= i < |ws| && ws[i] == v;
    var j :| 0 <= j < |ws| && ws[j] == w;
    assert ws[i].hwnd == ws[j].hwnd;
  }

  /**
   * While started, Update asks every window, in list order, to move to its
   * recorded position plus the offset; after the whole pass it removes
   * exactly the windows whose move failed, keeping the others in order, and
   * publishes the remaining handles if and only if some move failed.
   */
  lemma {:induction false} UpdateWhileStarted(s: Snapshot, offset: UpdatePayload, host: Host, hasReceivers: bool)
    requires s.started && NoDuplicates(s.windows)
    ensures var e := Step(s, Some(Update(offset)), host, hasReceivers);
      && e.moves == Targets(s.windows, offset)
      && e.state.started
      && e.state.windows == Discard(s.windows, FailedHwnds(s.windows, offset, host.setWindowPos))
      && (forall w :: w in e.state.windows <==> w in s.windows && host.setWindowPos(Target(w, offset)))
      && (e.reply.Some? <==> exists w :: w in s.windows && !host.setWindowPos(Target(w, offset)))
      && (e.reply.Some? ==> e.reply == Some(CurrentManagedHwnds(Hwnds(e.state.windows))))
      && (e.reply.None? ==> e.state == s && e.result == Ok)
  {
    var failed := FailedHwnds(s.windows, offset, host.setWindowPos);
    var e := Step(s, Some(Update(offset)), host, hasReceivers);
    if |failed| == 0 {
      forall w | w in s.windows ensures host.setWindowPos(Target(w, offset)) {
        assert !host.setWindowPos(Target(w, offset)) ==> w.hwnd in failed;
      }
      DiscardNothing(s.windows, failed);
    } else {
      assert failed[0] in failed;
      forall w | w in e.state.windows
        ensures host.setWindowPos(Target(w, offset))
      {
        assert !host.setWindowPos(Target(w, offset)) ==> w.hwnd in failed;
      }
      forall w | w in s.windows && host.setWindowPos(Target(w, offset))
        ensures w in e.state.windows
      {
        if w.hwnd in failed {
          var v :| v in s.windows && v.hwnd == w.hwnd && !host.setWindowPos(Target(v, offset));
          SameHandleSameRecord(s.windows, v, w);
        }
      }
    }
  }

  /** While started, Update moves every window and can only remove windows; without a reply nothing changed. */
  lemma UpdateOnlyRemoves(s: Snapshot, offset: UpdatePayload, host: Host, hasReceivers: bool)
    requires s.started
    ensures var e := Step(s, Some(Update(offset)), host, hasReceivers);
      && e.moves == Targets(s.windows, offset)
      && e.state.started
      && (forall w :: w in e.state.windows ==> w in s.windows)
      && (e.reply.None? ==> e.state == s)
  {
  }

  /**
   * Offsets are absolute: after an update, the next update asks every
   * surviving window to move to its recorded position plus the new offset,
   * whatever the earlier offset was, since recorded positions never change.
   */
  lemma {:induction false} UpdateIsAbsolute(s: Snapshot, offset1: UpdatePayload, offset2: UpdatePayload,
                                            host1: Host, host2: Host, hasReceivers1: bool, hasReceivers2: bool)
    requires s.started
    ensures var s1 := Step(s, Some(Update(offset1)), host1, hasReceivers1).state;
      var moves2 := Step(s1, Some(Update(offset2)), host2, hasReceivers2).moves;
      && moves2 == Targets(s1.windows, offset2)
      && (forall w :: w in s1.windows ==> w in s.windows)
      && (forall m :: m in moves2 ==> m in Targets(s.windows, offset2))
  {
    var s1 := Step(s, Some(Update(offset1)), host1, hasReceivers1).state;
    UpdateOnlyRemoves(s, offset1, host1, hasReceivers1);
    UpdateOnlyRemoves(s1, offset2, host2, hasReceivers2);
    TargetsOfSurvivors(s1.windows, s.windows, offset2);
  }

  /** Repeating an update in which every move succeeded asks for exactly the same moves again. */
  lemma RepeatedUpdateRepeatsMoves(s: Snapshot, offset: UpdatePayload, host1: Host, host2: Host,
                                   hasReceivers1: bool, hasReceivers2: bool)
    requires s.started
    requires Step(s, Some(Update(offset)), host1, hasReceivers1).reply.None?
    ensures var e1 := Step(s, Some(Update(offset)), host1, hasReceivers1);
      Step(e1.state, Some(Update(offset)), host2, hasReceivers2).moves == e1.moves
  {
    UpdateOnlyRemoves(s, offset, host1, hasReceivers1);
  }

  /** Refresh changes nothing and publishes the flag and the handles in order, so two refreshes in a row publish the same. */
  lemma RefreshIsPure(s: Snapshot, host1: Host, host2: Host, hasReceivers1: bool, hasReceivers2: bool)
    ensures var e1 := Step(s, Some(Action.Refresh), host1, hasReceivers1);
      var e2 := Step(e1.state, Some(Action.Refresh), host2, hasReceivers2);
      && e1.state == s && e1.moves == []
      && e1.reply == Some(Reply.Refresh(s.started, Hwnds(s.windows)))
      && e2.reply == e1.reply
  {
  }

  /** The only error is a failed send: a reply was due and no receiver is left. */
  lemma ErrorMeansSendFailed(s: Snapshot, received: Option<Action>, host: Host, hasReceivers: bool)
    ensures var e := Step(s, received, host, hasReceivers);
      e.result.Err? <==> e.reply.Some? && !hasReceivers
  {
    match received
    case None =>
    case Some(action) =>
      match action
      case Capture =>
      case Add(hwnd) =>
      case Update(offset) =>
      case _ =>
  }

  /**
   * Processing is strictly sequential: a loop over two batches of ticks is
   * the loop over the first followed by the loop over the second from where
   * the first ended.
   */
  lemma {:induction false} LoopConcatenates(step: (Snapshot, Tick) -> Effect, s: Snapshot,
                                            first: seq<Tick>, second: seq<Tick>)
    requires !Loop(step, s, first).aborted
    ensures var r1 := Loop(step, s, first);
      var r2 := Loop(step, r1.state, second);
      Loop(step, s, first + second) == RunResult(r2.state, r1.published + r2.published, r1.moves + r2.moves, r2.aborted)
    decreases |first|
  {
    var all := first + second;
    if first == [] {
      assert all == second;
    } else {
      var e := step(s, first[0]);
      assert all[0] == first[0] && all[1..] == first[1..] + second;
      LoopConcatenates(step, e.state, first[1..], second);
      var t1 := Loop(step, e.state, first[1..]);
      var r2 := Loop(step, t1.state, second);
      assert Sent(e.reply) + (t1.published + r2.published) == (Sent(e.reply) + t1.published) + r2.published;
      assert e.moves + (t1.moves + r2.moves) == (e.moves + t1.moves) + r2.moves;
    }
  }

  /** Once the loop has broken on an error, later ticks are never processed. */
  lemma {:induction false} LoopStopsAtError(step: (Snapshot, Tick) -> Effect, s: Snapshot,
                                            first: seq<Tick>, second: seq<Tick>)
    requires Loop(step, s, first).aborted
    ensures Loop(step, s, first + second) == Loop(step, s, first)
    decreases |first|
  {
    var all := first + second;
    var e := step(s, first[0]);
    assert all[0] == first[0] && all[1..] == first[1..] + second;
    if e.result.Ok? {
      LoopStopsAtError(step, e.state, first[1..], second);
    }
  }

  /** The manager's run over two batches of ticks, in arrival order. */
  lemma RunConcatenates(s: Snapshot, first: seq<Tick>, second: seq<Tick>)
    ensures var r1 := Run(s, first);
      r1.aborted ==> Run(s, first + second) == r1
    ensures var r1 := Run(s, first);
      var r2 := Run(r1.state, second);
      !r1.aborted ==>
        Run(s, first + second) == RunResult(r2.state, r1.published + r2.published, r1.moves + r2.moves, r2.aborted)
  {
    if Run(s, first).aborted {
      LoopStopsAtError(TickStep, s, first, second);
    } else {
      LoopConcatenates(TickStep, s, first, second);
    }
  }

  /** A loop whose step keeps handles unique keeps them unique over any sequence of ticks. */
  lemma {:induction false} LoopKeepsHandlesUnique(step: (Snapshot, Tick) -> Effect, s: Snapshot, ticks: seq<Tick>)
    requires forall s': Snapshot, t: Tick :: NoDuplicates(s'.windows) ==> NoDuplicates(step(s', t).state.windows)
    requires NoDuplicates(s.windows)
    ensures NoDuplicates(Loop(step, s, ticks).state.windows)
    decreases |ticks|
  {
    if ticks != [] {
      var e := step(s, ticks[0]);
      if e.result.Ok? {
        LoopKeepsHandlesUnique(step, e.state, ticks[1..]);
      }
    }
  }

  /** Handles stay unique over any run of the manager. */
  lemma RunKeepsHandlesUnique(s: Snapshot, ticks: seq<Tick>)
    requires NoDuplicates(s.windows)
    ensures NoDuplicates(Run(s, ticks).state.windows)
  {
    forall s': Snapshot, t: Tick | NoDuplicates(s'.windows) ensures NoDuplicates(TickStep(s', t).state.windows) {
      StepKeepsNoDuplicates(s', t.received, t.host, t.hasReceivers);
    }
    LoopKeepsHandlesUnique(TickStep, s, ticks);
  }

  /**
   * Start, Add(h), Update(5, 5), Remove(h), with receivers present and
   * whatever the desktop answers, end started and with nothing managed.
   */
  lemma {:induction false} StartAddUpdateRemove(ticks: seq<Tick>, hwnd: Hwnd)
    requires |ticks| == 4
    requires ticks[0].received == Some(Start) && ticks[1].received == Some(Add(hwnd))
    requires ticks[2].received == Some(Update(UpdatePayload(5, 5))) && ticks[3].received == Some(Remove(hwnd))
    requires forall i :: 0 <= i < 4 ==> ticks[i].hasReceivers
    ensures Run(Snapshot(false, []), ticks).state == Snapshot(true, [])
    ensures !Run(Snapshot(false, []), ticks).aborted
  {
    var s0 := Snapshot(false, []);
    var e0 := Step(s0, ticks[0].received, ticks[0].host, ticks[0].hasReceivers);
    RunFirst(s0, ticks, e0);
    assert e0.state == Snapshot(true, []) && e0.result == Ok;
    var t1 := ticks[1..];
    assert t1[0] == ticks[1];
    var e1 := Step(e0.state, t1[0].received, t1[0].host, t1[0].hasReceivers);
    RunFirst(e0.state, t1, e1);
    assert e1.state.started && e1.result == Ok;
    assert forall w :: w in e1.state.windows ==> w.hwnd == hwnd;
    var t2 := t1[1..];
    assert t2[0] == ticks[2];
    var e2 := Step(e1.state, t2[0].received, t2[0].host, t2[0].hasReceivers);
    RunFirst(e1.state, t2, e2);
    UpdateOnlyRemoves(e1.state, UpdatePayload(5, 5), t2[0].host, t2[0].hasReceivers);
    assert e2.state.started && e2.result == Ok;
    var t3 := t2[1..];
    assert t3[0] == ticks[3];
    var e3 := Step(e2.state, t3[0].received, t3[0].host, t3[0].hasReceivers);
    RunFirst(e2.state, t3, e3);
    var left := e3.state.windows;
    assert left == Discard(e2.state.windows, [hwnd]) && e3.result == Ok;
    DiscardEverything(e2.state.windows, [hwnd]);
    assert t3[1..] == [];
  }

  /**
   * Start, Add(100) of a window at (50, 50), Update(10, -5) and Refresh:
   * the window is asked to move to (60, 45) and the refresh reports it.
   */
  lemma {:induction false} AddUpdateRefresh(ticks: seq<Tick>)
    requires |ticks| == 4
    requires ticks[0].received == Some(Start) && ticks[1].received == Some(Add(100))
    requires ticks[2].received == Some(Update(UpdatePayload(10, -5))) && ticks[3].received == Some(Action.Refresh)
    requires forall i :: 0 <= i < 4 ==> ticks[i].hasReceivers
    requires ticks[1].host.windowRect(100) == Some(Rect(50, 50, 250, 150))
    requires ticks[2].host.setWindowPos(Move(100, 60, 45))
    ensures Run(Snapshot(false, []), ticks)
      == RunResult(Snapshot(true, [WindowState(100, 50, 50)]),
                   [Started, CurrentManagedHwnds([100]), Reply.Refresh(true, [100])],
                   [Move(100, 60, 45)],
                   false)
  {
    var s0, s1, s2 := Snapshot(false, []), Snapshot(true, []), Snapshot(true, [WindowState(100, 50, 50)]);
    var e0 := Step(s0, ticks[0].received, ticks[0].host, ticks[0].hasReceivers);
    RunFirst(s0, ticks, e0);
    assert e0 == Effect(s1, [], Some(Started), Ok);
    var t1 := ticks[1..];
    assert t1[0] == ticks[1];
    var e1 := Step(s1, t1[0].received, t1[0].host, t1[0].hasReceivers);
    RunFirst(s1, t1, e1);
    assert Hwnds(s2.windows) == [100];
    assert e1 == Effect(s2, [], Some(CurrentManagedHwnds([100])), Ok);
    var t2 := t1[1..];
    assert t2[0] == ticks[2];
    var e2 := Step(s2, t2[0].received, t2[0].host, t2[0].hasReceivers);
    RunFirst(s2, t2, e2);
    assert Targets(s2.windows, UpdatePayload(10, -5)) == [Move(100, 60, 45)];
    assert FailedHwnds(s2.windows, UpdatePayload(10, -5), t2[0].host.setWindowPos) == [];
    assert e2 == Effect(s2, [Move(100, 60, 45)], None, Ok);
    var t3 := t2[1..];
    assert t3[0] == ticks[3];
    var e3 := Step(s2, t3[0].received, t3[0].host, t3[0].hasReceivers);
    RunFirst(s2, t3, e3);
    assert e3 == Effect(s2, [], Some(Reply.Refresh(true, [100])), Ok);
    assert t3[1..] == [];
  }

  /**
   * One healthy window and one whose move fails: the update moves both,
   * removes only the failing one and publishes the survivor alone.
   */
  lemma PartialFailure(healthy: WindowState, gone: WindowState, offset: UpdatePayload, host: Host, hasReceivers: bool)
    requires healthy.hwnd != gone.hwnd
    requires host.setWindowPos(Target(healthy, offset)) && !host.setWindowPos(Target(gone, offset))
    ensures var e := Step(Snapshot(true, [healthy, gone]), Some(Update(offset)), host, hasReceivers);
      && e.moves == [Target(healthy, offset), Target(gone, offset)]
      && e.state == Snapshot(true, [healthy])
      && e.reply == Some(CurrentManagedHwnds([healthy.hwnd]))
  {
    var ws := [healthy, gone];
    assert ws[1..] == [gone] && [gone][1..] == [];
    assert FailedHwnds([gone], offset, host.setWindowPos) == [gone.hwnd];
    assert FailedHwnds(ws, offset, host.setWindowPos) == [gone.hwnd];
    assert Discard([gone], [gone.hwnd]) == [];
    assert Discard(ws, [gone.hwnd]) == [healthy];
    assert [healthy][1..] == [];
    assert Hwnds([healthy]) == [healthy.hwnd];
  }
}
