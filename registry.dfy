/**
 * The registry of managed windows as values: the records kept per window,
 * the hwnd list that replies carry, the `retain` used by Remove and Update,
 * and the moves and failures of one Update pass.
 */
module Registry {
  import opened Protocol
  import opened WindowsApi

  /** A managed window and the position recorded when it was added. */
  datatype WindowState = WindowState(hwnd: Hwnd, initX: I32, initY: I32)

  /** The value of a `ManagerState`: the started flag and the managed windows in order. */
  datatype Snapshot = Snapshot(started: bool, windows: seq<WindowState>)

  /** The handles of `ws`, in list order (what replies carry). */
  function Hwnds(ws: seq<WindowState>): (r: seq<Hwnd>)
    ensures |r| == |ws|
    ensures forall i :: 0 <= i < |ws| ==> r[i] == ws[i].hwnd
  {
    if ws == [] then [] else [ws[0].hwnd] + Hwnds(ws[1..])
  }

  /** Whether some managed window has handle `h`. */
  predicate IsManaged(ws: seq<WindowState>, h: Hwnd): (b: bool)
    ensures b <==> h in Hwnds(ws)
  {
    exists w :: w in ws && w.hwnd == h
  }

  /** No two managed windows share a handle. */
  ghost predicate NoDuplicates(ws: seq<WindowState>)
  {
    forall i, j :: 0 <= i < j < |ws| ==> ws[i].hwnd != ws[j].hwnd
  }

  /** `ws` without the windows whose handle is in `hwnds`, the others kept in order. */
  function Discard(ws: seq<WindowState>, hwnds: seq<Hwnd>): (r: seq<WindowState>)
    ensures |r| <= |ws|
    ensures forall w :: w in r <==> w in ws && w.hwnd !in hwnds
  {
    if ws == [] then []
    else if ws[0].hwnd in hwnds then Discard(ws[1..], hwnds)
    else [ws[0]] + Discard(ws[1..], hwnds)
  }

  /** Where an update with `offset` puts window `w`: its recorded position plus the offset. */
  function Target(w: WindowState, offset: UpdatePayload): Move
  {
    Move(w.hwnd, offset.x + w.initX, offset.y + w.initY)
  }

  /** The moves of one update pass, one per window, in list order. */
  function Targets(ws: seq<WindowState>, offset: UpdatePayload): (r: seq<Move>)
    ensures |r| == |ws|
    ensures forall i :: 0 <= i < |ws| ==>
      r[i] == Move(ws[i].hwnd, offset.x + ws[i].initX, offset.y + ws[i].initY)
  {
    if ws == [] then [] else [Target(ws[0], offset)] + Targets(ws[1..], offset)
  }

  /** The handles whose move failed during one update pass, in list order. */
  function FailedHwnds(ws: seq<WindowState>, offset: UpdatePayload, setWindowPos: Move -> bool): (r: seq<Hwnd>)
    ensures |r| <= |ws|
    ensures forall h :: h in r <==> exists w :: w in ws && w.hwnd == h && !setWindowPos(Target(w, offset))
  {
    if ws == [] then []
    else if setWindowPos(Target(ws[0], offset)) then FailedHwnds(ws[1..], offset, setWindowPos)
    else [ws[0].hwnd] + FailedHwnds(ws[1..], offset, setWindowPos)
  }

  lemma {:induction false} HwndsAppend(a: seq<WindowState>, b: seq<WindowState>)
    ensures Hwnds(a + b) == Hwnds(a) + Hwnds(b)
  {
    var l, r := Hwnds(a + b), Hwnds(a) + Hwnds(b);
    assert |l| == |r|;
    forall i | 0 <= i < |l| ensures l[i] == r[i] {
      if i < |a| { assert (a + b)[i] == a[i]; } else { assert (a + b)[i] == b[i - |a|]; }
    }
  }

  /** Retaining distributes over concatenation: the survivors keep their relative order. */
  lemma {:induction false} DiscardAppend(a: seq<WindowState>, b: seq<WindowState>, hwnds: seq<Hwnd>)
    ensures Discard(a + b, hwnds) == Discard(a, hwnds) + Discard(b, hwnds)
  {
    if a == [] {
      assert a + b == b;
    } else {
      assert (a + b)[1..] == a[1..] + b;
      DiscardAppend(a[1..], b, hwnds);
    }
  }

  /** Discarding handles no window has leaves the list as it was. */
  lemma {:induction false} DiscardNothing(ws: seq<WindowState>, hwnds: seq<Hwnd>)
    requires forall w :: w in ws ==> w.hwnd !in hwnds
    ensures Discard(ws, hwnds) == ws
  {
    if ws != [] {
      assert ws[0] in ws;
      DiscardNothing(ws[1..], hwnds);
    }
  }

  /** Discarding every window's handle leaves nothing. */
  lemma {:induction false} DiscardEverything(ws: seq<WindowState>, hwnds: seq<Hwnd>)
    requires forall w :: w in ws ==> w.hwnd in hwnds
    ensures Discard(ws, hwnds) == []
  {
    if ws != [] {
      assert ws[0] in ws;
      DiscardEverything(ws[1..], hwnds);
    }
  }

  lemma {:induction false} DiscardKeepsNoDuplicates(ws: seq<WindowState>, hwnds: seq<Hwnd>)
    requires NoDuplicates(ws)
    ensures NoDuplicates(Discard(ws, hwnds))
  {
    if ws != [] {
      var rest := Discard(ws[1..], hwnds);
      DiscardKeepsNoDuplicates(ws[1..], hwnds);
      if ws[0].hwnd !in hwnds {
        var r := [ws[0]] + rest;
        forall i, j | 0 <= i < j < |r| ensures r[i].hwnd != r[j].hwnd {
          if i == 0 {
            assert r[j] == rest[j - 1];
            assert r[j] in ws[1..];
            var k :| 0 <= k < |ws[1..]| && ws[1..][k] == r[j];
            assert ws[k + 1] == r[j];
          }
        }
      }
    }
  }

  /** Appending a window whose handle is not yet present keeps handles unique. */
  lemma AppendKeepsNoDuplicates(ws: seq<WindowState>, w: WindowState)
    requires NoDuplicates(ws) && w.hwnd !in Hwnds(ws)
    ensures NoDuplicates(ws + [w])
  {
    var r := ws + [w];
    forall i, j | 0 <= i < j < |r| ensures r[i].hwnd != r[j].hwnd {
      if j == |ws| {
        assert Hwnds(ws)[i] == r[i].hwnd;
      }
    }
  }

  lemma {:induction false} TargetsAppend(a: seq<WindowState>, b: seq<WindowState>, offset: UpdatePayload)
    ensures Targets(a + b, offset) == Targets(a, offset) + Targets(b, offset)
  {
    if a == [] {
      assert a + b == b;
    } else {
      assert (a + b)[1..] == a[1..] + b;
      TargetsAppend(a[1..], b, offset);
    }
  }

  lemma {:induction false} FailedHwndsAppend(a: seq<WindowState>, b: seq<WindowState>,
                                             offset: UpdatePayload, setWindowPos: Move -> bool)
    ensures FailedHwnds(a + b, offset, setWindowPos)
         == FailedHwnds(a, offset, setWindowPos) + FailedHwnds(b, offset, setWindowPos)
  {
    if a == [] {
      assert a + b == b;
    } else {
      assert (a + b)[1..] == a[1..] + b;
      FailedHwndsAppend(a[1..], b, offset, setWindowPos);
    }
  }

  /** Every move requested for windows kept from `ws` is a move requested for `ws` itself. */
  lemma TargetsOfSurvivors(kept: seq<WindowState>, ws: seq<WindowState>, offset: UpdatePayload)
    requires forall w :: w in kept ==> w in ws
    ensures forall m :: m in Targets(kept, offset) ==> m in Targets(ws, offset)
  {
    var all := Targets(ws, offset);
    forall m | m in Targets(kept, offset) ensures m in all {
      var i :| 0 <= i < |kept| && Targets(kept, offset)[i] == m;
      assert kept[i] in kept;
      var k :| 0 <= k < |ws| && ws[k] == kept[i];
      assert all[k] == m;
    }
  }

  /** One more window in an update pass adds its move, and its handle if that move failed. */
  lemma PassExtends(ws: seq<WindowState>, i: nat, offset: UpdatePayload, setWindowPos: Move -> bool)
    requires i < |ws|
    ensures Targets(ws[..i + 1], offset) == Targets(ws[..i], offset) + [Target(ws[i], offset)]
    ensures FailedHwnds(ws[..i + 1], offset, setWindowPos)
         == FailedHwnds(ws[..i], offset, setWindowPos)
            + (if setWindowPos(Target(ws[i], offset)) then [] else [ws[i].hwnd])
  {
    assert ws[..i + 1] == ws[..i] + [ws[i]];
    TargetsAppend(ws[..i], [ws[i]], offset);
    FailedHwndsAppend(ws[..i], [ws[i]], offset, setWindowPos);
    assert [ws[i]][1..] == [];
  }
}
