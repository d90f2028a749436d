/** Message callbacks: `add_message_callback` puts the newest callback first,
    and `handle_error` asks them in that order until one displays the fault. */
module Callbacks {
  import opened Bits
  import opened Severity

  /** A registered callback: its class and an identity for the host object. */
  datatype Callback = Callback(errClass: Mask, id: nat)

  /** The host's `display($errno, ...)` answer for a callback identity. */
  type Display = (nat, Mask) -> bool

  /** `!$cb['class'] & $errno`: the negation binds first, so the test is
      `(class == 0 ? 1 : 0) & errno`. */
  predicate Skipped(cb: Callback, errno: Mask)
  {
    And(if cb.errClass == 0 then 1 else 0, errno) != 0
  }

  /** Only a class-0 callback is ever skipped, and only for an odd errno; the
      class is never compared with the errno's bits. */
  lemma SkippedIff(cb: Callback, errno: Mask)
    ensures Skipped(cb, errno) <==> cb.errClass == 0 && errno % 2 == 1
  {
    if cb.errClass == 0 && errno != 0 {
      assert And(1, errno) == 2 * And(0, errno / 2) + (if errno % 2 == 1 then 1 else 0);
    }
  }

  /** `add_message_callback`: the new callback goes first. */
  function Register(cbs: seq<Callback>, errClass: Mask, id: nat): (r: seq<Callback>)
    ensures |r| == |cbs| + 1 && r[0] == Callback(errClass, id) && r[1..] == cbs
  {
    [Callback(errClass, id)] + cbs
  }

  /** Whether a callback took the fault over, and which callbacks were asked. */
  datatype Dispatched = Dispatched(preempted: bool, asked: seq<nat>)

  /** The callback loop of `handle_error`, from the first (newest) callback. */
  function Dispatch(cbs: seq<Callback>, errno: Mask, display: Display): Dispatched
    decreases |cbs|
  {
    if cbs == [] then Dispatched(false, [])
    else if Skipped(cbs[0], errno) then Dispatch(cbs[1..], errno, display)
    else if display(cbs[0].id, errno) then Dispatched(true, [cbs[0].id])
    else
      var rest := Dispatch(cbs[1..], errno, display);
      Dispatched(rest.preempted, [cbs[0].id] + rest.asked)
  }

  /** The fault is taken over exactly when some callback that is not skipped
      displays it. */
  lemma {:induction false} PreemptedIff(cbs: seq<Callback>, errno: Mask, display: Display)
    ensures Dispatch(cbs, errno, display).preempted <==>
      exists i :: 0 <= i < |cbs| && !Skipped(cbs[i], errno) && display(cbs[i].id, errno)
    decreases |cbs|
  {
    if cbs != [] {
      PreemptedIff(cbs[1..], errno, display);
      assert forall i :: 0 <= i < |cbs| - 1 ==> cbs[1..][i] == cbs[i + 1];
      if exists i :: 0 <= i < |cbs| && !Skipped(cbs[i], errno) && display(cbs[i].id, errno) {
        var i :| 0 <= i < |cbs| && !Skipped(cbs[i], errno) && display(cbs[i].id, errno);
        if i > 0 {
          assert cbs[1..][i - 1] == cbs[i];
        }
      }
    }
  }

  /** Every callback that was asked is one of the list that is not skipped. */
  lemma {:induction false} AskedAreNotSkipped(cbs: seq<Callback>, errno: Mask, display: Display, k: nat)
    requires k < |Dispatch(cbs, errno, display).asked|
    ensures exists i :: 0 <= i < |cbs| && cbs[i].id == Dispatch(cbs, errno, display).asked[k] && !Skipped(cbs[i], errno)
    decreases |cbs|
  {
    var d := Dispatch(cbs, errno, display);
    if Skipped(cbs[0], errno) {
      AskedAreNotSkipped(cbs[1..], errno, display, k);
      var j :| 0 <= j < |cbs[1..]| && cbs[1..][j].id == d.asked[k] && !Skipped(cbs[1..][j], errno);
      assert cbs[j + 1] == cbs[1..][j];
    } else if k == 0 {
      assert cbs[0].id == d.asked[0];
    } else {
      var rest := Dispatch(cbs[1..], errno, display);
      assert d.asked[k] == rest.asked[k - 1];
      AskedAreNotSkipped(cbs[1..], errno, display, k - 1);
      var j :| 0 <= j < |cbs[1..]| && cbs[1..][j].id == rest.asked[k - 1] && !Skipped(cbs[1..][j], errno);
      assert cbs[j + 1] == cbs[1..][j];
    }
  }

  /** The most recently registered callback is asked first, and if it
      displays the fault no older callback is asked at all. */
  lemma NewestFirst(cbs: seq<Callback>, errClass: Mask, id: nat, errno: Mask, display: Display)
    requires !Skipped(Callback(errClass, id), errno)
    ensures var d := Dispatch(Register(cbs, errClass, id), errno, display);
      d.asked != [] && d.asked[0] == id &&
      (display(id, errno) ==> d == Dispatched(true, [id]))
  {
    assert Register(cbs, errClass, id)[1..] == cbs;
  }

  /** The callback loop itself, asking the host object of each callback. */
  method DispatchLoop(cbs: seq<Callback>, errno: Mask, display: Display) returns (preempted: bool, asked: seq<nat>)
    ensures Dispatched(preempted, asked) == Dispatch(cbs, errno, display)
  {
    preempted, asked := false, [];
    var i := 0;
    while i < |cbs|
      invariant 0 <= i <= |cbs|
      invariant Dispatch(cbs, errno, display) ==
        Dispatched(Dispatch(cbs[i..], errno, display).preempted, asked + Dispatch(cbs[i..], errno, display).asked)
    {
      var cb := cbs[i];
      assert cbs[i..][1..] == cbs[i + 1..];
      if Skipped(cb, errno) {
        i := i + 1;
        continue;
      }
      asked := asked + [cb.id];
      if display(cb.id, errno) {
        preempted := true;
        return;
      }
      i := i + 1;
    }
  }
}
