/** Short runs from a fresh state, each pinning down one behaviour of the
    source end to end: some as runs of the reporter object, some as the
    ring values its methods are proved to produce. */
module Scenarios {
  import opened Wrappers
  import opened Bits
  import opened Severity
  import opened Suppression
  import opened Callbacks
  import opened Ring
  import opened Handler
  import opened Reporter

  /** The ring right after `init_ring`, with no message counted yet. */
  const Fresh: State := State([], None, E_OK, map[])

  /** Muting from `owner`, unmuting from another method fails and leaves
      warnings muted (a warning then leaves the ring empty); unmuting from
      `owner` succeeds. */
  method MuteLock(reporting: Mask, fnmatch: Glob, owner: string, other: string, warning: string, bt: string)
    returns (muted: bool, byOther: bool, ringWhileMuted: seq<Record>, byOwner: bool, warnAgain: bool)
    requires owner != other
    ensures muted && !byOther && ringWhileMuted == [] && byOwner && warnAgain
  {
    var r := new ErrorReporter(reporting, fnmatch);
    muted := r.MuteWarning(false, owner);
    byOther := r.UnmuteWarning(other);
    var _ := r.AddWarning(warning, other, bt);
    ringWhileMuted := r.ring;
    byOwner := r.UnmuteWarning(owner);
    warnAgain := r.doWarn;
  }

  /** `mute_warning(true)` toggles E_NOTICE and E_WARNING: a second mute
      toggles them back on (and reports that warnings were already muted),
      and the one unmute then restores the level saved by the second mute,
      so the level ends up toggled. */
  method MuteTwiceWithPhp(reporting: Mask, fnmatch: Glob, owner: string)
    returns (second: bool, afterSecond: Mask, afterUnmute: Mask)
    ensures !second && afterSecond == reporting && afterUnmute == Xor(reporting, MUTED_PHP_LEVELS)
  {
    var r := new ErrorReporter(reporting, fnmatch);
    var _ := r.MuteWarning(true, owner);
    second := r.MuteWarning(true, owner);
    afterSecond := r.errorReporting;
    XorTwice(reporting, MUTED_PHP_LEVELS);
    var _ := r.UnmuteWarning(owner);
    afterUnmute := r.errorReporting;
  }

  /** Info messages a, a, b, b: the second a is not stored, because it
      repeats the first record, but the second b is stored again, because
      the duplicate test looks at the first record only; `get_last_msg`
      then still answers a. */
  lemma DedupRun(g: Gates, a: string, b: string, bt: string)
    requires g.doWarn && g.maxEmit == E_ALL as int && a != b
    ensures var s1 := Append(Fresh, g, a, E_INFO, ViaAddInfo, bt).state;
      var s2 := Append(s1, g, a, E_INFO, ViaAddInfo, bt).state;
      var s3 := Append(s2, g, b, E_INFO, ViaAddInfo, bt).state;
      var s4 := Append(s3, g, b, E_INFO, ViaAddInfo, bt).state;
      |s1.records| == 1 && s2 == s1 && |s3.records| == 2 && |s4.records| == 3 &&
      Messages(s4.records) == [a, b, b] && s4.idx == Some(0)
  {
    var s1 := Append(Fresh, g, a, E_INFO, ViaAddInfo, bt).state;
    var s2 := Append(s1, g, a, E_INFO, ViaAddInfo, bt).state;
    assert s2 == s1;
    assert !IsDuplicate(s2, b, E_INFO);
    var s3 := Append(s2, g, b, E_INFO, ViaAddInfo, bt).state;
    assert !IsDuplicate(s3, b, E_INFO);
    var s4 := Append(s3, g, b, E_INFO, ViaAddInfo, bt).state;
    assert Messages(s4.records) == [a, b, b];
  }

  /** The first record of a fresh ring. */
  lemma FirstRecord(g: Gates, message: string, cls: Mask, caller: Via, bt: string)
    requires !Swallowed(g, cls) && cls <= E_FATAL
    ensures Append(Fresh, g, message, cls, caller, bt).state ==
      State([NewRecord(g, message, cls, caller, bt)], Some(0), Or(E_OK, cls), map[cls := 1])
  {
  }

  /** The errors among an error and a warning. */
  lemma ErrorsOfErrorThenWarning(e: Record, w: Record)
    requires e.severity == E_ERROR && w.severity == E_WARNING
    ensures FilterBy([e, w], E_ERROR) == [e]
  {
    assert And(E_WARNING, E_ERROR) == 0 by { assert And(1, 2) == 0; }
    assert And(E_ERROR, E_ERROR) != 0 by { AndSelf(E_ERROR); }
    assert [e][..0] == [];
    assert FilterBy([e], E_ERROR) == [e];
    assert [e, w][..1] == [e];
  }

  /** The ring after an error e and a warning w at verbosity 0. */
  lemma ErrorThenWarning(g: Gates, e: string, w: string, bt: string, s1: State, s2: State)
    requires g == Gates(true, E_ALL as int, 0)
    requires s1 == Append(Fresh, g, e, E_ERROR, ViaAddError, bt).state
    requires s2 == Append(s1, g, w, E_WARNING, ViaAddWarning, bt).state
    ensures s2.records == [Record(e, E_ERROR, ViaAddError, None), Record(w, E_WARNING, ViaAddWarning, None)]
    ensures Count(s2.counts, E_ERROR) == 1
    ensures FilterBy(s2.records, E_ERROR) == [s2.records[0]]
  {
    FirstRecord(g, e, E_ERROR, ViaAddError, bt);
    assert !IsDuplicate(s1, w, E_WARNING);
    ErrorsOfErrorThenWarning(s2.records[0], s2.records[1]);
  }

  /** `flush_buffer(E_ERROR)` after an error and a warning returns the error
      alone, yet leaves the ring empty: the clear it runs wipes every class.
      The error's counter survives the clear. */
  method FlushByClass(reporting: Mask, fnmatch: Glob, e: string, w: string, bt: string)
    returns (flushed: seq<Record>, rest: seq<Record>, severity: Mask, errors: nat)
    ensures flushed == [Record(e, E_ERROR, ViaAddError, None)]
    ensures rest == [] && severity == E_OK && errors == 1
  {
    var r := new ErrorReporter(reporting, fnmatch);
    var _ := r.SetVerbose(Some(0));
    ghost var g := r.CurrentGates();
    var _ := r.AddError(e, "", bt);
    ghost var s1 := r.RingState();
    var _ := r.AddWarning(w, "", bt);
    ErrorThenWarning(g, e, w, bt, s1, r.RingState());
    flushed := r.FlushBuffer(E_ERROR);
    rest := r.ring;
    severity := r.GetSeverity();
    errors := r.GetMsgCount(E_ERROR);
  }

  /** `downgrade(E_WARNING)` of the ring an error e and an info message i
      leave at verbosity 0: both come back in order, the error lowered to a
      warning and the info message as it was; the worst severity is then
      E_WARNING, and the lowered record is counted again, as a warning, while
      the error keeps its count. */
  lemma DowngradeErrorAndInfo(g: Gates, e: string, i: string, bt: string, bt2: string)
    requires g == Gates(true, E_ALL as int, 0)
    ensures var s1 := Append(Fresh, g, e, E_ERROR, ViaAddError, bt).state;
      var s2 := Append(s1, g, i, E_INFO, ViaAddInfo, bt).state;
      var d := Ring.Downgrade(s2, g, E_WARNING, ViaMergeBuffer, bt2);
      !d.fatal &&
      d.state.records == [Record(e, E_WARNING, ViaMergeBuffer, None), Record(i, E_INFO, ViaMergeBuffer, None)] &&
      WorstSeverity(d.state.severity) == E_WARNING &&
      Count(d.state.counts, E_WARNING) == 1 && Count(d.state.counts, E_ERROR) == 1
  {
    var s1 := Append(Fresh, g, e, E_ERROR, ViaAddError, bt).state;
    assert !IsDuplicate(s1, i, E_INFO);
    var s2 := Append(s1, g, i, E_INFO, ViaAddInfo, bt).state;
    var ls := Lowered(s2.records, E_WARNING);
    assert ls == [Record(e, E_WARNING, ViaAddError, None), Record(i, E_INFO, ViaAddInfo, None)];
    var m1 := MergeStep(Cleared(s2), g, ls[0], ViaMergeBuffer, bt2);
    assert !IsDuplicate(m1, i, E_INFO);
    var m2 := MergeStep(m1, g, ls[1], ViaMergeBuffer, bt2);
    assert !MergeFatal(ls[0]) && !MergeFatal(ls[1]);
    assert ls[1..] == [ls[1]] && ls[1..][1..] == [];
    assert Merge(m2, g, ls[1..][1..], ViaMergeBuffer, bt2) == Merged(m2, false);
    assert Merge(m1, g, ls[1..], ViaMergeBuffer, bt2) == Merged(m2, false);
    WarningAndInfo();
  }

  /** A ring holding a warning and an info message has severity bits 12:
      no error bit, the warning bit set. */
  lemma WarningAndInfo()
    ensures Or(Or(E_OK, E_WARNING), E_INFO) == 12
    ensures And(12, E_ERROR) == 0 && And(12, E_WARNING) != 0
  {
    assert Or(0, 8) == 8 by { assert Or(0, 1) == 1; assert Or(0, 2) == 2; assert Or(0, 4) == 4; }
    assert Or(8, 4) == 12 by { assert Or(4, 2) == 6; assert Or(2, 1) == 3; assert Or(1, 0) == 1; }
    assert And(12, E_ERROR) == 0 by { assert And(6, 8) == 0; assert And(3, 4) == 0; assert And(1, 2) == 0; }
    assert And(12, E_WARNING) != 0 by { assert And(6, 4) == 4; assert And(3, 2) == 2; assert And(1, 1) == 1; }
  }

  /** With one rule withholding PHP warnings raised in method x: a warning
      from x is withheld, the same warning from another method y is reported,
      and a notice from x is reported. */
  lemma SuppressionRoutes(fnmatch: Glob, display: Display, x: string, y: string, w: string, n: string)
    requires x != y
    ensures var t := Suppression.Register(map[], x, Rule(PHP_E_WARNING, None, None, None));
      Route(PHP_E_ALL, None, PHP_E_WARNING, w, None, Some(1), t, fnmatch, Host(x, false, display), [], 0) == Withheld &&
      Route(PHP_E_ALL, Some(Fault(Some(1), None, PHP_E_WARNING, w, 0)), PHP_E_WARNING, w, None, Some(2),
            t, fnmatch, Host(y, false, display), [], 0) == Reported &&
      Route(PHP_E_ALL, Some(Fault(Some(2), None, PHP_E_WARNING, w, 0)), PHP_E_NOTICE, n, None, Some(3),
            t, fnmatch, Host(x, false, display), [], 0) == Reported
  {
    var t := Suppression.Register(map[], x, Rule(PHP_E_WARNING, None, None, None));
    assert t[x] == [Rule(PHP_E_WARNING, None, None, None)];
    assert And(PHP_E_ALL, PHP_E_WARNING) != 0 by { assert And(16383, 1) == 1; }
    assert And(PHP_E_ALL, PHP_E_NOTICE) != 0 by { assert And(4095, 1) == 1; }
    assert Within(PHP_E_WARNING, PHP_E_WARNING) by { assert AndNot(1, 1) == 0; }
    assert !Within(PHP_E_NOTICE, PHP_E_WARNING) by { assert AndNot(4, 1) == 4; }
  }

  /** One more fault from the site of `$last_error`: only its counter moves. */
  method Repeat(r: ErrorReporter, errstr: string, host: Host)
    requires r.Valid() && r.lastError.Some? && And(r.errorReporting, r.lastError.value.errno) != 0
    modifies r`lastError, r`lastPhpErr, r`reportCounter
    ensures r.Valid() && r.lastError == Some(old(r.lastError.value).(errctr := old(r.lastError.value.errctr) + 1))
  {
    var f := r.lastError.value;
    var h, a := r.HandleError(f.errno, errstr, f.errfile, f.errline, host);
  }

  /** A first fault that the mask lets through becomes `$last_error` with a
      counter of 0, whatever path it then takes. */
  method Raise(r: ErrorReporter, errno: Mask, errstr: string, errfile: Option<string>, errline: Option<int>, host: Host)
    requires r.Valid() && r.lastError.None? && And(r.errorReporting, errno) != 0
    modifies r`lastError, r`lastPhpErr, r`reportCounter
    ensures r.Valid() && r.lastError == Some(Fault(errline, errfile, errno, errstr, 0))
  {
    var h, a := r.HandleError(errno, errstr, errfile, errline, host);
  }

  /** The same fault site arriving n times keeps one `$last_error`, the
      first fault's message, whose counter reads n - 1. */
  method Repeats(fnmatch: Glob, n: nat, host: Host, errstr: string, later: string, errfile: Option<string>, errline: Option<int>)
    returns (last: Option<Fault>)
    requires 0 < n
    ensures last == Some(Fault(errline, errfile, PHP_E_WARNING, errstr, n - 1))
  {
    var r := new ErrorReporter(PHP_E_ALL, fnmatch);
    assert And(PHP_E_ALL, PHP_E_WARNING) != 0 by { assert And(16383, 1) == 1; }
    Raise(r, PHP_E_WARNING, errstr, errfile, errline, host);
    var i := 1;
    while i < n
      invariant 1 <= i <= n
      invariant r.Valid() && r.errorReporting == PHP_E_ALL
      invariant r.lastError == Some(Fault(errline, errfile, PHP_E_WARNING, errstr, i - 1))
    {
      Repeat(r, later, host);
      i := i + 1;
    }
    last := r.lastError;
  }
}
