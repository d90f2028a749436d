/** The decisions of `handle_error`: which path a PHP fault takes through the
    reporting-mask gate, the repeat collapse, the suppression rules, the
    report filters and the message callbacks. */
module Handler {
  import opened Wrappers
  import opened Bits
  import opened Severity
  import opened Suppression
  import opened Callbacks

  /** `$last_error`. */
  datatype Fault = Fault(errline: Option<int>, errfile: Option<string>, errno: Mask, errstr: string, errctr: nat)

  /** What `handle_error` learns from the running program: the method
      `get_caller($stackpos)` names, whether a registered report filter
      claims the fault, and the `display` answers of the callback objects. */
  datatype Host = Host(caller: string, filtered: bool, display: Display)

  /** The repeat test: same line, file and errno (compared strictly); the
      message plays no part. */
  predicate SameSite(last: Fault, errno: Mask, errfile: Option<string>, errline: Option<int>)
  {
    last.errline == errline && last.errfile == errfile && last.errno == errno
  }

  /** Where `handle_error` leaves off. */
  datatype Path =
    | Masked      // `error_reporting() & $errno` is 0
    | Repeated    // same site as `$last_error`: only its counter moves
    | Withheld    // a `suppress_php_error` rule withholds it
    | Filtered    // a report filter claims it
    | Displayed   // a message callback displays it
    | Reported    // the end of the handler is reached

  /** The callbacks are consulted only when their OR-ed classes share a bit
      with the errno. */
  predicate CallbacksRun(bitmask: Mask, errno: Mask)
  {
    And(bitmask, errno) != 0
  }

  function Route(reporting: Mask, last: Option<Fault>, errno: Mask, errstr: string,
                 errfile: Option<string>, errline: Option<int>,
                 table: Table, fnmatch: Glob, host: Host, cbs: seq<Callback>, bitmask: Mask): Path
  {
    if And(reporting, errno) == 0 then Masked
    else if last.Some? && SameSite(last.value, errno, errfile, errline) then Repeated
    else Delivery(errno, errstr, errfile, errline, table, fnmatch, host, cbs, bitmask)
  }

  /** The path of a new fault once `$last_error` has been replaced. */
  function Delivery(errno: Mask, errstr: string, errfile: Option<string>, errline: Option<int>,
                    table: Table, fnmatch: Glob, host: Host, cbs: seq<Callback>, bitmask: Mask): (p: Path)
    ensures p in {Withheld, Filtered, Displayed, Reported}
  {
    if !Reports(table, fnmatch, host.caller, errno, errstr, errfile, errline) then Withheld
    else if host.filtered then Filtered
    else if CallbacksRun(bitmask, errno) && Dispatch(cbs, errno, host.display).preempted then Displayed
    else Reported
  }

  /** `$last_error` after the handler: kept when masked, its counter bumped
      on a repeat, otherwise the new fault with a counter of 0. */
  function NextLast(path: Path, last: Option<Fault>, errno: Mask, errstr: string,
                    errfile: Option<string>, errline: Option<int>): Option<Fault>
    requires path == Repeated ==> last.Some?
  {
    if path == Masked then last
    else if path == Repeated then Some(last.value.(errctr := last.value.errctr + 1))
    else Some(Fault(errline, errfile, errno, errstr, 0))
  }

  /** Once a fault has been handled past the mask gate, the next fault from
      the same line, file and errno is a repeat, whatever its message, so it
      reaches neither the suppression rules nor the callbacks. */
  lemma RepeatCollapses(reporting: Mask, last: Option<Fault>, errno: Mask, errstr: string, errstr2: string,
                        errfile: Option<string>, errline: Option<int>,
                        table: Table, fnmatch: Glob, host: Host, host2: Host, cbs: seq<Callback>, bitmask: Mask)
    requires Route(reporting, last, errno, errstr, errfile, errline, table, fnmatch, host, cbs, bitmask) != Masked
    ensures var p := Route(reporting, last, errno, errstr, errfile, errline, table, fnmatch, host, cbs, bitmask);
      var next := NextLast(p, last, errno, errstr, errfile, errline);
      Route(reporting, next, errno, errstr2, errfile, errline, table, fnmatch, host2, cbs, bitmask) == Repeated &&
      next.value.errno == errno
  {
  }

  /** A new site always resets the repeat counter, so the `return false`
      duplicate branch after it (an exact match of the whole new fault,
      counter 0 included) can never be taken: the new fault differs from the
      old one in its site, or there was no old one. */
  lemma NewSiteNeverDuplicate(last: Option<Fault>, errno: Mask, errstr: string,
                              errfile: Option<string>, errline: Option<int>)
    requires !(last.Some? && SameSite(last.value, errno, errfile, errline))
    ensures last != Some(Fault(errline, errfile, errno, errstr, 0))
  {
  }

  /** A fault that no callback class overlaps never reaches a callback, even
      one that would display it; and with an overlapping bitmask the
      callbacks decide exactly as `Dispatch` says. */
  lemma CallbacksGate(reporting: Mask, last: Option<Fault>, errno: Mask, errstr: string,
                      errfile: Option<string>, errline: Option<int>,
                      table: Table, fnmatch: Glob, host: Host, cbs: seq<Callback>, bitmask: Mask)
    requires And(reporting, errno) != 0 && !(last.Some? && SameSite(last.value, errno, errfile, errline))
    requires Reports(table, fnmatch, host.caller, errno, errstr, errfile, errline) && !host.filtered
    ensures Route(reporting, last, errno, errstr, errfile, errline, table, fnmatch, host, cbs, bitmask) == Displayed <==>
      CallbacksRun(bitmask, errno) &&
      exists i :: 0 <= i < |cbs| && !Skipped(cbs[i], errno) && host.display(cbs[i].id, errno)
  {
    PreemptedIff(cbs, errno, host.display);
  }
}
