/** `Error_Reporter` itself: one object holding the class's static state,
    with a method per entry point.  Everything the running program would
    supply (the caller names `get_caller` finds, the rendered backtrace text,
    the answers of report filters and callback objects, `fnmatch`) comes in
    as a parameter. */
module Reporter {
  import opened Wrappers
  import Text
  import opened Bits
  import opened Severity
  import opened Suppression
  import opened Callbacks
  import opened Ring
  import opened Handler

  /** `E_NOTICE | E_WARNING`, the PHP levels `mute_warning(true)` toggles. */
  const MUTED_PHP_LEVELS: Mask := Or(PHP_E_NOTICE, PHP_E_WARNING)

  /** PHP's loose `!=` between the muter's name and `$warn_locker`: `null`
      is loosely equal to the empty string. */
  predicate SameMuter(muter: string, locker: Option<string>)
  {
    if locker.None? then muter == "" else muter == locker.value
  }

  /** What `add_deprecated` hands to `report` when the verbosity is 0. */
  function DeprecatedReport(message: string): string
  {
    "Deprecated: " + message
  }

  class ErrorReporter {
    var ring: seq<Record>
    var errorIdx: Option<nat>
    var errorSeverity: Mask
    var errorCtr: map<Mask, nat>
    var reportCounter: nat
    var lastError: Option<Fault>
    var lastPhpErr: Option<string>
    var doWarn: bool
    var warnLocker: Option<string>
    var oldPhpLevel: Option<Mask>
    /** PHP's `error_reporting()` level. */
    var errorReporting: Mask
    var maxEmit: int
    var verbosity: int
    var suppressed: Table
    var callbacks: seq<Callback>
    var callbackBitmask: Mask
    var bugCopy: Option<string>
    /** The host's `fnmatch`. */
    const fnmatch: Glob

    function RingState(): State
      reads this`ring, this`errorIdx, this`errorSeverity, this`errorCtr
    {
      State(ring, errorIdx, errorSeverity, errorCtr)
    }

    function CurrentGates(): Gates
      reads this`doWarn, this`maxEmit, this`verbosity
    {
      Gates(doWarn, maxEmit, verbosity)
    }

    /** The ring invariant, the report-mail limit, and every callback's class
        being part of `$callbackBitmask`. */
    ghost predicate Valid()
      reads this`ring, this`errorIdx, this`errorSeverity, this`errorCtr
      reads this`reportCounter, this`callbacks, this`callbackBitmask
    {
      Invariant(RingState()) &&
      reportCounter <= REPORT_LIMIT &&
      forall i :: 0 <= i < |callbacks| ==> Severity.Is(callbackBitmask, callbacks[i].errClass)
    }

    /** The initial static values, after `init()` has run `init_ring`. */
    constructor (reporting: Mask, fnmatch: Glob)
      ensures Valid()
      ensures ring == [] && errorIdx == None && errorSeverity == E_OK && errorCtr == map[] && reportCounter == 0
      ensures lastError == None && lastPhpErr == None && doWarn && warnLocker == None && oldPhpLevel == None
      ensures errorReporting == reporting && maxEmit == E_ALL as int && verbosity == 1
      ensures suppressed == map[] && callbacks == [] && callbackBitmask == 0 && bugCopy == None
      ensures this.fnmatch == fnmatch
    {
      ring, errorIdx, errorSeverity, errorCtr, reportCounter := [], None, E_OK, map[], 0;
      lastError, lastPhpErr := None, None;
      doWarn, warnLocker, oldPhpLevel := true, None, None;
      errorReporting, maxEmit, verbosity := reporting, E_ALL as int, 1;
      suppressed, callbacks, callbackBitmask, bugCopy := map[], [], 0, None;
      this.fnmatch := fnmatch;
    }

    /** `init_ring`. */
    method InitRing()
      modifies this`ring, this`errorIdx, this`errorSeverity, this`reportCounter
      ensures RingState() == Cleared(old(RingState())) && reportCounter == 0
    {
      ring, errorIdx, errorSeverity, reportCounter := [], None, E_OK, 0;
    }

    /** `set_report`. */
    method SetReport(email: Option<string>)
      modifies this`bugCopy
      ensures bugCopy == email
    {
      bugCopy := email;
    }

    /** `add_message_callback`: the newest callback goes first and its class
        joins the bitmask. */
    method AddMessageCallback(errClass: Mask, id: nat)
      requires Valid()
      modifies this`callbacks, this`callbackBitmask
      ensures Valid()
      ensures callbacks == Callbacks.Register(old(callbacks), errClass, id)
      ensures callbackBitmask == Or(old(callbackBitmask), errClass)
    {
      forall i | 0 <= i < |callbacks|
        ensures Severity.Is(Or(callbackBitmask, errClass), callbacks[i].errClass)
      {
        OrKeepsContained(callbackBitmask, errClass, callbacks[i].errClass);
      }
      OrKeepsOperand(callbackBitmask, errClass);
      callbacks := [Callback(errClass, id)] + callbacks;
      callbackBitmask := Or(callbackBitmask, errClass);
    }

    /** The accepting tail of `append_msg`. */
    method Store(record: Record)
      requires Valid() && record.severity <= E_FATAL
      modifies this`ring, this`errorIdx, this`errorSeverity, this`errorCtr
      ensures Valid()
      ensures RingState() == Push(old(RingState()), record)
    {
      PushKeepsInvariant(RingState(), record);
      var cls := record.severity;
      ring := ring + [record];
      errorCtr := errorCtr[cls := Count(errorCtr, cls) + 1];
      errorIdx := if errorIdx.None? then Some(0) else errorIdx;
      errorSeverity := Or(errorSeverity, cls);
    }

    /** `append_msg($message, [], $class)` from the reporter method `via`; the
        stored caller is `get_caller()`, that method.  A class above E_FATAL
        ends the program in `fatal`, so it is excluded here. */
    method AppendMsg(message: string, cls: Mask, via: Via, bt: string) returns (omitted: bool)
      requires Valid() && cls <= E_FATAL
      modifies this`ring, this`errorIdx, this`errorSeverity, this`errorCtr
      ensures Valid()
      ensures Outcome(omitted, RingState()) == Append(old(RingState()), CurrentGates(), message, cls, via, bt)
    {
      ghost var expected := Append(RingState(), CurrentGates(), message, cls, via, bt);
      if !doWarn && (cls == PHP_E_WARNING || cls == E_WARNING) {
        return true;
      } else if cls as int > maxEmit {
        return true;
      }
      if errorIdx.Some? && errorIdx.value < |ring| &&
         ring[errorIdx.value].message == message && ring[errorIdx.value].severity == cls {
        return false;
      }
      var record := Record(message, cls, via, None);
      if IsVerbose(verbosity, cls) {
        record := record.(bt := Some(bt));
      }
      assert record == NewRecord(CurrentGates(), message, cls, via, bt);
      assert expected == Outcome(false, Push(RingState(), record));
      Store(record);
      return false;
    }

    /** The message `add_error` logs: prefixed with `get_caller(2)` when
        E_ERROR is verbose. */
    function ErrorText(message: string, caller2: string): string
      reads this
    {
      if IsVerbose(verbosity, E_ERROR) then caller2 + ": " + message else message
    }

    /** `add_error`: false when the message was logged. */
    method AddError(message: string, caller2: string, bt: string) returns (omitted: bool)
      requires Valid()
      modifies this`ring, this`errorIdx, this`errorSeverity, this`errorCtr
      ensures Valid()
      ensures Outcome(omitted, RingState()) ==
        Append(old(RingState()), CurrentGates(), ErrorText(message, caller2), E_ERROR, ViaAddError, bt)
    {
      omitted := AppendMsg(ErrorText(message, caller2), E_ERROR, ViaAddError, bt);
    }

    /** The message `add_warning` logs: prefixed with `get_caller(2)` and
        "(): " while the verbosity is positive. */
    function WarningText(message: string, caller2: string): string
      reads this
    {
      if verbosity > 0 then caller2 + "(): " + message else message
    }

    /** `add_warning`: always true; while warnings are muted the ring is not
        touched. */
    method AddWarning(message: string, caller2: string, bt: string) returns (r: bool)
      requires Valid()
      modifies this`ring, this`errorIdx, this`errorSeverity, this`errorCtr
      ensures Valid() && r
      ensures !doWarn ==> RingState() == old(RingState())
      ensures RingState() ==
        Append(old(RingState()), CurrentGates(), WarningText(message, caller2), E_WARNING, ViaAddWarning, bt).state
    {
      if !doWarn {
        return true;
      }
      var _ := AppendMsg(WarningText(message, caller2), E_WARNING, ViaAddWarning, bt);
      return true;
    }

    /** `add_info`: always true. */
    method AddInfo(message: string, bt: string) returns (r: bool)
      requires Valid()
      modifies this`ring, this`errorIdx, this`errorSeverity, this`errorCtr
      ensures Valid() && r
      ensures RingState() == Append(old(RingState()), CurrentGates(), message, E_INFO, ViaAddInfo, bt).state
    {
      var _ := AppendMsg(message, E_INFO, ViaAddInfo, bt);
      return true;
    }

    /** `add_success`: logs at E_OK and always answers true. */
    method AddSuccess(message: string, bt: string) returns (r: bool)
      requires Valid()
      modifies this`ring, this`errorIdx, this`errorSeverity, this`errorCtr
      ensures Valid() && r
      ensures RingState() == Append(old(RingState()), CurrentGates(), message, E_OK, ViaAddSuccess, bt).state
    {
      var _ := AppendMsg(message, E_OK, ViaAddSuccess, bt);
      return true;
    }

    /** `add_debug`: false when the message was logged. */
    method AddDebug(message: string, bt: string) returns (omitted: bool)
      requires Valid()
      modifies this`ring, this`errorIdx, this`errorSeverity, this`errorCtr
      ensures Valid()
      ensures Outcome(omitted, RingState()) ==
        Append(old(RingState()), CurrentGates(), message, E_DEBUG, ViaAddDebug, bt)
    {
      omitted := AppendMsg(message, E_DEBUG, ViaAddDebug, bt);
    }

    /** `handle_error`.  It never writes the ring: only `$last_error`,
        `$last_php_err` and `$report_counter` change.  `asked` lists the
        callbacks whose `display` was called. */
    method HandleError(errno: Mask, errstr: string, errfile: Option<string>, errline: Option<int>, host: Host)
      returns (handled: bool, asked: seq<nat>)
      requires Valid()
      modifies this`lastError, this`lastPhpErr, this`reportCounter
      ensures Valid() && handled
      ensures var path := Route(errorReporting, old(lastError), errno, errstr, errfile, errline,
                                suppressed, fnmatch, host, callbacks, callbackBitmask);
        lastError == NextLast(path, old(lastError), errno, errstr, errfile, errline) &&
        (path == Reported ==>
           lastPhpErr == Some(errstr) &&
           reportCounter == old(reportCounter) + (if Truthy(bugCopy) && old(reportCounter) < REPORT_LIMIT then 1 else 0)) &&
        (path != Reported ==> lastPhpErr == old(lastPhpErr) && reportCounter == old(reportCounter)) &&
        asked == (if (path == Displayed || path == Reported) && CallbacksRun(callbackBitmask, errno)
                  then Dispatch(callbacks, errno, host.display).asked else [])
    {
      handled, asked := true, [];
      ghost var path := Route(errorReporting, lastError, errno, errstr, errfile, errline,
                              suppressed, fnmatch, host, callbacks, callbackBitmask);
      var last := lastError;
      if And(errorReporting, errno) == 0 {
        assert path == Masked;
        return;
      }
      if last.Some? {
        if errline == last.value.errline && errfile == last.value.errfile && errno == last.value.errno {
          assert path == Repeated;
          lastError := Some(last.value.(errctr := last.value.errctr + 1));
          return;
        }
      }
      assert path == Delivery(errno, errstr, errfile, errline, suppressed, fnmatch, host, callbacks, callbackBitmask);
      asked := NewFault(errno, errstr, errfile, errline, host);
    }

    /** `handle_error` for a fault that is neither masked nor a repeat: it
        becomes `$last_error` with a counter of 0, and is then delivered. */
    method NewFault(errno: Mask, errstr: string, errfile: Option<string>, errline: Option<int>, host: Host)
      returns (asked: seq<nat>)
      requires Valid() && !(lastError.Some? && SameSite(lastError.value, errno, errfile, errline))
      modifies this`lastError, this`lastPhpErr, this`reportCounter
      ensures Valid() && lastError == Some(Fault(errline, errfile, errno, errstr, 0))
      ensures var path := Delivery(errno, errstr, errfile, errline, suppressed, fnmatch, host, callbacks, callbackBitmask);
        (path == Reported ==>
           lastPhpErr == Some(errstr) &&
           reportCounter == old(reportCounter) + (if Truthy(bugCopy) && old(reportCounter) < REPORT_LIMIT then 1 else 0)) &&
        (path != Reported ==> lastPhpErr == old(lastPhpErr) && reportCounter == old(reportCounter)) &&
        asked == (if (path == Displayed || path == Reported) && CallbacksRun(callbackBitmask, errno)
                  then Dispatch(callbacks, errno, host.display).asked else [])
    {
      var fault := Fault(errline, errfile, errno, errstr, 0);
      if lastError == Some(fault) {
        // The source returns false here; the branch is unreachable.
        assert false;
      }
      lastError := Some(fault);
      asked := Deliver(errno, errstr, errfile, errline, host);
    }

    /** The rest of `handle_error` for a new fault: the suppression rules,
        the report filters, the callbacks, then the mail counter and
        `$last_php_err`. */
    method Deliver(errno: Mask, errstr: string, errfile: Option<string>, errline: Option<int>, host: Host)
      returns (asked: seq<nat>)
      requires Valid()
      modifies this`lastPhpErr, this`reportCounter
      ensures Valid()
      ensures var path := Delivery(errno, errstr, errfile, errline, suppressed, fnmatch, host, callbacks, callbackBitmask);
        (path == Reported ==>
           lastPhpErr == Some(errstr) &&
           reportCounter == old(reportCounter) + (if Truthy(bugCopy) && old(reportCounter) < REPORT_LIMIT then 1 else 0)) &&
        (path != Reported ==> lastPhpErr == old(lastPhpErr) && reportCounter == old(reportCounter)) &&
        asked == (if (path == Displayed || path == Reported) && CallbacksRun(callbackBitmask, errno)
                  then Dispatch(callbacks, errno, host.display).asked else [])
    {
      asked := [];
      var report := ReportError(suppressed, fnmatch, host.caller, errno, errstr, errfile, errline);
      if !report {
        return;
      }
      if host.filtered {
        return;
      }
      if And(callbackBitmask, errno) != 0 {
        var preempted;
        preempted, asked := DispatchLoop(callbacks, errno, host.display);
        if preempted {
          return;
        }
      }
      if Truthy(bugCopy) && reportCounter < REPORT_LIMIT {
        reportCounter := reportCounter + 1;
      }
      lastPhpErr := Some(errstr);
    }

    /** `report($msg)`: an E_REPORT fault with no file and no line. */
    method Report(msg: string, host: Host) returns (handled: bool)
      requires Valid()
      modifies this`lastError, this`lastPhpErr, this`reportCounter
      ensures Valid() && handled
      ensures var path := Route(errorReporting, old(lastError), E_REPORT, msg, None, None,
                                suppressed, fnmatch, host, callbacks, callbackBitmask);
        lastError == NextLast(path, old(lastError), E_REPORT, msg, None, None) &&
        (path == Reported ==>
           lastPhpErr == Some(msg) &&
           reportCounter == old(reportCounter) + (if Truthy(bugCopy) && old(reportCounter) < REPORT_LIMIT then 1 else 0)) &&
        (path != Reported ==> lastPhpErr == old(lastPhpErr) && reportCounter == old(reportCounter))
    {
      var asked;
      handled, asked := HandleError(E_REPORT, msg, None, None, host);
    }

    /** The first half of `add_deprecated`: at verbosity 0 the message is
        reported as "Deprecated: ..."; otherwise nothing happens. */
    method ReportDeprecated(message: string, host: Host)
      requires Valid()
      modifies this`lastError, this`lastPhpErr, this`reportCounter
      ensures Valid()
      ensures verbosity != 0 ==>
        lastError == old(lastError) && lastPhpErr == old(lastPhpErr) && reportCounter == old(reportCounter)
      ensures verbosity == 0 ==>
        var msg := DeprecatedReport(message);
        var path := Route(errorReporting, old(lastError), E_REPORT, msg, None, None,
                          suppressed, fnmatch, host, callbacks, callbackBitmask);
        lastError == NextLast(path, old(lastError), E_REPORT, msg, None, None) &&
        (path == Reported ==>
           lastPhpErr == Some(msg) &&
           reportCounter == old(reportCounter) + (if Truthy(bugCopy) && old(reportCounter) < REPORT_LIMIT then 1 else 0)) &&
        (path != Reported ==> lastPhpErr == old(lastPhpErr) && reportCounter == old(reportCounter))
    {
      if verbosity == 0 {
        var _ := Report(DeprecatedReport(message), host);
      }
    }

    /** `add_deprecated`: reported as "Deprecated: ..." when the verbosity is
        0, then stored as E_INFO through `add_info`. */
    method AddDeprecated(message: string, host: Host, bt: string) returns (r: bool)
      requires Valid()
      modifies this`ring, this`errorIdx, this`errorSeverity, this`errorCtr
      modifies this`lastError, this`lastPhpErr, this`reportCounter
      ensures Valid() && r
      ensures RingState() == Append(old(RingState()), CurrentGates(), message, E_INFO, ViaAddInfo, bt).state
      ensures verbosity != 0 ==>
        lastError == old(lastError) && lastPhpErr == old(lastPhpErr) && reportCounter == old(reportCounter)
      ensures verbosity == 0 ==>
        var msg := DeprecatedReport(message);
        var path := Route(errorReporting, old(lastError), E_REPORT, msg, None, None,
                          suppressed, fnmatch, host, callbacks, callbackBitmask);
        lastError == NextLast(path, old(lastError), E_REPORT, msg, None, None) &&
        (path == Reported ==>
           lastPhpErr == Some(msg) &&
           reportCounter == old(reportCounter) + (if Truthy(bugCopy) && old(reportCounter) < REPORT_LIMIT then 1 else 0)) &&
        (path != Reported ==> lastPhpErr == old(lastPhpErr) && reportCounter == old(reportCounter))
    {
      ReportDeprecated(message, host);
      r := AddInfo(message, bt);
    }

    /** `error_type`: the mapped name, or (as `None`) the `true` of the
        `add_warning` it issues for an unmapped class. */
    method ErrorType(errClass: Mask, caller2: string, bt: string) returns (name: Option<string>)
      requires Valid()
      modifies this`ring, this`errorIdx, this`errorSeverity, this`errorCtr
      ensures Valid()
      ensures name == ErrorTypeName(errClass)
      ensures name.Some? ==> RingState() == old(RingState())
      ensures name.None? ==>
        (RingState() ==
           Append(old(RingState()), CurrentGates(),
                  WarningText("invalid error type const " + Text.Decimal(errClass), caller2),
                  E_WARNING, ViaAddWarning, bt).state)
    {
      name := ErrorTypeName(errClass);
      if name.None? {
        var _ := AddWarning("invalid error type const " + Text.Decimal(errClass), caller2, bt);
      }
    }

    /** `suppress_php_error`. */
    method SuppressPhpError(errfunc: string, errno: Mask, errstr: Option<string>, errfile: Option<string>, errline: Option<int>)
      returns (r: bool)
      modifies this`suppressed
      ensures r && suppressed == Suppression.Register(old(suppressed), errfunc, Rule(errno, errstr, errfile, errline))
    {
      suppressed := Suppression.Register(suppressed, errfunc, Rule(errno, errstr, errfile, errline));
      return true;
    }

    /** `set_verbose`: no argument increments; the new value is returned. */
    method SetVerbose(incr: Option<int>) returns (v: int)
      modifies this`verbosity
      ensures verbosity == (if incr.None? then old(verbosity) + 1 else incr.value) && v == verbosity
    {
      if incr.None? {
        verbosity := verbosity + 1;
      } else {
        verbosity := incr.value;
      }
      return verbosity;
    }

    /** `limit_emit`: the previous ceiling is returned. */
    method LimitEmit(level: int) returns (previous: int)
      modifies this`maxEmit
      ensures previous == old(maxEmit) && maxEmit == level
    {
      previous := maxEmit;
      maxEmit := level;
    }

    /** `mute_warning($mute_php)`; `muter` is what `get_muter` finds. */
    method MuteWarning(mutePhp: bool, muter: string) returns (r: bool)
      modifies this`doWarn, this`warnLocker, this`oldPhpLevel, this`errorReporting
      ensures mutePhp ==> oldPhpLevel == Some(old(errorReporting)) && errorReporting == Xor(old(errorReporting), MUTED_PHP_LEVELS)
      ensures !mutePhp ==> oldPhpLevel == old(oldPhpLevel) && errorReporting == old(errorReporting)
      ensures r == old(doWarn) && !doWarn
      ensures warnLocker == if r then Some(muter) else old(warnLocker)
    {
      if mutePhp {
        oldPhpLevel := Some(errorReporting);
        errorReporting := Xor(errorReporting, MUTED_PHP_LEVELS);
      }
      if !doWarn {
        return false;
      }
      doWarn := false;
      warnLocker := Some(muter);
      return true;
    }

    /** `unmute_warning()`; `muter` is what `get_muter` finds.  The locker is
        not cleared. */
    method UnmuteWarning(muter: string) returns (r: bool)
      modifies this`doWarn, this`oldPhpLevel, this`errorReporting
      ensures errorReporting == if old(oldPhpLevel).Some? then old(oldPhpLevel).value else old(errorReporting)
      ensures oldPhpLevel == None
      ensures r == SameMuter(muter, warnLocker)
      ensures doWarn == (r || old(doWarn))
    {
      if oldPhpLevel.Some? {
        errorReporting := oldPhpLevel.value;
        oldPhpLevel := None;
      }
      if !SameMuter(muter, warnLocker) {
        return false;
      }
      doWarn := true;
      return true;
    }

    /** `get_last_php_msg`: read once. */
    method GetLastPhpMsg() returns (msg: Option<string>)
      modifies this`lastPhpErr
      ensures msg == old(lastPhpErr) && lastPhpErr == None
    {
      msg := lastPhpErr;
      lastPhpErr := None;
    }

    /** `get_last_msg`: since `$error_idx` stays 0, the FIRST message of the
        ring, not the latest. */
    function GetLastMsg(): (m: Option<string>)
      reads this
      requires Valid()
      ensures m == if ring == [] then None else Some(ring[0].message)
    {
      if errorIdx.Some? then Some(ring[errorIdx.value].message) else None
    }

    /** `is($class)`: every bit of the class has been logged; `is(0)` always
        holds, and so does `is` of every class in the ring. */
    function Is(c: Mask): (b: bool)
      reads this
      requires Valid()
      ensures b <==> Within(c, errorSeverity)
      ensures c == E_OK ==> b
      ensures (exists i :: 0 <= i < |ring| && ring[i].severity == c) ==> b
    {
      AndWithin(errorSeverity, c);
      IsAfterAccumulate(errorSeverity, c);
      SeverityOfCoversAll(ring);
      And(errorSeverity, c) == c
    }

    /** `get_severity`: E_ERROR when some record has the E_ERROR bit, else
        E_WARNING when some record has the E_WARNING bit, else E_OK. */
    function GetSeverity(): (r: Mask)
      reads this
      requires Valid()
      ensures r == E_ERROR <==> exists i :: 0 <= i < |ring| && And(ring[i].severity, E_ERROR) != 0
      ensures r == E_WARNING <==>
        (forall i :: 0 <= i < |ring| ==> And(ring[i].severity, E_ERROR) == 0) &&
        exists i :: 0 <= i < |ring| && And(ring[i].severity, E_WARNING) != 0
      ensures r in {E_ERROR, E_WARNING, E_OK}
    {
      SeverityOfBits(ring, E_ERROR);
      SeverityOfBits(ring, E_WARNING);
      WorstSeverity(errorSeverity)
    }

    /** `is_error`: some record carries the E_ERROR bit. */
    function IsError(): (b: bool)
      reads this
      requires Valid()
      ensures b <==> exists i :: 0 <= i < |ring| && And(ring[i].severity, E_ERROR) != 0
    {
      assert And(E_ERROR, E_ERROR) == E_ERROR by { AndSelf(E_ERROR); }
      assert And(E_WARNING, E_ERROR) == 0 by { assert And(1, 2) == 0; }
      And(GetSeverity(), E_ERROR) == E_ERROR
    }

    /** `get_msg_count($class)`: at least the number of records of that
        class, and 0 for a class never logged. */
    function GetMsgCount(c: Mask): (n: nat)
      reads this
      requires Valid()
      ensures n >= NumWith(ring, c)
      ensures c !in errorCtr ==> n == 0
    {
      Count(errorCtr, c)
    }

    /** `get_buffer($class)`. */
    method GetBuffer(c: Mask) returns (buffer: seq<Record>)
      ensures buffer == Buffer(ring, c)
      ensures forall r :: r in buffer <==> r in ring && (c == 0 || And(r.severity, c) != 0)
    {
      if c == 0 {
        return ring;
      }
      buffer := [];
      var i := 0;
      while i < |ring|
        invariant 0 <= i <= |ring|
        invariant buffer == FilterBy(ring[..i], c)
      {
        assert ring[..i + 1][..i] == ring[..i];
        if And(ring[i].severity, c) != 0 {
          buffer := buffer + [ring[i]];
        }
        i := i + 1;
      }
      assert ring[..i] == ring;
      forall r ensures r in buffer <==> r in ring && And(r.severity, c) != 0 {
        FilterByMembers(ring, c, r);
      }
    }

    /** `get_errors`: the E_ERROR messages in ring order, or none when
        `is_error()` is false. */
    method GetErrors() returns (errors: seq<string>)
      requires Valid()
      ensures errors == if IsError() then Messages(FilterBy(ring, E_ERROR)) else []
    {
      if !IsError() {
        return [];
      }
      var errbuf := GetBuffer(E_ERROR);
      errors := [];
      var i := 0;
      while i < |errbuf|
        invariant 0 <= i <= |errbuf|
        invariant errors == Messages(errbuf[..i])
      {
        assert errbuf[..i + 1][..i] == errbuf[..i];
        errors := errors + [errbuf[i].message];
        i := i + 1;
      }
      assert errbuf[..i] == errbuf;
    }

    /** `clear_buffer($class)`.  A truthy class first unsets its records and
        bits, but `init_ring` then overwrites what that pass leaves: every
        clear ends with an empty ring, a null index, E_OK and a report
        counter of 0, and keeps the message counters. */
    method ClearBuffer(c: Mask)
      requires Valid()
      modifies this`ring, this`errorIdx, this`errorSeverity, this`reportCounter
      ensures Valid()
      ensures RingState() == Cleared(old(RingState())) && reportCounter == 0
    {
      if c != 0 {
        var kept := [];
        var i := 0;
        while i < |ring|
          invariant 0 <= i <= |ring|
          invariant kept == WithoutClass(ring[..i], c)
        {
          assert ring[..i + 1][..i] == ring[..i];
          if ring[i].severity != c {
            kept := kept + [ring[i]];
          }
          i := i + 1;
        }
        assert ring[..i] == ring;
        assert kept == WithoutClass(ring, c);
        ring := kept;
        errorSeverity := AndNot(errorSeverity, c);
      }
      InitRing();
    }

    /** `flush_buffer($class)`: `get_buffer($class)`, and when that is not
        empty a `clear_buffer($class)`, which empties the whole ring, not
        only that class. */
    method FlushBuffer(c: Mask) returns (buffer: seq<Record>)
      requires Valid()
      modifies this`ring, this`errorIdx, this`errorSeverity, this`reportCounter
      ensures Valid()
      ensures buffer == Buffer(old(ring), c)
      ensures buffer != [] ==> RingState() == Cleared(old(RingState())) && reportCounter == 0
      ensures buffer == [] ==> RingState() == old(RingState()) && reportCounter == old(reportCounter)
    {
      buffer := GetBuffer(c);
      if buffer != [] {
        ClearBuffer(c);
      }
    }

    /** `merge_buffer($buffer)`; `fatal` when an E_EXCEPTION entry ends the
        program inside `append_msg`. */
    method MergeBuffer(buffer: seq<Record>, bt: string) returns (fatal: bool)
      requires Valid()
      modifies this`ring, this`errorIdx, this`errorSeverity, this`errorCtr
      ensures Valid()
      ensures Merged(RingState(), fatal) == Merge(old(RingState()), CurrentGates(), buffer, ViaMergeBuffer, bt)
    {
      var i := 0;
      while i < |buffer|
        invariant 0 <= i <= |buffer|
        invariant Valid()
        invariant Merge(old(RingState()), CurrentGates(), buffer, ViaMergeBuffer, bt) ==
          Merge(RingState(), CurrentGates(), buffer[i..], ViaMergeBuffer, bt)
      {
        var r := buffer[i];
        assert buffer[i..][1..] == buffer[i + 1..];
        if r.severity in MergeClasses && r.severity > E_FATAL {
          return true;
        }
        MergeEntry(r, bt);
        i := i + 1;
      }
      return false;
    }

    /** One pass of the `merge_buffer` loop over an entry that is not fatal. */
    method MergeEntry(r: Record, bt: string)
      requires Valid() && !MergeFatal(r)
      modifies this`ring, this`errorIdx, this`errorSeverity, this`errorCtr
      ensures Valid()
      ensures RingState() == MergeStep(old(RingState()), CurrentGates(), r, ViaMergeBuffer, bt)
    {
      if r.severity in MergeClasses {
        var _ := AppendMsg(r.message, r.severity, ViaMergeBuffer, bt);
      } else {
        var _ := AppendMsg(InvalidClassMessage(r.severity), PHP_E_WARNING, ViaMergeBuffer, bt);
      }
    }

    /** `set_buffer($buffer)`: clear, then merge. */
    method SetBuffer(buffer: seq<Record>, bt: string) returns (fatal: bool)
      requires Valid()
      modifies this`ring, this`errorIdx, this`errorSeverity, this`errorCtr, this`reportCounter
      ensures Valid() && reportCounter == 0
      ensures Merged(RingState(), fatal) == Merge(Cleared(old(RingState())), CurrentGates(), buffer, ViaMergeBuffer, bt)
    {
      ClearBuffer(0);
      fatal := MergeBuffer(buffer, bt);
    }

    /** `downgrade($class)`: never dies, and leaves every record at most the
        class; `Ring.DowngradeAppends` says which records it leaves, in what
        order and how they are counted. */
    method Downgrade(c: Mask, bt: string)
      requires Valid()
      modifies this`ring, this`errorIdx, this`errorSeverity, this`errorCtr, this`reportCounter
      ensures Valid()
      ensures Merged(RingState(), false) == Ring.Downgrade(old(RingState()), CurrentGates(), c, ViaMergeBuffer, bt)
      ensures AtMost(ring, c)
      ensures reportCounter == if old(ring) == [] then old(reportCounter) else 0
    {
      DowngradeBounds(RingState(), CurrentGates(), c, ViaMergeBuffer, bt);
      var flushed := FlushBuffer(0);
      var lowered := LowerAll(flushed, c);
      var fatal := MergeBuffer(lowered, bt);
    }

    /** The loop of `downgrade` that caps the class of each flushed record. */
    static method LowerAll(flushed: seq<Record>, c: Mask) returns (lowered: seq<Record>)
      ensures lowered == Lowered(flushed, c)
    {
      lowered := [];
      var i := 0;
      while i < |flushed|
        invariant 0 <= i <= |flushed|
        invariant |lowered| == i && forall k :: 0 <= k < i ==> lowered[k] == Lower(flushed[k], c)
      {
        lowered := lowered + [Lower(flushed[i], c)];
        i := i + 1;
      }
    }
  }
}
