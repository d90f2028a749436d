/** Message classes and their names: the class constants of `Error_Reporter`,
    PHP's own error levels, `errno2str`, `error_type`, `is_verbose` and the
    worst-severity query. */
module Severity {
  import opened Wrappers
  import Text
  import opened Bits

  /** An error class, errno or bitmask: a non-negative PHP integer. */
  type Mask = nat

  // The reporter's own classes (Error_Reporter.php:17-26).
  const E_ALL: Mask := 0xFF
  const E_REPORT: Mask := 0x80
  const E_EXCEPTION: Mask := 0x40
  const E_FATAL: Mask := 0x20
  const E_ERROR: Mask := 0x10
  const E_WARNING: Mask := 0x08
  const E_INFO: Mask := 0x04
  const E_DEPRECATED: Mask := 0x02
  const E_DEBUG: Mask := 0x01
  const E_OK: Mask := 0x00
  const VERBOSE_LEVELS: int := 4
  const REPORT_LIMIT: nat := 10

  // PHP's predefined error levels; several coincide with the reporter's classes.
  const PHP_E_ERROR: Mask := 1
  const PHP_E_WARNING: Mask := 2
  const PHP_E_PARSE: Mask := 4
  const PHP_E_NOTICE: Mask := 8
  const PHP_E_USER_WARNING: Mask := 512
  const PHP_E_USER_NOTICE: Mask := 1024
  const PHP_E_STRICT: Mask := 2048
  const PHP_E_RECOVERABLE_ERROR: Mask := 4096
  const PHP_E_DEPRECATED: Mask := 8192
  const PHP_E_USER_DEPRECATED: Mask := 16384
  const PHP_E_ALL: Mask := 32767

  /** The errnos some case of `errno2str`'s switch names. */
  predicate NamedErrno(errno: Mask)
  {
    errno in {PHP_E_USER_WARNING, PHP_E_WARNING, E_WARNING, PHP_E_USER_NOTICE, PHP_E_NOTICE,
              PHP_E_STRICT, PHP_E_RECOVERABLE_ERROR, PHP_E_USER_DEPRECATED, PHP_E_DEPRECATED,
              E_EXCEPTION, E_FATAL, E_INFO, E_ERROR, E_REPORT}
  }

  /** `errno2str`: the first matching case of the switch wins. */
  function Errno2Str(errno: Mask): (name: string)
    ensures !NamedErrno(errno) ==> name == "UNKNOWN (" + Text.Hex(errno) + ")"
    ensures NamedErrno(errno) ==> name != [] && name[0] != 'U'
  {
    if errno in {PHP_E_USER_WARNING, PHP_E_WARNING, E_WARNING} then "WARNING"
    else if errno in {PHP_E_USER_NOTICE, PHP_E_NOTICE} then "NOTICE"
    else if errno == PHP_E_STRICT then "STRICT"
    else if errno == PHP_E_RECOVERABLE_ERROR then "NONFATAL ERROR"
    else if errno in {PHP_E_USER_DEPRECATED, PHP_E_DEPRECATED} then "DEPRECATED"
    else if errno == E_EXCEPTION then "EXCEPTION"
    else if errno == E_FATAL then "FATAL"
    else if errno == E_INFO then "INFO"
    else if errno == E_ERROR then "ERROR"
    else if errno == E_REPORT then "INTERNAL REPORT"
    else "UNKNOWN (" + Text.Hex(errno) + ")"
  }

  /** The class collisions the switch's case order produces: PHP's E_WARNING
      (the reporter's E_DEPRECATED) and PHP's E_NOTICE (the reporter's
      E_WARNING) both read WARNING, so NOTICE is left to E_USER_NOTICE alone;
      the reporter's E_DEBUG and E_OK have no case of their own. */
  lemma Errno2StrCollisions()
    ensures forall e: Mask :: Errno2Str(e) == "WARNING" <==> e in {PHP_E_WARNING, E_WARNING, PHP_E_USER_WARNING}
    ensures forall e: Mask :: Errno2Str(e) == "NOTICE" <==> e == PHP_E_USER_NOTICE
    ensures Errno2Str(E_DEPRECATED) == "WARNING"
    ensures Errno2Str(E_DEBUG) == "UNKNOWN (1)" && Errno2Str(E_OK) == "UNKNOWN (0)"
  {
    forall e: Mask ensures Errno2Str(e) == "WARNING" ==> e in {PHP_E_WARNING, E_WARNING, PHP_E_USER_WARNING} {
      if !NamedErrno(e) {
        assert Errno2Str(e)[0] == 'U';
      }
    }
    forall e: Mask ensures Errno2Str(e) == "NOTICE" ==> e == PHP_E_USER_NOTICE {
      if !NamedErrno(e) {
        assert Errno2Str(e)[0] == 'U';
      }
    }
    assert Text.Hex(1) == "1";
    assert Text.Hex(0) == "0";
  }

  lemma UnknownHexPart(h: string)
    ensures ("UNKNOWN (" + h + ")")[9..9 + |h|] == h
  {
  }

  /** Two errnos without a case of their own never share a name, and no named
      errno reads like an unknown one. */
  lemma {:induction false} Errno2StrUnknownInjective(a: Mask, b: Mask)
    requires !NamedErrno(a)
    requires Errno2Str(a) == Errno2Str(b)
    ensures a == b
  {
    var ha := Text.Hex(a);
    assert Errno2Str(a)[0] == 'U';
    if !NamedErrno(b) {
      var hb := Text.Hex(b);
      assert "UNKNOWN (" + ha + ")" == "UNKNOWN (" + hb + ")";
      assert |ha| == |hb|;
      UnknownHexPart(ha);
      UnknownHexPart(hb);
      Text.HexInjective(a, b);
    }
  }

  /** `$error_mapping`, and what `error_type` finds in it (`isset` is true for
      every mapped key, the empty name of E_OK included). */
  function ErrorTypeName(errClass: Mask): (name: Option<string>)
    ensures name.Some? <==> errClass in {E_FATAL, E_ERROR, E_WARNING, E_INFO, E_DEPRECATED, E_DEBUG, E_OK}
  {
    if errClass == E_FATAL then Some("fatal")
    else if errClass == E_ERROR then Some("error")
    else if errClass == E_WARNING then Some("warning")
    else if errClass == E_INFO then Some("info")
    else if errClass == E_DEPRECATED then Some("deprecated")
    else if errClass == E_DEBUG then Some("debug")
    else if errClass == E_OK then Some("")
    else None
  }

  /** The mapping is one-to-one, so a name found by `error_type` identifies
      its class. */
  lemma ErrorTypeNameInjective(a: Mask, b: Mask)
    requires ErrorTypeName(a).Some? && ErrorTypeName(a) == ErrorTypeName(b)
    ensures a == b
  {
  }

  /** `is_verbose`: `VERBOSE_LEVELS - $verbosity < log($errno, 2)`, except that
      a verbosity of 0 is never verbose.  For a positive errno and an integer t,
      `t < log2(errno)` holds exactly when t is negative or `2^t < errno`; the
      logarithm of 0 is minus infinity, so errno 0 is never verbose. */
  function IsVerbose(verbosity: int, errno: Mask): bool
  {
    verbosity != 0 && errno != 0 &&
    var t := VERBOSE_LEVELS - verbosity;
    t < 0 || Pow2(t) < errno
  }

  /** On a power-of-two class `2^k`, verbosity v prints it iff `4 - v < k`. */
  lemma IsVerboseAtPowerOfTwo(verbosity: int, errno: Mask, k: nat)
    requires errno == Pow2(k)
    ensures IsVerbose(verbosity, errno) <==> verbosity != 0 && VERBOSE_LEVELS - verbosity < k
  {
    var t := VERBOSE_LEVELS - verbosity;
    if 0 <= t < k {
      Pow2Monotone(t, k);
    } else if k < t {
      Pow2Monotone(k, t);
    }
  }

  /** Raising the verbosity (while it stays positive) never hides a class. */
  lemma IsVerboseMonotone(v: int, w: int, errno: Mask)
    requires 0 < v <= w && IsVerbose(v, errno)
    ensures IsVerbose(w, errno)
  {
    var t, u := VERBOSE_LEVELS - v, VERBOSE_LEVELS - w;
    if 0 <= u < t {
      Pow2Monotone(u, t);
    }
  }

  /** With the initial verbosity of 1 exactly the classes above E_WARNING
      are verbose: E_ERROR, E_FATAL, E_EXCEPTION and E_REPORT, but not
      E_WARNING, E_INFO, E_DEPRECATED, E_DEBUG or E_OK.  At verbosity 0
      nothing is. */
  lemma DefaultVerbosity()
    ensures forall e: Mask :: IsVerbose(1, e) <==> e > E_WARNING
    ensures IsVerbose(1, E_ERROR) && IsVerbose(1, E_FATAL) && IsVerbose(1, E_EXCEPTION) && IsVerbose(1, E_REPORT)
    ensures !IsVerbose(1, E_WARNING) && !IsVerbose(1, E_INFO) && !IsVerbose(1, E_DEPRECATED)
    ensures !IsVerbose(1, E_DEBUG) && !IsVerbose(1, E_OK)
    ensures forall e: Mask :: !IsVerbose(0, e)
  {
    assert Pow2(3) == E_WARNING by {
      assert Pow2(0) == 1 && Pow2(1) == 2 && Pow2(2) == 4;
    }
  }

  /** `get_severity` over an accumulated mask: the E_ERROR bit wins, then the
      E_WARNING bit. */
  function WorstSeverity(severity: Mask): (r: Mask)
    ensures r in {E_ERROR, E_WARNING, E_OK}
  {
    if And(severity, E_ERROR) != 0 then E_ERROR
    else if And(severity, E_WARNING) != 0 then E_WARNING
    else E_OK
  }

  /** Bits other than E_ERROR and E_WARNING (E_FATAL among them) never change
      the worst severity. */
  lemma WorstSeverityIgnoresOtherBits(severity: Mask, extra: Mask)
    requires And(extra, E_ERROR) == 0 && And(extra, E_WARNING) == 0
    ensures WorstSeverity(Or(severity, extra)) == WorstSeverity(severity)
  {
    OrOverlap(severity, extra, E_ERROR);
    OrOverlap(severity, extra, E_WARNING);
  }

  /** Accumulating a class can only make the worst severity worse: once an
      E_ERROR bit is in, it stays E_ERROR; an E_WARNING bit gives at least
      E_WARNING. */
  lemma WorstSeverityAccumulates(severity: Mask, c: Mask)
    ensures WorstSeverity(severity) == E_ERROR ==> WorstSeverity(Or(severity, c)) == E_ERROR
    ensures And(c, E_ERROR) != 0 ==> WorstSeverity(Or(severity, c)) == E_ERROR
    ensures And(c, E_WARNING) != 0 ==> WorstSeverity(Or(severity, c)) != E_OK
  {
    OrOverlap(severity, c, E_ERROR);
    OrOverlap(severity, c, E_WARNING);
  }

  /** `is($class)`: every bit of the class has been seen. */
  predicate Is(severity: Mask, c: Mask)
  {
    And(severity, c) == c
  }

  /** `is(0)` always holds, and after `|= c` so does `is(c)`. */
  lemma IsAfterAccumulate(severity: Mask, c: Mask)
    ensures Is(severity, 0)
    ensures Is(Or(severity, c), c)
  {
    OrKeepsOperand(severity, c);
  }
}
