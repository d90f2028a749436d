/** The suppression chain: `suppress_php_error` registers rules per function
    name, `_report_error` asks whether any of them withholds a fault. */
module Suppression {
  import opened Wrappers
  import Text
  import opened Bits
  import opened Severity

  /** One rule as `suppress_php_error` stores it; an unset field is `None`. */
  datatype Rule = Rule(errno: Mask, errstr: Option<string>, errfile: Option<string>, errline: Option<int>)

  /** The rules registered per function name, in registration order. */
  type Table = map<string, seq<Rule>>

  /** `fnmatch($pattern, $string)`, supplied by the host. */
  type Glob = (string, string) -> bool

  /** PHP truthiness of an optional string: set, not empty and not "0". */
  predicate Truthy(s: Option<string>)
  {
    s.Some? && s.value != "" && s.value != "0"
  }

  /** PHP truthiness of an optional line number. */
  predicate TruthyLine(l: Option<int>)
  {
    l.Some? && l.value != 0
  }

  /** What `fnmatch` sees of an optional file name: `null` reads as "". */
  function FileText(f: Option<string>): string
  {
    if f.Some? then f.value else ""
  }

  /** One rule withholds the fault when none of its four checks says
      `continue`: every bit of errno is in the rule's mask, the rule's errstr
      (if truthy) occurs literally in the message, its file glob (if truthy)
      matches, and its line (if truthy) equals the fault's line. */
  predicate Vetoes(rule: Rule, fnmatch: Glob, errno: Mask, errstr: string, errfile: Option<string>, errline: Option<int>)
  {
    Within(errno, rule.errno) &&
    (Truthy(rule.errstr) ==> Text.Contains(errstr, rule.errstr.value)) &&
    (Truthy(rule.errfile) ==> fnmatch(rule.errfile.value, FileText(errfile))) &&
    (TruthyLine(rule.errline) ==> errline == rule.errline)
  }

  /** What `_report_error` answers: report unless some rule registered for the
      method withholds the fault. */
  predicate Reports(table: Table, fnmatch: Glob, caller: string, errno: Mask, errstr: string, errfile: Option<string>, errline: Option<int>)
  {
    caller !in table || NoneVetoes(table[caller], fnmatch, errno, errstr, errfile, errline)
  }

  /** No rule of the list withholds the fault. */
  predicate NoneVetoes(rules: seq<Rule>, fnmatch: Glob, errno: Mask, errstr: string, errfile: Option<string>, errline: Option<int>)
  {
    forall k :: 0 <= k < |rules| ==> !Vetoes(rules[k], fnmatch, errno, errstr, errfile, errline)
  }

  lemma NoneVetoesAppend(rules: seq<Rule>, rule: Rule, fnmatch: Glob, errno: Mask, errstr: string, errfile: Option<string>, errline: Option<int>)
    ensures NoneVetoes(rules + [rule], fnmatch, errno, errstr, errfile, errline) <==>
      NoneVetoes(rules, fnmatch, errno, errstr, errfile, errline) && !Vetoes(rule, fnmatch, errno, errstr, errfile, errline)
  {
    var all := rules + [rule];
    if NoneVetoes(all, fnmatch, errno, errstr, errfile, errline) {
      assert all[|rules|] == rule;
      forall k | 0 <= k < |rules|
        ensures !Vetoes(rules[k], fnmatch, errno, errstr, errfile, errline)
      {
        assert all[k] == rules[k];
      }
    }
  }

  /** `_report_error`: the rules of the method are tried in order and the
      first that withholds the fault ends the search. */
  method ReportError(table: Table, fnmatch: Glob, caller: string, errno: Mask, errstr: string, errfile: Option<string>, errline: Option<int>)
    returns (report: bool)
    ensures report == Reports(table, fnmatch, caller, errno, errstr, errfile, errline)
  {
    if caller !in table {
      return true;
    }
    var rules := table[caller];
    var i := 0;
    while i < |rules|
      invariant 0 <= i <= |rules|
      invariant forall k :: 0 <= k < i ==> !Vetoes(rules[k], fnmatch, errno, errstr, errfile, errline)
    {
      var rule := rules[i];
      if !Within(errno, rule.errno) {
        i := i + 1;
        continue;
      }
      if Truthy(rule.errstr) && !Text.Contains(errstr, rule.errstr.value) {
        i := i + 1;
        continue;
      }
      if Truthy(rule.errfile) && !fnmatch(rule.errfile.value, FileText(errfile)) {
        i := i + 1;
        continue;
      }
      if TruthyLine(rule.errline) && errline != rule.errline {
        i := i + 1;
        continue;
      }
      return false;
    }
    return true;
  }

  /** `suppress_php_error`: the rule goes at the end of the function's list. */
  function Register(table: Table, errfunc: string, rule: Rule): (t: Table)
    ensures errfunc in t && 0 < |t[errfunc]| && t[errfunc][|t[errfunc]| - 1] == rule
    ensures t[errfunc][..|t[errfunc]| - 1] == if errfunc in table then table[errfunc] else []
    ensures t.Keys == table.Keys + {errfunc}
    ensures forall m :: m in table && m != errfunc ==> m in t && t[m] == table[m]
  {
    table[errfunc := (if errfunc in table then table[errfunc] else []) + [rule]]
  }

  /** After registering a rule, a fault is reported exactly when it was
      reported before and the new rule does not withhold it for that method. */
  lemma RegisterEffect(table: Table, fnmatch: Glob, errfunc: string, rule: Rule,
                       caller: string, errno: Mask, errstr: string, errfile: Option<string>, errline: Option<int>)
    ensures Reports(Register(table, errfunc, rule), fnmatch, caller, errno, errstr, errfile, errline) <==>
      Reports(table, fnmatch, caller, errno, errstr, errfile, errline) &&
      !(caller == errfunc && Vetoes(rule, fnmatch, errno, errstr, errfile, errline))
  {
    var t := Register(table, errfunc, rule);
    if caller == errfunc {
      var before := if errfunc in table then table[errfunc] else [];
      assert t[caller] == before + [rule];
      NoneVetoesAppend(before, rule, fnmatch, errno, errstr, errfile, errline);
    }
  }

  /** A rule with PHP's default E_ALL mask and nothing else set withholds
      every fault of a PHP error level for its function. */
  lemma DefaultRuleWithholdsEveryLevel(fnmatch: Glob, errno: Mask, errstr: string, errfile: Option<string>, errline: Option<int>)
    requires errno <= PHP_E_ALL
    ensures Vetoes(Rule(PHP_E_ALL, None, None, None), fnmatch, errno, errstr, errfile, errline)
  {
    assert Pow2(15) == PHP_E_ALL + 1;
    WithinAllOnes(errno, 15);
  }

  /** The mask test asks for containment, not overlap: a rule never withholds
      a fault with a bit outside the rule's mask, whatever its other fields. */
  lemma MaskIsContainment(rule: Rule, fnmatch: Glob, errno: Mask, errstr: string, errfile: Option<string>, errline: Option<int>)
    requires AndNot(errno, rule.errno) != 0
    ensures !Vetoes(rule, fnmatch, errno, errstr, errfile, errline)
  {
  }

  /** So a rule for E_ERROR alone does not withhold a fault numbered
      `E_ERROR | E_WARNING`, although the two share a bit. */
  lemma OverlapIsNotEnough(fnmatch: Glob, errstr: string, errfile: Option<string>, errline: Option<int>)
    ensures And(PHP_E_ERROR + PHP_E_WARNING, PHP_E_ERROR) != 0
    ensures !Vetoes(Rule(PHP_E_ERROR, None, None, None), fnmatch, PHP_E_ERROR + PHP_E_WARNING, errstr, errfile, errline)
  {
    assert AndNot(1, 0) == 1;
    MaskIsContainment(Rule(PHP_E_ERROR, None, None, None), fnmatch, PHP_E_ERROR + PHP_E_WARNING, errstr, errfile, errline);
  }
}
