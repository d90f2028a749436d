# Error_Reporter in Dafny

A model of `Error_Reporter`, the static PHP class that collects an
application's messages and PHP runtime faults.

- **Message ring.** Messages go into a ring of records (`$error_ring`), with:
  - an index (`$error_idx`);
  - an OR of the classes seen (`$error_severity`);
  - a counter per class (`$error_ctr`).
- **Ring operations.** The model covers the entry points that feed the ring
  (`add_error`, `add_warning`, `add_info`, `add_success`, `add_debug`,
  `add_deprecated`) and its queries (`get_buffer`, `get_errors`, `is`,
  `is_error`, `get_severity`, `get_msg_count`, `get_last_msg`). It also covers
  the operations that rewrite the ring: `clear_buffer`, `flush_buffer`,
  `merge_buffer`, `set_buffer` and `downgrade`.
- **Fault handler.** `handle_error` is modelled except for what "## Left out" lists:
  - the `error_reporting()` gate;
  - the collapse of repeated faults into `$last_error`'s counter;
  - the `suppress_php_error` rules checked by `_report_error`;
  - the report filters;
  - the message callbacks of `add_message_callback`, newest first;
  - the mail counter, as a counter only.
- **Other state.** The mute lock (`mute_warning`/`unmute_warning`) and the
  settings (`set_verbose`, `limit_emit`, `set_report`).
- **Pure helpers.** `errno2str`, `error_type`, `is_verbose` and `truncate`.
- **Stack helpers.** `get_caller`, `get_stack` and the frame loop of
  `parse_debug_bt`, all over a given list of frames.

Files and modules:

- `bits.dfy` (`Bits`): PHP's `&`, `|`, `^` and `~a & b` on non-negative
  integers, defined bit by bit, with the lemmas the rest needs.
- `text.dfy` (`Wrappers`, `Text`): the Option type, `dechex` and decimal
  rendering, the literal substring test of `preg_quote`d patterns,
  `truncate`.
- `severity.dfy` (`Severity`): the class constants, PHP's error levels,
  `errno2str`, `$error_mapping`, `is_verbose`, and the worst-severity query.
- `ring.dfy` (`Ring`): the ring as a value. `append_msg`, the filter of
  `get_buffer`, `merge_buffer` and `downgrade` are pure functions of it, and
  the invariant they keep is proved about them.
- `suppression.dfy` (`Suppression`): the rule table and `_report_error`.
- `callbacks.dfy` (`Callbacks`): callback registration and the dispatch loop.
- `handler.dfy` (`Handler`): the path a fault takes through `handle_error`.
- `reporter.dfy` (`Reporter`): the class `ErrorReporter`.
  - Its fields are the static properties.
  - It has one method per entry point.
  - Each state-changing method is proved against the functions of `Ring` and
    `Handler`.
- `scenarios.dfy` (`Scenarios`): short runs that pin down behaviours end to
  end.

Everything outside the class comes in as a parameter:

- `fnmatch`;
- the method `get_caller` finds;
- whether a report filter claims a fault;
- the `display` answers of the callback objects;
- the backtrace text;
- the frames of `debug_backtrace()`;
- the argument summaries of `parse_debug_bt`.

Integers are unbounded and non-negative where the source uses them as
classes and masks. `$max_emit` and `$verbosity` are plain integers.

Where the class's comments or the natural reading of a method differ from
its code, the model follows the code:

- `$error_idx = null === $error_idx ? 0 : $error_idx++` stores the old value
  back, so the index stays 0 once set.
  - The duplicate test of `append_msg` compares a new message with the FIRST
    record, not the latest.
  - `get_last_msg` returns the first message.
- `clear_buffer($class)` always ends in `init_ring()`. Any clear, including
  the `clear_buffer` a `flush_buffer($class)` runs, empties the whole ring and
  resets the report counter. `$error_ctr` survives.
- `handle_error` never writes the ring. It changes only `$last_error`,
  `$last_php_err` and `$report_counter`.
- `downgrade` re-appends each record through `append_msg`, so the gates and
  the duplicate test apply again.
  - Each re-appended record is counted a second time.
  - Its caller becomes `merge_buffer`.
  - A record whose lowered class the switch of `merge_buffer` does not name
    (`E_FATAL`, or a class such as 3 that `downgrade(3)` gives an error)
    turns into an "N: invalid error class" entry of class `E_DEPRECATED`,
    which is still at most the class.
- The counters are at least the number of records of their class, not
  equal to it, once a flush or a downgrade has happened.
- `add_deprecated` stores its message at `E_INFO`.
- `(!$cb['class']) & $errno` tests only whether the callback's class is 0
  and the errno is odd. A callback's class only widens the bitmask that
  decides whether callbacks are asked at all.
- `mute_warning(true)` XORs `E_NOTICE | E_WARNING` into the reporting level.
  A second mute toggles those levels back on.
- Only frame `stack_pos + 1` is read by `get_caller`. A name excluded by the
  pattern is still returned, because it is assigned before the pattern is
  tried.
- The `return false` of `handle_error`'s duplicate check can never be
  taken, because a new site always has a counter of 0 and differs from the
  old fault in its site.

## Model

| member | source | states |
|---|---|---|
| Text.ValueOfHex | Error_Reporter.php:666 | reading back the digits `dechex` writes gives the number again |
| Text.HexInjective | Error_Reporter.php:666 | distinct numbers get distinct `dechex` renderings |
| Text.ContainsMiddle | Error_Reporter.php:691-693 | the literal substring test finds a needle in any string built around it |
| Text.Truncate | Error_Reporter.php:1186-1196 | a string no longer than len is returned unchanged; a longer one becomes exactly its first len characters and "..."; a negative len counts from the end, for the `isset` test and the cut alike |
| Text.TruncateIdempotent | Error_Reporter.php:1186-1196 | for a non-negative length, truncating a truncated string changes nothing |
| Severity.Errno2Str | Error_Reporter.php:638-668 | an errno without a case reads `UNKNOWN (<hex>)`; a named errno never reads like an unknown one |
| Severity.Errno2StrCollisions | Error_Reporter.php:640-666 | WARNING is given to exactly PHP E_WARNING, the reporter's E_WARNING and E_USER_WARNING; NOTICE only to E_USER_NOTICE; E_DEPRECATED reads WARNING; E_DEBUG and E_OK read UNKNOWN (1) and UNKNOWN (0) |
| Severity.Errno2StrUnknownInjective | Error_Reporter.php:665-666 | two errnos without a case never share a name, and no named errno shares one with them |
| Severity.ErrorTypeName | Error_Reporter.php:45-53 | a name is found exactly for the seven mapped classes |
| Severity.ErrorTypeNameInjective | Error_Reporter.php:45-53 | the mapping is one-to-one |
| Severity.IsVerboseAtPowerOfTwo | Error_Reporter.php:553-560 | on the class 2^k, verbosity v is verbose exactly when v is not 0 and 4 - v < k |
| Severity.IsVerboseMonotone | Error_Reporter.php:553-560 | raising a positive verbosity never hides a class |
| Severity.DefaultVerbosity | Error_Reporter.php:553-560 | at the initial verbosity 1 a class is verbose exactly when it is above E_WARNING: E_ERROR, E_FATAL, E_EXCEPTION and E_REPORT are, E_WARNING, E_INFO, E_DEPRECATED, E_DEBUG and E_OK are not; at verbosity 0 nothing is |
| Severity.WorstSeverity | Error_Reporter.php:1134-1145 | the answer is always E_ERROR, E_WARNING or E_OK |
| Severity.WorstSeverityIgnoresOtherBits | Error_Reporter.php:1134-1145 | bits other than E_ERROR and E_WARNING, E_FATAL among them, never change the answer |
| Severity.WorstSeverityAccumulates | Error_Reporter.php:1134-1145 | once the answer is E_ERROR, OR-ing in any class keeps it E_ERROR; a class with the E_ERROR bit makes it E_ERROR; a class with the E_WARNING bit makes it at least E_WARNING |
| Severity.IsAfterAccumulate | Error_Reporter.php:1087-1090 | `is(0)` always holds, and `is(c)` holds once c has been OR-ed in |
| Bits.XorFlips | Error_Reporter.php:830 | XOR with a mask flips exactly the bits of that mask and keeps all others |
| Bits.XorTwice | Error_Reporter.php:830 | XOR-ing the same mask twice restores the level |
| Suppression.ReportError | Error_Reporter.php:680-707 | the loop over a method's rules answers true when the method has no rules, and otherwise false exactly when some rule passes all four checks |
| Suppression.Register | Error_Reporter.php:740-758 | the rule goes at the end of the function's list; the earlier rules and every other function's list are kept |
| Suppression.RegisterEffect | Error_Reporter.php:740-758 | after registering a rule, a fault is reported exactly when it was reported before and the new rule does not withhold it for that method |
| Suppression.DefaultRuleWithholdsEveryLevel | Error_Reporter.php:688-690 | a rule with the default E_ALL mask and nothing else set withholds every PHP error level |
| Suppression.MaskIsContainment | Error_Reporter.php:688-690 | a rule never withholds a fault with a bit outside the rule's mask, whatever its other fields say |
| Suppression.OverlapIsNotEnough | Error_Reporter.php:688-690 | a rule for E_ERROR alone does not withhold a fault numbered 3, PHP's E_ERROR OR-ed with E_WARNING, though the two share a bit |
| Callbacks.SkippedIff | Error_Reporter.php:227-229 | a callback is skipped exactly when its class is 0 and the errno is odd |
| Callbacks.Register | Error_Reporter.php:120-122 | the new callback goes first and the older ones follow in their order |
| Callbacks.PreemptedIff | Error_Reporter.php:226-233 | the fault is taken over exactly when some callback that is not skipped displays it |
| Callbacks.AskedAreNotSkipped | Error_Reporter.php:226-233 | every callback asked is one that is not skipped |
| Callbacks.NewestFirst | Error_Reporter.php:121-122 | the most recently registered callback is asked first, and when it displays the fault no older one is asked |
| Callbacks.DispatchLoop | Error_Reporter.php:226-233 | the loop's result and the callbacks it asks are those of the dispatch function |
| Handler.RepeatCollapses | Error_Reporter.php:174-179 | once a fault has passed the mask gate, the next fault from the same line, file and errno is a repeat, whatever its message |
| Handler.NewSiteNeverDuplicate | Error_Reporter.php:188-199 | for a fault that is not a repeat, the new `$last_error` never equals the old one, so the duplicate branch is dead |
| Handler.CallbacksGate | Error_Reporter.php:224-233 | a reported fault is displayed by a callback exactly when the bitmask overlaps its errno and some callback that is not skipped displays it |
| Ring.Cleared | Error_Reporter.php:86-94 | `init_ring` leaves a state that satisfies the ring invariant and keeps the counters |
| Ring.PushKeepsInvariant | Error_Reporter.php:618-626 | storing a record of at most E_FATAL keeps the ring invariant |
| Ring.Append | Error_Reporter.php:571-630 | the result is true exactly when the mute or ceiling gate swallows the message; a swallowed or duplicate message leaves the ring unchanged; otherwise the ring grows by one |
| Ring.AppendAccepted | Error_Reporter.php:593-628 | an accepted message becomes the last record, with its message, class, caller and a backtrace only when verbose; its counter goes up by one and no other counter changes; `is($class)` holds afterwards; the result is false |
| Ring.AppendKeepsInvariant | Error_Reporter.php:571-630 | `append_msg` keeps the ring invariant: the index is null exactly on an empty ring and 0 otherwise, no record is above E_FATAL, the severity is the OR of the records' classes, and each counter is at least its class's record count |
| Ring.DuplicateMeansFirst | Error_Reporter.php:586-625 | on a non-empty ring the duplicate test compares with the first record |
| Ring.TailRepeatIsKept | Error_Reporter.php:586-625 | repeating the latest message, when it differs from the first one, stores a second copy |
| Ring.SeverityOfBits | Error_Reporter.php:626 | a bit is in the accumulated severity exactly when some record's class has it |
| Ring.SeverityOfCovers | Error_Reporter.php:626 | every record's class is contained in the accumulated severity |
| Ring.FilterByMembers | Error_Reporter.php:1019-1027 | a record is returned by the class filter exactly when it is in the ring and shares a bit with the class |
| Ring.FilterByConcat | Error_Reporter.php:1019-1027 | the filter keeps ring order: filtering a concatenation concatenates the filtered parts |
| Ring.Messages | Error_Reporter.php:1117-1119 | one message per record, in order |
| Ring.MergeFatalIff | Error_Reporter.php:1062-1085 | a merge dies in `fatal` exactly when the buffer holds an E_EXCEPTION entry |
| Ring.MergeKeepsInvariant | Error_Reporter.php:1062-1085 | a merge keeps the ring invariant |
| Ring.MergeAtMost | Error_Reporter.php:1062-1085 | merging records of at most class c into a ring whose records are at most c keeps that bound, "invalid error class" entries included |
| Ring.Entered | Error_Reporter.php:1067-1079 | the record stored for an entry has the entry's class and message when the switch names the class, and otherwise E_DEPRECATED and "N: invalid error class"; its caller is the method calling `append_msg` |
| Ring.MergeStepPushes | Error_Reporter.php:1066-1080 | an entry that is not fatal, not swallowed and not a duplicate is pushed as its `Entered` record |
| Ring.MergeAppends | Error_Reporter.php:1062-1085 | when no entry is fatal, swallowed or a repeat of the first record, the merge does not die, the ring becomes the old ring followed by the entries' records in buffer order, and each class is counted once more per record stored with it |
| Ring.Lowered | Error_Reporter.php:987-993 | one record per record, in order, each lowered to at most the class |
| Ring.LoweredNeverRaises | Error_Reporter.php:987-993 | lowering never raises a class, caps it at c and keeps the message |
| Ring.DowngradeBounds | Error_Reporter.php:985-995 | after a downgrade every record is at most the class; a downgrade never dies; the ring invariant holds |
| Ring.DowngradeAppends | Error_Reporter.php:985-995 | when no lowered record is swallowed or repeats the first, the ring holds one record per old record in the old order, each with `merge_buffer` as its caller, and every class is counted again, on top of the old counters, for each record stored with it |
| Backtrace.Visible | Error_Reporter.php:495 | the frame limit keeps the innermost frames: at most `stack_pos + 2` of them when that is positive, and none when it is negative |
| Backtrace.GetCaller | Error_Reporter.php:492-535 | the method's answer is the caller function's: an out-of-bounds message past the stack, "unknown" for a `__call` frame or a missing frame, otherwise frame `stack_pos + 1`'s name; the pattern and the backtrace filters never change it |
| Backtrace.CallerOfInBounds | Error_Reporter.php:492-535 | a position inside the stack never reports an out-of-bounds depth; it names frame `stack_pos + 1`, or "unknown" when that frame is `__call` |
| Backtrace.CallerOfLocal | Error_Reporter.php:495-516 | only frame `stack_pos + 1` matters: stacks that agree there give the same answer |
| Backtrace.GetStack | Error_Reporter.php:807-819 | one entry per frame, in order, each `Class::function()` with `:line` when lines are asked for and known |
| Backtrace.StackEntryNamesMethod | Error_Reporter.php:813-815 | an entry is the name `get_caller` gives the frame followed by `()`, and the line only extends it |
| Backtrace.Pad2 | Error_Reporter.php:320 | numbers below 100 take exactly two columns |
| Backtrace.BtEnd | Error_Reporter.php:312-316 | the loop never goes past the frames it has |
| Backtrace.ParseDebugBt | Error_Reporter.php:305-468 | the dump is the concatenation of one rendered line per frame from the offset up to `min(sizeof($bt), $max)`, a max below 1 meaning 99 |
| Backtrace.CollectedAt | Error_Reporter.php:316-320 | the loop collects one line per index, line k being frame offset + k numbered k |
| Backtrace.FrameLineEnds | Error_Reporter.php:320-466 | a frame line starts with its number and ends with a newline |
| Backtrace.FrameLineNamesMethod | Error_Reporter.php:321-329 | the line of a static call contains the name `get_caller` gives that frame |
| Backtrace.BtLinesCount | Error_Reporter.php:312-316 | the dump has `min(sizeof($bt), $max) - offset` lines, or none |
| Backtrace.BtLinesShape | Error_Reporter.php:316-320 | line k renders frame offset + k with number k, and with the default limit every number fits two columns |
| Reporter.ErrorReporter.constructor | Error_Reporter.php:31-63 | the initial static values, the ring as `init_ring` leaves it, and the ring invariant |
| Reporter.ErrorReporter.InitRing | Error_Reporter.php:86-94 | the ring, index and severity are reset and the report counter is 0; the counters stay |
| Reporter.ErrorReporter.SetReport | Error_Reporter.php:101-104 | the bug-copy address is set |
| Reporter.ErrorReporter.AddMessageCallback | Error_Reporter.php:116-123 | the callback goes first, its class is OR-ed into the bitmask, and every callback's class stays within the bitmask |
| Reporter.ErrorReporter.Store | Error_Reporter.php:618-626 | the record is pushed, its class counted, the index set to 0 when null and the class OR-ed into the severity, keeping the invariant |
| Reporter.ErrorReporter.AppendMsg | Error_Reporter.php:571-630 | the result and the new ring are exactly those of `Ring.Append`, and the invariant holds |
| Reporter.ErrorReporter.AddError | Error_Reporter.php:537-545 | logs at E_ERROR, prefixed with the caller when E_ERROR is verbose, and returns `append_msg`'s result |
| Reporter.ErrorReporter.AddWarning | Error_Reporter.php:914-926 | always true; while muted the ring is untouched; otherwise logs at E_WARNING, prefixed with the caller and "(): " when the verbosity is positive |
| Reporter.ErrorReporter.AddInfo | Error_Reporter.php:972-978 | always true; logs at E_INFO |
| Reporter.ErrorReporter.AddSuccess | Error_Reporter.php:723-728 | always true; logs at E_OK |
| Reporter.ErrorReporter.AddDebug | Error_Reporter.php:943-946 | logs at E_DEBUG and returns `append_msg`'s result |
| Reporter.ErrorReporter.HandleError | Error_Reporter.php:161-279 | always true; `$last_error` moves as the fault's path says (kept when masked, its counter bumped on a repeat, else the new fault at counter 0); `$last_php_err` and the mail counter (capped at 10, only with a bug copy) change only for a fault that reaches the end; the callbacks asked are exactly those the dispatch asks, and only when the bitmask overlaps the errno |
| Reporter.ErrorReporter.NewFault | Error_Reporter.php:188-201 | a fault that is neither masked nor a repeat becomes `$last_error` at counter 0 and is then delivered |
| Reporter.ErrorReporter.Deliver | Error_Reporter.php:214-276 | the suppression rules, the report filters and the callbacks stop the fault in that order; only a fault none of them stops sets `$last_php_err` and may bump the mail counter |
| Reporter.ErrorReporter.Report | Error_Reporter.php:965-970 | an E_REPORT fault with no file and no line goes through the handler, which answers true: `$last_error` moves as `handle_error` says, and only a reported fault sets `$last_php_err` to the message and counts a mail while `$bug_copy` is set and the limit is not reached |
| Reporter.ErrorReporter.ReportDeprecated | Error_Reporter.php:950-952 | at verbosity 0 the message is reported as "Deprecated: ...", with all of `report`'s effects; otherwise `$last_error`, `$last_php_err` and the report counter are unchanged |
| Reporter.ErrorReporter.AddDeprecated | Error_Reporter.php:948-955 | always true; the "Deprecated: ..." report with all of `report`'s effects at verbosity 0 and no fault state touched otherwise, then the message stored at E_INFO |
| Reporter.ErrorReporter.ErrorType | Error_Reporter.php:908-912 | the mapped name with the ring untouched, or for an unmapped class the warning "invalid error type const ..." |
| Reporter.ErrorReporter.SuppressPhpError | Error_Reporter.php:740-758 | always true; the rule is appended to the function's list |
| Reporter.ErrorReporter.SetVerbose | Error_Reporter.php:760-770 | no argument increments, an argument sets; the new value is returned |
| Reporter.ErrorReporter.LimitEmit | Error_Reporter.php:862-868 | the ceiling is set and the previous one returned |
| Reporter.ErrorReporter.MuteWarning | Error_Reporter.php:826-840 | with `$mute_php` the level is saved and E_NOTICE and E_WARNING are toggled; the answer is whether warnings were on; they are off afterwards; the muter is recorded only when the answer is true |
| Reporter.ErrorReporter.UnmuteWarning | Error_Reporter.php:894-906 | a saved level is restored and forgotten; the answer is whether the muter loosely equals the locker; only then are warnings turned on |
| Reporter.ErrorReporter.GetLastPhpMsg | Error_Reporter.php:772-778 | the last PHP message is returned once and then forgotten |
| Reporter.ErrorReporter.GetLastMsg | Error_Reporter.php:1097-1102 | null on an empty ring, otherwise the FIRST record's message |
| Reporter.ErrorReporter.Is | Error_Reporter.php:1087-1090 | true exactly when every bit of the class has been logged; always for 0; always for the class of any record in the ring |
| Reporter.ErrorReporter.GetSeverity | Error_Reporter.php:1134-1145 | E_ERROR exactly when some record has the E_ERROR bit; E_WARNING exactly when none has it and some record has the E_WARNING bit; else E_OK |
| Reporter.ErrorReporter.IsError | Error_Reporter.php:1129-1132 | true exactly when some record carries the E_ERROR bit |
| Reporter.ErrorReporter.GetMsgCount | Error_Reporter.php:1153-1160 | at least the number of records of the class, and 0 for a class never logged |
| Reporter.ErrorReporter.GetBuffer | Error_Reporter.php:1017-1031 | the whole ring for class 0; otherwise exactly the records sharing a bit with the class, in ring order |
| Reporter.ErrorReporter.GetErrors | Error_Reporter.php:1109-1122 | no messages unless `is_error()`, otherwise the messages of the E_ERROR records in ring order |
| Reporter.ErrorReporter.ClearBuffer | Error_Reporter.php:1040-1052 | every clear ends with an empty ring, a null index, E_OK and a report counter of 0, with the counters kept |
| Reporter.ErrorReporter.FlushBuffer | Error_Reporter.php:1002-1010 | returns `get_buffer($class)`; clears the whole ring when that is not empty, and changes nothing otherwise |
| Reporter.ErrorReporter.MergeBuffer | Error_Reporter.php:1062-1085 | the new ring and the fatal outcome are those of `Ring.Merge`; the invariant holds |
| Reporter.ErrorReporter.MergeEntry | Error_Reporter.php:1068-1079 | a switch class is appended as it is, any other becomes an "invalid error class" message at PHP's E_WARNING |
| Reporter.ErrorReporter.SetBuffer | Error_Reporter.php:1168-1173 | the ring is cleared, then the buffer is merged into it |
| Reporter.ErrorReporter.Downgrade | Error_Reporter.php:985-995 | the new ring is that of `Ring.Downgrade`, so `Ring.DowngradeAppends` describes it: every record is at most the class; the report counter is reset when the ring was not empty |
| Reporter.ErrorReporter.LowerAll | Error_Reporter.php:987-993 | each flushed record is lowered to at most the class, in order |
| Scenarios.MuteLock | Error_Reporter.php:826-906 | muting from one method and unmuting from another fails, a warning is then not stored, and unmuting from the muter succeeds |
| Scenarios.MuteTwiceWithPhp | Error_Reporter.php:826-906 | two mutes with `$mute_php` restore the level and the second answers false; the one unmute then leaves the level toggled |
| Scenarios.DedupRun | Error_Reporter.php:586-625 | info messages a, a, b, b store a, b, b: only a repeat of the first record is collapsed |
| Scenarios.ErrorThenWarning | Error_Reporter.php:571-630 | an error and a warning at verbosity 0 give exactly those two records, one E_ERROR count, and an error filter that returns the error alone |
| Scenarios.FlushByClass | Error_Reporter.php:1002-1052 | `flush_buffer(E_ERROR)` after an error and a warning returns the error alone and leaves the ring empty at E_OK, with the error counter still 1 |
| Scenarios.DowngradeErrorAndInfo | Error_Reporter.php:985-995 | downgrading an error and an info message to E_WARNING gives back both in order, the error lowered, the worst severity E_WARNING, and the lowered record counted again as a warning |
| Scenarios.SuppressionRoutes | Error_Reporter.php:680-707 | a rule for PHP warnings in method x withholds a warning from x but not one from another method, nor a notice from x |
| Scenarios.Raise | Error_Reporter.php:188-201 | a first fault the mask lets through becomes `$last_error` at counter 0 |
| Scenarios.Repeat | Error_Reporter.php:174-179 | one more fault from `$last_error`'s site only bumps its counter |
| Scenarios.Repeats | Error_Reporter.php:174-179 | the same site arriving n times keeps the first fault's message with a counter of n - 1 |

## Left out

- `log`: it appends to a file with a timestamp (I/O and the clock). The "last message repeated N times" line of `handle_error` goes to it and is not modelled.
- The mail of `handle_error` (`Auth::profile`, `Mail::send`, `SERVER_NAME`, `$_POST`/`$_SERVER`) is external transport. Only the report counter is kept.
- Printing is console and HTML output: `print_debug_bt`, `print_stack`, `print_buffer`, and the `printf`/`print` calls in `append_msg` and `handle_error`.
- `init`'s handler registration, `handle_exception`, `trigger_fatal` (which ends in `exit`) and `silence` (which runs a closure) are runtime hooks.
- `fatal()`: the process ends, so its paths are preconditions. `AppendMsg` requires a class of at most E_FATAL. `ParseDebugBt` requires a non-negative offset. `MergeBuffer` returns `fatal` instead, because it accepts E_EXCEPTION and then dies inside `append_msg`.
- The model follows PHP 7.1 and later PHP 7 releases. Under PHP 8 the `vsprintf` of `merge_buffer`'s default branch receives an integer instead of an array and throws a `TypeError`, so a merge of an entry whose class the switch does not name would abort instead of storing "N: invalid error class"; that behaviour is not modelled. `truncate`'s negative lengths rely on the negative string offsets of PHP 7.1.
- PHP strings are bytes, Dafny strings are sequences of characters: `Truncate`'s cut and the substring test `Contains` count characters, so they differ from the source on multi-byte text.
- Backtrace.GetCaller: past the stack it returns the message it would pass to `add_error` and does not log it, so this contract does not carry the `add_error` of the source into the ring.
- The argument summariser of `parse_debug_bt` depends on PHP's iterator, reflection and float conversion. It is a parameter giving each frame's argument text.
- `vsprintf` formatting: messages are taken as already formatted, and the `$fmt` arguments are not modelled. The one format that matters, `'%s: invalid error class'`, is written out.
- `fnmatch`, the `preg_match` of `get_caller`'s pattern, the report filters, the backtrace filters and the callback objects' `display` are host predicates.
- `add_filter` is left out: filters are host predicates.
- `isPEARError` relies on a foreign class. `sort` is a `uksort` with a boolean comparator and has no contract worth stating.
- Non-integer classes and errnos, the `is_int` test of `append_msg`, and negative masks are not representable: masks are natural numbers.
- Loose comparisons: `unmute_warning`'s `!=` is modelled only as "null equals the empty string" (`SameMuter`), with no numeric-string comparison. `_report_error`'s `$errline != $filter['errline']` is modelled as a comparison of integers.
- `get_muter` and the `get_caller(2)` prefixes are parameters (`muter`, `caller2`) that the running program supplies.
- Text.TruncateIdempotent: states idempotence only for a non-negative length.
- Reporter.ErrorReporter.GetMsgCount: states a lower bound and the unset case, not the exact count, because a flush or a downgrade makes the counters larger than the ring.
- The backtrace stored with a verbose record is the text the caller passes (`bt`); `get_debug_bt` itself is not modelled.
- Reporter.ErrorReporter.HandleError: the `E_EXCEPTION` branch that takes the backtrace from `$errcontext` only changes text that is not modelled.
