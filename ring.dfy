/** The message ring as values: what `append_msg`, `get_buffer`,
    `merge_buffer` and `downgrade` compute from the ring's state, and the
    invariant every public operation keeps. */
module Ring {
  import opened Wrappers
  import Text
  import opened Bits
  import opened Severity

  /** The reporter method that called `append_msg`; `get_caller()` inside
      `append_msg` names exactly that method. */
  datatype Via = ViaAddError | ViaAddWarning | ViaAddInfo | ViaAddSuccess | ViaAddDebug | ViaMergeBuffer

  /** The text `get_caller()` returns for it. */
  function CallerName(v: Via): string
  {
    match v
    case ViaAddError => "Error_Reporter::add_error"
    case ViaAddWarning => "Error_Reporter::add_warning"
    case ViaAddInfo => "Error_Reporter::add_info"
    case ViaAddSuccess => "Error_Reporter::add_success"
    case ViaAddDebug => "Error_Reporter::add_debug"
    case ViaMergeBuffer => "Error_Reporter::merge_buffer"
  }

  /** One entry of `$error_ring`; `caller` stands for `CallerName(caller)`. */
  datatype Record = Record(message: string, severity: Mask, caller: Via, bt: Option<string>)

  /** `$error_ring`, `$error_idx`, `$error_severity` and `$error_ctr`. */
  datatype State = State(records: seq<Record>, idx: Option<nat>, severity: Mask, counts: map<Mask, nat>)

  /** The settings `append_msg` consults: `$do_warn`, `$max_emit`, `$verbosity`. */
  datatype Gates = Gates(doWarn: bool, maxEmit: int, verbosity: int)

  /** `$error_ctr[$class]`, 0 when unset. */
  function Count(counts: map<Mask, nat>, c: Mask): nat
  {
    if c in counts then counts[c] else 0
  }

  /** The OR of the severities of the records. */
  function SeverityOf(rs: seq<Record>): Mask
  {
    if rs == [] then E_OK else Or(SeverityOf(rs[..|rs| - 1]), rs[|rs| - 1].severity)
  }

  /** How many records carry exactly the class c. */
  function NumWith(rs: seq<Record>, c: Mask): nat
  {
    if rs == [] then 0 else NumWith(rs[..|rs| - 1], c) + (if rs[|rs| - 1].severity == c then 1 else 0)
  }

  /** What holds of the ring between public calls: `$error_idx` is null
      exactly when the ring is empty and is 0 otherwise; no record is above
      E_FATAL; `$error_severity` is the OR of the records' classes; and every
      class has been counted at least as often as it occurs. */
  ghost predicate Invariant(s: State)
  {
    s.idx == (if s.records == [] then None else Some(0)) &&
    (forall i :: 0 <= i < |s.records| ==> s.records[i].severity <= E_FATAL) &&
    s.severity == SeverityOf(s.records) &&
    forall c :: NumWith(s.records, c) <= Count(s.counts, c)
  }

  /** `init_ring`: the ring, index and severity are reset; the counters stay. */
  function Cleared(s: State): (t: State)
    ensures Invariant(t) && t.counts == s.counts
  {
    State([], None, E_OK, s.counts)
  }

  /** The muted-warning and `$max_emit` gates of `append_msg`.  The muted test
      names PHP's E_WARNING (the reporter's E_DEPRECATED) beside the
      reporter's E_WARNING. */
  predicate Swallowed(g: Gates, cls: Mask)
  {
    (!g.doWarn && (cls == PHP_E_WARNING || cls == E_WARNING)) || cls as int > g.maxEmit
  }

  /** The duplicate test: the record at `$error_idx` has this message and class. */
  predicate IsDuplicate(s: State, message: string, cls: Mask)
  {
    s.idx.Some? && s.idx.value < |s.records| &&
    s.records[s.idx.value].message == message && s.records[s.idx.value].severity == cls
  }

  /** The record `append_msg` stores; the backtrace only when the class is verbose. */
  function NewRecord(g: Gates, message: string, cls: Mask, caller: Via, bt: string): Record
  {
    Record(message, cls, caller, if IsVerbose(g.verbosity, cls) then Some(bt) else None)
  }

  /** `append_msg`'s boolean result (true when the message was omitted) and
      the ring afterwards. */
  datatype Outcome = Outcome(omitted: bool, state: State)

  /** The accepting tail of `append_msg`: the record is pushed, its class
      counted, the index set to 0 if it was null, and the class OR-ed into
      the severity. */
  function Push(s: State, r: Record): State
  {
    State(s.records + [r], if s.idx.None? then Some(0) else s.idx, Or(s.severity, r.severity),
          s.counts[r.severity := Count(s.counts, r.severity) + 1])
  }

  /** Pushing a record of at most E_FATAL keeps the ring invariant. */
  lemma PushKeepsInvariant(s: State, r: Record)
    requires Invariant(s) && r.severity <= E_FATAL
    ensures Invariant(Push(s, r))
  {
    SeverityOfSnoc(s.records, r);
    var t := Push(s, r);
    forall c
      ensures NumWith(t.records, c) <= Count(t.counts, c)
    {
      assert NumWith(t.records, c) == NumWith(s.records, c) + (if r.severity == c then 1 else 0);
    }
  }

  /** `append_msg($message, [], $class)` for a class it does not reject as
      fatal.  `$error_idx = null === $error_idx ? 0 : $error_idx++` stores the
      old value back, so the index stays 0 once set. */
  function Append(s: State, g: Gates, message: string, cls: Mask, caller: Via, bt: string): (o: Outcome)
    requires cls <= E_FATAL
    ensures o.omitted <==> Swallowed(g, cls)
    ensures Swallowed(g, cls) || IsDuplicate(s, message, cls) ==> o.state == s
    ensures o.state != s ==> |o.state.records| == |s.records| + 1
  {
    if Swallowed(g, cls) then Outcome(true, s)
    else if IsDuplicate(s, message, cls) then Outcome(false, s)
    else Outcome(false, Push(s, NewRecord(g, message, cls, caller, bt)))
  }

  /** An accepted message is the new last record, its class is counted once
      more (and no other class is), `is($class)` holds afterwards, and the
      call reports the message as logged. */
  lemma AppendAccepted(s: State, g: Gates, message: string, cls: Mask, caller: Via, bt: string)
    requires cls <= E_FATAL && !Swallowed(g, cls) && !IsDuplicate(s, message, cls)
    ensures var t := Append(s, g, message, cls, caller, bt).state;
      t.records == s.records + [NewRecord(g, message, cls, caller, bt)] &&
      Count(t.counts, cls) == Count(s.counts, cls) + 1 &&
      (forall c :: c != cls ==> Count(t.counts, c) == Count(s.counts, c)) &&
      Is(t.severity, cls) &&
      !Append(s, g, message, cls, caller, bt).omitted
  {
    OrKeepsOperand(s.severity, cls);
  }

  lemma SeverityOfSnoc(rs: seq<Record>, r: Record)
    ensures SeverityOf(rs + [r]) == Or(SeverityOf(rs), r.severity)
    ensures forall c :: NumWith(rs + [r], c) == NumWith(rs, c) + (if r.severity == c then 1 else 0)
  {
    assert (rs + [r])[..|rs|] == rs;
  }

  /** `append_msg` keeps the ring invariant. */
  lemma AppendKeepsInvariant(s: State, g: Gates, message: string, cls: Mask, caller: Via, bt: string)
    requires Invariant(s) && cls <= E_FATAL
    ensures Invariant(Append(s, g, message, cls, caller, bt).state)
  {
    if !Swallowed(g, cls) && !IsDuplicate(s, message, cls) {
      PushKeepsInvariant(s, NewRecord(g, message, cls, caller, bt));
    }
  }

  /** Because the index never leaves 0, the duplicate test compares with the
      FIRST record of the ring, not the most recent one. */
  lemma DuplicateMeansFirst(s: State, message: string, cls: Mask)
    requires Invariant(s) && s.records != []
    ensures IsDuplicate(s, message, cls) <==> s.records[0].message == message && s.records[0].severity == cls
  {
  }

  /** So repeating the most recent message is not collapsed when it differs
      from the first one: the ring grows by a second copy. */
  lemma TailRepeatIsKept(s: State, g: Gates, caller: Via, bt: string)
    requires Invariant(s) && |s.records| >= 2
    requires s.records[|s.records| - 1].message != s.records[0].message
    requires !Swallowed(g, s.records[|s.records| - 1].severity)
    ensures var last := s.records[|s.records| - 1];
      |Append(s, g, last.message, last.severity, caller, bt).state.records| == |s.records| + 1
  {
    DuplicateMeansFirst(s, s.records[|s.records| - 1].message, s.records[|s.records| - 1].severity);
  }

  /** Every bit of the accumulated severity comes from some record. */
  lemma {:induction false} SeverityOfBits(rs: seq<Record>, m: Mask)
    ensures And(SeverityOf(rs), m) == 0 <==> forall i :: 0 <= i < |rs| ==> And(rs[i].severity, m) == 0
  {
    if rs != [] {
      var init := rs[..|rs| - 1];
      SeverityOfBits(init, m);
      OrOverlap(SeverityOf(init), rs[|rs| - 1].severity, m);
      assert forall i :: 0 <= i < |init| ==> init[i] == rs[i];
    }
  }

  /** The class of every record is contained in the accumulated severity. */
  lemma {:induction false} SeverityOfCovers(rs: seq<Record>, i: nat)
    requires i < |rs|
    ensures Is(SeverityOf(rs), rs[i].severity)
  {
    var init := rs[..|rs| - 1];
    var last := rs[|rs| - 1].severity;
    if i == |rs| - 1 {
      OrKeepsOperand(SeverityOf(init), last);
    } else {
      assert init[i] == rs[i];
      SeverityOfCovers(init, i);
      OrKeepsContained(SeverityOf(init), last, rs[i].severity);
    }
  }

  lemma SeverityOfCoversAll(rs: seq<Record>)
    ensures forall i :: 0 <= i < |rs| ==> Is(SeverityOf(rs), rs[i].severity)
  {
    forall i | 0 <= i < |rs|
      ensures Is(SeverityOf(rs), rs[i].severity)
    {
      SeverityOfCovers(rs, i);
    }
  }

  // ---- get_buffer ----

  /** The records whose class shares a bit with c, in ring order. */
  function FilterBy(rs: seq<Record>, c: Mask): seq<Record>
  {
    if rs == [] then []
    else FilterBy(rs[..|rs| - 1], c) + (if And(rs[|rs| - 1].severity, c) != 0 then [rs[|rs| - 1]] else [])
  }

  /** The records whose class is not exactly c, in ring order: what the
      unsetting pass of `clear_buffer($class)` keeps. */
  function WithoutClass(rs: seq<Record>, c: Mask): seq<Record>
  {
    if rs == [] then []
    else WithoutClass(rs[..|rs| - 1], c) + (if rs[|rs| - 1].severity != c then [rs[|rs| - 1]] else [])
  }

  /** `get_buffer($class)`: the whole ring for a falsy class, else the
      records sharing a bit with it. */
  function Buffer(rs: seq<Record>, c: Mask): seq<Record>
  {
    if c == 0 then rs else FilterBy(rs, c)
  }

  /** A record is kept exactly when it is in the ring and shares a bit with c. */
  lemma {:induction false} FilterByMembers(rs: seq<Record>, c: Mask, r: Record)
    ensures r in FilterBy(rs, c) <==> r in rs && And(r.severity, c) != 0
  {
    if rs != [] {
      var init := rs[..|rs| - 1];
      FilterByMembers(init, c, r);
      assert rs == init + [rs[|rs| - 1]];
    }
  }

  /** Filtering keeps ring order: filtering a concatenation concatenates the
      filtered parts. */
  lemma {:induction false} FilterByConcat(a: seq<Record>, b: seq<Record>, c: Mask)
    ensures FilterBy(a + b, c) == FilterBy(a, c) + FilterBy(b, c)
  {
    if b != [] {
      var bi := b[..|b| - 1];
      assert (a + b)[..|a + b| - 1] == a + bi;
      FilterByConcat(a, bi, c);
    } else {
      assert a + b == a;
    }
  }

  /** The messages of a list of records, in order. */
  function Messages(rs: seq<Record>): (ms: seq<string>)
    ensures |ms| == |rs| && forall i :: 0 <= i < |rs| ==> ms[i] == rs[i].message
  {
    if rs == [] then [] else Messages(rs[..|rs| - 1]) + [rs[|rs| - 1].message]
  }

  // ---- merge_buffer ----

  /** The classes `merge_buffer`'s switch re-appends as they are. */
  const MergeClasses: set<Mask> := {E_ERROR, E_DEPRECATED, E_DEBUG, E_INFO, E_WARNING, E_EXCEPTION, E_OK}

  /** An entry that `append_msg` then rejects as fatal: only E_EXCEPTION is
      both accepted by the switch and above E_FATAL. */
  predicate MergeFatal(r: Record)
  {
    r.severity in MergeClasses && r.severity > E_FATAL
  }

  /** `vsprintf('%s: invalid error class', $severity)`. */
  function InvalidClassMessage(severity: Mask): string
  {
    Text.Decimal(severity) + ": invalid error class"
  }

  /** One entry of the merge: a switch class is appended as it is; any other
      (E_FATAL among them) becomes an "invalid error class" message of PHP's
      E_WARNING, the reporter's E_DEPRECATED. */
  function MergeStep(s: State, g: Gates, r: Record, caller: Via, bt: string): State
    requires !MergeFatal(r)
  {
    if r.severity in MergeClasses then Append(s, g, r.message, r.severity, caller, bt).state
    else Append(s, g, InvalidClassMessage(r.severity), PHP_E_WARNING, caller, bt).state
  }

  /** The ring after a merge, and whether the merge died in `fatal`. */
  datatype Merged = Merged(state: State, fatal: bool)

  /** `merge_buffer($buffer)`, entry by entry from the first. */
  function Merge(s: State, g: Gates, buffer: seq<Record>, caller: Via, bt: string): Merged
    decreases |buffer|
  {
    if buffer == [] then Merged(s, false)
    else if MergeFatal(buffer[0]) then Merged(s, true)
    else Merge(MergeStep(s, g, buffer[0], caller, bt), g, buffer[1..], caller, bt)
  }

  /** The merge dies exactly when the buffer holds an E_EXCEPTION entry. */
  lemma {:induction false} MergeFatalIff(s: State, g: Gates, buffer: seq<Record>, caller: Via, bt: string)
    ensures Merge(s, g, buffer, caller, bt).fatal <==> exists i :: 0 <= i < |buffer| && buffer[i].severity == E_EXCEPTION
    decreases |buffer|
  {
    if buffer != [] && !MergeFatal(buffer[0]) {
      MergeFatalIff(MergeStep(s, g, buffer[0], caller, bt), g, buffer[1..], caller, bt);
      assert forall i :: 1 <= i < |buffer| ==> buffer[i] == buffer[1..][i - 1];
      assert forall i :: 0 <= i < |buffer| - 1 ==> buffer[1..][i] == buffer[i + 1];
    }
  }

  /** The merge keeps the ring invariant. */
  lemma {:induction false} MergeKeepsInvariant(s: State, g: Gates, buffer: seq<Record>, caller: Via, bt: string)
    requires Invariant(s)
    ensures Invariant(Merge(s, g, buffer, caller, bt).state)
    decreases |buffer|
  {
    if buffer != [] && !MergeFatal(buffer[0]) {
      var r := buffer[0];
      if r.severity in MergeClasses {
        AppendKeepsInvariant(s, g, r.message, r.severity, caller, bt);
      } else {
        AppendKeepsInvariant(s, g, InvalidClassMessage(r.severity), PHP_E_WARNING, caller, bt);
      }
      MergeKeepsInvariant(MergeStep(s, g, r, caller, bt), g, buffer[1..], caller, bt);
    }
  }

  /** Every record is at most class c. */
  ghost predicate AtMost(rs: seq<Record>, c: Mask)
  {
    forall i :: 0 <= i < |rs| ==> rs[i].severity <= c
  }

  /** Merging entries of at most class c keeps every record at most c: an
      entry the switch does not name has a class of 3 or more, so c is at
      least 3 and the E_DEPRECATED entry it becomes is below c too. */
  lemma {:induction false} MergeAtMost(s: State, g: Gates, buffer: seq<Record>, caller: Via, bt: string, c: Mask)
    requires AtMost(s.records, c)
    requires forall i :: 0 <= i < |buffer| ==> buffer[i].severity <= c
    ensures AtMost(Merge(s, g, buffer, caller, bt).state.records, c)
    decreases |buffer|
  {
    if buffer != [] && !MergeFatal(buffer[0]) {
      assert buffer[0].severity !in MergeClasses ==> PHP_E_WARNING <= c;
      var t := MergeStep(s, g, buffer[0], caller, bt);
      assert AtMost(t.records, c) by {
        if t != s {
          assert t.records[..|s.records|] == s.records;
          assert forall i :: 0 <= i < |s.records| ==> t.records[i] == s.records[i];
        }
      }
      assert forall i :: 0 <= i < |buffer| - 1 ==> buffer[1..][i] == buffer[i + 1];
      MergeAtMost(t, g, buffer[1..], caller, bt, c);
    }
  }

  /** The class `merge_buffer` hands to `append_msg` for an entry. */
  function EntryClass(r: Record): Mask
  {
    if r.severity in MergeClasses then r.severity else PHP_E_WARNING
  }

  /** The record `merge_buffer` stores for an entry when `append_msg`
      accepts it: the entry's own message, or "N: invalid error class", with
      the caller that called `append_msg`. */
  function Entered(g: Gates, r: Record, caller: Via, bt: string): (e: Record)
    ensures e.severity == EntryClass(r) && e.caller == caller
    ensures e.message == if r.severity in MergeClasses then r.message else InvalidClassMessage(r.severity)
  {
    if r.severity in MergeClasses then NewRecord(g, r.message, r.severity, caller, bt)
    else NewRecord(g, InvalidClassMessage(r.severity), PHP_E_WARNING, caller, bt)
  }

  /** The records stored for every entry of a buffer, in buffer order. */
  function EnteredAll(g: Gates, buffer: seq<Record>, caller: Via, bt: string): (es: seq<Record>)
    ensures |es| == |buffer| && forall i :: 0 <= i < |buffer| ==> es[i] == Entered(g, buffer[i], caller, bt)
  {
    seq(|buffer|, i requires 0 <= i < |buffer| => Entered(g, buffer[i], caller, bt))
  }

  /** No record after the first of `rs + es`, among those of `es`, repeats
      the first record's message and class, so the duplicate test of
      `append_msg` lets each of them through. */
  ghost predicate NoRepeatOfFirst(rs: seq<Record>, es: seq<Record>)
  {
    var all := rs + es;
    forall j :: |rs| <= j < |all| && 0 < j ==>
      all[j].message != all[0].message || all[j].severity != all[0].severity
  }

  lemma {:induction false} NumWithConcat(a: seq<Record>, b: seq<Record>, c: Mask)
    ensures NumWith(a + b, c) == NumWith(a, c) + NumWith(b, c)
    decreases |b|
  {
    if b == [] {
      assert a + b == a;
    } else {
      var bi := b[..|b| - 1];
      assert (a + b)[..|a + b| - 1] == a + bi;
      NumWithConcat(a, bi, c);
    }
  }

  /** One entry that is neither fatal, swallowed nor a duplicate is pushed
      as the record `Entered` describes. */
  lemma MergeStepPushes(s: State, g: Gates, r: Record, caller: Via, bt: string)
    requires !MergeFatal(r) && !Swallowed(g, EntryClass(r))
    requires var e := Entered(g, r, caller, bt); !IsDuplicate(s, e.message, e.severity)
    ensures MergeStep(s, g, r, caller, bt) == Push(s, Entered(g, r, caller, bt))
  {
  }

  lemma NoRepeatOfFirstStep(rs: seq<Record>, e: Record, es: seq<Record>)
    requires NoRepeatOfFirst(rs, [e] + es)
    ensures rs != [] ==> e.message != rs[0].message || e.severity != rs[0].severity
    ensures NoRepeatOfFirst(rs + [e], es)
    ensures rs + ([e] + es) == (rs + [e]) + es
  {
    assert rs + ([e] + es) == (rs + [e]) + es;
    if rs != [] {
      assert (rs + ([e] + es))[|rs|] == e;
    }
  }

  lemma NumWithCons(e: Record, es: seq<Record>, c: Mask)
    ensures NumWith([e] + es, c) == (if e.severity == c then 1 else 0) + NumWith(es, c)
  {
    NumWithConcat([e], es, c);
    assert [e][..0] == [];
  }

  /** What a merge appends: when no entry is fatal or swallowed by the gates
      and none repeats the ring's first record, the records stored for the
      entries follow the old ring in buffer order, and every class is counted
      once more for each entry stored with it. */
  lemma {:induction false} MergeAppends(s: State, g: Gates, buffer: seq<Record>, caller: Via, bt: string)
    requires Invariant(s)
    requires forall i :: 0 <= i < |buffer| ==> !MergeFatal(buffer[i]) && !Swallowed(g, EntryClass(buffer[i]))
    requires NoRepeatOfFirst(s.records, EnteredAll(g, buffer, caller, bt))
    ensures var m := Merge(s, g, buffer, caller, bt);
      !m.fatal &&
      m.state.records == s.records + EnteredAll(g, buffer, caller, bt) &&
      forall c :: Count(m.state.counts, c) == Count(s.counts, c) + NumWith(EnteredAll(g, buffer, caller, bt), c)
    decreases |buffer|
  {
    var es := EnteredAll(g, buffer, caller, bt);
    if buffer == [] {
      assert s.records + es == s.records;
    } else {
      var e := es[0];
      var rest := buffer[1..];
      var es' := EnteredAll(g, rest, caller, bt);
      assert es == [e] + es';
      NoRepeatOfFirstStep(s.records, e, es');
      MergeStepPushes(s, g, buffer[0], caller, bt);
      var t := Push(s, e);
      assert Merge(s, g, buffer, caller, bt) == Merge(t, g, rest, caller, bt);
      PushKeepsInvariant(s, e);
      assert t.records == s.records + [e];
      forall i | 0 <= i < |rest|
        ensures !MergeFatal(rest[i]) && !Swallowed(g, EntryClass(rest[i]))
      {
        assert rest[i] == buffer[i + 1];
      }
      MergeAppends(t, g, rest, caller, bt);
      forall c
        ensures Count(t.counts, c) + NumWith(es', c) == Count(s.counts, c) + NumWith(es, c)
      {
        NumWithCons(e, es', c);
      }
    }
  }

  // ---- downgrade ----

  /** A record's class lowered to at most c. */
  function Lower(r: Record, c: Mask): Record
  {
    if r.severity > c then r.(severity := c) else r
  }

  /** Every record lowered to at most c, in the same order. */
  function Lowered(rs: seq<Record>, c: Mask): (ls: seq<Record>)
    ensures |ls| == |rs| && forall i :: 0 <= i < |rs| ==> ls[i] == Lower(rs[i], c)
  {
    seq(|rs|, i requires 0 <= i < |rs| => Lower(rs[i], c))
  }

  /** Lowering never raises a class and never changes a message. */
  lemma LoweredNeverRaises(rs: seq<Record>, c: Mask, i: nat)
    requires i < |rs|
    ensures Lowered(rs, c)[i].severity <= rs[i].severity
    ensures Lowered(rs, c)[i].severity <= c
    ensures Lowered(rs, c)[i].message == rs[i].message
  {
  }

  /** `downgrade($class)`: `flush_buffer()` takes the whole ring (and clears
      it when it is not empty), then the lowered records are merged back. */
  function Downgrade(s: State, g: Gates, c: Mask, caller: Via, bt: string): Merged
  {
    Merge(if s.records == [] then s else Cleared(s), g, Lowered(s.records, c), caller, bt)
  }

  /** After a downgrade every record is at most class c, a downgrade never
      dies in `fatal` (no record of the ring is above E_FATAL, so none is
      lowered to E_EXCEPTION), and the ring invariant still holds. */
  lemma DowngradeBounds(s: State, g: Gates, c: Mask, caller: Via, bt: string)
    requires Invariant(s)
    ensures AtMost(Downgrade(s, g, c, caller, bt).state.records, c)
    ensures !Downgrade(s, g, c, caller, bt).fatal
    ensures Invariant(Downgrade(s, g, c, caller, bt).state)
  {
    var start := if s.records == [] then s else Cleared(s);
    var ls := Lowered(s.records, c);
    MergeAtMost(start, g, ls, caller, bt, c);
    MergeFatalIff(start, g, ls, caller, bt);
    MergeKeepsInvariant(start, g, ls, caller, bt);
  }

  /** What a downgrade leaves: when no lowered record is swallowed by the
      gates and none repeats the first, the ring holds the record stored for
      each old record, in the old order, each now with `merge_buffer` as its
      caller, and every class is counted again for each record stored with
      it, on top of the counts from before. */
  lemma DowngradeAppends(s: State, g: Gates, c: Mask, caller: Via, bt: string)
    requires Invariant(s)
    requires forall i :: 0 <= i < |s.records| ==> !Swallowed(g, EntryClass(Lower(s.records[i], c)))
    requires NoRepeatOfFirst([], EnteredAll(g, Lowered(s.records, c), caller, bt))
    ensures var d := Downgrade(s, g, c, caller, bt);
      var es := EnteredAll(g, Lowered(s.records, c), caller, bt);
      d.state.records == es &&
      (forall i :: 0 <= i < |es| ==> es[i].caller == caller) &&
      forall k :: Count(d.state.counts, k) == Count(s.counts, k) + NumWith(es, k)
  {
    var start := if s.records == [] then s else Cleared(s);
    var ls := Lowered(s.records, c);
    assert start.records == [] && start.counts == s.counts;
    assert [] + EnteredAll(g, ls, caller, bt) == EnteredAll(g, ls, caller, bt);
    MergeAppends(start, g, ls, caller, bt);
  }
}
