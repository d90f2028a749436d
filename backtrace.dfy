/** The stack helpers over a frame sequence in the shape `debug_backtrace()`
    gives it (frame 0 is the innermost call): `get_caller`, `get_stack` and
    the frame loop of `parse_debug_bt`. */
module Backtrace {
  import opened Wrappers
  import Text

  /** One entry of a backtrace; absent keys are `None`. */
  datatype Frame = Frame(
    functionName: string,
    className: Option<string>,
    callType: Option<string>,
    file: Option<string>,
    line: Option<int>)

  /** `Class::function`, or the bare function name outside a class. */
  function MethodName(f: Frame): string
  {
    (if f.className.Some? then f.className.value + "::" else "") + f.functionName
  }

  /** What `get_caller` hands back: a method name, or, when the requested
      position lies beyond the stack, the message it passes to `add_error`
      (whose boolean result it then returns). */
  datatype Caller = Method(name: string) | DepthOutOfBounds(message: string)

  /** `debug_backtrace(..., $stack_pos + 2)`: a positive limit keeps that many
      innermost frames, a limit of 0 keeps them all, and a negative limit
      keeps none. */
  function Visible(frames: seq<Frame>, stackPos: int): (v: seq<Frame>)
    ensures |v| <= |frames|
    ensures 0 < stackPos + 2 ==> |v| <= stackPos + 2
    ensures stackPos + 2 < 0 ==> v == []
    ensures v == frames[..|v|]
  {
    if stackPos + 2 < 0 then []
    else if stackPos + 2 == 0 || |frames| <= stackPos + 2 then frames
    else frames[..stackPos + 2]
  }

  /** What `get_caller($stack_pos)` returns.  Only frame `stack_pos + 1` is
      ever read: the limit keeps at most `stack_pos + 2` frames and the index
      does not move on the normal path.  A `__call` proxy there, or no such
      frame, gives "unknown". */
  function CallerOf(frames: seq<Frame>, stackPos: int): Caller
  {
    var stack := Visible(frames, stackPos);
    if stackPos > |stack| then DepthOutOfBounds(Text.Decimal(stackPos) + ": stack depth out of bounds")
    else if stackPos < 0 || |stack| <= stackPos + 1 then Method("unknown")
    else if stack[stackPos + 1].functionName == "__call" then Method("unknown")
    else Method(MethodName(stack[stackPos + 1]))
  }

  /** `get_caller($stack_pos, $filter)` over the given stack.  `pcre` is the
      optional pattern, as the match test it performs; `btFilters` are the
      registered backtrace filters.  Neither can change the answer: the name
      is assigned before the pattern is tried, and a filter only moves the
      index past the last visible frame. */
  method GetCaller(frames: seq<Frame>, stackPos: int, pcre: Option<string -> bool>, btFilters: seq<Frame -> bool>)
    returns (r: Caller)
    ensures r == CallerOf(frames, stackPos)
  {
    var stack := Visible(frames, stackPos);
    var size := |stack|;
    var name := "unknown";
    var i := stackPos + 1;
    var pos := stackPos;
    if pos > size {
      return DepthOutOfBounds(Text.Decimal(stackPos) + ": stack depth out of bounds");
    }
    while pos >= 0 && i < size
      invariant stackPos + 1 <= i && pos <= stackPos
      invariant i < size ==> i == stackPos + 1
      invariant pos == stackPos && i == stackPos + 1 ==> name == "unknown"
      invariant !(pos == stackPos && i == stackPos + 1) ==>
        0 <= stackPos && stackPos + 1 < size &&
        name == (if stack[stackPos + 1].functionName == "__call" then "unknown" else MethodName(stack[stackPos + 1]))
      decreases size - i, pos
    {
      var caller := stack[i];
      if caller.functionName == "__call" {
        i := i + 2;
        continue;
      }
      name := MethodName(caller);
      if pcre.Some? && pcre.value(name) {
        i := i + 1;
        continue;
      }
      var k := 0;
      var bumped := i;
      while k < |btFilters|
        invariant 0 <= k <= |btFilters|
        invariant bumped >= i
      {
        if btFilters[k](caller) {
          bumped := bumped + 1;
        }
        k := k + 1;
      }
      i := bumped;
      pos := pos - 1;
    }
    return Method(name);
  }

  /** A position inside the stack never reports an out-of-bounds depth, and a
      frame reached through `__call` is never named. */
  lemma CallerOfInBounds(frames: seq<Frame>, stackPos: int)
    requires 0 <= stackPos < |frames|
    ensures CallerOf(frames, stackPos).Method?
    ensures stackPos + 1 < |frames| && frames[stackPos + 1].functionName != "__call" ==>
      CallerOf(frames, stackPos) == Method(MethodName(frames[stackPos + 1]))
    ensures stackPos + 1 < |frames| && frames[stackPos + 1].functionName == "__call" ==>
      CallerOf(frames, stackPos) == Method("unknown")
  {
  }

  /** Only frame `stack_pos + 1` matters: changing any other frame, or
      dropping frames beyond it, leaves the answer alone. */
  lemma CallerOfLocal(frames: seq<Frame>, other: seq<Frame>, stackPos: int)
    requires 0 <= stackPos && stackPos + 1 < |frames| && stackPos + 1 < |other|
    requires frames[stackPos + 1] == other[stackPos + 1]
    ensures CallerOf(frames, stackPos) == CallerOf(other, stackPos)
  {
  }

  /** One entry of `get_stack($lines)`: `Class::function()`, with `:line`
      appended when lines are asked for and known. */
  function StackEntry(f: Frame, withLines: bool): string
  {
    (if f.className.Some? then f.className.value + "::" else "") + f.functionName + "()" +
    (if withLines && f.line.Some? then ":" + Text.Decimal(f.line.value) else "")
  }

  /** `get_stack($lines)` over the given stack. */
  method GetStack(frames: seq<Frame>, withLines: bool) returns (pretty: seq<string>)
    ensures |pretty| == |frames|
    ensures forall k :: 0 <= k < |frames| ==> pretty[k] == StackEntry(frames[k], withLines)
  {
    pretty := [];
    var i := 0;
    while i < |frames|
      invariant 0 <= i <= |frames|
      invariant |pretty| == i
      invariant forall k :: 0 <= k < i ==> pretty[k] == StackEntry(frames[k], withLines)
    {
      pretty := pretty + [StackEntry(frames[i], withLines)];
      i := i + 1;
    }
  }

  /** A `get_stack` entry is the name `get_caller` reports for that frame
      followed by `()`, and the line number only ever extends it. */
  lemma StackEntryNamesMethod(f: Frame)
    ensures StackEntry(f, false) == MethodName(f) + "()"
    ensures StackEntry(f, false) <= StackEntry(f, true)
  {
    var bare := MethodName(f) + "()";
    assert StackEntry(f, false) == bare + "";
    assert StackEntry(f, true) == bare + (if f.line.Some? then ":" + Text.Decimal(f.line.value) else "");
  }

  /** `sprintf('%2d', n)` for a non-negative n. */
  function Pad2(n: nat): (s: string)
    ensures n < 100 ==> |s| == 2
  {
    var d := Text.Decimal(n);
    if n < 10 then " " + d
    else
      assert 10 <= n < 100 ==> d == Text.Digits(n / 10, 10) + [Text.DigitChar(n % 10)];
      d
  }

  /** The frame's location: `[file:line]`, or `[n/a]` without a file. */
  function Location(f: Frame): string
  {
    if f.file.Some? then
      "[" + f.file.value + ":" + (if f.line.Some? then Text.Decimal(f.line.value) else "") + "]"
    else "[n/a]"
  }

  /** `class type function` of a frame, each part only when present. */
  function Signature(f: Frame): string
  {
    (if f.className.Some? then f.className.value else "") +
    (if f.callType.Some? then f.callType.value else "") +
    f.functionName
  }

  /** One frame of `parse_debug_bt`: the number, a `B` marker on the command
      line, then `class type function(args)`, a newline and a tab, and the
      location.  The argument summary is given as text. */
  function FrameLine(n: nat, f: Frame, args: string, cli: bool): string
  {
    Header(n, cli) + Signature(f) + Trailer(f, args)
  }

  /** `sprintf('%2d%s. ', ...)`. */
  function Header(n: nat, cli: bool): string
  {
    Pad2(n) + ((if cli then "B" else "") + ". ")
  }

  /** The argument list, then the location on the next line. */
  function Trailer(f: Frame, args: string): string
  {
    ("(" + args + ")\n\t" + Location(f)) + "\n"
  }

  /** The last frame index printed: `min(sizeof($bt), $max)`, a max below 1
      meaning 99. */
  function BtEnd(frames: seq<Frame>, max: int): (e: nat)
    ensures e <= |frames|
  {
    var m := if max < 1 then 99 else max;
    if |frames| < m then |frames| else m
  }

  /** The lines a frame loop has collected once its index reaches `upTo`,
      starting at `offset`: `render(n, i)` is the line for frame i, numbered n. */
  function Collected(render: (nat, nat) -> string, offset: nat, upTo: nat): seq<string>
    decreases upTo
  {
    if upTo <= offset then []
    else Collected(render, offset, upTo - 1) + [render(upTo - 1 - offset, upTo - 1)]
  }

  /** There is one line per index from `offset` up to `upTo`, and line k is
      frame `offset + k` numbered k. */
  lemma {:induction false} CollectedAt(render: (nat, nat) -> string, offset: nat, upTo: nat)
    ensures |Collected(render, offset, upTo)| == if offset < upTo then upTo - offset else 0
    ensures forall k :: 0 <= k < |Collected(render, offset, upTo)| ==>
      Collected(render, offset, upTo)[k] == render(k, offset + k)
    decreases upTo
  {
    if offset < upTo {
      CollectedAt(render, offset, upTo - 1);
    }
  }

  /** How `parse_debug_bt` renders frame i of the given frames, numbered n. */
  function Renderer(frames: seq<Frame>, cli: bool, argText: nat -> string): (nat, nat) -> string
  {
    (n: nat, i: nat) => if i < |frames| then FrameLine(n, frames[i], argText(i), cli) else ""
  }

  /** The lines `parse_debug_bt($offset, $max, $bt)` collects. */
  function BtLines(frames: seq<Frame>, offset: nat, max: int, cli: bool, argText: nat -> string): seq<string>
  {
    Collected(Renderer(frames, cli, argText), offset, BtEnd(frames, max))
  }

  /** `parse_debug_bt($offset, $max, $bt)` over the given frames.  A negative
      offset is fatal in the source, so it is a precondition here. */
  method ParseDebugBt(frames: seq<Frame>, offset: int, max: int, cli: bool, argText: nat -> string)
    returns (dump: string)
    requires 0 <= offset
    ensures dump == Text.Concat(BtLines(frames, offset, max, cli, argText))
  {
    var m := max;
    if m < 1 {
      m := 99;
    }
    var size := if |frames| < m then |frames| else m;
    var render := Renderer(frames, cli, argText);
    var lines: seq<string> := [];
    var i := offset;
    while i < size
      invariant offset <= i && (i == offset || i <= size)
      invariant lines == Collected(render, offset, if i <= size then i else size)
    {
      lines := lines + [render(i - offset, i)];
      i := i + 1;
    }
    dump := Text.Concat(lines);
  }

  /** A frame line opens with its number and ends with a newline. */
  lemma FrameLineEnds(n: nat, f: Frame, args: string, cli: bool)
    ensures Pad2(n) <= FrameLine(n, f, args, cli)
    ensures var line := FrameLine(n, f, args, cli); line[|line| - 1] == '\n'
  {
    var head, body, rest := Header(n, cli), Signature(f), Trailer(f, args);
    var open := "(" + args + ")\n\t" + Location(f);
    assert rest == open + "\n";
    assert rest[|rest| - 1] == '\n';
    var line := head + body + rest;
    assert line[|line| - 1] == rest[|rest| - 1];
    assert head == Pad2(n) + head[|Pad2(n)|..];
    assert line == Pad2(n) + (head[|Pad2(n)|..] + body + rest);
  }

  /** The line of a static call shows the name `get_caller` would give that
      frame. */
  lemma FrameLineNamesMethod(n: nat, f: Frame, args: string, cli: bool)
    requires f.callType == Some("::")
    ensures Text.Contains(FrameLine(n, f, args, cli), MethodName(f))
  {
    var head, rest := Header(n, cli), Trailer(f, args);
    if f.className.Some? {
      assert Signature(f) == MethodName(f);
      Text.ContainsMiddle(head, MethodName(f), rest);
    } else {
      assert Signature(f) == "::" + f.functionName;
      assert head + Signature(f) + rest == (head + "::") + f.functionName + rest;
      Text.ContainsMiddle(head + "::", f.functionName, rest);
    }
  }

  /** One line per frame from `offset` up to `min(sizeof($bt), $max)`. */
  lemma BtLinesCount(frames: seq<Frame>, offset: nat, max: int, cli: bool, argText: nat -> string)
    ensures |BtLines(frames, offset, max, cli, argText)| ==
      if offset < BtEnd(frames, max) then BtEnd(frames, max) - offset else 0
  {
    CollectedAt(Renderer(frames, cli, argText), offset, BtEnd(frames, max));
  }

  /** Line k is frame `offset + k` numbered k; with the default limit every
      number fits the two columns of `%2d`. */
  lemma BtLinesShape(frames: seq<Frame>, offset: nat, max: int, cli: bool, argText: nat -> string, k: nat)
    requires k < |BtLines(frames, offset, max, cli, argText)|
    ensures offset + k < BtEnd(frames, max)
    ensures BtLines(frames, offset, max, cli, argText)[k] == FrameLine(k, frames[offset + k], argText(offset + k), cli)
    ensures max < 1 ==> |Pad2(k)| == 2
  {
    CollectedAt(Renderer(frames, cli, argText), offset, BtEnd(frames, max));
  }
}
