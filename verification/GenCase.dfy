/**
 Recording of nested API calls on one thread: a stack of modes that decides whether a call is dumped, and a list
 of node slots that calls being dumped take and give back.

 The main results hold over every run in which calls and returns nest (EveryRunNests): the stack is one longer
 than the calls are deep, the outermost call sees the mode that is set and inner calls see it or 0, the used
 slots are a prefix that holds exactly the open dumped calls in order, and when all calls have returned nothing
 of them is left (BalancedRunEndsClean).
 */
module GenCase {

  /** What is kept for one thread; no stack yet means the thread has made no call. */
  datatype State = State(stack: seq<int>, nodes: seq<string>)

  /** The mode that is set, and whether calls made by calls are dumped too. */
  datatype Config = Config(mode: int, dumpInternal: bool) {
    function Inner(): int { if dumpInternal then mode else 0 }
  }

  // ----- The stack -----

  /** The stack on entering a call: the front says what calls it makes will see, the back what it sees itself. */
  function Pushed(c: Config, stack: seq<int>): (s: seq<int>)
    ensures |s| == if stack == [] then 2 else |stack| + 1
  {
    if stack == [] then [c.Inner(), c.mode] else [c.Inner()] + stack[1..] + [stack[0]]
  }

  function Popped(stack: seq<int>): (s: seq<int>)
    requires 2 <= |stack|
    ensures |s| == |stack| - 1
  {
    [stack[|stack| - 1]] + stack[1..|stack| - 1]
  }

  // ----- The slots -----

  function FirstEmpty(nodes: seq<string>): (k: nat)
    ensures k <= |nodes| && (k < |nodes| ==> nodes[k] == "") && forall i | 0 <= i < k :: nodes[i] != ""
  {
    if nodes == [] || nodes[0] == "" then 0 else 1 + FirstEmpty(nodes[1..])
  }

  function Named(nodes: seq<string>, name: string): seq<string> {
    var k := FirstEmpty(nodes);
    if k < |nodes| then nodes[k := name] else nodes + [name]
  }

  function Used(nodes: seq<string>): (n: nat)
    ensures n <= |nodes|
  {
    if nodes == [] then 0 else Used(nodes[..|nodes| - 1]) + if nodes[|nodes| - 1] != "" then 1 else 0
  }

  function Dropped(nodes: seq<string>): seq<string>
    requires 0 < Used(nodes)
  {
    nodes[Used(nodes) - 1 := ""]
  }

  // ----- A call and its return -----

  /** Enter a call: see the mode, and take a slot if it is dumped. */
  function Enter(c: Config, s: State, name: string): State {
    var stack := Pushed(c, s.stack);
    State(stack, if stack[|stack| - 1] > 0 then Named(s.nodes, name) else s.nodes)
  }

  predicate CanLeave(s: State) {
    2 <= |s.stack| && (s.stack[|s.stack| - 1] > 0 ==> 0 < Used(s.nodes))
  }

  /** Return: give the last used slot back if the call was dumped, and restore the stack. */
  function Leave(s: State): State
    requires CanLeave(s)
  {
    State(Popped(s.stack), if s.stack[|s.stack| - 1] > 0 then Dropped(s.nodes) else s.nodes)
  }

  /** The recorder of one thread. */
  class Recorder {
    const config: Config
    var stack: seq<int>
    var nodes: seq<string>

    constructor (config: Config)
      ensures this.config == config && stack == [] && nodes == []
    {
      this.config := config;
      stack, nodes := [], [];
    }

    ghost function Now(): State reads this { State(stack, nodes) }

    method GenCaseModeGet(first: bool) returns (mode: int)
      requires 0 < config.mode
      modifies this`stack
      ensures !first ==> mode == config.mode && stack == old(stack)
      ensures first ==> stack == Pushed(config, old(stack)) && mode == stack[|stack| - 1]
      ensures first ==> stack[0] == if config.dumpInternal then config.mode else 0
    {
      if !first {
        return config.mode;
      }
      var inner := if config.dumpInternal then config.mode else 0;
      if stack != [] {
        stack := stack + [stack[0]];
        stack := stack[0 := inner];
        return stack[|stack| - 1];
      }
      stack := [config.mode];
      stack := stack + [stack[0]];
      stack := stack[0 := inner];
      return config.mode;
    }

    method GenCaseModeRestore()
      requires 2 <= |stack|
      modifies this`stack
      ensures stack == Popped(old(stack))
    {
      stack := stack[0 := stack[|stack| - 1]];
      stack := stack[..|stack| - 1];
    }

    /** Take the first empty slot, or add one. */
    method GenCaseStart(name: string) returns (slot: nat)
      modifies this`nodes
      ensures nodes == Named(old(nodes), name) && slot == FirstEmpty(old(nodes)) < |nodes| && nodes[slot] == name
    {
      var i := 0;
      while i < |nodes|
        invariant 0 <= i <= |nodes| && nodes == old(nodes) && forall k | 0 <= k < i :: nodes[k] != ""
      {
        if nodes[i] == "" {
          FirstEmptyIs(nodes, i);
          nodes := nodes[i := name];
          return i;
        }
        i := i + 1;
      }
      FirstEmptyIs(nodes, |nodes|);
      slot := |nodes|;
      nodes := nodes + [name];
    }

    /** Enter a call, as the macros at the head of every API do. */
    method Begin(name: string) returns (mode: int)
      requires 0 < config.mode
      modifies this
      ensures Now() == Enter(config, old(Now()), name) && mode == stack[|stack| - 1]
    {
      mode := GenCaseModeGet(true);
      if mode > 0 {
        var slot := GenCaseStart(name);
      }
    }

    method GenCaseEnd()
      requires 0 < config.mode && CanLeave(Now())
      modifies this
      ensures Now() == Leave(old(Now()))
    {
      if stack[|stack| - 1] > 0 {
        var slots := 0;
        assert nodes[..0] == [];
        for i := 0 to |nodes|
          invariant slots == Used(nodes[..i]) && nodes == old(nodes) && stack == old(stack)
        {
          assert nodes[..i + 1][..i] == nodes[..i];
          if nodes[i] != "" {
            slots := slots + 1;
          }
        }
        assert nodes[..|nodes|] == nodes;
        nodes := nodes[slots - 1 := ""];
      }
      GenCaseModeRestore();
    }
  }

  lemma {:induction false} FirstEmptyIs(nodes: seq<string>, k: nat)
    requires k <= |nodes| && (k < |nodes| ==> nodes[k] == "") && forall i | 0 <= i < k :: nodes[i] != ""
    ensures FirstEmpty(nodes) == k
  {
    var f := FirstEmpty(nodes);
    assert f < |nodes| ==> nodes[f] == "";
  }

  // ----- Runs -----

  /** A call that is open: its name and the mode it saw. */
  datatype Frame = Frame(name: string, mode: int)

  datatype Event = CallOf(name: string) | Return

  /** The names of the calls being dumped, outermost first. */
  function Dumped(frames: seq<Frame>): seq<string> {
    if frames == [] then []
    else
      var n := |frames| - 1;
      Dumped(frames[..n]) + if frames[n].mode > 0 then [frames[n].name] else []
  }

  /** The mode the next call sees with these calls open. */
  function Sees(c: Config, frames: seq<Frame>): int { if frames == [] then c.mode else c.Inner() }

  /** The stack with these calls open. */
  ghost predicate StackIs(c: Config, stack: seq<int>, frames: seq<Frame>) {
    if frames == [] then stack == [] || stack == [c.mode]
    else
      && |stack| == |frames| + 1 && stack[0] == c.Inner()
      && forall k | 0 <= k < |frames| :: stack[k + 1] == frames[k].mode == Sees(c, frames[..k])
  }

  /** The slots with these calls being dumped. */
  ghost predicate SlotsAre(nodes: seq<string>, names: seq<string>) {
    && |names| <= |nodes| && nodes[..|names|] == names
    && (forall k | |names| <= k < |nodes| :: nodes[k] == "")
    && forall k | 0 <= k < |names| :: names[k] != ""
  }

  ghost predicate Nested(c: Config, s: State, frames: seq<Frame>) {
    0 < c.mode && StackIs(c, s.stack, frames) && SlotsAre(s.nodes, Dumped(frames))
  }

  lemma {:induction false} UsedIs(nodes: seq<string>, names: seq<string>)
    requires SlotsAre(nodes, names)
    ensures Used(nodes) == |names|
  {
    if nodes != [] {
      var n := |nodes| - 1;
      if |names| == |nodes| {
        assert nodes[..n][..n] == names[..n];
        UsedIs(nodes[..n], names[..n]);
        assert nodes[n] == names[n];
      } else {
        assert nodes[..n][..|names|] == names;
        UsedIs(nodes[..n], names);
      }
    }
  }

  lemma NamedKeeps(nodes: seq<string>, names: seq<string>, name: string)
    requires SlotsAre(nodes, names) && name != ""
    ensures SlotsAre(Named(nodes, name), names + [name])
  {
    assert forall k | 0 <= k < |names| :: nodes[k] == nodes[..|names|][k];
    FirstEmptyIs(nodes, |names|);
  }

  lemma DroppedKeeps(nodes: seq<string>, names: seq<string>, name: string)
    requires SlotsAre(nodes, names + [name])
    ensures 0 < Used(nodes) && SlotsAre(Dropped(nodes), names)
  {
    UsedIs(nodes, names + [name]);
    assert nodes[..|names|] == (names + [name])[..|names|] == names;
    forall k | 0 <= k < |names| ensures names[k] != "" {
      assert (names + [name])[k] == names[k];
    }
  }

  /** A call sees what the rule says, pushes its mode, and takes the slot behind those in use if it is dumped. */
  lemma EnterNests(c: Config, s: State, frames: seq<Frame>, name: string)
    requires Nested(c, s, frames) && name != ""
    ensures var s' := Enter(c, s, name);
            && s'.stack[|s'.stack| - 1] == Sees(c, frames)
            && Nested(c, s', frames + [Frame(name, Sees(c, frames))])
  {
    var s', f := Enter(c, s, name), Frame(name, Sees(c, frames));
    var frames' := frames + [f];
    assert frames'[..|frames|] == frames;
    forall k | 0 <= k < |frames'| ensures s'.stack[k + 1] == frames'[k].mode == Sees(c, frames'[..k]) {
      if k < |frames| {
        assert frames'[..k] == frames[..k];
      }
    }
    NamedKeeps(s.nodes, Dumped(frames), name);
  }

  /** The slot of the innermost call, if it has one, is the last in use. */
  lemma LeaveSlots(nodes: seq<string>, frames: seq<Frame>)
    requires frames != [] && SlotsAre(nodes, Dumped(frames))
    ensures var (rest, f) := (frames[..|frames| - 1], frames[|frames| - 1]);
            if f.mode > 0 then 0 < Used(nodes) && SlotsAre(Dropped(nodes), Dumped(rest))
            else SlotsAre(nodes, Dumped(rest))
  {
    hide SlotsAre, Used, Dropped;
    var rest, f := frames[..|frames| - 1], frames[|frames| - 1];
    if f.mode > 0 {
      assert Dumped(frames) == Dumped(rest) + [f.name];
      DroppedKeeps(nodes, Dumped(rest), f.name);
    } else {
      assert Dumped(frames) == Dumped(rest) + [] == Dumped(rest);
    }
  }

  lemma LeaveStack(c: Config, stack: seq<int>, frames: seq<Frame>)
    requires frames != [] && StackIs(c, stack, frames)
    ensures 2 <= |stack| && StackIs(c, Popped(stack), frames[..|frames| - 1])
    ensures stack[|stack| - 1] == frames[|frames| - 1].mode
  {
    var n := |frames| - 1;
    var rest := frames[..n];
    assert stack[n + 1] == frames[n].mode == Sees(c, rest);
    if rest == [] {
      assert Popped(stack) == [c.mode];
    } else {
      forall k | 0 <= k < n ensures Popped(stack)[k + 1] == rest[k].mode == Sees(c, rest[..k]) {
        assert rest[..k] == frames[..k] && stack[k + 1] == frames[k].mode;
      }
    }
  }

  /** The innermost call's return gives back its own slot and uncovers the stack as it was. */
  lemma LeaveNests(c: Config, s: State, frames: seq<Frame>)
    requires Nested(c, s, frames) && frames != []
    ensures CanLeave(s) && Nested(c, Leave(s), frames[..|frames| - 1])
  {
    hide SlotsAre, StackIs, Used, Dropped, Dumped, Popped;
    LeaveSlots(s.nodes, frames);
    LeaveStack(c, s.stack, frames);
  }

  /** Calls and returns nest: no return without an open call, and every call has a name. */
  predicate Nests(es: seq<Event>, depth: nat) {
    es == [] ||
    match es[0]
    case CallOf(name) => name != "" && Nests(es[1..], depth + 1)
    case Return => 0 < depth && Nests(es[1..], depth - 1)
  }

  function Frames(c: Config, es: seq<Event>, frames: seq<Frame>): seq<Frame>
    requires Nests(es, |frames|)
    decreases |es|
  {
    if es == [] then frames
    else match es[0]
      case CallOf(name) => Frames(c, es[1..], frames + [Frame(name, Sees(c, frames))])
      case Return => Frames(c, es[1..], frames[..|frames| - 1])
  }

  /** What the recorder holds after the events; a return it could not carry out is left out. */
  function After(c: Config, s: State, es: seq<Event>): State
    decreases |es|
  {
    if es == [] then s
    else match es[0]
      case CallOf(name) => After(c, Enter(c, s, name), es[1..])
      case Return => After(c, if CanLeave(s) then Leave(s) else s, es[1..])
  }

  lemma {:induction false} RunNests(c: Config, s: State, frames: seq<Frame>, es: seq<Event>)
    requires Nested(c, s, frames) && Nests(es, |frames|)
    ensures Nested(c, After(c, s, es), Frames(c, es, frames))
    decreases |es|
  {
    hide Nested, Enter, Leave, CanLeave;
    if es != [] {
      match es[0]
      case CallOf(name) =>
        EnterNests(c, s, frames, name);
        RunNests(c, Enter(c, s, name), frames + [Frame(name, Sees(c, frames))], es[1..]);
      case Return =>
        LeaveNests(c, s, frames);
        RunNests(c, Leave(s), frames[..|frames| - 1], es[1..]);
    }
  }

  /** How many calls are open after the events. */
  function Depth(es: seq<Event>): int {
    if es == [] then 0 else (if es[0].CallOf? then 1 else -1) + Depth(es[1..])
  }

  predicate AllNamed(es: seq<Event>) { forall k | 0 <= k < |es| && es[k].CallOf? :: es[k].name != "" }

  /** Calls and returns nest exactly if every call has a name and nowhere more calls have returned than were made. */
  lemma {:induction false} NestsExactly(es: seq<Event>, depth: nat)
    ensures Nests(es, depth) <==> AllNamed(es) && forall k | 0 <= k <= |es| :: 0 <= depth + Depth(es[..k])
    decreases |es|
  {
    if es != [] {
      var first := if es[0].CallOf? then 1 else -1;
      forall k | 1 <= k <= |es| ensures Depth(es[..k]) == first + Depth(es[1..][..k - 1]) {
        assert es[..k][1..] == es[1..][..k - 1];
      }
      assert es == [es[0]] + es[1..];
      if 0 <= depth + first {
        NestsExactly(es[1..], depth + first);
        assert (forall k | 0 <= k <= |es| :: 0 <= depth + Depth(es[..k])) <==>
               (forall k | 0 <= k <= |es| - 1 :: 0 <= depth + first + Depth(es[1..][..k])) by {
          PrefixShift(es, depth, first);
        }
      } else {
        assert Depth(es[..1]) == first + Depth(es[1..][..0]) == first;
      }
    }
  }

  lemma PrefixShift(es: seq<Event>, depth: nat, first: int)
    requires es != [] && forall k | 1 <= k <= |es| :: Depth(es[..k]) == first + Depth(es[1..][..k - 1])
    ensures (forall k | 0 <= k <= |es| :: 0 <= depth + Depth(es[..k])) <==>
            (forall k | 0 <= k <= |es| - 1 :: 0 <= depth + first + Depth(es[1..][..k]))
  {
    if forall k | 0 <= k <= |es| :: 0 <= depth + Depth(es[..k]) {
      forall k | 0 <= k <= |es| - 1 ensures 0 <= depth + first + Depth(es[1..][..k]) {
        assert 0 <= depth + Depth(es[..k + 1]);
      }
    }
    if forall k | 0 <= k <= |es| - 1 :: 0 <= depth + first + Depth(es[1..][..k]) {
      forall k | 0 <= k <= |es| ensures 0 <= depth + Depth(es[..k]) {
        if k > 0 {
          assert 0 <= depth + first + Depth(es[1..][..k - 1]);
        }
      }
    }
  }

  lemma {:induction false} FramesDepth(c: Config, es: seq<Event>, frames: seq<Frame>)
    requires Nests(es, |frames|)
    ensures |Frames(c, es, frames)| == |frames| + Depth(es)
    decreases |es|
  {
    if es != [] {
      match es[0]
      case CallOf(name) => FramesDepth(c, es[1..], frames + [Frame(name, Sees(c, frames))]);
      case Return => FramesDepth(c, es[1..], frames[..|frames| - 1]);
    }
  }

  /** The names of the calls open after the events, outermost first. */
  function OpenCalls(es: seq<Event>, open: seq<string>): seq<string>
    decreases |es|
  {
    if es == [] then open
    else match es[0]
      case CallOf(name) => OpenCalls(es[1..], open + [name])
      case Return => OpenCalls(es[1..], if open == [] then [] else open[..|open| - 1])
  }

  function Names(frames: seq<Frame>): (n: seq<string>)
    ensures |n| == |frames|
  {
    seq(|frames|, k requires 0 <= k < |frames| => frames[k].name)
  }

  lemma {:induction false} FramesAreOpen(c: Config, es: seq<Event>, frames: seq<Frame>)
    requires Nests(es, |frames|)
    ensures Names(Frames(c, es, frames)) == OpenCalls(es, Names(frames))
    decreases |es|
  {
    if es != [] {
      match es[0]
      case CallOf(name) =>
        var frames' := frames + [Frame(name, Sees(c, frames))];
        assert Names(frames') == Names(frames) + [name];
        FramesAreOpen(c, es[1..], frames');
      case Return =>
        assert Names(frames[..|frames| - 1]) == Names(frames)[..|frames| - 1];
        FramesAreOpen(c, es[1..], frames[..|frames| - 1]);
    }
  }

  /** The calls that hold a slot: with dump_internal_ every open call, without it only the outermost. */
  function Holding(dumpInternal: bool, open: seq<string>): seq<string> {
    if dumpInternal || open == [] then open else [open[0]]
  }

  lemma {:induction false} DumpedAreHolding(c: Config, frames: seq<Frame>)
    requires 0 < c.mode
    requires forall k | 0 <= k < |frames| :: frames[k].mode == if k == 0 || c.dumpInternal then c.mode else 0
    ensures Dumped(frames) == Holding(c.dumpInternal, Names(frames))
  {
    if frames != [] {
      var n := |frames| - 1;
      DumpedAreHolding(c, frames[..n]);
      assert Names(frames) == Names(frames[..n]) + [frames[n].name];
    }
  }

  /** At every point of every nesting run with calls open: what calls of the innermost will see lies at the front of
      the stack, the mode at which each open call is dumped behind it in order, and the used slots are a prefix with
      the names of exactly the calls that hold one. Calls made by calls see the mode that is set if dump_internal_
      is, and 0 if not. */
  lemma EveryRunNests(c: Config, es: seq<Event>)
    requires 0 < c.mode && Nests(es, 0)
    ensures var (s, open) := (After(c, State([], []), es), OpenCalls(es, []));
            var inner := if c.dumpInternal then c.mode else 0;
            && |open| == Depth(es)
            && (open != [] ==> |s.stack| == |open| + 1 && s.stack[0] == inner && s.stack[1] == c.mode)
            && (open != [] ==> forall k | 2 <= k <= |open| :: s.stack[k] == inner)
            && SlotsAre(s.nodes, Holding(c.dumpInternal, open)) && Used(s.nodes) == |Holding(c.dumpInternal, open)|
  {
    RunNests(c, State([], []), [], es);
    FramesDepth(c, es, []);
    FramesAreOpen(c, es, []);
    assert Names([]) == [];
    var s, frames := After(c, State([], []), es), Frames(c, es, []);
    UsedIs(s.nodes, Dumped(frames));
    forall k | 0 <= k < |frames|
      ensures s.stack[k + 1] == frames[k].mode == if k == 0 || c.dumpInternal then c.mode else 0
    {
      assert s.stack[k + 1] == frames[k].mode == Sees(c, frames[..k]);
    }
    DumpedAreHolding(c, frames);
    forall k | 2 <= k <= |frames| ensures s.stack[k] == if c.dumpInternal then c.mode else 0 {
      assert s.stack[k - 1 + 1] == frames[k - 1].mode;
    }
    assert frames != [] ==> s.stack[0 + 1] == c.mode;
  }

  /** A thread that has made a call keeps its stack. */
  lemma {:induction false} StackStays(c: Config, s: State, es: seq<Event>)
    requires s.stack != []
    ensures After(c, s, es).stack != []
    decreases |es|
  {
    hide Enter, Leave, CanLeave;
    if es != [] {
      EnterLeaveStack(c, s, es[0]);
      match es[0]
      case CallOf(name) => StackStays(c, Enter(c, s, name), es[1..]);
      case Return => StackStays(c, if CanLeave(s) then Leave(s) else s, es[1..]);
    }
  }

  lemma EnterLeaveStack(c: Config, s: State, e: Event)
    ensures e.CallOf? ==> Enter(c, s, e.name).stack != []
    ensures e.Return? && CanLeave(s) ==> Leave(s).stack != []
  {
  }

  /** When every call has returned, the stack is back to the mode that is set and no slot is in use. */
  lemma BalancedRunEndsClean(c: Config, es: seq<Event>)
    requires 0 < c.mode && Nests(es, 0) && Depth(es) == 0 && es != []
    ensures var s := After(c, State([], []), es);
            s.stack == [c.mode] && Used(s.nodes) == 0 && forall k | 0 <= k < |s.nodes| :: s.nodes[k] == ""
  {
    RunNests(c, State([], []), [], es);
    FramesDepth(c, es, []);
    UsedIs(After(c, State([], []), es).nodes, []);
    EnterLeaveStack(c, State([], []), es[0]);
    StackStays(c, Enter(c, State([], []), es[0].name), es[1..]);
  }
}
