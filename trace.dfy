/**
  Class `Trace` of trace.h: an intrusive singly-linked stack of frames.
  Each frame records its source location and a link to the frame that was
  on top when it was built; the class-wide pointer `mostRecentCaller`
  names the current top.

  Dafny classes have no mutable static fields, so the process-wide state
  the header touches (the static `mostRecentCaller` and `std::cout`) is
  kept in one `Process` object that every operation receives.
 */
module Tracing {
  import opened Format
  import opened CallStack

  /**
    `s` is the chain of frames reached from `t` by following `caller`
    links down to the null root. A frame's link never changes after
    construction, so the chain depends on no mutable state.
   */
  ghost predicate ChainFrom(t: Trace?, s: seq<Trace>)
    decreases |s|
  {
    if t == null then s == [] else |s| > 0 && s[0] == t && ChainFrom(t.caller, s[1..])
  }

  /** The locations of a sequence of frames. */
  function Locations(ts: seq<Trace>): seq<Location> {
    seq(|ts|, i requires 0 <= i < |ts| => ts[i].Loc())
  }

  /** The trace of a chain is the line of its first frame, then the trace of the rest. */
  lemma TraceOfChainStep(ts: seq<Trace>)
    requires ts != []
    ensures TraceLines(Locations(ts)) == [StackLine(ts[0].Loc())] + TraceLines(Locations(ts[1..]))
  {
  }

  /** A pointer determines its chain: the walk from it is unique. */
  lemma {:induction false} ChainUnique(t: Trace?, s1: seq<Trace>, s2: seq<Trace>)
    requires ChainFrom(t, s1) && ChainFrom(t, s2)
    ensures s1 == s2
    decreases |s1|
  {
    if t != null {
      ChainUnique(t.caller, s1[1..], s2[1..]);
      assert s1 == [t] + s1[1..] && s2 == [t] + s2[1..];
    }
  }

  /** Every suffix of a chain is the chain of its first frame. */
  lemma {:induction false} ChainSuffix(t: Trace?, s: seq<Trace>, k: nat)
    requires ChainFrom(t, s) && k <= |s|
    ensures ChainFrom(if k < |s| then s[k] else null, s[k..])
    decreases k
  {
    if k > 0 {
      ChainSuffix(t.caller, s[1..], k - 1);
      assert s[1..][k - 1..] == s[k..];
    }
  }

  /** A chain that reaches the null root holds no frame twice: the links form no cycle. */
  lemma ChainDistinct(t: Trace?, s: seq<Trace>)
    requires ChainFrom(t, s)
    ensures forall i, j :: 0 <= i < j < |s| ==> s[i] != s[j]
  {
    forall i, j | 0 <= i < j < |s| ensures s[i] != s[j] {
      ChainSuffix(t, s, i);
      ChainSuffix(t, s, j);
      if s[i] == s[j] {
        ChainUnique(s[i], s[i..], s[j..]);
      }
    }
  }

  /** The process-wide state: `Trace::mostRecentCaller` and the lines written to `std::cout`. */
  class Process {
    var mostRecentCaller: Trace?
    var cout: seq<Line>
    /** The live frames, most recent first. */
    ghost var frames: seq<Trace>

    ghost predicate Valid()
      reads this
    {
      ChainFrom(mostRecentCaller, frames)
    }

    /** The state as values, for the lemmas of module CallStack. */
    ghost function Abs(): State
      reads this
    {
      State(Locations(frames), cout)
    }

    /** Program start: `mostRecentCaller` is initialised to `nullptr` and nothing is written yet. */
    constructor ()
      ensures Valid()
      ensures mostRecentCaller == null && frames == [] && cout == []
    {
      mostRecentCaller := null;
      cout := [];
      frames := [];
    }
  }

  class Trace {
    const caller: Trace?
    const file: string
    const func: string
    const line: int32

    function Loc(): Location {
      Location(file, func, line)
    }

    /**
      Pushes the new frame: its caller link is the old top, and it becomes
      the new top. Nothing is written.
     */
    constructor (p: Process, file_: string, func_: string, line_: int32)
      requires p.Valid()
      modifies p
      ensures p.Valid()
      ensures caller == old(p.mostRecentCaller) && p.mostRecentCaller == this
      ensures file == file_ && func == func_ && line == line_
      ensures p.frames == [this] + old(p.frames)
      ensures p.cout == old(p.cout)
      ensures p.Abs() == Enter(old(p.Abs()), Location(file_, func_, line_))
    {
      caller := p.mostRecentCaller;
      file := file_;
      func := func_;
      line := line_;
      new;
      p.mostRecentCaller := this;
      p.frames := [this] + p.frames;
      assert Locations(p.frames) == [Loc()] + Locations(old(p.frames));
    }

    /**
      The destructor. `uncaughtExceptions` is what `std::uncaught_exceptions()`
      returns at that point. C++ destroys locals in the reverse order of their
      construction, so the frame being destroyed is always the top.
     */
    method Destroy(p: Process, uncaughtExceptions: nat)
      requires p.Valid() && p.mostRecentCaller == this
      modifies p
      ensures p.Valid()
      ensures p.mostRecentCaller == caller
      ensures p.frames == old(p.frames)[1..]
      ensures this !in p.frames
      ensures uncaughtExceptions > 0 ==> p.cout == old(p.cout) + [ExceptionThrown(Loc())]
      ensures uncaughtExceptions == 0 ==> p.cout == old(p.cout)
      ensures p.Abs() == Exit(old(p.Abs()), uncaughtExceptions)
    {
      ChainDistinct(this, p.frames);
      if uncaughtExceptions > 0 {
        p.cout := p.cout + [ExceptionThrown(Loc())];
      }
      p.mostRecentCaller := caller;
      p.frames := p.frames[1..];
      assert Locations(p.frames) == Locations(old(p.frames))[1..];
    }

    /**
      Walks the caller links from the top down to the null root and appends
      one line per live frame to `os`, most recent first. It changes nothing,
      so two calls in a row give the same lines.
     */
    static method PrintStackTrace(p: Process, os: seq<Line>) returns (os': seq<Line>)
      requires p.Valid()
      ensures os' == os + TraceLines(Locations(p.frames))
      ensures |os'| == |os| + |p.frames|
      ensures forall i :: 0 <= i < |p.frames| ==> os'[|os| + i] == StackLine(p.frames[i].Loc())
    {
      os' := os;
      var ptp := p.mostRecentCaller;
      ghost var rest := p.frames;
      while ptp != null
        invariant ChainFrom(ptp, rest)
        invariant os' + TraceLines(Locations(rest)) == os + TraceLines(Locations(p.frames))
        decreases |rest|
      {
        TraceOfChainStep(rest);
        os' := os' + [StackLine(ptp.Loc())];
        ptp := ptp.caller;
        rest := rest[1..];
      }
      assert TraceLines(Locations(rest)) == [];
    }
  }
}
