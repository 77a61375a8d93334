/**
  The call-stack recorder seen as values: the live frames, most recent
  first, and the lines written so far to standard output. A `Trace`
  constructor is `Enter`, its destructor is `Exit`; C++ runs destructors
  of nested scopes in the reverse order of their constructors, which is
  what `EnterAll` followed by `ExitAll` describes.
 */
module CallStack {
  import opened Format

  /** The live frames, most recent first, and the lines written to `std::cout`. */
  datatype State = State(frames: seq<Location>, cout: seq<Line>)

  /** The output of `printStackTrace` for the given chain of frames: line `i` is about frame `i`. */
  function TraceLines(frames: seq<Location>): seq<Line> {
    seq(|frames|, i requires 0 <= i < |frames| => StackLine(frames[i]))
  }

  /** One `Exception thrown` line per frame, in the order given. */
  function ExceptionLines(frames: seq<Location>): seq<Line> {
    seq(|frames|, i requires 0 <= i < |frames| => ExceptionThrown(frames[i]))
  }

  function Reversed(xs: seq<Location>): seq<Location> {
    seq(|xs|, i requires 0 <= i < |xs| => xs[|xs| - 1 - i])
  }

  /** Constructing a frame at `loc`: it becomes the top; nothing is written. */
  function Enter(s: State, loc: Location): State {
    State([loc] + s.frames, s.cout)
  }

  /**
    Destroying the top frame: it is unlinked, and one `Exception thrown`
    line is written exactly when `uncaughtExceptions` is positive.
   */
  function Exit(s: State, uncaughtExceptions: nat): State
    requires s.frames != []
  {
    var out := if uncaughtExceptions > 0 then [ExceptionThrown(s.frames[0])] else [];
    State(s.frames[1..], s.cout + out)
  }

  /** Nested calls: `locs[0]` is entered first (outermost), the last one is innermost. */
  function EnterAll(s: State, locs: seq<Location>): State
    decreases |locs|
  {
    if locs == [] then s else EnterAll(Enter(s, locs[0]), locs[1..])
  }

  /** Leaving `n` scopes, innermost first, with the same uncaught-exception count in each. */
  function ExitAll(s: State, n: nat, uncaughtExceptions: nat): State
    requires n <= |s.frames|
    decreases n
  {
    if n == 0 then s else ExitAll(Exit(s, uncaughtExceptions), n - 1, uncaughtExceptions)
  }

  /** A frame's destruction undoes its construction; on a normal return nothing at all is left behind. */
  lemma ExitUndoesEnter(s: State, loc: Location, uncaughtExceptions: nat)
    ensures Exit(Enter(s, loc), uncaughtExceptions).frames == s.frames
    ensures uncaughtExceptions == 0 <==> Exit(Enter(s, loc), uncaughtExceptions) == s
    ensures uncaughtExceptions > 0 ==>
      Exit(Enter(s, loc), uncaughtExceptions).cout == s.cout + [ExceptionThrown(loc)]
  {
  }

  /** Nested construction stacks the frames in reverse creation order and writes nothing. */
  lemma {:induction false} EnterAllStacks(s: State, locs: seq<Location>)
    ensures EnterAll(s, locs) == State(Reversed(locs) + s.frames, s.cout)
    decreases |locs|
  {
    if locs != [] {
      EnterAllStacks(Enter(s, locs[0]), locs[1..]);
      assert Reversed(locs) == Reversed(locs[1..]) + [locs[0]];
      assert Reversed(locs[1..]) + ([locs[0]] + s.frames) == Reversed(locs) + s.frames;
    }
  }

  /** Leaving `n` scopes removes exactly the `n` top frames. */
  lemma {:induction false} ExitAllUnstacks(s: State, n: nat, uncaughtExceptions: nat)
    requires n <= |s.frames|
    ensures ExitAll(s, n, uncaughtExceptions).frames == s.frames[n..]
    decreases n
  {
    if n > 0 {
      var t := Exit(s, uncaughtExceptions);
      ExitAllUnstacks(t, n - 1, uncaughtExceptions);
      assert t.frames[n - 1..] == s.frames[n..];
    }
  }

  /** The report on the `n` top frames starts with the line about the top one. */
  lemma ExceptionLinesOfTop(frames: seq<Location>, n: nat)
    requires 0 < n <= |frames|
    ensures ExceptionLines(frames[..n]) == [ExceptionThrown(frames[0])] + ExceptionLines(frames[1..][..n - 1])
  {
  }

  /** Leaving `n` scopes while unwinding reports each of the `n` top frames, innermost first. */
  lemma {:induction false} ExitAllReports(s: State, n: nat, uncaughtExceptions: nat)
    requires n <= |s.frames| && uncaughtExceptions > 0
    ensures ExitAll(s, n, uncaughtExceptions).cout == s.cout + ExceptionLines(s.frames[..n])
    decreases n
  {
    if n == 0 {
      assert s.cout + [] == s.cout;
    } else {
      var t := Exit(s, uncaughtExceptions);
      ExitAllReports(t, n - 1, uncaughtExceptions);
      ExceptionLinesOfTop(s.frames, n);
      var line := ExceptionThrown(s.frames[0]);
      var report := ExceptionLines(t.frames[..n - 1]);
      assert (s.cout + [line]) + report == s.cout + ([line] + report);
    }
  }

  /** Leaving `n` scopes on a normal return writes nothing. */
  lemma {:induction false} ExitAllSilent(s: State, n: nat)
    requires n <= |s.frames|
    ensures ExitAll(s, n, 0).cout == s.cout
    decreases n
  {
    if n > 0 {
      ExitAllSilent(Exit(s, 0), n - 1);
    }
  }

  /**
    While the frames `locs` are live, a stack trace lists them most recent
    first, followed by the frames that were live before them.
   */
  lemma LiveFramesMostRecentFirst(s: State, locs: seq<Location>)
    ensures TraceLines(EnterAll(s, locs).frames) == TraceLines(Reversed(locs)) + TraceLines(s.frames)
    ensures forall i :: 0 <= i < |locs| ==>
      TraceLines(EnterAll(s, locs).frames)[i] == StackLine(locs[|locs| - 1 - i])
  {
    EnterAllStacks(s, locs);
    assert TraceLines(Reversed(locs) + s.frames) == TraceLines(Reversed(locs)) + TraceLines(s.frames);
  }

  /**
    Entering nested scopes and leaving all of them restores the frames.
    Unwinding through them writes one `Exception thrown` line per frame,
    innermost first; a normal return through them writes nothing.
   */
  lemma NestedScopes(s: State, locs: seq<Location>, uncaughtExceptions: nat)
    ensures |EnterAll(s, locs).frames| == |locs| + |s.frames|
    ensures ExitAll(EnterAll(s, locs), |locs|, uncaughtExceptions).frames == s.frames
    ensures uncaughtExceptions == 0 ==> ExitAll(EnterAll(s, locs), |locs|, uncaughtExceptions) == s
    ensures uncaughtExceptions > 0 ==>
      ExitAll(EnterAll(s, locs), |locs|, uncaughtExceptions).cout == s.cout + ExceptionLines(Reversed(locs))
  {
    EnterAllStacks(s, locs);
    var e := EnterAll(s, locs);
    ExitAllUnstacks(e, |locs|, uncaughtExceptions);
    if uncaughtExceptions > 0 {
      ExitAllReports(e, |locs|, uncaughtExceptions);
    } else {
      ExitAllSilent(e, |locs|);
    }
    assert e.frames[|locs|..] == s.frames;
    assert e.frames[..|locs|] == Reversed(locs);
  }
}
