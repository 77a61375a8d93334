# trace — a verified model of the `Trace` call-stack recorder

`Trace` (trace.h) records a pseudo call stack. A traced function makes a
`Trace` object as a local variable. Its constructor links the new frame to
the current top through a `caller` pointer and makes it the new top, the
class-wide static `mostRecentCaller`. Its destructor unlinks it again. If
the destructor runs while an exception propagates, it first writes
`Exception thrown: <frame>` to `std::cout`. `printStackTrace` follows the
`caller` links from the top down to `nullptr` and writes one line per live
frame. `operator<<` renders a frame as `file:line - func`.

The model has three modules:

- `Format` (format.dfy): the location value, `operator<<` as `Render`, and
  decimal printing of the C++ `int` line number. A written line is a `Line`
  value that says what it reports: a stack-trace line or an
  `Exception thrown` line. `Text` gives its exact characters. A parser that
  inverts `Text` shows that the rendering loses nothing.
- `CallStack` (callstack.dfy): the recorder as values. A `State` holds the
  live frames, most recent first, and the lines written to `std::cout`.
  `Enter` is construction and `Exit` is destruction. `EnterAll` and
  `ExitAll` describe nested scopes entered and left in C++'s reverse order.
  The lemmas cover push/pop, nesting and unwinding.
- `Tracing` (trace.dfy): the imperative model. Class `Trace` has the
  source's fields. The model treats `caller`, `file`, `func` and `line` as
  set once, in the constructor's initializer list, and declares them
  `const`. The copy operations C++ generates for the class are not
  modelled; see "Left out". Dafny
  classes cannot have mutable static fields, so class `Process` holds the
  two pieces of process-wide state: `Trace::mostRecentCaller` and the lines
  written to `std::cout`. It also has a ghost field `frames`, the live
  chain, and `Valid()` says that `frames` is exactly what you reach from
  `mostRecentCaller` by following `caller` links to null. Every
  state-changing method states its effect on `Process.Abs()` in terms of `CallStack.Enter` or
  `CallStack.Exit`, so the lemmas of `CallStack` apply to any sequence of
  constructor and destructor calls.

Input and output are modelled like this:

- An output stream is the sequence of `Line` values written to it. The
  characters of line `l` are `Text(l)`, ending in `"\n"`.
- `printStackTrace(os)` takes the lines already in `os` and returns them
  followed by the trace.
- The destructor appends to `Process.cout`.
- The value of `std::uncaught_exceptions()` is passed to `Destroy` as the
  parameter `uncaughtExceptions`.

The destructor requires that the frame it destroys is the current top. C++
gives this for free, because locals are destroyed in reverse order of
construction.

## Model

| member | source | states |
|---|---|---|
| `Tracing.Process.constructor` | trace.h:10 | At program start the top pointer is null, the chain of live frames is empty and nothing has been written. |
| `Tracing.Trace.constructor` | trace.h:18-22 | The new frame's caller link is the old top. The frame becomes the top. The live chain grows by exactly this frame, in front. Nothing is written. The abstract state is `Enter(old state, location)`. |
| `Tracing.Trace.Destroy` | trace.h:34-39 | Requires the frame to be the top. The top becomes the frame's caller and the chain loses its first frame. The destroyed frame is no longer in the chain. An `Exception thrown` line for the frame is appended to `std::cout` exactly when the uncaught-exception count is positive; otherwise nothing is written. The pop happens in both cases. The abstract state is `Exit(old state, count)`. |
| `Tracing.Trace.PrintStackTrace` | trace.h:29-32 | The walk along `caller` links ends at the null root. It appends exactly one stack-trace line per live frame, after what `os` already held: line `i` is about live frame `i`, most recent first. It appends nothing on an empty stack. The method has no `modifies` clause, so it changes no state, and two calls in a row give the same lines. |
| `Tracing.TraceOfChainStep` | trace.h:30-31 | One step of the walk: the trace of a chain is the line of its top frame, then the trace of the rest. |
| `Tracing.ChainUnique` | trace.h:30 | The chain walked from a given pointer down to null is unique. |
| `Tracing.ChainSuffix` | trace.h:30 | Each step of the walk leaves the chain of the frame reached. |
| `Tracing.ChainDistinct` | trace.h:19-21 | Any chain of `caller` links that reaches null holds no frame twice. The constructor keeps `Valid()`, so the chain of live frames always has this shape and its links form no cycle. |
| `Format.NatToString` | trace.h:25 | The decimal numeral of a natural number is non-empty and all digits, with no leading zero. |
| `Format.IntToString` | trace.h:25 | `<< int` writes a leading `-` exactly for negative numbers, followed by digits. |
| `Format.NatToStringRoundTrip` | trace.h:25 | Reading the digits back gives the number. |
| `Format.IntToStringRoundTrip` | trace.h:25 | Reading the printed line number back gives the number, sign included. |
| `Format.Render` | trace.h:24-27 | A rendered frame starts with the file name followed by `:`, and ends with ` - ` followed by the function name. The decimal line number sits between the two. |
| `Format.Text` | trace.h:31-36 | Every written line ends in a line break. Before the break comes the rendered frame: on its own for a stack-trace line, and after the prefix `Exception thrown: ` for the destructor's report. |
| `Format.RenderRoundTrip` | trace.h:24-27 | `file:line - func` can be split back into exactly the frame's file, line and function whenever the file name has no colon. |
| `Format.RenderNotExceptionPrefixed` | trace.h:24-27 | A rendered frame whose file name has no colon never begins with `Exception thrown: `, so the two kinds of line cannot be confused. |
| `Format.LineRoundTrip` | trace.h:31-36 | The text of a stack-trace line (`file:line - func\n`) or of an unwinding report (`Exception thrown: file:line - func\n`) reads back as exactly that line whenever the file name has no colon. |
| `CallStack.ExitUndoesEnter` | trace.h:18-39 | Destroying a frame right after constructing it restores the live frames. With no uncaught exception the whole state is as before, and only then. Otherwise exactly one `Exception thrown` line for that frame is added. |
| `CallStack.EnterAllStacks` | trace.h:18-22 | Constructing nested frames puts them on the stack in reverse creation order, above the frames already live, and writes nothing. |
| `CallStack.ExitAllUnstacks` | trace.h:34-39 | Leaving `n` scopes removes exactly the top `n` frames. |
| `CallStack.ExceptionLinesOfTop` | trace.h:35-37 | The report on the top `n` frames begins with the line about the top frame. |
| `CallStack.ExitAllReports` | trace.h:34-39 | Leaving `n` scopes while unwinding writes one `Exception thrown` line for each of the top `n` frames, innermost first, after what was already written. |
| `CallStack.ExitAllSilent` | trace.h:34-39 | Leaving `n` scopes on a normal return writes nothing. |
| `CallStack.LiveFramesMostRecentFirst` | trace.h:18-32 | After nested construction, the stack trace lists the new frames in reverse creation order (line `i` is the frame made `i`-th from last), followed by the trace of the frames that were live before. |
| `CallStack.NestedScopes` | trace.h:18-39 | Entering `n` nested scopes and leaving them all restores the live frames. Unwinding writes exactly one `Exception thrown` line per frame, innermost first, after what was already written. A normal return leaves the state unchanged. |

## Left out

- main.cpp is a demonstration driver with no logic of its own, so it is not part of this model.
- The `TRACE` macro (trace.h:42) only supplies `__FILE__`, `__PRETTY_FUNCTION__` and `__LINE__`. The model takes the file, function and line as plain constructor arguments.
- Real streams are not modelled: formatting state, flushing and error bits. A stream is a sequence of whole lines, and each chain of `<<` writes that ends in `"\n"` is one element. Its characters are given by `Text`.
- `std::uncaught_exceptions()` is a query to the C++ runtime. It becomes the `uncaughtExceptions` parameter of `Destroy`.
- Raw-pointer lifetime and C++'s reverse-order destruction of locals are not modelled. They are the precondition of `Destroy` that the frame is the current top. Frames that are never destroyed, or destroyed out of order, are outside the model.
- The implicitly generated copy constructor and copy-assignment operator of `Trace` are not modelled. A copy made with the copy constructor would not push itself, but its destructor would still reset the top. Copy assignment (`t2 = t1`) overwrites all four fields of `t2`, `caller` included, without touching `mostRecentCaller`. The model's fields are `const`, so neither operation can be expressed.
- `char const*` is modelled as a Dafny string. Null pointers and NUL termination are not modelled.
- The header as written keeps one process-wide top pointer (`static inline`, trace.h:10), not one per thread. It has no logged variant with enter and exit lines, no `output(...)` value dump and no truncation of values, so the model has none of them.
- `Tracing.Trace.PrintStackTrace`: writing to a given stream is modelled as returning the stream's new contents. It does not say that the stream object passed in is the one written to, so a call with `std::cout`, as in main.cpp, is not tied to `Process.cout`.
