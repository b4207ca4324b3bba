# Pendulum render-loop state in Dafny

This project models the state that the pendulum program's render loop
(`main` in `main.cpp`) advances once per frame, and proves its laws.

- **Displacement history.** `lastPoints` is a deque of displacement
  samples. Each frame pushes the new sample at the back. When the deque then
  holds more than `L * 2` = 320 samples, the front is popped. The graph in the
  right half of the window plots the deque left to right from x = 520.
- **Simulation clock.** `time` is a 32-bit `int`. It starts at 0. Each frame
  advances it by the unsigned 32-bit `interval` = 10.
- **Termination flag.** `done` starts false. During a frame every pending
  event is polled. A quit event, or an event whose key scancode is Escape,
  sets `done`. The loop runs while `done` is false.

Modules, one per concern of the loop:

- `Layout` (`layout.dfy`): the screen constants and the x-coordinates of the
  graph points.
- `Events` (`events.dfy`): events, the exit test and the polling loop.
- `Clock` (`clock.dfy`): the 32-bit clock and its growth law.
- `History` (`history.dfy`): `Window`, the reference description of what the
  deque holds (the newest `min(n, 320)` samples, oldest first).
- `RenderLoop` (`render_loop.dfy`): the class `LoopState` holding
  `lastPoints`, `time` and `done`. Its `Step` method is one pass of the loop
  body. `Run` is the loop itself, started from the initial state.

Modelling choices:

- The sample of a frame comes from the closed-form formula on line 92, which
  uses `cos` and `pow` on doubles. `Step` takes it as an uninterpreted `real`.
  `Run` takes it as a function `displacement` applied to the clock at the
  start of the frame. So the sample of frame `k` is `displacement(ClockAt(k))`.
- `SDL_PollEvent` becomes an input: `Step` gets the batch of events polled in
  its frame, and `Run` gets one batch per frame (`polls`). Because the model
  needs a finite input, `Run` also stops when the batches run out.
- The code reads `event.key.keysym.scancode` for every event that is not a
  quit event (the `||` on line 113 short-circuits). `SDL_Event` is a union,
  so for a non-keyboard event this reads whatever lies at that place.
  The model gives every event a `scancode`
  field that stands for that value. `SDL_SCANCODE_ESCAPE` is 41.
- `time += interval` adds an `int` to a `Uint32`. The sum is unsigned, taken
  modulo 2^32, and converted back to `int`. This assumes a 32-bit `int` and a
  conversion back that wraps modulo 2^32, which C++ leaves
  implementation-defined before C++20 and requires from C++20 on.
  `Clock.Tick` models this wrap-around explicitly. The clock equals `10 * n`
  only up to frame 214748364. One frame later it is negative (`ClockWraps`).
- The layout constants are written with the values the C++ expressions give.
  `LayoutDerivation` proves that they equal those expressions.

`main.cpp` sets `mass`, `stiff` and `devInit` once (lines 58-61) and handles
only quit and Escape (line 113); there is no parameter adjustment, clamping
or reset. The exponent -0.5 on `stiff / mass` (line 92) gives
`sqrt(mass/stiff)`.

## Model

| member | source | states |
|---|---|---|
| `Layout.LayoutDerivation` | main.cpp:8-102 | Padding is 960/24 = 40, L is 960/4 - 2*40 = 160, the history bound is 2L = 320, the graph origin is at x = 960/2 + 40 = 520 and the time axis ends at x = 960 - 40 = 920 |
| `Layout.GraphXs` | main.cpp:102-108 | the graph loop plots the i-th stored sample at x = 520 + i, one point per sample in deque order; with at most 320 samples every x lies in [520, 840), left of the time axis end at 920 |
| `Events.PollEvents` | main.cpp:112-116 | after draining a batch, `done` is true exactly when it was already true or some event of the batch is a quit event or carries the Escape scancode; it is never cleared |
| `Events.FirstExitIsFirst` | main.cpp:64-116 | no batch before `FirstExit(polls)` asks to quit, and the batch at `FirstExit(polls)` does |
| `Clock.Tick` | main.cpp:118 | one `time += interval` keeps the clock a 32-bit int, adds 10 or adds 10 - 2^32, and increases the clock exactly when the true sum stays below 2^31 |
| `Clock.ClockAt` | main.cpp:56-57 | the clock at the start of every frame is a 32-bit int |
| `Clock.ClockLinear` | main.cpp:57 | the clock starts at 0 and after n frames equals 10 * n, for every n up to 214748364 |
| `Clock.ClockStrictlyIncreasing` | main.cpp:118 | within that range the clock is strictly increasing from frame to frame |
| `Clock.ClockWraps` | main.cpp:56-57 | at frame 214748364 the clock is 2147483640, and one frame later it has wrapped to -2147483646 |
| `History.Window` | main.cpp:93-96 | the reference content of the deque: min(n, 320) samples, and all of them while at most 320 were produced |
| `History.WindowAt` | main.cpp:93-96 | the window holds the newest samples in production order: its i-th element is the sample at position n - m + i, where m is its length |
| `History.WindowExtend` | main.cpp:93-96 | producing one more sample changes the window exactly like the push at the back followed, when the size passes 320, by the pop at the front |
| `RenderLoop.LoopState.constructor` | main.cpp:53-62 | before the first frame the deque is empty, the clock is 0 and `done` is false |
| `RenderLoop.LoopState.Step` | main.cpp:93-118 | one frame: below 320 samples the deque only gains the new sample at the back; at 320 it loses exactly its front and gains the new sample, so the survivors keep their order; the length stays at most 320 and the new sample is last; `done` becomes old `done` or an exit request in the batch; the clock advances by one tick |
| `RenderLoop.SamplesAt` | main.cpp:92-93 | the k-th sample produced is the displacement at the clock of frame k |
| `RenderLoop.WindowNextFrame` | main.cpp:92-96 | the window after frame n is the window before it with the sample of frame n pushed at the back and, at 320 samples, the front dropped |
| `RenderLoop.Run` | main.cpp:53-120 | running the loop from the initial state: it stops after the first frame whose batch asks to quit (or when the batches run out), with `done` set exactly in the first case; the clock is that of the frame count and the deque equals the window of all samples produced |
| `RenderLoop.HistoryAfterFrames` | main.cpp:62-96 | after n frames the history has length min(n, 320) and holds the samples of the last min(n, 320) frames in production order, the newest last |

## Left out

- SDL initialisation, window and renderer creation, teardown and the
  non-zero error returns: calls into the SDL library.
- All drawing: `drawCircle`, `drawPendulum`, the axis lines, the point y
  coordinate `L * sin(sample)`, `SDL_RenderPresent`. These are presentation
  and floating-point trigonometry. Only the x coordinates of the graph points
  are modelled.
- The displacement formula of line 92: floating-point `cos` and `pow`. The
  sample is an uninterpreted real, so nothing is stated about its value,
  period or frequency.
- `SDL_Delay` and `SDL_PollEvent`: timing and operating-system input. Events
  are an input sequence.
- `logSDLError`: stream output.
- `MASS_MIN`..`STIFFNESS_MAX` are never used as bounds. `MASS_*` and
  `STIFFNESS_*` only set the initial `mass` and `stiff` to their midpoints
  (lines 60-61). `DEV_MIN` and `DEV_MAX` are unused. `HANG_POINT` is used only
  by the drawing.
- `mass`, `stiff` and `devInit`: set once and read only by the displacement
  formula and the drawing, both left out.
- `RenderLoop.Run`: the source loop has no bound on the number of frames; the
  model runs over a finite sequence of polled batches and also stops when it
  is used up.
