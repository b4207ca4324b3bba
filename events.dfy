/** The events the render loop drains once per frame and the exit request
    they may carry (main.cpp). */
module Events {

  /** SDL_SCANCODE_ESCAPE in SDL's scancode table (the USB HID usage of Escape). */
  const ScancodeEscape: int := 41

  datatype EventKind = QuitEvent | KeyDownEvent | KeyUpEvent | OtherEvent

  /** An SDL event as the loop inspects it. The loop reads the key scancode
      of every event that is not a quit event (SDL_Event is a union), so
      every event carries the value found at that place. */
  datatype Event = Event(kind: EventKind, scancode: int)

  /** An event that ends the program: a quit event or the Escape scancode. */
  predicate IsExitRequest(e: Event) {
    e.kind == QuitEvent || e.scancode == ScancodeEscape
  }

  /** Some event of the batch asks to end the program. */
  predicate ExitRequested(events: seq<Event>) {
    exists e :: e in events && IsExitRequest(e)
  }

  /** The polling loop: every pending event is consumed, and `done` is set,
      never cleared, by each exit request among them. */
  method PollEvents(done: bool, events: seq<Event>) returns (done': bool)
    ensures done' <==> done || ExitRequested(events)
  {
    done' := done;
    var k := 0;
    while k < |events|
      invariant 0 <= k <= |events|
      invariant done' <==> done || exists j :: 0 <= j < k && IsExitRequest(events[j])
    {
      if IsExitRequest(events[k]) {
        done' := true;
      }
      k := k + 1;
    }
  }

  /** The frame in which the loop sees its first exit request: the index of
      the first batch holding one, or `|polls|` when no batch does. */
  function FirstExit(polls: seq<seq<Event>>): (i: nat)
    ensures i <= |polls|
  {
    if polls == [] then 0
    else if ExitRequested(polls[0]) then 0
    else 1 + FirstExit(polls[1..])
  }

  /** No batch before FirstExit asks to end the program, and the one at
      FirstExit does. */
  lemma {:induction false} FirstExitIsFirst(polls: seq<seq<Event>>, k: nat)
    requires k < |polls|
    ensures k < FirstExit(polls) ==> !ExitRequested(polls[k])
    ensures k == FirstExit(polls) ==> ExitRequested(polls[k])
  {
    if k > 0 && !ExitRequested(polls[0]) {
      FirstExitIsFirst(polls[1..], k - 1);
    }
  }
}
