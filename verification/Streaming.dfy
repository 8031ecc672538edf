/** The streaming handler as a state machine. Each step is the code between two awaits of one of
    the interleaved activities: the loop over the response, the notification queue (one task at a
    time), the client's cancellation, and the closing `done` notification. */
module Streaming {
  import opened Wrappers
  import opened Text

  datatype Note =
    | Partial(raw: string, late: bool)  // `late`: sent after cancellation was requested
    | DoneNote

  datatype Track =
    | StreamStarted | Shown | StreamCompleted | NotProvided | Errored | Rejected | Cancelled

  /** Where a started notification task is waiting. */
  datatype Stage = Idle | Processing(raw: string) | Sending

  datatype Phase =
    | Reading          // waiting for the next item of the response
    | Notifying        // the loop awaits the notification of a plain-text chunk
    | Notified         // that notification has returned
    | Draining         // waiting for the queue to become idle
    | Ending           // the final `done` notification is being sent
    | Closing          // it was sent; the handlers are about to be disposed
    | Closed
    | Failed           // sending it failed, so nothing was disposed

  /** The flags of `startStream` that telemetry depends on, and the events tracked so far. */
  datatype Telemetry = Telemetry(
    stopped: bool,              // `streamCancelledOrErrored`
    shown: bool,
    provided: bool,
    started: bool,
    tracked: seq<Track>
  )

  datatype State = State(
    sse: bool,                  // the response format, fixed per stream
    phase: Phase,
    buffer: string,
    queued: nat,                // notification tasks waiting in the queue
    task: Stage,                // the notification in progress, queued or plain
    registered: bool,           // the cancellation handler is in the map
    tokenCancelled: bool,
    notes: seq<Note>,
    telemetry: Telemetry
  )

  datatype SseEvent =
    | Malformed                       // the data is not JSON
    | Unrecognised                    // JSON of another shape
    | StreamStart
    | Content(pieces: seq<string>)
    | ContentWithoutChoices
    | StreamEnd

  datatype Event =
    | Chunk(text: string, breakerOpen: bool)
    | Resume
    | Sse(event: SseEvent)
    | TaskStart(breakerOpen: bool)
    | TaskProcessed
    | TaskSent
    | TaskFails
    | CancelRequest
    | ResponseEnds
    | ResponseFails
    | QueueIdle
    | EndSent
    | EndFails
    | Dispose

  function Initial(sse: bool): State {
    State(sse, Reading, "", 0, Idle, true, false, [], Telemetry(false, false, false, false, []))
  }

  /** The client could not open a stream: the handler goes straight to the final notification. */
  function InitialWithoutStream(sse: bool): State {
    Initial(sse).(phase := Ending, notes := [DoneNote])
  }

  function Concat(pieces: seq<string>): string {
    if pieces == [] then "" else Concat(pieces[..|pieces| - 1]) + pieces[|pieces| - 1]
  }

  // ----- the pieces of code the steps share

  function TrackStarted(t: Telemetry): Telemetry {
    if t.started then t else t.(started := true, tracked := t.tracked + [StreamStarted])
  }

  function TrackShown(t: Telemetry): Telemetry {
    if t.shown then t.(provided := true)
    else t.(shown := true, provided := true, tracked := t.tracked + [Shown])
  }

  function TrackError(t: Telemetry): Telemetry {
    t.(tracked := t.tracked + [Errored], stopped := true)
  }

  function TrackCancel(t: Telemetry): Telemetry {
    t.(tracked := t.tracked + [if t.shown then Rejected else Cancelled], stopped := true)
  }

  function TrackEnd(t: Telemetry): Telemetry {
    if t.stopped then t
    else if t.provided then t.(tracked := t.tracked + [StreamCompleted])
    else t.(tracked := t.tracked + [StreamCompleted, NotProvided])
  }

  /** The start of `#handleStreamNotification`, up to its first await. */
  function BeginTask(s: State, breakerOpen: bool): State {
    if s.tokenCancelled || breakerOpen then s
    else s.(task := Processing(s.buffer), telemetry := TrackStarted(s.telemetry))
  }

  function OnSse(s: State, event: SseEvent): State {
    match event
    case Malformed => s.(notes := s.notes + [DoneNote], telemetry := TrackError(s.telemetry))
    case Unrecognised => s
    case StreamStart => s.(queued := s.queued + 1)
    case Content(pieces) =>
      // `streamCancelledOrErrored` was passed to the parser by value when the stream began, so the
      // parser's copy is still false whatever happened since
      var buffer := s.buffer + Concat(pieces);
      s.(buffer := buffer, queued := s.queued + 1,
         telemetry := if HasVisible(buffer) then TrackShown(s.telemetry) else s.telemetry)
    case ContentWithoutChoices => s.(queued := s.queued + 1)
    case StreamEnd => s.(queued := s.queued + 1, telemetry := s.telemetry.(provided := true))
  }

  predicate Enabled(s: State, e: Event) {
    match e
    case Chunk(_, _) => s.phase == Reading && !s.sse
    case Resume => s.phase == Notified
    case Sse(_) => s.phase == Reading && s.sse
    case TaskStart(_) => s.task == Idle && s.queued > 0
    case TaskProcessed => s.task.Processing?
    case TaskSent => s.task == Sending
    case TaskFails => s.task != Idle
    case CancelRequest => true
    case ResponseEnds => s.phase == Reading
    case ResponseFails => s.phase == Reading
    case QueueIdle => s.phase == Draining && s.queued == 0 && s.task == Idle
    case EndSent => s.phase == Ending
    case EndFails => s.phase == Ending
    case Dispose => s.phase == Closing
  }

  function Next(s: State, e: Event): State
    requires Enabled(s, e)
  {
    match e
    case Chunk(text, breakerOpen) =>
      var t := BeginTask(s.(buffer := s.buffer + text), breakerOpen);
      t.(phase := if t.task == Idle then Notified else Notifying)
    case Resume =>
      s.(phase := Reading,
         telemetry := if HasVisible(s.buffer) && !s.telemetry.stopped then TrackShown(s.telemetry) else s.telemetry)
    case Sse(event) => OnSse(s, event)
    case TaskStart(breakerOpen) => BeginTask(s.(queued := s.queued - 1), breakerOpen)
    case TaskProcessed => s.(task := Sending, notes := s.notes + [Partial(s.task.raw, s.tokenCancelled)])
    case TaskSent => s.(task := Idle, phase := if s.phase == Notifying then Notified else s.phase)
    case TaskFails =>
      // a failed queue task only rejects its own promise; a plain notification fails the whole loop
      if s.phase == Notifying
      then s.(task := Idle, phase := Draining, telemetry := TrackError(s.telemetry))
      else s.(task := Idle)
    case CancelRequest =>
      if s.registered then s.(tokenCancelled := true, telemetry := TrackCancel(s.telemetry)) else s
    case ResponseEnds => s.(phase := Draining)
    case ResponseFails => s.(phase := Draining, telemetry := TrackError(s.telemetry))
    case QueueIdle => s.(phase := Ending, notes := s.notes + [DoneNote])
    case EndSent => s.(phase := Closing, telemetry := TrackEnd(s.telemetry))
    case EndFails => s.(phase := Failed)
    case Dispose => s.(phase := Closed, registered := false)
  }

  /** The state after a run, or nothing if some step of it cannot happen. */
  function Run(start: State, events: seq<Event>): Outcome<State> {
    if events == [] then Reached(start) else
    var n := |events| - 1;
    var before := Run(start, events[..n]);
    if before.Reached? && Enabled(before.state, events[n]) then Reached(Next(before.state, events[n])) else Impossible
  }

  ghost predicate IsStart(start: State) {
    start == Initial(start.sse) || start == InitialWithoutStream(start.sse)
  }

  // ----- what a run fed in

  /** All text the response delivered. */
  function Delivered(events: seq<Event>): string {
    if events == [] then "" else
    var n := |events| - 1;
    Delivered(events[..n]) + Carries(events[n])
  }

  function Carries(e: Event): string {
    match e
    case Chunk(text, _) => text
    case Sse(event) => if event.Content? then Concat(event.pieces) else ""
    case _ => ""
  }

  function Requests(e: Event): nat {
    match e
    case Chunk(_, _) => 1
    case Sse(event) => if event.Malformed? || event.Unrecognised? then 0 else 1
    case _ => 0
  }

  /** How many notifications the response asked for. */
  function Requested(events: seq<Event>): nat {
    if events == [] then 0 else
    var n := |events| - 1;
    Requested(events[..n]) + Requests(events[n])
  }

  function MalformedEvents(events: seq<Event>): nat {
    if events == [] then 0 else
    var n := |events| - 1;
    MalformedEvents(events[..n]) + if events[n] == Sse(Malformed) then 1 else 0
  }

  /** Nothing was cancelled, failed or held back by the circuit breaker. */
  predicate Clean(events: seq<Event>) {
    forall e :: e in events ==>
      !e.CancelRequest? && !e.TaskFails? && !e.ResponseFails? && e != Sse(Malformed)
      && e != TaskStart(true) && (e.Chunk? ==> !e.breakerOpen)
  }

  // ----- what a run sent out

  function Raws(notes: seq<Note>): seq<string> {
    if notes == [] then [] else
    var n := |notes| - 1;
    Raws(notes[..n]) + if notes[n].Partial? then [notes[n].raw] else []
  }

  function LateCount(notes: seq<Note>): nat {
    if notes == [] then 0 else
    var n := |notes| - 1;
    LateCount(notes[..n]) + if notes[n].Partial? && notes[n].late then 1 else 0
  }

  function DoneCount(notes: seq<Note>): nat {
    if notes == [] then 0 else
    var n := |notes| - 1;
    DoneCount(notes[..n]) + if notes[n] == DoneNote then 1 else 0
  }

  function Count(tracked: seq<Track>, t: Track): nat {
    multiset(tracked)[t]
  }

  lemma AppendNote(notes: seq<Note>, note: Note)
    ensures Raws(notes + [note]) == Raws(notes) + if note.Partial? then [note.raw] else []
    ensures LateCount(notes + [note]) == LateCount(notes) + if note.Partial? && note.late then 1 else 0
    ensures DoneCount(notes + [note]) == DoneCount(notes) + if note == DoneNote then 1 else 0
  {
  }

  predicate IsChain(raws: seq<string>) {
    forall i, j :: 0 <= i <= j < |raws| ==> raws[i] <= raws[j]
  }

  predicate Winding(phase: Phase) {
    phase.Ending? || phase.Closing? || phase.Closed? || phase.Failed?
  }

  // ----- invariants

  /** Buffers only grow, and each notification carries the buffer of its time. */
  ghost predicate Ordered(notes: seq<Note>, task: Stage, buffer: string) {
    && IsChain(Raws(notes))
    && (forall raw :: raw in Raws(notes) ==> raw <= buffer)
    && (task.Processing? ==> task.raw <= buffer && forall raw :: raw in Raws(notes) ==> raw <= task.raw)
  }

  /** Which activities can overlap. */
  ghost predicate Structured(s: State) {
    && (s.sse ==> s.phase != Notifying && s.phase != Notified)
    && (!s.sse ==> s.queued == 0)
    && (s.phase == Notifying ==> s.task != Idle)
    && (!s.sse && s.phase != Notifying ==> s.task == Idle)
    && (Winding(s.phase) ==> s.queued == 0 && s.task == Idle)
    && (s.registered <==> s.phase != Closed)
    && (s.tokenCancelled ==> s.telemetry.stopped)
    && (Winding(s.phase) ==> s.notes != [] && s.notes[|s.notes| - 1] == DoneNote)
    && (s.phase == Notifying && s.task.Processing? ==> s.task.raw == s.buffer)
  }

  /** A task that passed the cancellation check may still send, but no second one can. */
  ghost predicate FewLate(notes: seq<Note>, task: Stage, tokenCancelled: bool) {
    && LateCount(notes) + (if tokenCancelled && task.Processing? then 1 else 0) <= 1
    && (!tokenCancelled ==> LateCount(notes) == 0)
  }

  /** The tracked events match the flags. */
  ghost predicate Accounted(t: Telemetry) {
    && Count(t.tracked, StreamStarted) == (if t.started then 1 else 0)
    && Count(t.tracked, Shown) == (if t.shown then 1 else 0)
    && (t.shown ==> t.provided)
    && Count(t.tracked, StreamCompleted) <= 1 && Count(t.tracked, NotProvided) <= 1
    && (t.stopped <==> Errored in t.tracked || Cancelled in t.tracked || Rejected in t.tracked)
    && (StreamCompleted in t.tracked ==> Errored !in t.tracked)
    && (NotProvided in t.tracked ==> StreamCompleted in t.tracked && Shown !in t.tracked)
    && (Rejected in t.tracked ==> Shown in t.tracked)
  }

  /** Completion is tracked only after the final notification was sent. */
  ghost predicate CompletedLast(s: State) {
    s.phase != Closing && s.phase != Closed ==> StreamCompleted !in s.telemetry.tracked
  }

  ghost predicate Invariant(s: State) {
    && Structured(s)
    && Ordered(s.notes, s.task, s.buffer)
    && FewLate(s.notes, s.task, s.tokenCancelled)
    && Accounted(s.telemetry)
    && CompletedLast(s)
  }

  lemma OrderedGrows(notes: seq<Note>, task: Stage, buffer: string, more: string)
    requires Ordered(notes, task, buffer)
    ensures Ordered(notes, task, buffer + more) && Ordered(notes, Processing(buffer), buffer)
    ensures Ordered(notes, Idle, buffer)
  {
  }

  lemma OrderedNote(notes: seq<Note>, task: Stage, buffer: string, note: Note)
    requires Ordered(notes, task, buffer)
    requires note == DoneNote || (task.Processing? && note.raw == task.raw)
    ensures Ordered(notes + [note], if note == DoneNote then task else Sending, buffer)
  {
    AppendNote(notes, note);
    assert forall i :: 0 <= i < |Raws(notes)| ==> Raws(notes)[i] in Raws(notes);
  }

  lemma OrderedStep(s: State, e: Event)
    requires Enabled(s, e) && Ordered(s.notes, s.task, s.buffer)
    ensures var t := Next(s, e); Ordered(t.notes, t.task, t.buffer)
  {
    hide Ordered;
    match e
    case Chunk(text, _) =>
      OrderedGrows(s.notes, s.task, s.buffer, text);
      OrderedGrows(s.notes, s.task, s.buffer + text, "");
    case TaskProcessed => OrderedNote(s.notes, s.task, s.buffer, Partial(s.task.raw, s.tokenCancelled));
    case Sse(event) =>
      OrderedNote(s.notes, s.task, s.buffer, DoneNote);
      OrderedGrows(s.notes, s.task, s.buffer, if event.Content? then Concat(event.pieces) else "");
    case QueueIdle => OrderedNote(s.notes, s.task, s.buffer, DoneNote);
    case _ => OrderedGrows(s.notes, s.task, s.buffer, "");
  }

  lemma StructuredStep(s: State, e: Event)
    requires Enabled(s, e) && Structured(s)
    ensures Structured(Next(s, e))
  {
    match e
    case Chunk(_, _) =>
    case Sse(_) =>
    case TaskFails =>
    case CancelRequest =>
    case _ =>
  }

  lemma FewLateChanges(notes: seq<Note>, task: Stage, tokenCancelled: bool)
    requires FewLate(notes, task, tokenCancelled)
    ensures FewLate(notes, Idle, tokenCancelled) && FewLate(notes, task, true)
    ensures forall raw :: !tokenCancelled ==> FewLate(notes, Processing(raw), tokenCancelled)
    ensures FewLate(notes + [DoneNote], task, tokenCancelled)
    ensures task.Processing? ==> FewLate(notes + [Partial(task.raw, tokenCancelled)], Sending, tokenCancelled)
  {
  }

  lemma FewLateStep(s: State, e: Event)
    requires Enabled(s, e) && FewLate(s.notes, s.task, s.tokenCancelled)
    ensures var t := Next(s, e); FewLate(t.notes, t.task, t.tokenCancelled)
  {
    hide FewLate;
    FewLateChanges(s.notes, s.task, s.tokenCancelled);
  }

  lemma AccountedAlways(t: Telemetry)
    requires Accounted(t)
    ensures Accounted(TrackStarted(t)) && Accounted(TrackCancel(t)) && Accounted(t.(provided := true))
    ensures StreamCompleted !in t.tracked ==>
      StreamCompleted !in TrackStarted(t).tracked && StreamCompleted !in TrackCancel(t).tracked
  {
  }

  lemma AccountedBeforeCompletion(t: Telemetry)
    requires Accounted(t) && StreamCompleted !in t.tracked
    ensures Accounted(TrackShown(t)) && Accounted(TrackError(t)) && Accounted(TrackEnd(t))
    ensures StreamCompleted !in TrackShown(t).tracked && StreamCompleted !in TrackError(t).tracked
  {
  }

  lemma AccountedStep(s: State, e: Event)
    requires Enabled(s, e) && Structured(s) && Accounted(s.telemetry) && CompletedLast(s)
    ensures Accounted(Next(s, e).telemetry) && CompletedLast(Next(s, e))
  {
    hide Accounted, TrackStarted, TrackCancel, TrackShown, TrackError, TrackEnd;
    AccountedAlways(s.telemetry);
    if StreamCompleted !in s.telemetry.tracked {
      AccountedBeforeCompletion(s.telemetry);
    }
    match e
    case Chunk(_, _) =>
    case Sse(_) =>
    case TaskFails =>
    case CancelRequest =>
    case EndSent =>
    case _ =>
  }

  /** What a step can do to the telemetry. */
  predicate TracksOnce(t: Telemetry, u: Telemetry) {
    || u == t || u == t.(provided := true) || u == TrackStarted(t) || u == TrackShown(t)
    || u == TrackError(t) || u == TrackCancel(t) || u == TrackEnd(t)
  }

  lemma TelemetryStep(s: State, e: Event)
    requires Enabled(s, e)
    ensures TracksOnce(s.telemetry, Next(s, e).telemetry)
  {
    hide HasVisible, Concat, TrackStarted, TrackCancel, TrackShown, TrackError, TrackEnd;
  }

  lemma InvariantAtStart(start: State)
    requires IsStart(start)
    ensures Invariant(start)
  {
    AppendNote([], DoneNote);
    assert [] + [DoneNote] == [DoneNote];
  }

  /** The invariant holds after every run. */
  lemma {:induction false} InvariantHolds(start: State, events: seq<Event>)
    requires IsStart(start) && Run(start, events).Reached?
    ensures Invariant(Run(start, events).state)
    ensures Run(start, events).state.sse == start.sse
  {
    hide Structured, Ordered, FewLate, Accounted, CompletedLast;
    if events == [] {
      InvariantAtStart(start);
    } else {
      var n := |events| - 1;
      InvariantHolds(start, events[..n]);
      var s := Run(start, events[..n]).state;
      StructuredStep(s, events[n]);
      OrderedStep(s, events[n]);
      FewLateStep(s, events[n]);
      AccountedStep(s, events[n]);
    }
  }

  // ----- what holds of every run

  /** The partial notifications show growing prefixes of what the response delivered. */
  lemma {:induction false} NotificationsAreAPrefixChain(start: State, events: seq<Event>)
    requires IsStart(start) && Run(start, events).Reached?
    ensures var s := Run(start, events).state;
      && (forall i, j :: 0 <= i <= j < |Raws(s.notes)| ==> Raws(s.notes)[i] <= Raws(s.notes)[j])
      && (forall raw :: raw in Raws(s.notes) ==> raw <= Delivered(events))
  {
    InvariantHolds(start, events);
    BufferIsDelivered(start, events);
  }

  lemma {:induction false} BufferIsDelivered(start: State, events: seq<Event>)
    requires IsStart(start) && Run(start, events).Reached?
    ensures Run(start, events).state.buffer == Delivered(events)
  {
    hide Next, Enabled, Carries;
    if events != [] {
      var n := |events| - 1;
      BufferIsDelivered(start, events[..n]);
      BufferStep(Run(start, events[..n]).state, events[n]);
    }
  }

  lemma BufferStep(s: State, e: Event)
    requires Enabled(s, e)
    ensures Next(s, e).buffer == s.buffer + Carries(e)
  {
    hide TrackStarted, TrackCancel, TrackShown, TrackError, TrackEnd, HasVisible, Concat;
    match e
    case Chunk(_, _) =>
    case Sse(_) =>
    case _ => assert s.buffer + "" == s.buffer;
  }

  /** In a clean run every requested notification is sent, waiting or in progress, and the newest of
      them carries the whole buffer unless a waiting one will. */
  ghost predicate CaughtUp(s: State, requested: nat) {
    var raws := Raws(s.notes);
    && !s.tokenCancelled
    && |raws| + s.queued + (if s.task.Processing? then 1 else 0) == requested
    && (requested == 0 ==> s.buffer == "")
    && (s.queued == 0 && requested > 0 ==>
          if s.task.Processing? then s.task.raw == s.buffer else raws[|raws| - 1] == s.buffer)
  }

  lemma CaughtUpStep(s: State, e: Event, requested: nat)
    requires Enabled(s, e) && Structured(s) && CaughtUp(s, requested) && Clean([e])
    ensures CaughtUp(Next(s, e), requested + Requests(e))
  {
    hide Structured, Raws, HasVisible, Concat, TrackStarted, TrackShown, TrackCancel, TrackError, TrackEnd;
    assert e in [e];
    match e
    case Chunk(text, _) => assert s.task == Idle && s.queued == 0 by { PlainStreamIdle(s); }
    case TaskProcessed => AppendNote(s.notes, Partial(s.task.raw, s.tokenCancelled));
    case QueueIdle => AppendNote(s.notes, DoneNote);
    case _ =>
  }

  lemma PlainStreamIdle(s: State)
    requires Structured(s) && !s.sse && s.phase == Reading
    ensures s.task == Idle && s.queued == 0
  {
  }

  lemma {:induction false} CleanRunIsCaughtUp(sse: bool, events: seq<Event>)
    requires Run(Initial(sse), events).Reached? && Clean(events)
    ensures CaughtUp(Run(Initial(sse), events).state, Requested(events))
  {
    hide CaughtUp, Structured;
    if events == [] {
      assert CaughtUp(Initial(sse), 0) by { NothingRequested(sse); }
    } else {
      var n := |events| - 1;
      CleanRunIsCaughtUp(sse, events[..n]);
      InvariantHolds(Initial(sse), events[..n]);
      assert events[n] in events;
      CaughtUpStep(Run(Initial(sse), events[..n]).state, events[n], Requested(events[..n]));
    }
  }

  lemma NothingRequested(sse: bool)
    ensures CaughtUp(Initial(sse), 0)
  {
  }

  /** A clean run that got as far as the final notification has sent one partial notification per
      request, the last of them with everything the response delivered. */
  lemma {:induction false} CleanRunDeliversEverything(sse: bool, events: seq<Event>)
    requires Run(Initial(sse), events).Reached? && Clean(events)
    requires Winding(Run(Initial(sse), events).state.phase)
    ensures var raws := Raws(Run(Initial(sse), events).state.notes);
      && |raws| == Requested(events)
      && (raws != [] ==> raws[|raws| - 1] == Delivered(events))
      && (raws == [] ==> Delivered(events) == "")
  {
    CleanRunIsCaughtUp(sse, events);
    InvariantHolds(Initial(sse), events);
    BufferIsDelivered(Initial(sse), events);
  }

  /** After a cancellation at most one partial notification is still sent. */
  lemma {:induction false} AtMostOneLateNotification(start: State, events: seq<Event>)
    requires IsStart(start) && Run(start, events).Reached?
    ensures LateCount(Run(start, events).state.notes) <= 1
  {
    InvariantHolds(start, events);
  }

  /** Once the stream winds down the last notification is `done`; each event that was not JSON has
      sent one more, earlier. So `done` is sent exactly once if and only if no event was malformed. */
  lemma {:induction false} FinalNotificationIsDone(start: State, events: seq<Event>)
    requires IsStart(start) && Run(start, events).Reached?
    requires Winding(Run(start, events).state.phase)
    ensures var notes := Run(start, events).state.notes;
      && notes != [] && notes[|notes| - 1] == DoneNote
      && DoneCount(notes) == 1 + MalformedEvents(events)
  {
    InvariantHolds(start, events);
    DoneNotesCounted(start, events);
  }

  lemma {:induction false} DoneNotesCounted(start: State, events: seq<Event>)
    requires IsStart(start) && Run(start, events).Reached?
    ensures var s := Run(start, events).state;
      DoneCount(s.notes) == MalformedEvents(events) + if Winding(s.phase) then 1 else 0
  {
    if events == [] {
      AppendNote([], DoneNote);
    } else {
      var n := |events| - 1;
      hide Next, Enabled, DoneCount;
      DoneNotesCounted(start, events[..n]);
      DoneNotesStep(Run(start, events[..n]).state, events[n]);
    }
  }

  lemma DoneNotesStep(s: State, e: Event)
    requires Enabled(s, e)
    ensures var t := Next(s, e);
      DoneCount(t.notes) + (if Winding(s.phase) then 1 else 0)
      == DoneCount(s.notes) + (if e == Sse(Malformed) then 1 else 0) + (if Winding(t.phase) then 1 else 0)
  {
    hide DoneCount, Raws, LateCount, TrackStarted, TrackCancel, TrackShown, TrackError, TrackEnd, HasVisible, Concat;
    AppendNote(s.notes, DoneNote);
    match e
    case TaskProcessed => AppendNote(s.notes, Partial(s.task.raw, s.tokenCancelled));
    case Chunk(_, _) =>
    case Sse(_) =>
    case TaskFails =>
    case CancelRequest =>
    case _ =>
  }

  /** The telemetry of every run. */
  lemma {:induction false} TelemetryIsConsistent(start: State, events: seq<Event>)
    requires IsStart(start) && Run(start, events).Reached?
    ensures var tracked := Run(start, events).state.telemetry.tracked;
      && Count(tracked, StreamStarted) <= 1 && Count(tracked, Shown) <= 1
      && Count(tracked, StreamCompleted) <= 1 && Count(tracked, NotProvided) <= 1
      && (Errored in tracked ==> StreamCompleted !in tracked)
      && (NotProvided in tracked ==> StreamCompleted in tracked && Shown !in tracked)
      && (Rejected in tracked ==> Shown in tracked)
  {
    InvariantHolds(start, events);
  }

  /** Without any `Sse(StreamEnd)` event only a shown suggestion counts as provided. */
  ghost predicate ProvidedExactly(t: Telemetry, events: seq<Event>) {
    && (t.provided <==> t.shown || Sse(StreamEnd) in events)
    && (NotProvided in t.tracked ==> !t.provided)
    && (StreamCompleted in t.tracked && !t.provided ==> NotProvided in t.tracked)
  }

  lemma NotProvidedNeedsCompletion(t: Telemetry)
    requires Accounted(t)
    ensures NotProvided in t.tracked ==> StreamCompleted in t.tracked && Shown !in t.tracked
    ensures t.shown <==> Shown in t.tracked
  {
  }

  lemma ProvidedTracks(t: Telemetry, events: seq<Event>, e: Event)
    requires ProvidedExactly(t, events)
    requires NotProvided in t.tracked ==> StreamCompleted in t.tracked
    ensures e != Sse(StreamEnd) ==>
      && ProvidedExactly(t, events + [e]) && ProvidedExactly(TrackStarted(t), events + [e])
      && ProvidedExactly(TrackError(t), events + [e]) && ProvidedExactly(TrackCancel(t), events + [e])
    ensures StreamCompleted !in t.tracked && e != Sse(StreamEnd) ==>
      ProvidedExactly(TrackShown(t), events + [e]) && ProvidedExactly(TrackEnd(t), events + [e])
    ensures StreamCompleted !in t.tracked && e == Sse(StreamEnd) ==>
      ProvidedExactly(t.(provided := true), events + [e])
  {
  }

  lemma ProvidedStep(s: State, e: Event, events: seq<Event>)
    requires Enabled(s, e) && CompletedLast(s) && Accounted(s.telemetry) && ProvidedExactly(s.telemetry, events)
    ensures ProvidedExactly(Next(s, e).telemetry, events + [e])
  {
    hide HasVisible, Concat, Accounted, ProvidedExactly, TrackStarted, TrackCancel, TrackShown, TrackError, TrackEnd;
    NotProvidedNeedsCompletion(s.telemetry);
    ProvidedTracks(s.telemetry, events, e);
    match e
    case Chunk(_, _) =>
    case Sse(_) =>
    case TaskFails =>
    case _ =>
  }

  lemma NothingProvided(start: State)
    requires IsStart(start)
    ensures ProvidedExactly(start.telemetry, [])
  {
  }

  lemma ProvidedMeans(t: Telemetry, events: seq<Event>)
    ensures ProvidedExactly(t, events) ==>
      && (NotProvided in t.tracked ==> !t.shown && Sse(StreamEnd) !in events)
      && (StreamCompleted in t.tracked && !t.shown && Sse(StreamEnd) !in events ==> NotProvided in t.tracked)
  {
  }

  /** `NotProvided` accompanies exactly those completions before which nothing was shown and no end
      event came. */
  lemma {:induction false} NotProvidedExactly(start: State, events: seq<Event>)
    requires IsStart(start) && Run(start, events).Reached?
    ensures ProvidedExactly(Run(start, events).state.telemetry, events)
    ensures var tracked := Run(start, events).state.telemetry.tracked;
      NotProvided in tracked <==> StreamCompleted in tracked && Shown !in tracked && Sse(StreamEnd) !in events
  {
    hide ProvidedExactly, Accounted, Structured, Ordered, FewLate, CompletedLast, Next, Enabled;
    InvariantHolds(start, events);
    NotProvidedNeedsCompletion(Run(start, events).state.telemetry);
    ProvidedMeans(Run(start, events).state.telemetry, events);
    if events == [] {
      assert ProvidedExactly(start.telemetry, []) by { NothingProvided(start); }
    } else {
      var n := |events| - 1;
      NotProvidedExactly(start, events[..n]);
      InvariantHolds(start, events[..n]);
      ProvidedStep(Run(start, events[..n]).state, events[n], events[..n]);
      assert events == events[..n] + [events[n]];
    }
  }

  /** A cancellation is a rejection exactly if the suggestion had been shown. */
  ghost predicate CancellationsMatch(tracked: seq<Track>) {
    forall j :: 0 <= j < |tracked| ==>
      && (tracked[j] == Cancelled ==> Shown !in tracked[..j])
      && (tracked[j] == Rejected ==> Shown in tracked[..j])
  }

  lemma MatchAppend(tracked: seq<Track>, other: Track)
    ensures CancellationsMatch(tracked + [other]) <==>
      CancellationsMatch(tracked)
      && (other == Cancelled ==> Shown !in tracked) && (other == Rejected ==> Shown in tracked)
  {
    var more := tracked + [other];
    assert forall j :: 0 <= j <= |tracked| ==> more[..j] == tracked[..j];
    assert tracked[..|tracked|] == tracked;
    assert forall j :: 0 <= j < |tracked| ==> more[j] == tracked[j];
    if CancellationsMatch(more) {
      assert more[|tracked|] == other;
    }
  }

  lemma MatchTracks(t: Telemetry)
    requires Accounted(t) && CancellationsMatch(t.tracked)
    ensures CancellationsMatch(TrackStarted(t).tracked) && CancellationsMatch(TrackError(t).tracked)
    ensures CancellationsMatch(TrackCancel(t).tracked) && CancellationsMatch(TrackShown(t).tracked)
    ensures CancellationsMatch(TrackEnd(t).tracked)
  {
    hide CancellationsMatch;
    forall other: Track {
      MatchAppend(t.tracked, other);
    }
    MatchAppend(t.tracked + [StreamCompleted], NotProvided);
    assert t.tracked + [StreamCompleted, NotProvided] == t.tracked + [StreamCompleted] + [NotProvided];
  }

  lemma MatchStep(s: State, e: Event)
    requires Enabled(s, e) && Accounted(s.telemetry) && CancellationsMatch(s.telemetry.tracked)
    ensures CancellationsMatch(Next(s, e).telemetry.tracked)
  {
    hide CancellationsMatch, Accounted, TrackStarted, TrackCancel, TrackShown, TrackError, TrackEnd;
    TelemetryStep(s, e);
    MatchTracks(s.telemetry);
  }

  /** Every cancellation of every run is tracked as a rejection exactly if the suggestion had been
      shown by then. */
  lemma {:induction false} CancellationsAreClassified(start: State, events: seq<Event>)
    requires IsStart(start) && Run(start, events).Reached?
    ensures CancellationsMatch(Run(start, events).state.telemetry.tracked)
  {
    hide CancellationsMatch, Accounted, Structured, Next, Enabled;
    if events == [] {
      assert CancellationsMatch([]) by { NoCancellations(); }
    } else {
      var n := |events| - 1;
      CancellationsAreClassified(start, events[..n]);
      InvariantHolds(start, events[..n]);
      MatchStep(Run(start, events[..n]).state, events[n]);
    }
  }

  lemma NoCancellations()
    ensures CancellationsMatch([])
  {
  }

  /** In a clean run the flags follow the text: a suggestion is shown as soon as some visible text
      has been handled. */
  ghost predicate CleanTelemetry(s: State, requested: nat) {
    && !s.telemetry.stopped
    && (s.telemetry.shown ==> HasVisible(s.buffer))
    && (HasVisible(s.buffer) && !s.telemetry.shown ==> s.phase == Notifying || s.phase == Notified)
    && (s.telemetry.started <==> requested > s.queued)
    && requested >= s.queued
    && (s.phase == Closing || s.phase == Closed ==> StreamCompleted in s.telemetry.tracked)
  }

  lemma VisibleGrows(s: string, more: string)
    ensures HasVisible(s) ==> HasVisible(s + more)
  {
    if i :| 0 <= i < |s| && !IsWhitespace(s[i]) {
      assert (s + more)[i] == s[i];
    }
  }

  lemma CleanTelemetryStep(s: State, e: Event, requested: nat)
    requires Enabled(s, e) && Clean([e]) && Structured(s) && !s.tokenCancelled
    requires CleanTelemetry(s, requested)
    ensures CleanTelemetry(Next(s, e), requested + Requests(e))
  {
    hide HasVisible, Structured;
    assert e in [e];
    VisibleGrows(s.buffer, Carries(e));
    match e
    case Chunk(_, _) => PlainStreamIdle(s);
    case Sse(_) =>
    case TaskFails =>
    case EndSent =>
    case _ =>
  }

  /** A clean run that is over has tracked its start if the response asked for any notification, the
      suggestion as shown if any visible text was delivered, and its completion. */
  lemma {:induction false} CleanRunTelemetry(sse: bool, events: seq<Event>)
    requires Run(Initial(sse), events).Reached? && Clean(events)
    requires Run(Initial(sse), events).state.phase == Closing || Run(Initial(sse), events).state.phase == Closed
    ensures var tracked := Run(Initial(sse), events).state.telemetry.tracked;
      && (StreamStarted in tracked <==> Requested(events) > 0)
      && (Shown in tracked <==> HasVisible(Delivered(events)))
      && StreamCompleted in tracked
  {
    CleanTelemetryHolds(sse, events);
    InvariantHolds(Initial(sse), events);
    BufferIsDelivered(Initial(sse), events);
  }

  lemma {:induction false} CleanTelemetryHolds(sse: bool, events: seq<Event>)
    requires Run(Initial(sse), events).Reached? && Clean(events)
    ensures CleanTelemetry(Run(Initial(sse), events).state, Requested(events))
  {
    hide CleanTelemetry, CaughtUp, Structured, Next, Enabled;
    if events == [] {
      assert CleanTelemetry(Initial(sse), 0) by { CleanAtStart(sse); }
    } else {
      var n := |events| - 1;
      assert forall e :: e in events[..n] ==> e in events;
      CleanTelemetryHolds(sse, events[..n]);
      CleanRunIsCaughtUp(sse, events[..n]);
      InvariantHolds(Initial(sse), events[..n]);
      NotCancelledYet(Run(Initial(sse), events[..n]).state, Requested(events[..n]));
      assert events[n] in events;
      CleanTelemetryStep(Run(Initial(sse), events[..n]).state, events[n], Requested(events[..n]));
    }
  }

  lemma CleanAtStart(sse: bool)
    ensures CleanTelemetry(Initial(sse), 0)
  {
  }

  lemma NotCancelledYet(s: State, requested: nat)
    requires CaughtUp(s, requested)
    ensures !s.tokenCancelled
  {
  }

  // ----- SHOWN after the stream was stopped

  /** `Shown` is never tracked once the stream was cancelled or failed. */
  ghost predicate StoppedQuietly(tracked: seq<Track>) {
    forall i, j :: 0 <= i < j < |tracked| && (tracked[i] == Cancelled || tracked[i] == Errored) ==>
      tracked[j] != Shown
  }

  /** The step on which the parser's stale copy of the flag matters. */
  predicate StaleFlagMatters(s: State, e: Event) {
    && s.telemetry.stopped && !s.telemetry.shown
    && e.Sse? && e.event.Content? && HasVisible(s.buffer + Concat(e.event.pieces))
  }

  lemma QuietAppend(tracked: seq<Track>, other: Track)
    ensures StoppedQuietly(tracked + [other]) <==>
      StoppedQuietly(tracked) && (other == Shown ==> Cancelled !in tracked && Errored !in tracked)
  {
    var more := tracked + [other];
    if StoppedQuietly(more) {
      forall i | 0 <= i < |tracked| && other == Shown ensures tracked[i] != Cancelled && tracked[i] != Errored {
        assert more[i] == tracked[i] && more[|tracked|] == other;
      }
      forall i, j | 0 <= i < j < |tracked| && (tracked[i] == Cancelled || tracked[i] == Errored)
        ensures tracked[j] != Shown
      {
        assert more[i] == tracked[i] && more[j] == tracked[j];
      }
    }
  }

  lemma QuietTracks(t: Telemetry)
    requires Accounted(t)
    ensures StoppedQuietly(TrackStarted(t).tracked) <==> StoppedQuietly(t.tracked)
    ensures StoppedQuietly(TrackError(t).tracked) <==> StoppedQuietly(t.tracked)
    ensures StoppedQuietly(TrackCancel(t).tracked) <==> StoppedQuietly(t.tracked)
    ensures StoppedQuietly(TrackEnd(t).tracked) <==> StoppedQuietly(t.tracked)
    ensures StoppedQuietly(TrackShown(t).tracked) <==> StoppedQuietly(t.tracked) && (t.stopped ==> t.shown)
  {
    hide StoppedQuietly;
    forall other: Track {
      QuietAppend(t.tracked, other);
    }
    QuietAppend(t.tracked + [StreamCompleted], NotProvided);
    assert t.tracked + [StreamCompleted, NotProvided] == t.tracked + [StreamCompleted] + [NotProvided];
  }

  lemma QuietStep(s: State, e: Event)
    requires Enabled(s, e) && Accounted(s.telemetry)
    ensures StoppedQuietly(Next(s, e).telemetry.tracked) <==>
      StoppedQuietly(s.telemetry.tracked) && !StaleFlagMatters(s, e)
  {
    hide StoppedQuietly, Accounted, TrackStarted, TrackCancel, TrackShown, TrackError, TrackEnd;
    QuietTracks(s.telemetry);
    match e
    case Chunk(_, _) =>
    case Sse(_) =>
    case TaskFails =>
    case CancelRequest =>
    case EndSent =>
    case _ =>
  }

  predicate Stops(e: Event) {
    e == CancelRequest || e == Sse(Malformed)
  }

  predicate HasStop(events: seq<Event>) {
    exists j :: 0 <= j < |events| && Stops(events[j])
  }

  /** The delivered text becomes visible with event `i`. */
  predicate FirstVisibleAt(events: seq<Event>, i: nat)
    requires i < |events|
  {
    HasVisible(Delivered(events[..i + 1])) && !HasVisible(Delivered(events[..i]))
  }

  /** The first visible text arrives after a cancellation request or an event that is not JSON. */
  predicate VisibleTooLate(events: seq<Event>) {
    exists i :: 0 <= i < |events| && FirstVisibleAt(events, i) && HasStop(events[..i])
  }

  lemma HasStopAppend(events: seq<Event>, e: Event)
    ensures HasStop(events + [e]) <==> HasStop(events) || Stops(e)
  {
    var more := events + [e];
    assert forall j :: 0 <= j < |events| ==> more[j] == events[j];
    assert more[|events|] == e;
  }

  lemma VisibleTooLateAppend(events: seq<Event>, e: Event)
    ensures VisibleTooLate(events + [e]) <==>
      VisibleTooLate(events)
      || (HasVisible(Delivered(events) + Carries(e)) && !HasVisible(Delivered(events)) && HasStop(events))
  {
    hide HasStop, HasVisible, Carries;
    var more, n := events + [e], |events|;
    assert forall i :: 0 <= i <= n ==> more[..i] == events[..i];
    assert more[..n] == events && more[..n + 1] == more;
    assert forall i :: 0 <= i < n ==> FirstVisibleAt(more, i) == FirstVisibleAt(events, i);
    assert FirstVisibleAt(more, n) <==> HasVisible(Delivered(events) + Carries(e)) && !HasVisible(Delivered(events));
  }

  /** On an event stream the flags follow the events: the suggestion is shown as soon as the text is
      visible, and during the response only those events stop the stream. */
  ghost predicate EventStreamFlags(s: State, stop: bool) {
    s.sse ==>
      && (s.telemetry.shown <==> HasVisible(s.buffer))
      && (s.phase == Reading ==> (s.telemetry.stopped <==> stop))
  }

  lemma EventStreamStep(s: State, e: Event, stop: bool)
    requires Enabled(s, e) && Structured(s) && EventStreamFlags(s, stop)
    ensures EventStreamFlags(Next(s, e), stop || Stops(e))
  {
    hide HasVisible;
    VisibleGrows(s.buffer, Carries(e));
    match e
    case Sse(_) =>
    case TaskFails =>
    case _ =>
  }

  lemma EventStreamStart(start: State)
    requires IsStart(start)
    ensures EventStreamFlags(start, HasStop([]))
  {
  }

  lemma {:induction false} EventStreamFlagsHold(start: State, events: seq<Event>)
    requires IsStart(start) && Run(start, events).Reached?
    ensures EventStreamFlags(Run(start, events).state, HasStop(events))
  {
    hide EventStreamFlags, HasStop, Stops, Structured, Next, Enabled;
    if events == [] {
      EventStreamStart(start);
    } else {
      var n := |events| - 1;
      EventStreamFlagsHold(start, events[..n]);
      InvariantHolds(start, events[..n]);
      EventStreamStep(Run(start, events[..n]).state, events[n], HasStop(events[..n]));
      HasStopAppend(events[..n], events[n]);
      assert events == events[..n] + [events[n]];
    }
  }

  lemma StaleFlagIsLate(s: State, e: Event, stop: bool)
    requires Enabled(s, e) && EventStreamFlags(s, stop)
    ensures StaleFlagMatters(s, e) <==>
      s.sse && HasVisible(s.buffer + Carries(e)) && !HasVisible(s.buffer) && stop
  {
    hide HasVisible;
    assert s.buffer + "" == s.buffer;
    match e
    case Chunk(_, _) =>
    case Sse(_) =>
    case _ =>
  }

  /** A run keeps silent after a stop exactly unless it is an event stream whose first visible text
      arrives after a cancellation request or after an event that is not JSON. */
  lemma {:induction false} StoppedQuietlyExactly(start: State, events: seq<Event>)
    requires IsStart(start) && Run(start, events).Reached?
    ensures StoppedQuietly(Run(start, events).state.telemetry.tracked) <==> !(start.sse && VisibleTooLate(events))
  {
    hide StoppedQuietly, StaleFlagMatters, VisibleTooLate, EventStreamFlags, HasStop, Accounted, Structured, Next,
      Enabled;
    if events == [] {
      assert StoppedQuietly([]) && !VisibleTooLate([]) by { NothingTracked(); }
    } else {
      var n := |events| - 1;
      var before := events[..n];
      var s := Run(start, before).state;
      StoppedQuietlyExactly(start, before);
      InvariantHolds(start, before);
      BufferIsDelivered(start, before);
      QuietStep(s, events[n]);
      EventStreamFlagsHold(start, before);
      StaleFlagIsLate(s, events[n], HasStop(before));
      VisibleTooLateAppend(before, events[n]);
      assert events == before + [events[n]];
    }
  }

  lemma NothingTracked()
    ensures StoppedQuietly([]) && !VisibleTooLate([])
  {
  }

  /** On a plain-text stream that is every run. */
  lemma PlainStreamsStopQuietly(start: State, events: seq<Event>)
    requires IsStart(start) && !start.sse && Run(start, events).Reached?
    ensures StoppedQuietly(Run(start, events).state.telemetry.tracked)
  {
    StoppedQuietlyExactly(start, events);
  }

  lemma RunAppend(start: State, events: seq<Event>, e: Event)
    requires Run(start, events).Reached? && Enabled(Run(start, events).state, e)
    ensures Run(start, events + [e]) == Reached(Next(Run(start, events).state, e))
  {
    assert (events + [e])[..|events|] == events;
  }

  /** On an event stream a cancelled suggestion can still be tracked as shown. */
  lemma ShownAfterCancellation()
    ensures var s := Run(Initial(true), [CancelRequest, Sse(Content(["x"]))]);
      s.Reached? && s.state.telemetry.tracked == [Cancelled, Shown]
  {
    hide HasVisible, Concat;
    var content := Sse(Content(["x"]));
    RunAppend(Initial(true), [], CancelRequest);
    RunAppend(Initial(true), [] + [CancelRequest], content);
    assert [] + [CancelRequest] + [content] == [CancelRequest, content];
    VisiblePiece();
  }

  lemma VisiblePiece()
    ensures HasVisible("" + Concat(["x"]))
  {
    assert ["x"][..0] == [];
    assert Concat(["x"]) == "x" && !IsWhitespace("x"[0]);
  }

  /** An event that is not JSON makes the stream report its end twice. */
  lemma DoneTwice()
    ensures var s := Run(Initial(true), [Sse(Malformed), ResponseEnds, QueueIdle]);
      s.Reached? && s.state.notes == [DoneNote, DoneNote]
  {
    RunAppend(Initial(true), [], Sse(Malformed));
    RunAppend(Initial(true), [] + [Sse(Malformed)], ResponseEnds);
    RunAppend(Initial(true), [] + [Sse(Malformed)] + [ResponseEnds], QueueIdle);
    assert [] + [Sse(Malformed)] + [ResponseEnds] + [QueueIdle] == [Sse(Malformed), ResponseEnds, QueueIdle];
  }

  // ----- STREAM_STARTED and SHOWN

  /** A notification gets past the checks at its start. */
  predicate StartsNow(events: seq<Event>, e: Event) {
    && (e == TaskStart(false) || (e.Chunk? && !e.breakerOpen))
    && CancelRequest !in events
  }

  /** The response makes visible text available to the user with event `e`. */
  predicate ShowsNow(sse: bool, events: seq<Event>, e: Event) {
    if sse then e.Sse? && e.event.Content? && HasVisible(Delivered(events + [e]))
    else e == Resume && HasVisible(Delivered(events)) && CancelRequest !in events
  }

  predicate HasStart(events: seq<Event>) {
    exists i :: 0 <= i < |events| && StartsNow(events[..i], events[i])
  }

  predicate HasShow(sse: bool, events: seq<Event>) {
    exists i :: 0 <= i < |events| && ShowsNow(sse, events[..i], events[i])
  }

  /** Whenever visible text becomes available, a notification has started before. */
  predicate StartsBeforeShows(sse: bool, events: seq<Event>) {
    forall i :: 0 <= i < |events| && ShowsNow(sse, events[..i], events[i]) ==> HasStart(events[..i])
  }

  /** `Shown` is tracked only after `StreamStarted`. */
  ghost predicate StartedFirst(tracked: seq<Track>) {
    forall j :: 0 <= j < |tracked| && tracked[j] == Shown ==> StreamStarted in tracked[..j]
  }

  lemma StartsAndShowsAppend(sse: bool, events: seq<Event>, e: Event)
    ensures HasStart(events + [e]) <==> HasStart(events) || StartsNow(events, e)
    ensures HasShow(sse, events + [e]) <==> HasShow(sse, events) || ShowsNow(sse, events, e)
    ensures StartsBeforeShows(sse, events + [e]) <==>
      StartsBeforeShows(sse, events) && (ShowsNow(sse, events, e) ==> HasStart(events))
  {
    hide StartsNow, ShowsNow;
    var more, n := events + [e], |events|;
    assert forall i :: 0 <= i < n ==> more[..i] == events[..i] && more[i] == events[i];
    assert more[..n] == events && more[n] == e;
    StartsBeforeShowsAppend(sse, events, e);
  }

  lemma StartsBeforeShowsAppend(sse: bool, events: seq<Event>, e: Event)
    ensures StartsBeforeShows(sse, events + [e]) <==>
      StartsBeforeShows(sse, events) && (ShowsNow(sse, events, e) ==> HasStart(events))
  {
    hide StartsNow, ShowsNow, HasStart;
    var more, n := events + [e], |events|;
    assert forall i :: 0 <= i < n ==> more[..i] == events[..i] && more[i] == events[i];
    assert more[..n] == events && more[n] == e;
  }

  /** Which flags tell whether a cancellation was requested. */
  ghost predicate CancelFollows(s: State, cancelled: bool) {
    && (s.registered ==> (s.tokenCancelled <==> cancelled))
    && (!s.sse && (s.phase == Reading || s.phase == Notifying || s.phase == Notified) ==>
          (s.telemetry.stopped <==> cancelled))
  }

  /** What the events say about the flags. */
  ghost predicate FlagsFollow(s: State, cancelled: bool, start: bool, show: bool) {
    && (s.telemetry.started <==> start)
    && (s.telemetry.shown <==> show)
    && CancelFollows(s, cancelled)
  }

  lemma CancelFollowsStep(s: State, e: Event, cancelled: bool)
    requires Enabled(s, e) && Structured(s) && CancelFollows(s, cancelled)
    ensures CancelFollows(Next(s, e), cancelled || e == CancelRequest)
  {
    hide HasVisible, Concat;
    match e
    case Chunk(_, _) =>
    case Sse(_) =>
    case TaskFails =>
    case TaskStart(_) =>
    case Resume =>
    case _ =>
  }

  lemma StartedStep(s: State, e: Event)
    requires Enabled(s, e) && Structured(s)
    ensures Next(s, e).telemetry.started <==>
      s.telemetry.started || ((e == TaskStart(false) || (e.Chunk? && !e.breakerOpen)) && !s.tokenCancelled)
    ensures e.Chunk? || e.TaskStart? ==> s.registered
  {
    hide HasVisible, Concat;
    match e
    case Chunk(_, _) =>
    case Sse(_) =>
    case TaskFails =>
    case TaskStart(_) =>
    case _ =>
  }

  lemma ShownStep(s: State, e: Event)
    requires Enabled(s, e) && Structured(s)
    ensures Next(s, e).telemetry.shown <==>
      || s.telemetry.shown
      || if s.sse then e.Sse? && e.event.Content? && HasVisible(s.buffer + Carries(e))
         else e == Resume && HasVisible(s.buffer) && !s.telemetry.stopped
  {
    hide HasVisible, Concat;
    match e
    case Chunk(_, _) =>
    case Sse(_) =>
    case TaskFails =>
    case TaskStart(_) =>
    case Resume =>
    case _ =>
  }

  lemma DeliveredAppend(events: seq<Event>, e: Event)
    ensures Delivered(events + [e]) == Delivered(events) + Carries(e)
  {
    assert (events + [e])[..|events|] == events;
  }

  lemma FlagsFollowStep(s: State, e: Event, events: seq<Event>, start: bool, show: bool)
    requires Enabled(s, e) && Structured(s) && s.buffer == Delivered(events)
    requires FlagsFollow(s, CancelRequest in events, start, show)
    ensures FlagsFollow(Next(s, e), CancelRequest in events + [e], start || StartsNow(events, e),
                        show || ShowsNow(s.sse, events, e))
  {
    CancelFollowsStep(s, e, CancelRequest in events);
    StartedStep(s, e);
    ShownStep(s, e);
    if e == Resume {
      ResumeIsPlain(s);
    }
    hide Next, HasVisible, Structured, Delivered, Carries;
    DeliveredAppend(events, e);
    assert CancelRequest in events + [e] <==> CancelRequest in events || e == CancelRequest;
  }

  lemma ResumeIsPlain(s: State)
    requires Enabled(s, Resume) && Structured(s)
    ensures !s.sse && s.phase == Notified
  {
  }

  lemma StartedFirstAppend(tracked: seq<Track>, other: Track)
    ensures StartedFirst(tracked + [other]) <==>
      StartedFirst(tracked) && (other == Shown ==> StreamStarted in tracked)
  {
    var more, n := tracked + [other], |tracked|;
    assert forall j :: 0 <= j < n ==> more[..j] == tracked[..j] && more[j] == tracked[j];
    assert more[..n] == tracked && more[n] == other;
  }

  lemma StartedFirstTracks(t: Telemetry)
    requires Accounted(t)
    ensures StartedFirst(TrackStarted(t).tracked) <==> StartedFirst(t.tracked)
    ensures StartedFirst(TrackError(t).tracked) <==> StartedFirst(t.tracked)
    ensures StartedFirst(TrackCancel(t).tracked) <==> StartedFirst(t.tracked)
    ensures StartedFirst(TrackEnd(t).tracked) <==> StartedFirst(t.tracked)
    ensures StartedFirst(TrackShown(t).tracked) <==> StartedFirst(t.tracked) && (!t.shown ==> t.started)
    ensures StartedFirst(t.tracked) && t.shown ==> t.started
  {
    ShownWasStarted(t);
    hide StartedFirst;
    forall other: Track {
      StartedFirstAppend(t.tracked, other);
    }
    StartedFirstAppend(t.tracked + [StreamCompleted], NotProvided);
    assert t.tracked + [StreamCompleted, NotProvided] == t.tracked + [StreamCompleted] + [NotProvided];
  }

  lemma ShownWasStarted(t: Telemetry)
    requires Accounted(t)
    ensures StartedFirst(t.tracked) && t.shown ==> t.started
  {
    if t.shown && StartedFirst(t.tracked) {
      var j :| 0 <= j < |t.tracked| && t.tracked[j] == Shown;
      assert StreamStarted in t.tracked;
    }
  }

  lemma StartedFirstChanges(t: Telemetry, u: Telemetry)
    requires Accounted(t) && TracksOnce(t, u)
    ensures StartedFirst(u.tracked) <==> StartedFirst(t.tracked) && (u.shown && !t.shown ==> t.started)
  {
    hide StartedFirst, Accounted, TrackStarted, TrackCancel, TrackShown, TrackError, TrackEnd;
    StartedFirstTracks(t);
    TracksKeepShown(t);
  }

  lemma TracksKeepShown(t: Telemetry)
    ensures TrackStarted(t).shown == TrackError(t).shown == TrackCancel(t).shown == TrackEnd(t).shown == t.shown
    ensures TrackShown(t).shown
  {
  }

  lemma StartedFirstStep(s: State, e: Event, events: seq<Event>, start: bool, show: bool)
    requires Enabled(s, e) && Structured(s) && Accounted(s.telemetry) && s.buffer == Delivered(events)
    requires FlagsFollow(s, CancelRequest in events, start, show)
    ensures StartedFirst(Next(s, e).telemetry.tracked) <==>
      StartedFirst(s.telemetry.tracked) && (ShowsNow(s.sse, events, e) ==> start)
  {
    TelemetryStep(s, e);
    StartedFirstChanges(s.telemetry, Next(s, e).telemetry);
    ShownWasStarted(s.telemetry);
    ShownStep(s, e);
    if e == Resume {
      ResumeIsPlain(s);
    }
    hide Next, HasVisible, Structured, Accounted, StartedFirst, TracksOnce, Delivered, Carries;
    DeliveredAppend(events, e);
  }

  lemma NothingStarted(start: State)
    requires IsStart(start)
    ensures FlagsFollow(start, CancelRequest in [], HasStart([]), HasShow(start.sse, []))
    ensures StartedFirst(start.telemetry.tracked) && StartsBeforeShows(start.sse, [])
  {
  }

  /** On every run `StreamStarted` is tracked exactly if some notification got past the circuit breaker
      before any cancellation, and `Shown` exactly if visible text became available: with a content
      event, or after the notification of a plain chunk unless cancelled. The documented order of the
      two holds exactly if a notification started before any visible text was available. */
  lemma {:induction false} ShownAfterStartedExactly(start: State, events: seq<Event>)
    requires IsStart(start) && Run(start, events).Reached?
    ensures var tracked := Run(start, events).state.telemetry.tracked;
      && (StreamStarted in tracked <==> HasStart(events))
      && (Shown in tracked <==> HasShow(start.sse, events))
      && (StartedFirst(tracked) <==> StartsBeforeShows(start.sse, events))
  {
    FlagsFollowRun(start, events);
    InvariantHolds(start, events);
  }

  lemma {:induction false} FlagsFollowRun(start: State, events: seq<Event>)
    requires IsStart(start) && Run(start, events).Reached?
    ensures var s := Run(start, events).state;
      && FlagsFollow(s, CancelRequest in events, HasStart(events), HasShow(start.sse, events))
      && (StartedFirst(s.telemetry.tracked) <==> StartsBeforeShows(start.sse, events))
  {
    hide FlagsFollow, StartedFirst, HasStart, HasShow, StartsBeforeShows, StartsNow, ShowsNow, Structured, Accounted,
      Next, Enabled;
    if events == [] {
      NothingStarted(start);
    } else {
      var n := |events| - 1;
      var before, e := events[..n], events[n];
      var s := Run(start, before).state;
      assert events == before + [e];
      FlagsFollowRun(start, before);
      InvariantHolds(start, before);
      BufferIsDelivered(start, before);
      FlagsFollowStep(s, e, before, HasStart(before), HasShow(start.sse, before));
      StartedFirstStep(s, e, before, HasStart(before), HasShow(start.sse, before));
      StartsAndShowsAppend(start.sse, before, e);
    }
  }

  /** With an open circuit breaker a plain stream is tracked as shown and completed although it never
      started and nothing but its end was sent. */
  lemma ShownWithoutStart()
    ensures var s := Run(Initial(false), [Chunk("x", true), Resume, ResponseEnds, QueueIdle, EndSent]);
      && s.Reached? && s.state.telemetry.tracked == [Shown, StreamCompleted]
      && s.state.notes == [DoneNote]
  {
    var start := Initial(false);
    VisibleText();
    hide HasVisible, Run;
    var handled := start.(buffer := "" + "x", phase := Notified);
    assert Run(start, []) == Reached(start) by { EmptyRun(start); }
    RunAppend(start, [], Chunk("x", true));
    assert Next(start, Chunk("x", true)) == handled;
    RunAppend(start, [] + [Chunk("x", true)], Resume);
    var shown := [] + [Chunk("x", true)] + [Resume];
    var s := handled.(phase := Reading, telemetry := Telemetry(false, true, true, false, [] + [Shown]));
    assert Next(handled, Resume) == s;
    ShownThenEnds(start, shown, s);
    assert shown + [ResponseEnds] + [QueueIdle] + [EndSent]
           == [Chunk("x", true), Resume, ResponseEnds, QueueIdle, EndSent];
  }

  lemma EmptyRun(start: State)
    ensures Run(start, []) == Reached(start)
  {
  }

  lemma ShownThenEnds(start: State, events: seq<Event>, s: State)
    requires Run(start, events) == Reached(s) && s.phase == Reading && s.queued == 0 && s.task == Idle
    ensures var t := Run(start, events + [ResponseEnds] + [QueueIdle] + [EndSent]);
      && t.Reached? && t.state.notes == s.notes + [DoneNote]
      && t.state.telemetry == TrackEnd(s.telemetry)
  {
    hide Run, TrackEnd;
    RunAppend(start, events, ResponseEnds);
    RunAppend(start, events + [ResponseEnds], QueueIdle);
    RunAppend(start, events + [ResponseEnds] + [QueueIdle], EndSent);
  }

  lemma VisibleText()
    ensures HasVisible("" + "x")
  {
    var s := "" + "x";
    assert s == "x" && !IsWhitespace(s[0]);
  }

  /** On an event stream the parser tracks the first text before its notification starts. */
  lemma ShownBeforeStart()
    ensures var s := Run(Initial(true), [Sse(Content(["x"])), TaskStart(false)]);
      s.Reached? && s.state.telemetry.tracked == [Shown, StreamStarted]
  {
    hide HasVisible, Concat;
    VisiblePiece();
    RunAppend(Initial(true), [], Sse(Content(["x"])));
    RunAppend(Initial(true), [] + [Sse(Content(["x"]))], TaskStart(false));
    assert [] + [Sse(Content(["x"]))] + [TaskStart(false)] == [Sse(Content(["x"])), TaskStart(false)];
  }

  /** How many notifications were sent after a cancellation request. */
  function SentLate(events: seq<Event>): nat {
    if events == [] then 0 else
    var n := |events| - 1;
    SentLate(events[..n]) + if events[n] == TaskProcessed && CancelRequest in events[..n] then 1 else 0
  }

  lemma LateStep(s: State, e: Event, cancelled: bool)
    requires Enabled(s, e) && Structured(s) && CancelFollows(s, cancelled)
    ensures LateCount(Next(s, e).notes) == LateCount(s.notes) + if e == TaskProcessed && cancelled then 1 else 0
  {
    hide HasVisible, Concat, LateCount, TrackStarted, TrackCancel, TrackShown, TrackError, TrackEnd;
    LateAppend(s.notes);
  }

  lemma LateAppend(notes: seq<Note>)
    ensures forall note :: LateCount(notes + [note]) == LateCount(notes) + if note.Partial? && note.late then 1 else 0
  {
    forall note ensures LateCount(notes + [note])
                        == LateCount(notes) + if note.Partial? && note.late then 1 else 0 {
      AppendNote(notes, note);
    }
  }

  /** On no run is more than one notification sent after a cancellation request. */
  lemma {:induction false} SentLateAtMostOnce(start: State, events: seq<Event>)
    requires IsStart(start) && Run(start, events).Reached?
    ensures LateCount(Run(start, events).state.notes) == SentLate(events) <= 1
  {
    hide Structured, Next, Enabled, LateCount, FewLate, CancelFollows;
    AtMostOneLateNotification(start, events);
    if events == [] {
      NothingLate(start);
    } else {
      var n := |events| - 1;
      SentLateAtMostOnce(start, events[..n]);
      InvariantHolds(start, events[..n]);
      FlagsFollowRun(start, events[..n]);
      LateStep(Run(start, events[..n]).state, events[n], CancelRequest in events[..n]);
    }
  }

  lemma NothingLate(start: State)
    requires IsStart(start)
    ensures LateCount(start.notes) == 0
  {
    AppendNote([], DoneNote);
    assert [] + [DoneNote] == [DoneNote];
  }

  // ----- errors, cancellations and completion

  predicate Fails(sse: bool, e: Event) {
    e == Sse(Malformed) || e == ResponseFails || (e == TaskFails && !sse)
  }

  /** How often the run failed: by events that are not JSON, by the response, and on plain streams by a
      notification. */
  function Failures(sse: bool, events: seq<Event>): nat {
    if events == [] then 0 else
    var n := |events| - 1;
    Failures(sse, events[..n]) + if Fails(sse, events[n]) then 1 else 0
  }

  /** How many cancellation requests arrived before the handlers were disposed. */
  function Cancellations(events: seq<Event>): nat {
    if events == [] then 0 else
    var n := |events| - 1;
    Cancellations(events[..n]) + if events[n] == CancelRequest && Dispose !in events[..n] then 1 else 0
  }

  /** The final notification is sent by `e` and nothing failed or was cancelled before. */
  predicate CompletesNow(sse: bool, events: seq<Event>, e: Event) {
    e == EndSent && Failures(sse, events) == 0 && CancelRequest !in events
  }

  predicate Completes(sse: bool, events: seq<Event>) {
    exists i :: 0 <= i < |events| && CompletesNow(sse, events[..i], events[i])
  }

  function CancelCount(t: Telemetry): nat {
    Count(t.tracked, Cancelled) + Count(t.tracked, Rejected)
  }

  ghost predicate Totals(s: State, failures: nat, cancellations: nat, completed: bool, disposed: bool) {
    Counts(s.telemetry, failures, cancellations, completed) && (s.registered <==> !disposed)
  }

  lemma CompletesAppend(sse: bool, events: seq<Event>, e: Event)
    ensures Completes(sse, events + [e]) <==> Completes(sse, events) || CompletesNow(sse, events, e)
    ensures Failures(sse, events + [e]) == Failures(sse, events) + if Fails(sse, e) then 1 else 0
    ensures Cancellations(events + [e])
            == Cancellations(events) + if e == CancelRequest && Dispose !in events then 1 else 0
    ensures Dispose in events + [e] <==> Dispose in events || e == Dispose
  {
    hide CompletesNow, Fails;
    var more, n := events + [e], |events|;
    assert forall i :: 0 <= i < n ==> more[..i] == events[..i] && more[i] == events[i];
    assert more[..n] == events && more[n] == e;
  }

  lemma {:induction false} CancelledWhileRegistered(events: seq<Event>)
    requires Dispose !in events
    ensures Cancellations(events) > 0 <==> CancelRequest in events
  {
    if events != [] {
      var n := |events| - 1;
      CancelledWhileRegistered(events[..n]);
      assert events == events[..n] + [events[n]];
    }
  }

  lemma CountAppend(tracked: seq<Track>, other: Track, t: Track)
    ensures Count(tracked + [other], t) == Count(tracked, t) + if other == t then 1 else 0
  {
  }

  /** The counts that errors, cancellations and completions go by. */
  ghost predicate Counts(t: Telemetry, errors: nat, cancellations: nat, completed: bool) {
    && Count(t.tracked, Errored) == errors
    && CancelCount(t) == cancellations
    && (StreamCompleted in t.tracked <==> completed)
  }

  lemma CountTracks(t: Telemetry, errors: nat, cancellations: nat, completed: bool)
    requires Counts(t, errors, cancellations, completed)
    ensures Counts(TrackError(t), errors + 1, cancellations, completed)
    ensures Counts(TrackCancel(t), errors, cancellations + 1, completed)
    ensures Counts(TrackStarted(t), errors, cancellations, completed)
    ensures Counts(TrackShown(t), errors, cancellations, completed)
    ensures Counts(t.(provided := true), errors, cancellations, completed)
  {
    CountAppend(t.tracked, Errored, Errored);
    CountAppend(t.tracked, Errored, Cancelled);
    CountAppend(t.tracked, Errored, Rejected);
    hide Count;
    CountOthers(t);
  }

  lemma CountOthers(t: Telemetry)
    ensures forall other :: other != Errored ==> Count(t.tracked + [other], Errored) == Count(t.tracked, Errored)
    ensures forall other :: other == Cancelled || other == Rejected ==>
      Count(t.tracked + [other], Cancelled) + Count(t.tracked + [other], Rejected) == CancelCount(t) + 1
    ensures forall other :: other != Cancelled && other != Rejected ==>
      Count(t.tracked + [other], Cancelled) + Count(t.tracked + [other], Rejected) == CancelCount(t)
  {
  }

  lemma CountEnd(t: Telemetry, errors: nat, cancellations: nat, completed: bool)
    requires Counts(t, errors, cancellations, completed)
    ensures Counts(TrackEnd(t), errors, cancellations, completed || !t.stopped)
  {
    hide Count;
    CountOthers(t);
    CountOthers(t.(tracked := t.tracked + [StreamCompleted]));
    assert t.tracked + [StreamCompleted, NotProvided] == t.tracked + [StreamCompleted] + [NotProvided];
  }

  lemma StoppedMeans(t: Telemetry, errors: nat, cancellations: nat, completed: bool)
    requires Accounted(t) && Counts(t, errors, cancellations, completed)
    ensures t.stopped <==> errors > 0 || cancellations > 0
  {
  }

  lemma TotalsStep(s: State, e: Event, failures: nat, cancellations: nat, completed: bool, disposed: bool)
    requires Enabled(s, e) && Structured(s) && Accounted(s.telemetry)
    requires Totals(s, failures, cancellations, completed, disposed)
    ensures Totals(Next(s, e), failures + if Fails(s.sse, e) then 1 else 0,
                   cancellations + if e == CancelRequest && !disposed then 1 else 0,
                   completed || (e == EndSent && failures == 0 && cancellations == 0), disposed || e == Dispose)
  {
    hide Next, Structured, Accounted, Counts, Count, CancelCount, TrackStarted, TrackCancel, TrackShown,
      TrackError, TrackEnd;
    StoppedMeans(s.telemetry, failures, cancellations, completed);
    TelemetryOf(s, e);
    CountTracks(s.telemetry, failures, cancellations, completed);
    CountEnd(s.telemetry, failures, cancellations, completed);
  }

  /** Which step tracks what. */
  lemma TelemetryOf(s: State, e: Event)
    requires Enabled(s, e) && Structured(s)
    ensures var t, u := s.telemetry, Next(s, e).telemetry;
      if Fails(s.sse, e) then u == TrackError(t)
      else if e == CancelRequest && s.registered then u == TrackCancel(t)
      else if e == EndSent then u == TrackEnd(t)
      else u == t || u == t.(provided := true) || u == TrackStarted(t) || u == TrackShown(t)
    ensures e == EndSent ==> s.registered
    ensures Next(s, e).registered <==> s.registered && e != Dispose
  {
    hide HasVisible, Concat, TrackStarted, TrackCancel, TrackShown, TrackError, TrackEnd;
  }

  lemma NoTotals(start: State)
    requires IsStart(start)
    ensures Totals(start, Failures(start.sse, []), Cancellations([]), Completes(start.sse, []), Dispose in [])
  {
  }

  lemma {:induction false} TotalsHold(start: State, events: seq<Event>)
    requires IsStart(start) && Run(start, events).Reached?
    ensures Totals(Run(start, events).state, Failures(start.sse, events), Cancellations(events),
                   Completes(start.sse, events), Dispose in events)
  {
    hide Totals, Accounted, Structured, Next, Enabled, Failures, Cancellations, Completes, Fails;
    if events == [] {
      NoTotals(start);
    } else {
      var n := |events| - 1;
      var before, e := events[..n], events[n];
      var s := Run(start, before).state;
      TotalsHold(start, before);
      InvariantHolds(start, before);
      TotalsStep(s, e, Failures(start.sse, before), Cancellations(before), Completes(start.sse, before),
                 Dispose in before);
      CompletesAppend(start.sse, before, e);
      if e == EndSent {
        EndIsRegistered(s, Failures(start.sse, before), Cancellations(before), Completes(start.sse, before),
                        Dispose in before);
        CancelledWhileRegistered(before);
      }
      assert events == before + [e];
    }
  }

  lemma EndIsRegistered(s: State, failures: nat, cancellations: nat, completed: bool, disposed: bool)
    requires Enabled(s, EndSent) && Structured(s) && Totals(s, failures, cancellations, completed, disposed)
    ensures !disposed
  {
  }

  /** Over all runs errors are tracked once per failure and cancellations once per request that arrives
      in time; the completion is tracked exactly if the final notification is sent with neither of them
      before it. */
  lemma {:induction false} ErrorsAndCompletionExactly(start: State, events: seq<Event>)
    requires IsStart(start) && Run(start, events).Reached?
    ensures var tracked := Run(start, events).state.telemetry.tracked;
      && Count(tracked, Errored) == Failures(start.sse, events)
      && Count(tracked, Cancelled) + Count(tracked, Rejected) == Cancellations(events)
      && (StreamCompleted in tracked <==> Completes(start.sse, events))
  {
    TotalsHold(start, events);
  }

  // ----- progress

  function Rank(phase: Phase): nat {
    match phase
    case Draining => 3
    case Ending => 2
    case Closing => 1
    case Closed => 0
    case Failed => 0
    case _ => 4
  }

  function Work(s: State): nat {
    3 * s.queued + match s.task case Idle => 0 case Processing(_) => 2 case Sending => 1
  }

  /** Once the response has ended, every step but a cancellation request brings the stream closer to
      its end. */
  lemma DrainingProgresses(s: State, e: Event)
    requires Enabled(s, e) && Structured(s) && Rank(s.phase) <= 3 && !e.CancelRequest?
    ensures var t := Next(s, e);
      && Work(t) <= Work(s)
      && (Rank(t.phase) < Rank(s.phase) || (t.phase == s.phase && Work(t) < Work(s)))
  {
  }

  /** How many steps of a run are not cancellation requests. */
  function Steps(events: seq<Event>): nat {
    if events == [] then 0 else
    var n := |events| - 1;
    Steps(events[..n]) + if events[n].CancelRequest? then 0 else 1
  }

  /** A run that starts after the response has ended gives up work or rank with every step. */
  lemma {:induction false} DrainingIsBounded(s: State, events: seq<Event>)
    requires Structured(s) && Rank(s.phase) <= 3 && Run(s, events).Reached?
    ensures var t := Run(s, events).state;
      && Structured(t) && Rank(t.phase) <= 3
      && Steps(events) + Work(t) + Rank(t.phase) <= Work(s) + Rank(s.phase)
  {
    hide Structured, Next, Enabled, Work;
    if events != [] {
      var n := |events| - 1;
      DrainingIsBounded(s, events[..n]);
      var t := Run(s, events[..n]).state;
      StructuredStep(t, events[n]);
      if events[n].CancelRequest? {
        CancellingIsNoWork(t);
      } else {
        DrainingProgresses(t, events[n]);
      }
    }
  }

  lemma CancellingIsNoWork(s: State)
    ensures var t := Next(s, CancelRequest); Work(t) == Work(s) && t.phase == s.phase
  {
  }

  /** However the run goes on after the response has ended, it takes at most three steps per waiting
      notification and five more, not counting cancellation requests. */
  lemma EndsSoon(start: State, before: seq<Event>, events: seq<Event>)
    requires IsStart(start) && Run(start, before).Reached?
    requires Rank(Run(start, before).state.phase) <= 3
    requires Run(Run(start, before).state, events).Reached?
    ensures Steps(events) <= 3 * Run(start, before).state.queued + 5
  {
    InvariantHolds(start, before);
    DrainingIsBounded(Run(start, before).state, events);
  }

  /** A stream that has not ended can always take a step other than being cancelled. */
  lemma NeverStuck(start: State, events: seq<Event>) returns (e: Event)
    requires IsStart(start) && Run(start, events).Reached?
    requires Rank(Run(start, events).state.phase) > 0
    ensures Enabled(Run(start, events).state, e) && !e.CancelRequest?
  {
    InvariantHolds(start, events);
    var s := Run(start, events).state;
    e := match s.phase
      case Reading => ResponseEnds
      case Notified => Resume
      case Ending => EndSent
      case Closing => Dispose
      case _ =>
        if s.task.Processing? then TaskProcessed else if s.task == Sending then TaskSent
        else if s.queued > 0 then TaskStart(false) else QueueIdle;
  }
}
