/** Gesture recognition in hammer.js: the state bits of a recognizer, what it emits, and how a manager
    arbitrates between its recognizers during one input. */
module GestureRecognizers {
  type Bits = bv8

  const POSSIBLE: Bits := 1
  const BEGAN: Bits := 2
  const CHANGED: Bits := 4
  const ENDED: Bits := 8  // also RECOGNIZED
  const CANCELLED: Bits := 16
  const FAILED: Bits := 32

  const INPUT_START: Bits := 1
  const INPUT_MOVE: Bits := 2
  const INPUT_END: Bits := 4
  const INPUT_CANCEL: Bits := 8

  datatype Option<+T> = None | Some(value: T)

  datatype Suffix = Start | Move | End | Cancel | NoSuffix

  /** What a recognizer tells its manager: the plain event name, the name with a suffix, or the additional
      event of the input. */
  datatype Emission = Plain | Suffixed(suffix: Suffix) | Additional

  predicate Has(state: Bits, mask: Bits) {
    state & mask != 0
  }

  /** stateStr */
  function StateSuffix(state: Bits): Suffix {
    if Has(state, CANCELLED) then Cancel
    else if Has(state, ENDED) then End
    else if Has(state, CHANGED) then Move
    else if Has(state, BEGAN) then Start
    else NoSuffix
  }

  /** The states in which recognize tries to emit, and those that make a recognizer the current one. */
  predicate Emitting(state: Bits) {
    Has(state, BEGAN | CHANGED | ENDED | CANCELLED)
  }

  predicate Active(state: Bits) {
    Has(state, BEGAN | CHANGED | ENDED)
  }

  /** AttrRecognizer.process, `valid` being the outcome of attrTest. */
  function AttrProcess(state: Bits, eventType: Bits, valid: bool): Bits {
    var isRecognized := Has(state, BEGAN | CHANGED);
    if isRecognized && (Has(eventType, INPUT_CANCEL) || !valid) then state | CANCELLED
    else if isRecognized || valid then
      if Has(eventType, INPUT_END) then state | ENDED
      else if !Has(state, BEGAN) then BEGAN
      else state | CHANGED
    else FAILED
  }

  /** Recognizer.emit */
  function Emissions(state: Bits, additional: bool): seq<Emission> {
    (if state < ENDED then [Suffixed(StateSuffix(state))] else [])
    + [Plain] + (if additional then [Additional] else [])
    + (if state >= ENDED then [Suffixed(StateSuffix(state))] else [])
  }

  /** The state that process starts from: a finished recognizer begins anew. */
  function Restarted(state: Bits): Bits {
    if Has(state, ENDED | CANCELLED | FAILED) then POSSIBLE else state
  }

  /** What the input is for one recognizer: whether it is enabled, and what its process returns. An
      AttrRecognizer's result is determined by attrTest; any other recognizer's is its own. */
  datatype Verdict = Attr(valid: bool) | Other(result: Bits)

  /** session.stopped */
  datatype Stopping = Running | Stopped | ForceStopped

  /** `stop` is what the handlers of the events emitted for this input leave in session.stopped by calling
      stop(): Running if they do not. */
  datatype Input = Input(eventType: Bits, additional: bool, enabled: bool, verdict: Verdict, stop: Stopping)

  function Processed(state: Bits, input: Input): Bits {
    match input.verdict
    case Attr(valid) => AttrProcess(Restarted(state), input.eventType, valid)
    case Other(result) => result
  }

  /** Recognizer.recognize: the new state and what is emitted; `canEmit` is the requireFail test. */
  function Recognized(state: Bits, input: Input, canEmit: bool): (Bits, seq<Emission>) {
    if !input.enabled then (FAILED, [])
    else
      var next := Processed(state, input);
      if !Emitting(next) then (next, [])
      else if canEmit then (next, Emissions(next, input.additional))
      else (FAILED, [])
  }

  // ---------------------------------------------------------------- one recognizer over a whole run

  function Suffixes(log: seq<Emission>): seq<Suffix> {
    if log == [] then []
    else
      Suffixes(log[..|log| - 1]) + match log[|log| - 1] case Suffixed(s) => [s] case _ => []
  }

  lemma SuffixesAppend(a: seq<Emission>, b: seq<Emission>)
    ensures Suffixes(a + b) == Suffixes(a) + Suffixes(b)
  {
    if b == [] {
      assert a + b == a;
    } else {
      assert (a + b)[..|a + b| - 1] == a + b[..|b| - 1];
      SuffixesAppend(a, b[..|b| - 1]);
    }
  }

  /** Each emission carries exactly one suffixed event, the one of the state. */
  lemma OneSuffix(state: Bits, additional: bool)
    ensures Suffixes(Emissions(state, additional)) == [StateSuffix(state)]
  {
    var s := [Suffixed(StateSuffix(state))];
    var plain := [Plain] + (if additional then [Additional] else []);
    assert Suffixes([Plain]) == [] && Suffixes(s) == [StateSuffix(state)];
    assert Suffixes([Additional]) == [];
    SuffixesAppend([Plain], [Additional]);
    SuffixesAppend([Plain], []);
    SuffixesAppend(plain, s);
    SuffixesAppend(s, plain);
    assert Emissions(state, additional) == if state < ENDED then s + plain else plain + s;
  }

  /** One gesture as a user of the events sees it: start, moves, and an end or cancel; or just an end; or,
      when a recognizer is blocked or disabled in the middle, cut off without either. */
  datatype Gesture = Whole(moves: nat, last: Suffix) | JustEnd | CutOff(moves: nat)

  function Moves(n: nat): seq<Suffix> {
    seq(n, i => Move)
  }

  function Word(g: Gesture): seq<Suffix> {
    match g
    case Whole(n, last) => [Start] + Moves(n) + [last]
    case JustEnd => [End]
    case CutOff(n) => [Start] + Moves(n)
  }

  function Words(gs: seq<Gesture>): seq<Suffix> {
    if gs == [] then [] else Words(gs[..|gs| - 1]) + Word(gs[|gs| - 1])
  }

  predicate Proper(g: Gesture) {
    g.Whole? ==> g.last == End || g.last == Cancel
  }

  /** An AttrRecognizer's step: its input and the outcome of its requireFail test. */
  datatype Attempt = Attempt(eventType: Bits, additional: bool, enabled: bool, valid: bool, canEmit: bool)

  predicate Unhindered(a: Attempt) {
    a.enabled && a.canEmit
  }

  function AfterAttempt(state: Bits, a: Attempt): (Bits, seq<Emission>) {
    Recognized(state, Input(a.eventType, a.additional, a.enabled, Attr(a.valid), Running), a.canEmit)
  }

  function RunState(attempts: seq<Attempt>): Bits {
    if attempts == [] then POSSIBLE
    else AfterAttempt(RunState(attempts[..|attempts| - 1]), attempts[|attempts| - 1]).0
  }

  function RunLog(attempts: seq<Attempt>): seq<Emission> {
    if attempts == [] then []
    else
      var before := attempts[..|attempts| - 1];
      RunLog(before) + AfterAttempt(RunState(before), attempts[|attempts| - 1]).1
  }

  predicate Reachable(state: Bits) {
    || state == 1 || state == 2 || state == 6 || state == 9 || state == 10 || state == 14
    || state == 18 || state == 22 || state == 32
  }

  /** A gesture is under way exactly in the states BEGAN and BEGAN | CHANGED. */
  predicate Under(state: Bits) {
    state == 2 || state == 6
  }

  lemma StepReaches(state: Bits, a: Attempt)
    requires Reachable(state)
    ensures Reachable(AfterAttempt(state, a).0)
  {
  }

  /** What one input adds to the events, by the state it finds. */
  lemma StepEmits(state: Bits, a: Attempt)
    requires Reachable(state)
    ensures
      var (next, log) := AfterAttempt(state, a);
      && (log == [] || log == Emissions(next, a.additional))
      && (Under(state) && log != [] ==>
            if Under(next) then StateSuffix(next) == Move
            else StateSuffix(next) == End || StateSuffix(next) == Cancel)
      && (Under(state) && log == [] ==> !Under(next) && !Unhindered(a))
      && (!Under(state) && log != [] ==> StateSuffix(next) == if Under(next) then Start else End)
      && (!Under(state) && log == [] ==> !Under(next))
  {
  }

  lemma {:induction false} StatesReached(attempts: seq<Attempt>)
    ensures Reachable(RunState(attempts))
  {
    if attempts != [] {
      StatesReached(attempts[..|attempts| - 1]);
      StepReaches(RunState(attempts[..|attempts| - 1]), attempts[|attempts| - 1]);
    }
  }

  function On(eventType: Bits, valid: bool): Attempt {
    Attempt(eventType, false, true, valid, true)
  }

  /** A run that ends in a state. */
  function RunTo(state: Bits): seq<Attempt> {
    match state
    case 1 => []
    case 2 => [On(INPUT_START, true)]
    case 6 => [On(INPUT_START, true), On(INPUT_MOVE, true)]
    case 9 => [On(INPUT_END, true)]
    case 10 => [On(INPUT_START, true), On(INPUT_END, true)]
    case 14 => [On(INPUT_START, true), On(INPUT_MOVE, true), On(INPUT_END, true)]
    case 18 => [On(INPUT_START, true), On(INPUT_MOVE, false)]
    case 22 => [On(INPUT_START, true), On(INPUT_MOVE, true), On(INPUT_MOVE, false)]
    case _ => [On(INPUT_MOVE, false)]
  }

  lemma RunToArrives(state: Bits)
    requires Reachable(state)
    ensures RunState(RunTo(state)) == state
  {
    var run := RunTo(state);
    if |run| >= 1 {
      assert run[..1][..0] == [] && run[..1][0] == run[0];
      assert RunState(run[..1]) == AfterAttempt(POSSIBLE, run[0]).0;
    }
    if |run| >= 2 {
      assert run[..2][..1] == run[..1];
      assert RunState(run[..2]) == AfterAttempt(RunState(run[..1]), run[1]).0;
    }
    if |run| >= 3 {
      assert run[..3][..2] == run[..2];
      assert RunState(run[..3]) == AfterAttempt(RunState(run[..2]), run[2]).0;
    }
    assert run[..|run|] == run;
  }

  /** Exactly nine states are reached, whatever the inputs. */
  lemma ReachableExactly(state: Bits)
    ensures Reachable(state) <==> exists attempts :: RunState(attempts) == state
  {
    if Reachable(state) {
      RunToArrives(state);
    }
    forall attempts | RunState(attempts) == state ensures Reachable(state) {
      StatesReached(attempts);
    }
  }

  function OpenWord(open: Option<nat>): seq<Suffix> {
    match open
    case None => []
    case Some(n) => [Start] + Moves(n)
  }

  lemma WordsAppend(gs: seq<Gesture>, g: Gesture)
    ensures Words(gs + [g]) == Words(gs) + Word(g)
  {
    assert (gs + [g])[..|gs|] == gs;
  }

  lemma MoveMore(n: nat)
    ensures Moves(n) + [Move] == Moves(n + 1)
  {
  }

  /** The word consists of these gestures and, if one is under way, its beginning. */
  ghost predicate MadeOf(word: seq<Suffix>, gs: seq<Gesture>, open: Option<nat>) {
    word == Words(gs) + OpenWord(open) && forall i :: 0 <= i < |gs| ==> Proper(gs[i])
  }

  ghost predicate Uncut(gs: seq<Gesture>) {
    forall i :: 0 <= i < |gs| ==> !gs[i].CutOff?
  }

  function Added(next: Option<Suffix>): seq<Suffix> {
    if next.Some? then [next.value] else []
  }

  /** What may come next, given whether a gesture is under way before and after. */
  predicate Fits(open: bool, next: Option<Suffix>, under: bool) {
    if next.None? then !under
    else if !open then next.value == if under then Start else End
    else if under then next.value == Move
    else next.value == End || next.value == Cancel
  }

  /** One more suffix, or none, after a word; `under` tells whether a gesture is under way afterwards. */
  lemma ExtendWord(word: seq<Suffix>, gs: seq<Gesture>, open: Option<nat>, next: Option<Suffix>, under: bool)
    returns (gs': seq<Gesture>, open': Option<nat>)
    requires MadeOf(word, gs, open) && Fits(open.Some?, next, under)
    ensures MadeOf(word + Added(next), gs', open')
    ensures open'.Some? <==> under
    ensures Uncut(gs) && !(open.Some? && next.None?) ==> Uncut(gs')
  {
    if under {
      gs', open' := gs, Some(if open.Some? then open.value + 1 else 0);
      StayOpen(word, gs, open, next);
    } else if open.None? && next.None? {
      gs', open' := gs, None;
      assert word + [] == word;
    } else {
      var g := Closing(open, next);
      gs', open' := gs + [g], None;
      CloseGesture(word, gs, open, next);
    }
  }

  lemma StayOpen(word: seq<Suffix>, gs: seq<Gesture>, open: Option<nat>, next: Option<Suffix>)
    requires MadeOf(word, gs, open) && next == Some(if open.Some? then Move else Start)
    ensures MadeOf(word + Added(next), gs, Some(if open.Some? then open.value + 1 else 0))
  {
    Associate(Words(gs), OpenWord(open), Added(next));
    OpenGrows(open);
  }

  /** The gesture that a suffix, or its absence, completes. */
  function Closing(open: Option<nat>, next: Option<Suffix>): Gesture
    requires open.Some? || next.Some?
  {
    if open.None? then JustEnd else if next.None? then CutOff(open.value) else Whole(open.value, next.value)
  }

  lemma CloseGesture(word: seq<Suffix>, gs: seq<Gesture>, open: Option<nat>, next: Option<Suffix>)
    requires MadeOf(word, gs, open) && (open.Some? || next.Some?) && Fits(open.Some?, next, false)
    ensures MadeOf(word + Added(next), gs + [Closing(open, next)], None)
  {
    var g := Closing(open, next);
    ClosingWord(open, next);
    Associate(Words(gs), OpenWord(open), Added(next));
    WordsAppend(gs, g);
    assert Words(gs + [g]) + OpenWord(None) == Words(gs + [g]);
  }

  lemma ClosingWord(open: Option<nat>, next: Option<Suffix>)
    requires (open.Some? || next.Some?) && Fits(open.Some?, next, false)
    ensures OpenWord(open) + Added(next) == Word(Closing(open, next)) && Proper(Closing(open, next))
  {
    if open.None? {
      assert [] + [End] == [End];
    } else if next.None? {
      assert OpenWord(open) + [] == OpenWord(open);
    }
  }

  lemma OpenGrows(open: Option<nat>)
    ensures OpenWord(open) + [if open.Some? then Move else Start] == OpenWord(Some(if open.Some? then open.value + 1 else 0))
  {
    if open.Some? {
      MoveMore(open.value);
      Associate([Start], Moves(open.value), [Move]);
    }
  }

  lemma Associate(a: seq<Suffix>, b: seq<Suffix>, c: seq<Suffix>)
    ensures (a + b) + c == a + (b + c)
  {
  }

  /** The events of a run are these gestures and, if one is under way, its beginning; none was broken off
      unless the recognizer was hindered. */
  ghost predicate Explained(attempts: seq<Attempt>, gs: seq<Gesture>, open: Option<nat>) {
    && MadeOf(Suffixes(RunLog(attempts)), gs, open)
    && (open.Some? <==> Under(RunState(attempts)))
    && (NeverHindered(attempts) ==> Uncut(gs))
  }

  /** Over every input run the suffixed events are whole gestures, then possibly the beginning of one more:
      start move* (end | cancel), or end alone. A gesture breaks off without end or cancel only in a run in
      which the recognizer was disabled or blocked by requireFail. */
  lemma {:induction false} EventsFormGestures(attempts: seq<Attempt>) returns (gs: seq<Gesture>, open: Option<nat>)
    ensures Explained(attempts, gs, open)
    decreases |attempts|
  {
    if attempts == [] {
      gs, open := [], None;
      NoEvents();
    } else {
      gs, open := EventsFormGestures(attempts[..|attempts| - 1]);
      gs, open := OneMoreInput(attempts, gs, open);
    }
  }

  lemma NoEvents()
    ensures Explained([], [], None)
  {
  }

  lemma OneMoreInput(attempts: seq<Attempt>, gs: seq<Gesture>, open: Option<nat>)
    returns (gs': seq<Gesture>, open': Option<nat>)
    requires attempts != [] && Explained(attempts[..|attempts| - 1], gs, open)
    ensures Explained(attempts, gs', open')
  {
    var before, a := attempts[..|attempts| - 1], attempts[|attempts| - 1];
    assert before + [a] == attempts;
    var next := RunExtends(before, a);
    gs', open' := ExtendWord(Suffixes(RunLog(before)), gs, open, next, Under(RunState(attempts)));
    NeverHinderedBefore(before, a);
  }

  ghost predicate NeverHindered(attempts: seq<Attempt>) {
    forall i :: 0 <= i < |attempts| ==> Unhindered(attempts[i])
  }

  lemma NeverHinderedBefore(before: seq<Attempt>, a: Attempt)
    ensures NeverHindered(before + [a]) ==> NeverHindered(before) && Unhindered(a)
  {
    var all := before + [a];
    assert all[|before|] == a && forall i :: 0 <= i < |before| ==> all[i] == before[i];
  }

  /** The suffix that one more input adds. */
  lemma RunExtends(before: seq<Attempt>, a: Attempt) returns (next: Option<Suffix>)
    ensures Suffixes(RunLog(before + [a])) == Suffixes(RunLog(before)) + Added(next)
    ensures Fits(Under(RunState(before)), next, Under(RunState(before + [a])))
    ensures Under(RunState(before)) && next.None? ==> !Unhindered(a)
  {
    var all := before + [a];
    assert all[..|all| - 1] == before && all[|all| - 1] == a;
    StatesReached(before);
    next := AttemptEmits(RunState(before), a);
    SuffixesAppend(RunLog(before), AfterAttempt(RunState(before), a).1);
  }

  lemma AttemptEmits(state: Bits, a: Attempt) returns (next: Option<Suffix>)
    requires Reachable(state)
    ensures Suffixes(AfterAttempt(state, a).1) == Added(next)
    ensures Fits(Under(state), next, Under(AfterAttempt(state, a).0))
    ensures Under(state) && next.None? ==> !Unhindered(a)
  {
    var (to, log) := AfterAttempt(state, a);
    StepEmits(state, a);
    OneSuffix(to, a.additional);
    next := if log == [] then None else Some(StateSuffix(to));
  }

  // ---------------------------------------------------------------- which event, exactly

  /** A gesture as the source documents it: it is under way or not. An input ends, cancels or continues one that is
      under way, starts one or recognizes one at once; a hindered recognizer says nothing and forgets it. */
  function NextSuffix(open: bool, a: Attempt): Option<Suffix> {
    var (cancel, end) := (a.eventType & 8 != 0, a.eventType & 4 != 0);
    if !a.enabled || !a.canEmit then None
    else if open then Some(if cancel || !a.valid then Cancel else if end then End else Move)
    else if a.valid then Some(if end then End else Start)
    else None
  }

  /** A start or a move is announced before the plain event, an end or a cancel after it and after the additional
      one. */
  function Events(suffix: Suffix, additional: bool): seq<Emission> {
    var plain := if additional then [Plain, Additional] else [Plain];
    if suffix == Start || suffix == Move then [Suffixed(suffix)] + plain else plain + [Suffixed(suffix)]
  }

  datatype Progress = Progress(open: bool, log: seq<Emission>)

  /** The two-state automaton over a whole run. */
  function Expected(attempts: seq<Attempt>): Progress {
    if attempts == [] then Progress(false, [])
    else
      var before := Expected(attempts[..|attempts| - 1]);
      var a := attempts[|attempts| - 1];
      match NextSuffix(before.open, a)
      case None => Progress(false, before.log)
      case Some(suffix) => Progress(suffix == Start || suffix == Move, before.log + Events(suffix, a.additional))
  }

  /** One input in any state that a recognizer can reach. */
  lemma InputDecidesEvents(state: Bits, a: Attempt)
    requires Reachable(state)
    ensures
      var (next, log) := AfterAttempt(state, a);
      match NextSuffix(Under(state), a)
      case None => log == [] && !Under(next)
      case Some(suffix) => log == Events(suffix, a.additional) && (Under(next) <==> suffix == Start || suffix == Move)
  {
    var next := Processed(state, Input(a.eventType, a.additional, a.enabled, Attr(a.valid), Running));
    InputDecidesState(state, a);
    if Emitting(next) {
      EventsOfState(next, a.additional);
    }
  }

  lemma InputDecidesState(state: Bits, a: Attempt)
    requires Reachable(state)
    ensures
      var next := Processed(state, Input(a.eventType, a.additional, a.enabled, Attr(a.valid), Running));
      match NextSuffix(Under(state), a.(enabled := true, canEmit := true))
      case None => !Emitting(next) && next == FAILED
      case Some(suffix) =>
        && Emitting(next) && StateSuffix(next) == suffix && (Under(next) <==> suffix == Start || suffix == Move)
        && (next < 8 <==> suffix == Start || suffix == Move)
  {
  }

  lemma EventsOfState(state: Bits, additional: bool)
    requires state < 8 <==> StateSuffix(state) == Start || StateSuffix(state) == Move
    ensures Emissions(state, additional) == Events(StateSuffix(state), additional)
  {
  }

  /** Over every run the events are exactly those of the automaton: so the inputs alone, not the state bits, decide
      how each gesture goes on and how it ends. */
  lemma {:induction false} EventsAreExpected(attempts: seq<Attempt>)
    ensures RunLog(attempts) == Expected(attempts).log
    ensures Under(RunState(attempts)) <==> Expected(attempts).open
  {
    if attempts != [] {
      var before := attempts[..|attempts| - 1];
      EventsAreExpected(before);
      StatesReached(before);
      InputDecidesEvents(RunState(before), attempts[|attempts| - 1]);
    }
  }

  // ---------------------------------------------------------------- a manager's recognizers during one input

  /** Which recognizers each may run with, and which each requires to fail; recognizers are numbered. */
  datatype Links = Links(simultaneous: seq<set<nat>>, requireFail: seq<seq<nat>>) {
    ghost predicate Valid(n: nat) {
      && |simultaneous| == |requireFail| == n
      && forall i, k :: 0 <= i < n && 0 <= k < |requireFail[i]| ==> requireFail[i][k] < n
    }
  }

  /** canEmit: everything required to fail has failed, or not begun. */
  function CanEmit(links: Links, states: seq<Bits>, i: nat): bool
    requires links.Valid(|states|) && i < |states|
  {
    forall k :: 0 <= k < |links.requireFail[i]| ==> Has(states[links.requireFail[i][k]], FAILED | POSSIBLE)
  }

  /** A pass over the recognizers: their states, the session's current recognizer and whether it was stopped,
      and who emitted what. */
  datatype Session = Session(states: seq<Bits>, current: Option<nat>, stopping: Stopping, log: seq<(nat, seq<Emission>)>)

  predicate Allowed(links: Links, current: Option<nat>, i: nat)
    requires i < |links.simultaneous|
  {
    current.None? || current.value == i || current.value in links.simultaneous[i]
  }

  /** Recognizer.recognize for recognizer i: its new state and what it emits. */
  function Outcome(links: Links, states: seq<Bits>, i: nat, input: Input): (Bits, seq<Emission>)
    requires links.Valid(|states|) && i < |states|
  {
    Recognized(states[i], input, CanEmit(links, states[i := Processed(states[i], input)], i))
  }

  /** One turn of the loop. */
  function RecognizeOne(links: Links, s: Session, i: nat, input: Input): (r: Session)
    requires links.Valid(|s.states|) && i < |s.states|
    ensures |r.states| == |s.states|
  {
    var out :=
      if s.stopping != ForceStopped && Allowed(links, s.current, i) then Outcome(links, s.states, i, input)
      else (s.states[i], []);
    Session(s.states[i := out.0],
            if s.current.None? && Active(out.0) then Some(i) else s.current,
            if out.1 != [] && input.stop != Running then input.stop else s.stopping,
            if out.1 == [] then s.log else s.log + [(i, out.1)])
  }

  /** The loop of Manager.recognize over the first n recognizers. */
  function Pass(links: Links, s: Session, inputs: seq<Input>, n: nat): (r: Session)
    requires links.Valid(|s.states|) && n <= |s.states| == |inputs|
    ensures |r.states| == |s.states|
  {
    if n == 0 then s else RecognizeOne(links, Pass(links, s, inputs, n - 1), n - 1, inputs[n - 1])
  }

  /** The current recognizer is dropped at the start of a pass once it has recognized. */
  function Begin(s: Session): Session {
    s.(current := if s.current.Some? && s.current.value < |s.states| && !Has(s.states[s.current.value], ENDED) then s.current
                  else None,
       log := [])
  }

  /** What a recognizer's own process must respect: any state to be emitted is an active one too. */
  predicate WellBehaved(input: Input) {
    input.verdict.Other? && Emitting(input.verdict.result) ==> Active(input.verdict.result)
  }

  /** Every state AttrRecognizer can return that would be emitted carries an active bit, from any state. */
  lemma AttrEmitsWhenActive(state: Bits, eventType: Bits, valid: bool)
    ensures Emitting(AttrProcess(state, eventType, valid)) ==> Active(AttrProcess(state, eventType, valid))
  {
  }

  ghost predicate Arbitrated(links: Links, s: Session) {
    forall k :: 0 <= k < |s.log| ==>
      && s.log[k].0 < |links.simultaneous| && s.current.Some?
      && (s.current.value == s.log[k].0 || s.current.value in links.simultaneous[s.log[k].0])
  }

  lemma EmitterIsActive(links: Links, states: seq<Bits>, i: nat, input: Input)
    requires links.Valid(|states|) && i < |states| && WellBehaved(input)
    ensures Outcome(links, states, i, input).1 != [] ==> Active(Outcome(links, states, i, input).0)
  {
    if input.verdict.Attr? {
      AttrEmitsWhenActive(Restarted(states[i]), input.eventType, input.verdict.valid);
    }
  }

  lemma OneIsArbitrated(links: Links, s: Session, i: nat, input: Input)
    requires links.Valid(|s.states|) && i < |s.states| && WellBehaved(input) && Arbitrated(links, s)
    ensures Arbitrated(links, RecognizeOne(links, s, i, input))
    ensures s.current.Some? ==> RecognizeOne(links, s, i, input).current == s.current
  {
    EmitterIsActive(links, s.states, i, input);
    var r := RecognizeOne(links, s, i, input);
    forall k | 0 <= k < |r.log|
      ensures
        && r.log[k].0 < |links.simultaneous| && r.current.Some?
        && (r.current.value == r.log[k].0 || r.current.value in links.simultaneous[r.log[k].0])
    {
      if k < |s.log| {
        assert r.log[k] == s.log[k];
      }
    }
  }

  ghost predicate AllWellBehaved(inputs: seq<Input>) {
    forall i :: 0 <= i < |inputs| ==> WellBehaved(inputs[i])
  }

  /** Whoever emits in a pass is the session's current recognizer at the end of it, or may run with it. */
  lemma {:induction false} EmittersAreArbitrated(links: Links, s: Session, inputs: seq<Input>, n: nat)
    requires links.Valid(|s.states|) && n <= |s.states| == |inputs| && s.log == []
    requires AllWellBehaved(inputs)
    ensures Arbitrated(links, Pass(links, s, inputs, n))
  {
    if n > 0 {
      EmittersAreArbitrated(links, s, inputs, n - 1);
      OneIsArbitrated(links, Pass(links, s, inputs, n - 1), n - 1, inputs[n - 1]);
    }
  }

  /** Nobody else takes part: a recognizer that may not run with the current one keeps its state. */
  lemma BlockedKeepsState(links: Links, s: Session, i: nat, input: Input)
    requires links.Valid(|s.states|) && i < |s.states| && s.current.Some?
    requires s.stopping == ForceStopped || (s.current.value != i && s.current.value !in links.simultaneous[i])
    ensures RecognizeOne(links, s, i, input) == s
  {
    assert s.states[i := s.states[i]] == s.states;
  }

  /** Once a handler has force-stopped the session, the rest of the pass changes no recognizer and emits
      nothing; a plain stop lets the pass go on. */
  lemma {:induction false} ForcedStopEndsPass(links: Links, s: Session, inputs: seq<Input>, m: nat, n: nat)
    requires links.Valid(|s.states|) && m <= n <= |s.states| == |inputs|
    requires Pass(links, s, inputs, m).stopping == ForceStopped
    ensures
      var (r, r') := (Pass(links, s, inputs, m), Pass(links, s, inputs, n));
      r'.states == r.states && r'.log == r.log && r'.stopping == ForceStopped
    decreases n
  {
    if m < n {
      ForcedStopEndsPass(links, s, inputs, m, n - 1);
      var r := Pass(links, s, inputs, n - 1);
      assert r.states[n - 1 := r.states[n - 1]] == r.states;
    }
  }

  /** A recognizer that has come to an emitting state emits exactly if each recognizer it requires to fail has failed
      or not begun; otherwise, or if it is disabled, it fails itself. */
  lemma RequiredFailures(links: Links, states: seq<Bits>, i: nat, input: Input)
    requires links.Valid(|states|) && i < |states|
    ensures
      var next := Processed(states[i], input);
      var released := forall r :: r in links.requireFail[i] ==> (if r == i then next else states[r]) & 33 != 0;
      Outcome(links, states, i, input) ==
        if input.enabled && next & 30 == 0 then (next, [])
        else if input.enabled && released then (next, Emissions(next, input.additional))
        else (32, [])
  {
    var next := Processed(states[i], input);
    forall k | 0 <= k < |links.requireFail[i]|
      ensures links.requireFail[i][k] in links.requireFail[i]
    {
    }
    assert CanEmit(links, states[i := next], i) <==>
      forall r :: r in links.requireFail[i] ==> (if r == i then next else states[r]) & 33 != 0;
  }

  // ---------------------------------------------------------------- the current recognizer

  /** Each recognizer changes in its own turn only. */
  lemma {:induction false} OwnTurn(links: Links, s: Session, inputs: seq<Input>, m: nat, n: nat, i: nat)
    requires links.Valid(|s.states|) && m <= n <= |s.states| == |inputs| && i < m
    ensures Pass(links, s, inputs, n).states[i] == Pass(links, s, inputs, m).states[i]
    decreases n
  {
    if m < n {
      OwnTurn(links, s, inputs, m, n - 1, i);
    }
  }

  /** Without a current recognizer, the first one that a pass leaves begun, changed or ended becomes it. */
  lemma {:induction false} FirstActiveIsCurrent(links: Links, s: Session, inputs: seq<Input>, n: nat)
    requires links.Valid(|s.states|) && n <= |s.states| == |inputs| && s.current.None?
    ensures
      var r := Pass(links, s, inputs, n);
      match r.current
      case None => forall k :: 0 <= k < n ==> r.states[k] & 14 == 0
      case Some(i) => i < n && r.states[i] & 14 != 0 && forall k :: 0 <= k < i ==> r.states[k] & 14 == 0
  {
    if n > 0 {
      FirstActiveIsCurrent(links, s, inputs, n - 1);
      var q, r := Pass(links, s, inputs, n - 1), Pass(links, s, inputs, n);
      assert forall k :: 0 <= k < n - 1 ==> r.states[k] == q.states[k];
    }
  }

  /** A current recognizer stays it throughout a pass, and one that may not run with it keeps its state. */
  lemma {:induction false} CurrentStays(links: Links, s: Session, inputs: seq<Input>, n: nat)
    requires links.Valid(|s.states|) && n <= |s.states| == |inputs| && s.current.Some?
    ensures
      var r := Pass(links, s, inputs, n);
      && r.current == s.current
      && forall k :: 0 <= k < |s.states| && k != s.current.value && s.current.value !in links.simultaneous[k] ==>
           r.states[k] == s.states[k]
  {
    if n > 0 {
      CurrentStays(links, s, inputs, n - 1);
    }
  }

  /** From one input to the next: a current recognizer that has not ended is still current after it, and nobody but it
      and those that may run with it has moved; one that has ended makes way for the first active one. */
  lemma UnfinishedStaysCurrent(links: Links, s: Session, inputs: seq<Input>)
    requires links.Valid(|s.states|) && |inputs| == |s.states| && s.current.Some? && s.current.value < |s.states|
    ensures
      var r := Pass(links, Begin(s), inputs, |inputs|);
      var c := s.current.value;
      if s.states[c] & 8 == 0 then
        && r.current == Some(c)
        && forall k :: 0 <= k < |s.states| && k != c && c !in links.simultaneous[k] ==> r.states[k] == s.states[k]
      else
        match r.current
        case None => forall k :: 0 <= k < |s.states| ==> r.states[k] & 14 == 0
        case Some(i) => i < |s.states| && r.states[i] & 14 != 0 && forall k :: 0 <= k < i ==> r.states[k] & 14 == 0
  {
    if s.states[s.current.value] & 8 == 0 {
      CurrentStays(links, Begin(s), inputs, |inputs|);
    } else {
      FirstActiveIsCurrent(links, Begin(s), inputs, |inputs|);
    }
  }

  ghost predicate Symmetric(simultaneous: seq<set<nat>>) {
    forall i, j :: 0 <= i < |simultaneous| && 0 <= j < |simultaneous| ==>
      (j in simultaneous[i] <==> i in simultaneous[j])
  }

  class Manager {
    var links: Links
    var states: seq<Bits>
    var current: Option<nat>
    var stopping: Stopping
    var log: seq<(nat, seq<Emission>)>

    ghost predicate Valid()
      reads this
    {
      links.Valid(|states|) && (current.Some? ==> current.value < |states|)
    }

    constructor (n: nat)
      ensures Valid() && |states| == n && Symmetric(links.simultaneous) && current.None? && stopping == Running
      ensures forall i :: 0 <= i < n ==> states[i] == POSSIBLE && links.simultaneous[i] == {} && links.requireFail[i] == []
    {
      links := Links(seq(n, i => {}), seq(n, i => []));
      states := seq(n, i => POSSIBLE);
      current, stopping, log := None, Running, [];
    }

    /** recognizeWith: links both recognizers, by calling itself on the other one. */
    method RecognizeWith(i: nat, j: nat)
      requires Valid() && i < |states| && j < |states|
      modifies this`links
      ensures Valid() && links.requireFail == old(links).requireFail
      ensures j in old(links).simultaneous[i] ==> links == old(links)
      ensures j !in old(links).simultaneous[i] ==> forall a :: 0 <= a < |states| ==>
        links.simultaneous[a] == old(links).simultaneous[a] + (if a == i then {j} else {}) + (if a == j then {i} else {})
      ensures Symmetric(old(links).simultaneous) ==>
        Symmetric(links.simultaneous) && j in links.simultaneous[i] && i in links.simultaneous[j]
      decreases (if j in links.simultaneous[i] then 0 else 1) + (if i in links.simultaneous[j] then 0 else 1)
    {
      if j !in links.simultaneous[i] {
        links := links.(simultaneous := links.simultaneous[i := links.simultaneous[i] + {j}]);
        RecognizeWith(j, i);
      }
    }

    /** dropRecognizeWith: the link on this side only. i may no longer run while j is the current recognizer;
        if both were linked, j may still run while i is. */
    method DropRecognizeWith(i: nat, j: nat)
      requires Valid() && i < |states|
      modifies this`links
      ensures Valid() && links.requireFail == old(links).requireFail
      ensures forall a, b :: 0 <= a < |states| ==>
        (b in links.simultaneous[a] <==> b in old(links).simultaneous[a] && !(a == i && b == j))
      ensures i != j ==> !Allowed(links, Some(j), i)
      ensures i != j && j < |states| && i in old(links).simultaneous[j] ==> Allowed(links, Some(i), j)
    {
      links := links.(simultaneous := links.simultaneous[i := links.simultaneous[i] - {j}]);
    }

    /** canEmit */
    method CanEmitNow(i: nat) returns (can: bool)
      requires Valid() && i < |states|
      ensures can == CanEmit(links, states, i)
    {
      var required := links.requireFail[i];
      var k := 0;
      while k < |required|
        invariant 0 <= k <= |required|
        invariant forall m :: 0 <= m < k ==> Has(states[required[m]], FAILED | POSSIBLE)
      {
        if !Has(states[required[k]], FAILED | POSSIBLE) {
          return false;
        }
        k := k + 1;
      }
      return true;
    }

    /** tryEmit: emit, or fail if a required failure is missing. */
    method TryEmit(i: nat, additional: bool) returns (emitted: seq<Emission>)
      requires Valid() && i < |states|
      modifies this`states
      ensures Valid()
      ensures if CanEmit(links, old(states), i)
        then states == old(states) && emitted == Emissions(states[i], additional)
        else states == old(states)[i := FAILED] && emitted == []
    {
      var can := CanEmitNow(i);
      if can {
        return Emissions(states[i], additional);
      }
      states := states[i := FAILED];
      return [];
    }

    /** recognize of recognizer i. */
    method RecognizeInput(i: nat, input: Input) returns (emitted: seq<Emission>)
      requires Valid() && i < |states|
      modifies this`states
      ensures Valid() && |states| == |old(states)|
      ensures states == old(states)[i := Outcome(links, old(states), i, input).0]
      ensures emitted == Outcome(links, old(states), i, input).1
    {
      emitted := [];
      if !input.enabled {
        states := states[i := FAILED];
        return;
      }
      var before := Restarted(states[i]);
      var next := match input.verdict
        case Attr(valid) => AttrProcess(before, input.eventType, valid)
        case Other(result) => result;
      states := states[i := next];
      if Emitting(next) {
        emitted := TryEmit(i, input.additional);
      }
    }

    function Now(): Session
      reads this
    {
      Session(states, current, stopping, log)
    }

    /** stop: the session takes no further input; when forced, the pass under way offers it to nobody else. */
    method Stop(force: bool)
      modifies this`stopping
      ensures stopping != Running && (stopping == ForceStopped <==> force)
    {
      stopping := if force then ForceStopped else Stopped;
    }

    /** A first touch begins a new session. */
    method StartSession()
      requires Valid()
      modifies this`current, this`stopping
      ensures Valid() && current.None? && stopping == Running
    {
      current, stopping := None, Running;
    }

    /** One turn of the loop in recognize. */
    method Offer(i: nat, input: Input)
      requires Valid() && i < |states|
      modifies this`states, this`current, this`log, this`stopping
      ensures Valid() && Now() == RecognizeOne(links, old(Now()), i, input)
    {
      if stopping != ForceStopped && Allowed(links, current, i) {
        var emitted := RecognizeInput(i, input);
        if emitted != [] {
          log := log + [(i, emitted)];
          if input.stop != Running {
            Stop(input.stop == ForceStopped);
          }
        }
      } else {
        assert states[i := states[i]] == states;
      }
      if current.None? && Active(states[i]) {
        current := Some(i);
      }
    }

    /** recognize: one input, already judged for each recognizer, is offered to all of them in turn, unless the
        session was stopped before. */
    method Recognize(inputs: seq<Input>)
      requires Valid() && |inputs| == |states|
      modifies this`states, this`current, this`log, this`stopping
      ensures Valid()
      ensures old(stopping) != Running ==> Now() == old(Now())
      ensures old(stopping) == Running ==> Now() == Pass(links, Begin(old(Now())), inputs, |inputs|)
      ensures old(stopping) == Running && AllWellBehaved(inputs) ==> Arbitrated(links, Now())
    {
      if stopping != Running {
        return;
      }
      log := [];
      if current.None? || Has(states[current.value], ENDED) {
        current := None;
      }
      ghost var begun := Now();
      assert begun == Begin(old(Now()));
      RunPass(inputs);
      if AllWellBehaved(inputs) {
        EmittersAreArbitrated(links, begun, inputs, |inputs|);
      }
    }

    /** The loop of recognize. */
    method RunPass(inputs: seq<Input>)
      requires Valid() && |inputs| == |states|
      modifies this`states, this`current, this`log, this`stopping
      ensures Valid() && Now() == Pass(links, old(Now()), inputs, |inputs|)
    {
      var i := 0;
      while i < |states|
        invariant 0 <= i <= |states| == |inputs| && Valid()
        invariant Now() == Pass(links, old(Now()), inputs, i)
      {
        Offer(i, inputs[i]);
        i := i + 1;
      }
    }
  }
}
