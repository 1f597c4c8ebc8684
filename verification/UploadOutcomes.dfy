/** What each event of the upload scheduler does to each file, and which event it takes for a file to be queued,
    started, canceled, to fail or to succeed, event by event and over whole runs. */
module UploadOutcomes {
  import opened UploadQueue

  // ---------------------------------------------------------------- which queued files are started

  lemma {:induction false} CountNone(files: seq<File>, st: Status)
    requires forall i :: 0 <= i < |files| ==> files[i].status != st
    ensures Count(files, st) == 0
  {
    if files != [] {
      CountNone(files[..|files| - 1], st);
    }
  }

  /** Starting file i takes one file off the queue before every later file. */
  lemma QueuedBefore(files: seq<File>, i: nat, f: File, j: nat)
    requires i < |files| && j <= |files| && files[i].status == Queued && f.status == Uploading
    requires forall k :: 0 <= k < i ==> files[k].status != Queued
    ensures Count(files[i := f][..j], Queued) == if i < j then Count(files[..j], Queued) - 1 else 0
    ensures j <= i ==> Count(files[..j], Queued) == 0
    ensures i < j ==> Count(files[..j], Queued) > 0
  {
    if i < j {
      assert files[i := f][..j] == files[..j][i := f];
      CountUpdate(files[..j], i, f, Queued);
    } else {
      assert files[i := f][..j] == files[..j];
      CountNone(files[..j], Queued);
    }
  }

  /** Exactly the first n queued files are started, with consecutive requests or, together, with one. */
  lemma {:induction false} LaunchExactly(files: seq<File>, n: nat, xhr: nat, multiple: bool, j: nat)
    requires j < |files|
    ensures
      var before := Count(files[..j], Queued);
      Launch(files, n, xhr, multiple)[j] ==
        if files[j].status == Queued && before < n then
          files[j].(status := Uploading, xhr := Some(xhr + if multiple then 0 else before))
        else files[j]
    decreases n
  {
    HavingFirst(files, Queued, 0);
    if n > 0 && Having(files, Queued, 0) != [] {
      var i, f := LaunchStep(files, n, xhr, multiple);
      LaunchExactly(files[i := f], n - 1, if multiple then xhr else xhr + 1, multiple, j);
      QueuedBefore(files, i, f, j);
    }
  }

  lemma QueuedIsCounted(files: seq<File>, j: nat)
    requires j < |files| && files[j].status == Queued
    ensures Count(files[..j], Queued) < |Having(files, Queued, 0)|
  {
    HavingCount(files, Queued, j);
    HavingCount(files, Queued, 0);
    assert Having(files, Queued, j) != [];
  }

  /** The scheduler starts a queued file exactly if fewer files are queued before it than slots are free, each with a
      new request, or all with the same one if several files go into a request; it changes no other file. */
  lemma StartsExactly(o: Options, s: State, j: nat)
    requires j < |s.files|
    ensures
      var before := Count(s.files[..j], Queued);
      var free := o.parallelUploads - Count(s.files, Uploading);
      ProcessQueue(o, s).files[j] ==
        if s.files[j].status == Queued && before < free then
          s.files[j].(status := Uploading, xhr := Some(s.nextXhr + if o.uploadMultiple then 0 else before))
        else s.files[j]
  {
    var q := Having(s.files, Queued, 0);
    if s.files[j].status == Queued {
      QueuedIsCounted(s.files, j);
    }
    if Count(s.files, Uploading) < o.parallelUploads && q != [] {
      LaunchExactly(s.files, Min(o.parallelUploads - Count(s.files, Uploading), |q|), s.nextXhr, o.uploadMultiple, j);
    }
  }

  /** A file that only the scheduler has touched: unchanged, or started out of the queue with a new request. */
  predicate Waits(f: File, f': File, newXhr: nat) {
    || f' == f
    || (f.status == Queued && f'.xhr.Some? && f'.xhr.value >= newXhr && f' == f.(status := Uploading, xhr := f'.xhr))
  }

  lemma AutoProcessWaits(o: Options, s: State, j: nat)
    requires j < |s.files|
    ensures Waits(s.files[j], AutoProcess(o, s).files[j], s.nextXhr)
  {
    StartsExactly(o, s, j);
  }

  // ---------------------------------------------------------------- what each event does to each file

  /** The end of a request ends it for exactly the files that are uploading under it, as a success or an error;
      any other file is at most started. */
  lemma CompleteOutcome(o: Options, s: State, xhr: nat, ok: bool, j: nat)
    requires Core(o, s) && j < |s.files|
    ensures
      var s' := Step(o, s, CompleteEvent(xhr, ok));
      var f := s.files[j];
      && |s'.files| == |s.files|
      && if f.status == Uploading && f.xhr == Some(xhr) then s'.files[j] == f.(status := if ok then Success else Error)
         else Waits(f, s'.files[j], s.nextXhr)
  {
    if i :| 0 <= i < |s.files| && s.files[i].xhr == Some(xhr) && s.files[i].status == Uploading {
      var st := if ok then Success else Error;
      SetGroupKeeps(o, s, i, st);
      AutoProcessWaits(o, s.(files := SetGroup(s.files, xhr, st)), j);
    }
  }

  /** Canceling a file that is uploading cancels all files of its request; otherwise only the file itself, and that
      only if it was added or queued. */
  lemma CancelOutcome(o: Options, s: State, i: nat, j: nat)
    requires Inv(o, s) && i < |s.files| && j < |s.files|
    ensures
      var s' := Step(o, s, CancelEvent(i));
      var (f, g) := (s.files[j], s.files[i]);
      && |s'.files| == |s.files|
      && if (g.status == Uploading && f.xhr == g.xhr) || (j == i && (f.status == Added || f.status == Queued)) then
           s'.files[j] == f.(status := Canceled)
         else Waits(f, s'.files[j], s.nextXhr)
  {
    CancelingKeeps(o, s, i);
    AutoProcessWaits(o, Canceling(s, i), j);
  }

  /** Removing a file that is uploading cancels it, with all files of its request; then it leaves the list. */
  lemma RemoveOutcome(o: Options, s: State, i: nat, j: nat)
    requires Inv(o, s) && i < |s.files| && j < |s.files| && j != i
    ensures
      var s' := Step(o, s, RemoveEvent(i));
      var (f, g) := (s.files[j], s.files[i]);
      var f' := if j < i then s'.files[j] else s'.files[j - 1];
      && |s'.files| == |s.files| - 1
      && if g.status != Uploading then f' == f
         else if f.xhr == g.xhr then f' == f.(status := Canceled)
         else Waits(f, f', s.nextXhr)
  {
    if s.files[i].status == Uploading {
      CancelOutcome(o, s, i, j);
    }
  }

  /** Every active file is canceled, and no other is touched, whatever the scheduler starts meanwhile. */
  lemma DisableOutcome(o: Options, s: State, j: nat)
    requires Inv(o, s) && j < |s.files|
    ensures
      var s' := Step(o, s, DisableEvent);
      var f := s.files[j];
      && |s'.files| == |s.files|
      && if f.status == Added || f.status == Queued || f.status == Uploading then
           s'.files[j].status == Canceled && s'.files[j].id == f.id
         else s'.files[j] == f
  {
    DisableKeeps(o, s, 0);
    assert FileSettles(s.files[j], DisableFrom(o, s, 0).files[j]);
  }

  /** Only an added and accepted file is queued; without autoProcessQueue no timer is set for it. */
  lemma EnqueueOutcome(o: Options, s: State, i: nat, j: nat)
    requires i < |s.files| && j < |s.files|
    ensures
      var s' := Step(o, s, EnqueueEvent(i));
      var f := s.files[j];
      && |s'.files| == |s.files|
      && s'.files[j] == (if j == i && f.status == Added && f.accepted then f.(status := Queued) else f)
      && s'.timers == s.timers +
           if s.files[i].status == Added && s.files[i].accepted && o.autoProcessQueue then 1 else 0
  {
  }

  /** A new file fails at once if the check or maxFiles rejects it; otherwise it is queued, with autoQueue, or just
      listed. Other files are at most started, and that only after a rejection. */
  lemma AddFileOutcome(o: Options, s: State, ok: bool, j: nat)
    requires j <= |s.files|
    ensures
      var s' := Step(o, s, AddFileEvent(ok));
      var room := o.maxFiles.None? || Accepted(s.files) < o.maxFiles.value;
      && |s'.files| == |s.files| + 1
      && if j == |s.files| then
           s'.files[j] == if !ok || !room then File(s.nextId, Error, false, None)
                          else File(s.nextId, if o.autoQueue then Queued else Added, true, None)
         else if ok && room then s'.files[j] == s.files[j]
         else Waits(s.files[j], s'.files[j], s.nextXhr)
  {
    if Rejects(o, s, ok) {
      AutoProcessWaits(o, Push(s, File(s.nextId, Error, false, None)), j);
    }
  }

  /** The timers and explicit calls only run the scheduler. */
  lemma ScheduleOutcome(o: Options, s: State, e: Event, j: nat)
    requires (e.TimerEvent? || e.ProcessQueueEvent?) && j < |s.files|
    ensures |Step(o, s, e).files| == |s.files| && Waits(s.files[j], Step(o, s, e).files[j], s.nextXhr)
  {
    StartsExactly(o, s, j);
    if s.timers > 0 {
      StartsExactly(o, s.(timers := s.timers - 1), j);
    }
  }

  // ---------------------------------------------------------------- what it takes

  predicate Enters(f: File, f': File, st: Status) {
    f.status != st && f'.status == st
  }

  /** The event e, having made f' of f, was one that may do so. */
  predicate Explains(e: Event, f: File, f': File) {
    && (Enters(f, f', Success) ==> f.status == Uploading && f.xhr.Some? && e == CompleteEvent(f.xhr.value, true))
    && (Enters(f, f', Error) ==> f.status == Uploading && f.xhr.Some? && e == CompleteEvent(f.xhr.value, false))
    && (Enters(f, f', Canceled) ==> e.CancelEvent? || e.RemoveEvent? || e.DisableEvent?)
    && (Enters(f, f', Uploading) ==> f.status == Queued && !e.EnqueueEvent?)
    && (Enters(f, f', Queued) ==> f.status == Added && e.EnqueueEvent?)
    && !Enters(f, f', Added)
  }

  /** The event explains what has become of every file that is still listed. */
  ghost predicate Explained(e: Event, s: State, s': State) {
    forall i, j :: 0 <= i < |s.files| && 0 <= j < |s'.files| && s.files[i].id == s'.files[j].id ==>
      Explains(e, s.files[i], s'.files[j])
  }

  /** The files that were listed come first, in the same order, and the event explains each of them. */
  ghost predicate ExplainedInPlace(e: Event, s: State, s': State) {
    && |s.files| <= |s'.files|
    && (forall j :: |s.files| <= j < |s'.files| ==> s'.files[j].id >= s.nextId)
    && forall j :: 0 <= j < |s.files| ==> s'.files[j].id == s.files[j].id && Explains(e, s.files[j], s'.files[j])
  }

  lemma InPlaceIsExplained(e: Event, s: State, s': State)
    requires ListOk(s.files, s.nextId, s.nextXhr) && ExplainedInPlace(e, s, s')
    ensures Explained(e, s, s')
  {
    forall i, j | 0 <= i < |s.files| && 0 <= j < |s'.files| && s.files[i].id == s'.files[j].id
      ensures Explains(e, s.files[i], s'.files[j])
    {
      assert FileOk(s.files[i], s.nextId, s.nextXhr);
      if j < |s.files| {
        assert s'.files[j].id == s.files[j].id;
      }
    }
  }

  /** The file at j after an event that keeps the list as it is, or appends to it. */
  lemma StepExplains(o: Options, s: State, e: Event, j: nat)
    requires Inv(o, s) && j < |s.files| && !e.RemoveEvent?
    ensures
      var s' := Step(o, s, e);
      |s'.files| >= |s.files| && s'.files[j].id == s.files[j].id && Explains(e, s.files[j], s'.files[j])
  {
    match e
    case AddFileEvent(ok) => AddFileOutcome(o, s, ok, j);
    case EnqueueEvent(i) => if i < |s.files| { EnqueueOutcome(o, s, i, j); }
    case CancelEvent(i) => if i < |s.files| { CancelOutcome(o, s, i, j); }
    case CompleteEvent(xhr, ok) => CompleteOutcome(o, s, xhr, ok, j);
    case DisableEvent => DisableOutcome(o, s, j);
    case _ => ScheduleOutcome(o, s, e, j);
  }

  lemma RemoveExplains(o: Options, s: State, i: nat)
    requires Inv(o, s) && i < |s.files|
    ensures Explained(RemoveEvent(i), s, Step(o, s, RemoveEvent(i)))
  {
    var s' := Step(o, s, RemoveEvent(i));
    RemoveLength(o, s, i);
    forall a, j | 0 <= a < |s.files| && 0 <= j < |s'.files| && s.files[a].id == s'.files[j].id
      ensures Explains(RemoveEvent(i), s.files[a], s'.files[j])
    {
      RemoveOutcome(o, s, i, if j < i then j else j + 1);
    }
  }

  lemma RemoveLength(o: Options, s: State, i: nat)
    requires i < |s.files|
    ensures |Step(o, s, RemoveEvent(i)).files| == |s.files| - 1
  {
  }

  /** Every event explains what it does. */
  lemma StepIsExplained(o: Options, s: State, e: Event)
    requires Inv(o, s)
    ensures Explained(e, s, Step(o, s, e))
  {
    var s' := Step(o, s, e);
    if e.RemoveEvent? {
      if e.i < |s.files| {
        RemoveExplains(o, s, e.i);
      }
    } else {
      forall j | 0 <= j < |s.files|
        ensures |s'.files| >= |s.files| && s'.files[j].id == s.files[j].id && Explains(e, s.files[j], s'.files[j])
      {
        StepExplains(o, s, e, j);
      }
      NewComeLast(o, s, e);
      InPlaceIsExplained(e, s, s');
    }
  }

  lemma NewComeLast(o: Options, s: State, e: Event)
    requires Inv(o, s) && !e.RemoveEvent?
    ensures |s.files| <= |Step(o, s, e).files|
    ensures forall j :: |s.files| <= j < |Step(o, s, e).files| ==> Step(o, s, e).files[j].id >= s.nextId
  {
    if e.AddFileEvent? {
      AddFileOutcome(o, s, e.ok, |s.files|);
    } else {
      LengthKept(o, s, e);
    }
  }

  lemma LengthKept(o: Options, s: State, e: Event)
    requires Inv(o, s) && !e.RemoveEvent? && !e.AddFileEvent?
    ensures |Step(o, s, e).files| == |s.files|
  {
    DisableKeeps(o, s, 0);
  }

  // ---------------------------------------------------------------- whole runs

  /** At moment n of the run the file was uploading with its request, which then ended: with a response (ok) or not. */
  ghost predicate EndedAt(states: seq<State>, events: seq<Event>, n: nat, f: File, ok: bool) {
    && n < |events| < |states| && f.xhr.Some? && events[n] == CompleteEvent(f.xhr.value, ok)
    && exists g :: g in states[n].files && g.id == f.id && g.status == Uploading && g.xhr == f.xhr
  }

  lemma {:induction false} StatusEntered(h: seq<File>, st: Status) returns (k: nat)
    requires h != [] && h[|h| - 1].status == st && h[0].status != st
    ensures k < |h| - 1 && h[k].status != st && h[k + 1].status == st
    decreases |h|
  {
    var last := |h| - 1;
    if h[last - 1].status != st {
      k := last - 1;
    } else {
      k := StatusEntered(h[..last], st);
    }
  }

  /** A request, once made, stays. */
  lemma {:induction false} RequestStays(h: seq<File>, k: nat)
    requires Life(h) && k < |h| && h[k].xhr.Some?
    ensures h[|h| - 1].xhr == h[k].xhr
    decreases |h|
  {
    var last := |h| - 1;
    if k < last {
      RequestStays(h[..last], k);
      assert Evolves(h[last - 1], h[last]);
    }
  }

  lemma HistoryExplains(o: Options, events: seq<Event>, n: nat, f: File, f': File)
    requires n < |events| && f in History(o, events)[n].files && f' in History(o, events)[n + 1].files && f.id == f'.id
    ensures Explains(events[n], f, f')
  {
    HistoryStep(o, events, n + 1);
    RunKeeps(o, events[..n]);
    StepIsExplained(o, History(o, events)[n], events[n]);
  }

  /** A file that was rejected when it was added never gets a request. */
  lemma {:induction false} RejectedForever(h: seq<File>)
    requires Life(h) && h[0].status == Error
    ensures h[|h| - 1].status == Error && h[|h| - 1].xhr.None?
    decreases |h|
  {
    var last := |h| - 1;
    if last > 0 {
      RejectedForever(h[..last]);
      assert Evolves(h[last - 1], h[last]);
    }
  }

  /** Where in its life a file with a request has come to its end. */
  lemma EndInLife(h: seq<File>, st: Status) returns (k: nat)
    requires Life(h) && h[|h| - 1].status == st && (st == Success || (st == Error && h[|h| - 1].xhr.Some?))
    ensures k < |h| - 1 && Enters(h[k], h[k + 1], st) && h[k].id == h[k + 1].id == h[|h| - 1].id
    ensures h[k].xhr.Some? ==> h[k].xhr == h[|h| - 1].xhr
  {
    if h[0].status == Error {
      RejectedForever(h);
    }
    k := StatusEntered(h, st);
    LifeKeepsId(h, k);
    LifeKeepsId(h, k + 1);
    if h[k].xhr.Some? {
      RequestStays(h, k);
    }
  }

  lemma EndInRun(o: Options, events: seq<Event>, f: File) returns (n: nat)
    requires f in Run(o, EMPTY, events).files && (f.status == Success || (f.status == Error && f.xhr.Some?))
    ensures EndedAt(History(o, events), events, n, f, f.status == Success)
  {
    var born, h := FilesMoveForward(o, events, f);
    var k := EndInLife(h, f.status);
    n := born + k;
    HistoryExplains(o, events, n, h[k], h[k + 1]);
    assert h[k] in History(o, events)[n].files;
  }

  /** Nothing succeeds in a run but by a response to the request it was uploading with. */
  lemma SuccessByResponse(o: Options, events: seq<Event>, f: File)
    requires f in Run(o, EMPTY, events).files && f.status == Success
    ensures exists n :: EndedAt(History(o, events), events, n, f, true)
  {
    var n := EndInRun(o, events, f);
  }

  /** A file that fails after it got a request fails by an error of that request. */
  lemma ErrorByRequest(o: Options, events: seq<Event>, f: File)
    requires f in Run(o, EMPTY, events).files && f.status == Error && f.xhr.Some?
    ensures exists n :: EndedAt(History(o, events), events, n, f, false)
  {
    var n := EndInRun(o, events, f);
  }

  /** What the end of a request does at any moment of any run. */
  lemma CompletedInRun(o: Options, events: seq<Event>, xhr: nat, ok: bool, j: nat)
    requires j < |Run(o, EMPTY, events).files|
    ensures
      var (s, s') := (Run(o, EMPTY, events), Run(o, EMPTY, events + [CompleteEvent(xhr, ok)]));
      var f := s.files[j];
      && |s'.files| == |s.files|
      && (f.status == Uploading && f.xhr == Some(xhr) ==> s'.files[j] == f.(status := if ok then Success else Error))
      && (f.status != Queued && !(f.status == Uploading && f.xhr == Some(xhr)) ==> s'.files[j] == f)
  {
    assert (events + [CompleteEvent(xhr, ok)])[..|events|] == events;
    RunKeeps(o, events);
    CompleteOutcome(o, Run(o, EMPTY, events), xhr, ok, j);
  }
}
