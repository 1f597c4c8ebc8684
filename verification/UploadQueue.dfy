/** The upload scheduler of dropzone.js as a state machine over its events: what each event does to the list
    of files, and what holds over every run. */
module UploadQueue {
  datatype Option<+T> = None | Some(value: T) {
    function Get(default: T): T {
      if Some? then value else default
    }
  }

  datatype Status = Added | Queued | Uploading | Success | Error | Canceled

  /** A file object; `id` stands for its identity and `xhr` for that of its request. */
  datatype File = File(id: nat, status: Status, accepted: bool, xhr: Option<nat>)

  datatype Options = Options(parallelUploads: nat, uploadMultiple: bool, autoProcessQueue: bool, autoQueue: bool,
                             maxFiles: Option<nat>)

  /** `timers` counts the zero-delay timers that will call processQueue. */
  datatype State = State(files: seq<File>, nextId: nat, nextXhr: nat, timers: nat)

  const EMPTY := State([], 0, 0, 0)

  // ---------------------------------------------------------------- files by status

  function Count(files: seq<File>, st: Status): nat {
    if files == [] then 0 else Count(files[..|files| - 1], st) + if files[|files| - 1].status == st then 1 else 0
  }

  function Accepted(files: seq<File>): nat {
    if files == [] then 0 else Accepted(files[..|files| - 1]) + if files[|files| - 1].accepted then 1 else 0
  }

  /** Indices of the files with a status, in list order, from index i on. */
  function Having(files: seq<File>, st: Status, i: nat): seq<nat>
    decreases |files| - i
  {
    if i >= |files| then []
    else (if files[i].status == st then [i] else []) + Having(files, st, i + 1)
  }

  // ---------------------------------------------------------------- what the operations do

  function Started(f: File, xhr: nat): File {
    f.(status := Uploading, xhr := Some(xhr))
  }

  function Min(a: int, b: int): int {
    if a <= b then a else b
  }

  /** Starts the first n queued files, one after another: each with a request of its own, or with
      uploadMultiple all with the same one. */
  function Launch(files: seq<File>, n: nat, xhr: nat, multiple: bool): (r: seq<File>)
    ensures |r| == |files|
    decreases n
  {
    var q := Having(files, Queued, 0);
    if n == 0 || q == [] || q[0] >= |files| then files
    else Launch(files[q[0] := Started(files[q[0]], xhr)], n - 1, if multiple then xhr else xhr + 1, multiple)
  }

  function ProcessQueue(o: Options, s: State): (r: State)
    ensures |r.files| == |s.files|
  {
    var processing := Count(s.files, Uploading);
    var q := Having(s.files, Queued, 0);
    if processing >= o.parallelUploads || q == [] then s
    else
      var n := Min(o.parallelUploads - processing, |q|);
      s.(files := Launch(s.files, n, s.nextXhr, o.uploadMultiple),
         nextXhr := s.nextXhr + if o.uploadMultiple then 1 else n)
  }

  function AutoProcess(o: Options, s: State): (r: State)
    ensures |r.files| == |s.files|
  {
    if o.autoProcessQueue then ProcessQueue(o, s) else s
  }

  /** Gives every file of a request the same new status. */
  function SetGroup(files: seq<File>, xhr: nat, st: Status): seq<File> {
    seq(|files|, i requires 0 <= i < |files| => if files[i].xhr == Some(xhr) then files[i].(status := st) else files[i])
  }

  function Enqueue(o: Options, s: State, i: nat): State
    requires i < |s.files|
  {
    if s.files[i].status == Added && s.files[i].accepted then
      s.(files := s.files[i := s.files[i].(status := Queued)],
         timers := s.timers + if o.autoProcessQueue then 1 else 0)
    else s
  }

  /** The accept check, `ok` saying that size, type and the user's callback accept the file. */
  predicate Rejects(o: Options, s: State, ok: bool) {
    !ok || (o.maxFiles.Some? && Accepted(s.files) >= o.maxFiles.value)
  }

  function Push(s: State, f: File): State {
    s.(files := s.files + [f], nextId := s.nextId + 1)
  }

  /** addFile with a synchronous accept. */
  function AddFile(o: Options, s: State, ok: bool): State {
    if Rejects(o, s, ok) then AutoProcess(o, Push(s, File(s.nextId, Error, false, None)))
    else
      var s' := Push(s, File(s.nextId, Added, true, None));
      if o.autoQueue then Enqueue(o, s', |s.files|) else s'
  }

  function Cancel(o: Options, s: State, i: nat): (r: State)
    requires i < |s.files|
    ensures |r.files| == |s.files|
  {
    var f := s.files[i];
    AutoProcess(o,
      if f.status == Uploading && f.xhr.Some? then s.(files := SetGroup(s.files, f.xhr.value, Canceled))
      else if f.status == Added || f.status == Queued then s.(files := s.files[i := f.(status := Canceled)])
      else s)
  }

  function Without(files: seq<File>, i: nat): seq<File>
    requires i < |files|
  {
    files[..i] + files[i + 1..]
  }

  function Remove(o: Options, s: State, i: nat): State
    requires i < |s.files|
  {
    var s' := if s.files[i].status == Uploading then Cancel(o, s, i) else s;
    s'.(files := Without(s'.files, i))
  }

  /** A request ends: with a response when `ok`, else with an error. Nothing happens if it is not in flight. */
  function Complete(o: Options, s: State, xhr: nat, ok: bool): State {
    if exists i :: 0 <= i < |s.files| && s.files[i].xhr == Some(xhr) && s.files[i].status == Uploading then
      AutoProcess(o, s.(files := SetGroup(s.files, xhr, if ok then Success else Error)))
    else s
  }

  function TimerFires(o: Options, s: State): State {
    if s.timers == 0 then s else ProcessQueue(o, s.(timers := s.timers - 1))
  }

  /** Cancels the files from index i on, one after another, each cancellation re-running the scheduler. */
  function DisableFrom(o: Options, s: State, i: nat): State
    decreases |s.files| - i
  {
    if i >= |s.files| then s
    else
      DisableFrom(o, Cancel(o, s, i), i + 1)
  }

  datatype Event =
    | AddFileEvent(ok: bool)
    | EnqueueEvent(i: nat)
    | TimerEvent
    | CompleteEvent(xhr: nat, ok: bool)
    | CancelEvent(i: nat)
    | RemoveEvent(i: nat)
    | DisableEvent
    | ProcessQueueEvent

  function Step(o: Options, s: State, e: Event): State {
    match e
    case AddFileEvent(ok) => AddFile(o, s, ok)
    case EnqueueEvent(i) => if i < |s.files| then Enqueue(o, s, i) else s
    case TimerEvent => TimerFires(o, s)
    case CompleteEvent(xhr, ok) => Complete(o, s, xhr, ok)
    case CancelEvent(i) => if i < |s.files| then Cancel(o, s, i) else s
    case RemoveEvent(i) => if i < |s.files| then Remove(o, s, i) else s
    case DisableEvent => DisableFrom(o, s, 0)
    case ProcessQueueEvent => ProcessQueue(o, s)
  }

  function Run(o: Options, s: State, events: seq<Event>): State
    decreases |events|
  {
    if events == [] then s else Step(o, Run(o, s, events[..|events| - 1]), events[|events| - 1])
  }

  // ---------------------------------------------------------------- counting

  lemma {:induction false} CountUpdate(files: seq<File>, i: nat, f: File, st: Status)
    requires i < |files|
    ensures Count(files[i := f], st) ==
      Count(files, st) - (if files[i].status == st then 1 else 0) + (if f.status == st then 1 else 0)
    ensures f.accepted == files[i].accepted ==> Accepted(files[i := f]) == Accepted(files)
  {
    var last := |files| - 1;
    var files' := files[i := f];
    if i == last {
      assert files'[..last] == files[..last];
    } else {
      assert files'[..last] == files[..last][i := f];
      CountUpdate(files[..last], i, f, st);
    }
  }

  lemma CountAppend(files: seq<File>, f: File, st: Status)
    ensures Count(files + [f], st) == Count(files, st) + if f.status == st then 1 else 0
    ensures Accepted(files + [f]) == Accepted(files) + if f.accepted then 1 else 0
  {
    assert (files + [f])[..|files|] == files;
  }

  lemma {:induction false} CountWithout(files: seq<File>, i: nat, st: Status)
    requires i < |files|
    ensures Count(Without(files, i), st) == Count(files, st) - if files[i].status == st then 1 else 0
    ensures Accepted(Without(files, i)) <= Accepted(files)
  {
    var last := |files| - 1;
    if i == last {
      assert Without(files, i) == files[..last];
    } else {
      var front := Without(files[..last], i);
      assert Without(files, i) == front + [files[last]];
      CountAppend(front, files[last], st);
      CountWithout(files[..last], i, st);
    }
  }

  /** The head of Having is the first file with the status; Having is empty if there is none. */
  lemma {:induction false} HavingFirst(files: seq<File>, st: Status, from: nat)
    ensures
      var q := Having(files, st, from);
      if q == [] then forall i :: from <= i < |files| ==> files[i].status != st
      else (
        && from <= q[0] < |files| && files[q[0]].status == st
        && forall i :: from <= i < q[0] ==> files[i].status != st)
    decreases |files| - from
  {
    if from < |files| {
      HavingFirst(files, st, from + 1);
    }
  }

  lemma {:induction false} HavingCount(files: seq<File>, st: Status, from: nat)
    requires from <= |files|
    ensures |Having(files, st, from)| == Count(files, st) - Count(files[..from], st)
    decreases |files| - from
  {
    if from == |files| {
      assert files[..from] == files;
    } else {
      HavingCount(files, st, from + 1);
      assert files[..from + 1][..from] == files[..from];
    }
  }

  /** Starting the first queued file takes it off the front of the queue. */
  lemma {:induction false} HavingTail(files: seq<File>, from: nat, f: File)
    requires f.status != Queued && Having(files, Queued, from) != []
    ensures
      var q := Having(files, Queued, from);
      from <= q[0] < |files| && files[q[0]].status == Queued && Having(files[q[0] := f], Queued, from) == q[1..]
    decreases |files| - from
  {
    if files[from].status == Queued {
      HavingSuffix(files, from + 1, from, f);
    } else {
      HavingTail(files, from + 1, f);
    }
  }

  lemma {:induction false} HavingSuffix(files: seq<File>, from: nat, i: nat, f: File)
    requires i < from && i < |files|
    ensures Having(files[i := f], Queued, from) == Having(files, Queued, from)
    decreases |files| - from
  {
    if from < |files| {
      HavingSuffix(files, from + 1, i, f);
    }
  }

  // ---------------------------------------------------------------- starting queued files

  lemma {:induction false} HavingRange(files: seq<File>, st: Status, from: nat)
    ensures forall j :: j in Having(files, st, from) ==> from <= j < |files| && files[j].status == st
    decreases |files| - from
  {
    if from < |files| {
      HavingRange(files, st, from + 1);
    }
  }

  /** Starting the first queued file, and what is left to launch. */
  lemma LaunchStep(files: seq<File>, n: nat, xhr: nat, multiple: bool) returns (i: nat, f: File)
    requires 0 < n && Having(files, Queued, 0) != []
    ensures i == Having(files, Queued, 0)[0]
    ensures i < |files| && files[i].status == Queued && f == Started(files[i], xhr)
    ensures forall j :: 0 <= j < i ==> files[j].status != Queued
    ensures Launch(files, n, xhr, multiple) == Launch(files[i := f], n - 1, if multiple then xhr else xhr + 1, multiple)
  {
    HavingFirst(files, Queued, 0);
    i := Having(files, Queued, 0)[0];
    f := Started(files[i], xhr);
  }

  /** Only queued files are touched, and those move on to uploading. */
  lemma {:induction false} LaunchTouches(files: seq<File>, n: nat, xhr: nat, multiple: bool, i: nat)
    requires i < |files|
    ensures
      var r := Launch(files, n, xhr, multiple);
      r[i] != files[i] ==> files[i].status == Queued && r[i].status == Uploading && r[i] == Started(files[i], r[i].xhr.Get(0))
    decreases n
  {
    if n > 0 && Having(files, Queued, 0) != [] {
      var j, f := LaunchStep(files, n, xhr, multiple);
      LaunchTouches(files[j := f], n - 1, if multiple then xhr else xhr + 1, multiple, i);
    }
  }

  /** n queued files become uploading. */
  lemma {:induction false} LaunchCounts(files: seq<File>, n: nat, xhr: nat, multiple: bool)
    requires n <= |Having(files, Queued, 0)|
    ensures
      var r := Launch(files, n, xhr, multiple);
      && Having(r, Queued, 0) == Having(files, Queued, 0)[n..]
      && Count(r, Uploading) == Count(files, Uploading) + n
      && Accepted(r) == Accepted(files)
    decreases n
  {
    if n > 0 {
      var f := Started(files[Having(files, Queued, 0)[0]], xhr) by { HavingFirst(files, Queued, 0); }
      HavingTail(files, 0, f);
      var i := Having(files, Queued, 0)[0];
      CountUpdate(files, i, f, Uploading);
      LaunchCounts(files[i := f], n - 1, if multiple then xhr else xhr + 1, multiple);
    }
  }

  /** A file is started only if every file queued before it is started too. */
  lemma {:induction false} LaunchInOrder(files: seq<File>, n: nat, xhr: nat, multiple: bool, i: nat, j: nat)
    requires i < j < |files| && files[i].status == Queued && files[j].status == Queued
    ensures
      var r := Launch(files, n, xhr, multiple);
      r[j].status == Uploading ==> r[i].status == Uploading
    decreases n
  {
    if n > 0 && Having(files, Queued, 0) != [] {
      var k, f := LaunchStep(files, n, xhr, multiple);
      var xhr' := if multiple then xhr else xhr + 1;
      assert k <= i;
      if k == i {
        LaunchTouches(files[k := f], n - 1, xhr', multiple, i);
      } else {
        LaunchInOrder(files[k := f], n - 1, xhr', multiple, i, j);
      }
    }
  }

  lemma StartsInListOrder(o: Options, s: State, i: nat, j: nat)
    requires i < j < |s.files| && s.files[i].status == Queued && s.files[j].status == Queued
    ensures ProcessQueue(o, s).files[j].status == Uploading ==> ProcessQueue(o, s).files[i].status == Uploading
  {
    var n := Min(o.parallelUploads - Count(s.files, Uploading), |Having(s.files, Queued, 0)|);
    if n > 0 {
      LaunchInOrder(s.files, n, s.nextXhr, o.uploadMultiple, i, j);
    }
  }

  // ---------------------------------------------------------------- the invariant

  ghost predicate FileOk(f: File, nextId: nat, nextXhr: nat) {
    && f.id < nextId
    && (f.status == Added || f.status == Queued ==> f.xhr.None?)
    && (f.status == Uploading || f.status == Success ==> f.xhr.Some?)
    && (f.status == Queued || f.status == Uploading || f.status == Success ==> f.accepted)
    && (f.xhr.Some? ==> f.xhr.value < nextXhr)
  }

  /** Files of one request always have the same status. */
  ghost predicate GroupsAgree(files: seq<File>) {
    forall i, j :: 0 <= i < |files| && 0 <= j < |files| && files[i].xhr.Some? && files[i].xhr == files[j].xhr ==>
      files[i].status == files[j].status
  }

  ghost predicate ListOk(files: seq<File>, nextId: nat, nextXhr: nat) {
    && (forall i :: 0 <= i < |files| ==> FileOk(files[i], nextId, nextXhr))
    && (forall i, j :: 0 <= i < j < |files| ==> files[i].id != files[j].id)
    && GroupsAgree(files)
  }

  /** Every slot is busy or nothing is waiting. */
  predicate SlotsUsed(o: Options, files: seq<File>) {
    Count(files, Uploading) >= o.parallelUploads || Count(files, Queued) == 0
  }

  ghost predicate Inv(o: Options, s: State) {
    && ListOk(s.files, s.nextId, s.nextXhr)
    && Count(s.files, Uploading) <= o.parallelUploads
    && (o.maxFiles.Some? ==> Accepted(s.files) <= o.maxFiles.value)
    && (o.autoProcessQueue && s.timers == 0 ==> SlotsUsed(o, s.files))
  }

  // ---------------------------------------------------------------- life of a file

  /** What cancellations and the scheduler do to a status, one after another in any number. */
  predicate Settles(a: Status, b: Status) {
    || b == a
    || (a == Added && b == Canceled)
    || (a == Queued && (b == Uploading || b == Canceled))
    || (a == Uploading && b == Canceled)
  }

  /** What one event may do to a status: one stage of ADDED, QUEUED, UPLOADING, then SUCCESS or ERROR, or
      CANCELED from any of the three. */
  predicate Follows(a: Status, b: Status) {
    || Settles(a, b)
    || (a == Added && b == Queued)
    || (a == Uploading && (b == Success || b == Error))
  }

  /** A request, once made, is never replaced; it is made when the file is started out of the queue. */
  predicate RequestFollows(f: File, f': File) {
    if f.xhr.Some? then f'.xhr == f.xhr
    else f'.xhr.Some? ==> f.status == Queued && (f'.status == Uploading || f'.status == Canceled)
  }

  /** The same file after one event. */
  predicate Evolves(f: File, f': File) {
    f'.id == f.id && f'.accepted == f.accepted && Follows(f.status, f'.status) && RequestFollows(f, f')
  }

  /** The same file after cancellations and runs of the scheduler. */
  predicate FileSettles(f: File, f': File) {
    f'.id == f.id && f'.accepted == f.accepted && Settles(f.status, f'.status) && RequestFollows(f, f')
  }

  ghost predicate AllSettle(files: seq<File>, files': seq<File>) {
    |files| == |files'| && forall i :: 0 <= i < |files| ==> FileSettles(files[i], files'[i])
  }

  /** Starting one queued file with a request that no finished file has. */
  lemma StartKeepsList(files: seq<File>, i: nat, xhr: nat, nextId: nat, limit: nat)
    requires ListOk(files, nextId, limit) && i < |files| && files[i].status == Queued && xhr < limit
    requires forall j :: 0 <= j < |files| && files[j].xhr == Some(xhr) ==> files[j].status == Uploading
    ensures ListOk(files[i := Started(files[i], xhr)], nextId, limit)
  {
  }

  lemma {:induction false} LaunchKeepsList(files: seq<File>, n: nat, xhr: nat, multiple: bool, nextId: nat, limit: nat)
    requires ListOk(files, nextId, limit)
    requires n > 0 ==> xhr + (if multiple then 1 else n) <= limit
    requires forall j :: 0 <= j < |files| && files[j].xhr.Some? && files[j].xhr.value >= xhr ==> files[j].status == Uploading
    ensures ListOk(Launch(files, n, xhr, multiple), nextId, limit)
    decreases n
  {
    if n > 0 && Having(files, Queued, 0) != [] {
      var i, f := LaunchStep(files, n, xhr, multiple);
      StartKeepsList(files, i, xhr, nextId, limit);
      LaunchKeepsList(files[i := f], n - 1, if multiple then xhr else xhr + 1, multiple, nextId, limit);
    }
  }

  lemma ListOkMonotone(files: seq<File>, nextId: nat, nextXhr: nat, nextId': nat, nextXhr': nat)
    requires ListOk(files, nextId, nextXhr) && nextId <= nextId' && nextXhr <= nextXhr'
    ensures ListOk(files, nextId', nextXhr')
  {
  }

  /** The scheduler fills the free slots and changes nothing but queued files. */
  lemma ProcessQueueFills(o: Options, s: State)
    requires Count(s.files, Uploading) <= o.parallelUploads
    ensures
      var s' := ProcessQueue(o, s);
      && Count(s'.files, Uploading) <= o.parallelUploads && SlotsUsed(o, s'.files)
      && Accepted(s'.files) == Accepted(s.files)
  {
    var q := Having(s.files, Queued, 0);
    var n := Min(o.parallelUploads - Count(s.files, Uploading), |q|);
    HavingCount(s.files, Queued, 0);
    if n > 0 {
      LaunchCounts(s.files, n, s.nextXhr, o.uploadMultiple);
      HavingCount(ProcessQueue(o, s).files, Queued, 0);
    }
  }

  lemma ProcessQueueSettles(o: Options, s: State, i: nat)
    requires i < |s.files| && (s.files[i].status == Queued ==> s.files[i].xhr.None?)
    ensures FileSettles(s.files[i], ProcessQueue(o, s).files[i])
    ensures s.files[i].status != Queued ==> ProcessQueue(o, s).files[i] == s.files[i]
  {
    var n := Min(o.parallelUploads - Count(s.files, Uploading), |Having(s.files, Queued, 0)|);
    if n > 0 {
      LaunchTouches(s.files, n, s.nextXhr, o.uploadMultiple, i);
    }
  }

  lemma ProcessQueueKeepsList(o: Options, s: State)
    requires ListOk(s.files, s.nextId, s.nextXhr)
    ensures
      var s' := ProcessQueue(o, s);
      ListOk(s'.files, s'.nextId, s'.nextXhr)
  {
    var n := Min(o.parallelUploads - Count(s.files, Uploading), |Having(s.files, Queued, 0)|);
    if n > 0 {
      var limit := s.nextXhr + if o.uploadMultiple then 1 else n;
      ListOkMonotone(s.files, s.nextId, s.nextXhr, s.nextId, limit);
      LaunchKeepsList(s.files, n, s.nextXhr, o.uploadMultiple, s.nextId, limit);
    }
  }

  // ---------------------------------------------------------------- every event keeps the invariant

  ghost predicate Core(o: Options, s: State) {
    && ListOk(s.files, s.nextId, s.nextXhr)
    && Count(s.files, Uploading) <= o.parallelUploads
    && (o.maxFiles.Some? ==> Accepted(s.files) <= o.maxFiles.value)
  }

  lemma AutoProcessKeeps(o: Options, s: State)
    requires Core(o, s)
    ensures Core(o, AutoProcess(o, s)) && (o.autoProcessQueue ==> SlotsUsed(o, AutoProcess(o, s).files))
  {
    if o.autoProcessQueue {
      ProcessQueueFills(o, s);
      ProcessQueueKeepsList(o, s);
    }
  }

  /** Running the scheduler again changes nothing. */
  lemma AutoProcessAgain(o: Options, s: State)
    requires Core(o, s)
    ensures AutoProcess(o, AutoProcess(o, s)) == AutoProcess(o, s)
  {
    AutoProcessKeeps(o, s);
    HavingCount(AutoProcess(o, s).files, Queued, 0);
  }

  lemma AutoProcessSettles(o: Options, s: State)
    requires Core(o, s)
    ensures AllSettle(s.files, AutoProcess(o, s).files)
    ensures forall i :: 0 <= i < |s.files| && s.files[i].status != Queued ==> AutoProcess(o, s).files[i] == s.files[i]
  {
    forall i | 0 <= i < |s.files|
      ensures FileSettles(s.files[i], AutoProcess(o, s).files[i])
      ensures s.files[i].status != Queued ==> AutoProcess(o, s).files[i] == s.files[i]
    {
      ProcessQueueSettles(o, s, i);
    }
  }

  lemma {:induction false} SetGroupCounts(files: seq<File>, xhr: nat, st: Status)
    requires st != Uploading
    ensures Count(SetGroup(files, xhr, st), Uploading) <= Count(files, Uploading)
    ensures Accepted(SetGroup(files, xhr, st)) == Accepted(files)
  {
    if files != [] {
      var last := |files| - 1;
      assert SetGroup(files, xhr, st)[..last] == SetGroup(files[..last], xhr, st);
      SetGroupCounts(files[..last], xhr, st);
    }
  }

  lemma SetGroupKeepsList(files: seq<File>, xhr: nat, st: Status, nextId: nat, nextXhr: nat)
    requires ListOk(files, nextId, nextXhr)
    requires forall j :: 0 <= j < |files| && files[j].xhr == Some(xhr) ==> files[j].status == Uploading
    requires st == Success || st == Error || st == Canceled
    ensures ListOk(SetGroup(files, xhr, st), nextId, nextXhr)
  {
  }

  /** Ending a request that is in flight ends it for its whole group. */
  lemma SetGroupKeeps(o: Options, s: State, i: nat, st: Status)
    requires Core(o, s) && i < |s.files| && s.files[i].status == Uploading
    requires st == Success || st == Error || st == Canceled
    ensures s.files[i].xhr.Some?
    ensures forall j :: 0 <= j < |s.files| && s.files[j].xhr == s.files[i].xhr ==> s.files[j].status == Uploading
    ensures Core(o, s.(files := SetGroup(s.files, s.files[i].xhr.value, st)))
  {
    SetGroupCounts(s.files, s.files[i].xhr.value, st);
    SetGroupKeepsList(s.files, s.files[i].xhr.value, st, s.nextId, s.nextXhr);
  }

  lemma UpdateKeeps(o: Options, s: State, i: nat, f: File)
    requires Core(o, s) && i < |s.files| && FileOk(f, s.nextId, s.nextXhr)
    requires f.id == s.files[i].id && f.accepted == s.files[i].accepted
    requires f.status != Uploading && s.files[i].xhr.None? && f.xhr.None?
    ensures Core(o, s.(files := s.files[i := f]))
  {
    CountUpdate(s.files, i, f, Uploading);
  }

  lemma AllSettleTransitive(a: seq<File>, b: seq<File>, c: seq<File>)
    requires AllSettle(a, b) && AllSettle(b, c)
    ensures AllSettle(a, c)
  {
    forall i | 0 <= i < |a|
      ensures FileSettles(a[i], c[i])
    {
      assert FileSettles(a[i], b[i]) && FileSettles(b[i], c[i]);
    }
  }

  predicate Active(st: Status) {
    st == Added || st == Queued || st == Uploading
  }

  /** The state in which cancelUpload runs the scheduler. */
  function Canceling(s: State, i: nat): (r: State)
    requires i < |s.files|
    ensures |r.files| == |s.files|
  {
    var f := s.files[i];
    if f.status == Uploading && f.xhr.Some? then s.(files := SetGroup(s.files, f.xhr.value, Canceled))
    else if f.status == Added || f.status == Queued then s.(files := s.files[i := f.(status := Canceled)])
    else s
  }

  lemma CancelingKeeps(o: Options, s: State, i: nat)
    requires Core(o, s) && i < |s.files|
    ensures Core(o, Canceling(s, i)) && AllSettle(s.files, Canceling(s, i).files)
    ensures !Active(Canceling(s, i).files[i].status)
  {
    var f := s.files[i];
    if f.status == Uploading {
      SetGroupKeeps(o, s, i, Canceled);
    } else if f.status == Added || f.status == Queued {
      UpdateKeeps(o, s, i, f.(status := Canceled));
    }
  }

  /** A file that is no longer active stays that way. */
  lemma SettledStays(files: seq<File>, files': seq<File>, i: nat)
    requires AllSettle(files, files') && i < |files| && !Active(files[i].status)
    ensures files'[i].status == files[i].status
  {
    assert FileSettles(files[i], files'[i]);
  }

  /** cancelUpload: the file is no longer active, and only files that were queued may have been started. */
  lemma CancelKeeps(o: Options, s: State, i: nat)
    requires Core(o, s) && i < |s.files|
    ensures Core(o, Cancel(o, s, i)) && (o.autoProcessQueue ==> SlotsUsed(o, Cancel(o, s, i).files))
    ensures AllSettle(s.files, Cancel(o, s, i).files) && Cancel(o, s, i).nextId == s.nextId
    ensures !Active(Cancel(o, s, i).files[i].status)
    ensures forall j :: 0 <= j < |s.files| && !Active(s.files[j].status) ==> !Active(Cancel(o, s, i).files[j].status)
  {
    var s1, s2 := Canceling(s, i), Cancel(o, s, i);
    CancelingKeeps(o, s, i);
    AutoProcessKeeps(o, s1);
    AutoProcessSettles(o, s1);
    AllSettleTransitive(s.files, s1.files, s2.files);
    SettledStays(s1.files, s2.files, i);
    forall j | 0 <= j < |s.files| && !Active(s.files[j].status)
      ensures !Active(s2.files[j].status)
    {
      SettledStays(s.files, s2.files, j);
    }
  }

  /** disable() leaves no file active, although each cancellation may start further queued files. */
  lemma {:induction false} DisableKeeps(o: Options, s: State, i: nat)
    requires Core(o, s) && i <= |s.files| && (o.autoProcessQueue && i > 0 ==> SlotsUsed(o, s.files))
    requires forall j :: 0 <= j < i ==> !Active(s.files[j].status)
    ensures
      var s' := DisableFrom(o, s, i);
      && Core(o, s') && AllSettle(s.files, s'.files) && s'.nextId == s.nextId
      && (o.autoProcessQueue && |s.files| > 0 ==> SlotsUsed(o, s'.files))
      && forall j :: 0 <= j < |s'.files| ==> !Active(s'.files[j].status)
    decreases |s.files| - i
  {
    if i < |s.files| {
      var s1 := Cancel(o, s, i);
      CancelKeeps(o, s, i);
      DisableKeeps(o, s1, i + 1);
      AllSettleTransitive(s.files, s1.files, DisableFrom(o, s1, i + 1).files);
    } else {
      assert forall j :: 0 <= j < |s.files| ==> FileSettles(s.files[j], s.files[j]);
    }
  }

  lemma DisableStops(o: Options, s: State)
    requires Core(o, s)
    ensures forall j :: 0 <= j < |DisableFrom(o, s, 0).files| ==> !Active(DisableFrom(o, s, 0).files[j].status)
  {
    DisableKeeps(o, s, 0);
  }

  // ---------------------------------------------------------------- from one event to the next

  /** f' is what one event makes of one of these files. */
  ghost predicate Descends(files: seq<File>, f': File) {
    exists i :: 0 <= i < |files| && Evolves(files[i], f')
  }

  /** A file as the event that lists it leaves it. */
  predicate Newborn(f: File) {
    && f.xhr.None? && (f.status == Added || f.status == Queued || f.status == Error)
    && (f.accepted <==> f.status != Error)
  }

  /** What one event does to the list: every file on it is what the event makes of the file of that id, or a
      new one. */
  ghost predicate Continues(s: State, s': State) {
    && s.nextId <= s'.nextId
    && forall j :: 0 <= j < |s'.files| ==>
         if s'.files[j].id < s.nextId then Descends(s.files, s'.files[j]) else Newborn(s'.files[j])
  }

  ghost predicate AllEvolve(files: seq<File>, files': seq<File>) {
    |files| == |files'| && forall i :: 0 <= i < |files| ==> Evolves(files[i], files'[i])
  }

  lemma EvolveContinues(s: State, s': State)
    requires AllEvolve(s.files, s'.files) && s.nextId <= s'.nextId
    requires forall i :: 0 <= i < |s.files| ==> s.files[i].id < s.nextId
    ensures Continues(s, s')
  {
    forall j | 0 <= j < |s'.files|
      ensures s'.files[j].id < s.nextId && Descends(s.files, s'.files[j])
    {
      assert Evolves(s.files[j], s'.files[j]);
    }
  }

  lemma SettleEvolves(files: seq<File>, files': seq<File>)
    requires AllSettle(files, files')
    ensures AllEvolve(files, files')
  {
    forall i | 0 <= i < |files|
      ensures Evolves(files[i], files'[i])
    {
      assert FileSettles(files[i], files'[i]);
    }
  }

  /** An event that only cancels files and runs the scheduler. */
  lemma SettleContinues(o: Options, s: State, s': State)
    requires Core(o, s) && AllSettle(s.files, s'.files) && s.nextId <= s'.nextId
    ensures Continues(s, s')
  {
    SettleEvolves(s.files, s'.files);
    assert forall i :: 0 <= i < |s.files| ==> FileOk(s.files[i], s.nextId, s.nextXhr);
    EvolveContinues(s, s');
  }

  lemma SameContinues(o: Options, s: State)
    requires Core(o, s)
    ensures Continues(s, s)
  {
    assert forall i :: 0 <= i < |s.files| ==> FileSettles(s.files[i], s.files[i]);
    SettleContinues(o, s, s);
  }

  // ---------------------------------------------------------------- adding a file

  lemma AppendKeepsList(files: seq<File>, f: File, nextId: nat, nextXhr: nat)
    requires ListOk(files, nextId, nextXhr) && f.id == nextId && f.xhr.None? && FileOk(f, nextId + 1, nextXhr)
    ensures ListOk(files + [f], nextId + 1, nextXhr)
  {
    ListOkMonotone(files, nextId, nextXhr, nextId + 1, nextXhr);
  }

  lemma PushCounts(files: seq<File>, f: File)
    requires f.status != Uploading && f.status != Queued
    ensures Count(files + [f], Uploading) == Count(files, Uploading) && Count(files + [f], Queued) == Count(files, Queued)
    ensures Accepted(files + [f]) == Accepted(files) + if f.accepted then 1 else 0
  {
    CountAppend(files, f, Uploading);
    CountAppend(files, f, Queued);
  }

  /** The list with the new file, before it is enqueued or the scheduler runs. */
  lemma PushKeepsList(o: Options, s: State, f: File)
    requires Core(o, s) && f.id == s.nextId && f.xhr.None? && (f.status == Added || f.status == Error)
    ensures ListOk(s.files + [f], s.nextId + 1, s.nextXhr)
  {
    AppendKeepsList(s.files, f, s.nextId, s.nextXhr);
  }

  lemma PushKeepsBounds(o: Options, s: State, f: File)
    requires Core(o, s) && (f.status == Added || f.status == Error)
    requires f.accepted && o.maxFiles.Some? ==> Accepted(s.files) < o.maxFiles.value
    ensures Count(s.files + [f], Uploading) <= o.parallelUploads
    ensures o.maxFiles.Some? ==> Accepted(s.files + [f]) <= o.maxFiles.value
  {
    PushCounts(s.files, f);
  }

  lemma PushKeeps(o: Options, s: State, f: File)
    requires Core(o, s) && f.id == s.nextId && f.xhr.None? && (f.status == Added || f.status == Error)
    requires f.accepted && o.maxFiles.Some? ==> Accepted(s.files) < o.maxFiles.value
    ensures Core(o, Push(s, f))
  {
    PushKeepsList(o, s, f);
    PushKeepsBounds(o, s, f);
    CoreFrom(o, Push(s, f), s.files + [f], s.nextId + 1);
  }

  lemma CoreFrom(o: Options, s: State, files: seq<File>, nextId: nat)
    requires s.files == files && s.nextId == nextId && ListOk(files, nextId, s.nextXhr)
    requires Count(files, Uploading) <= o.parallelUploads && (o.maxFiles.Some? ==> Accepted(files) <= o.maxFiles.value)
    ensures Core(o, s)
  {
  }

  lemma PushKeepsSlots(o: Options, s: State, f: File)
    requires f.status != Uploading && f.status != Queued && SlotsUsed(o, s.files)
    ensures SlotsUsed(o, Push(s, f).files)
  {
    PushCounts(s.files, f);
  }

  /** After the new file was listed the others have settled, and it is still newborn. */
  lemma NewFileContinues(o: Options, s: State, s': State)
    requires Core(o, s) && |s'.files| == |s.files| + 1 && s'.nextId == s.nextId + 1
    requires AllSettle(s.files, s'.files[..|s.files|])
    requires s'.files[|s.files|].id == s.nextId && Newborn(s'.files[|s.files|])
    ensures Continues(s, s')
  {
    forall j | 0 <= j < |s.files|
      ensures s'.files[j].id < s.nextId && Descends(s.files, s'.files[j])
    {
      assert FileSettles(s.files[j], s'.files[..|s.files|][j]) && FileOk(s.files[j], s.nextId, s.nextXhr);
      assert Evolves(s.files[j], s'.files[j]);
    }
  }

  lemma InvFrom(o: Options, s: State)
    requires Core(o, s) && (o.autoProcessQueue && s.timers == 0 ==> SlotsUsed(o, s.files))
    ensures Inv(o, s)
  {
  }

  lemma RejectKeeps(o: Options, s: State, f: File)
    requires Inv(o, s) && f == File(s.nextId, Error, false, None)
    ensures Inv(o, AutoProcess(o, Push(s, f)))
  {
    PushKeeps(o, s, f);
    AutoProcessKeeps(o, Push(s, f));
    InvFrom(o, AutoProcess(o, Push(s, f)));
  }

  lemma RejectContinues(o: Options, s: State, f: File)
    requires Inv(o, s) && f == File(s.nextId, Error, false, None)
    ensures Continues(s, AutoProcess(o, Push(s, f)))
  {
    var s1 := Push(s, f);
    var s2 := AutoProcess(o, s1);
    PushKeeps(o, s, f);
    AutoProcessSettles(o, s1);
    forall j | 0 <= j < |s.files|
      ensures FileSettles(s.files[j], s2.files[..|s.files|][j])
    {
      assert FileSettles(s1.files[j], s2.files[j]);
    }
    assert s2.files[|s.files|] == s1.files[|s.files|];
    NewFileContinues(o, s, s2);
  }

  lemma AcceptKeeps(o: Options, s: State, f: File)
    requires Inv(o, s) && f == File(s.nextId, Added, true, None)
    requires o.maxFiles.Some? ==> Accepted(s.files) < o.maxFiles.value
    ensures Inv(o, Push(s, f)) && Inv(o, Enqueue(o, Push(s, f), |s.files|))
  {
    PushKeeps(o, s, f);
    if o.autoProcessQueue && s.timers == 0 {
      PushKeepsSlots(o, s, f);
    }
    InvFrom(o, Push(s, f));
    UpdateKeeps(o, Push(s, f), |s.files|, f.(status := Queued));
    EnqueueTimers(o, Push(s, f), |s.files|);
    InvFrom(o, Enqueue(o, Push(s, f), |s.files|));
  }

  /** A file is queued with a timer set if the queue is to be processed. */
  lemma EnqueueTimers(o: Options, s: State, i: nat)
    requires i < |s.files| && s.files[i].status == Added && s.files[i].accepted
    ensures
      var s' := Enqueue(o, s, i);
      && s'.files == s.files[i := s.files[i].(status := Queued)] && (o.autoProcessQueue ==> s'.timers > 0)
      && s'.nextId == s.nextId && s'.nextXhr == s.nextXhr && (!o.autoProcessQueue ==> s'.timers == s.timers)
  {
  }

  lemma AcceptContinues(o: Options, s: State, f: File)
    requires Inv(o, s) && f == File(s.nextId, Added, true, None)
    ensures Continues(s, Push(s, f)) && Continues(s, Enqueue(o, Push(s, f), |s.files|))
  {
    var s1 := Push(s, f);
    var s2 := Enqueue(o, s1, |s.files|);
    assert s1.files[..|s.files|] == s.files == s2.files[..|s.files|];
    AllSettled(s.files);
    NewFileContinues(o, s, s1);
    NewFileContinues(o, s, s2);
  }

  lemma AllSettled(files: seq<File>)
    ensures AllSettle(files, files)
  {
    assert forall j :: 0 <= j < |files| ==> FileSettles(files[j], files[j]);
  }

  /** addFile: the accept check keeps the number of accepted files within maxFiles. */
  lemma AddFileKeeps(o: Options, s: State, ok: bool)
    requires Inv(o, s)
    ensures Inv(o, AddFile(o, s, ok)) && Continues(s, AddFile(o, s, ok))
  {
    if Rejects(o, s, ok) {
      RejectKeeps(o, s, File(s.nextId, Error, false, None));
      RejectContinues(o, s, File(s.nextId, Error, false, None));
    } else {
      AcceptKeeps(o, s, File(s.nextId, Added, true, None));
      AcceptContinues(o, s, File(s.nextId, Added, true, None));
    }
  }

  // ---------------------------------------------------------------- the other events

  lemma EnqueueKeeps(o: Options, s: State, i: nat)
    requires Inv(o, s) && i < |s.files|
    ensures Inv(o, Enqueue(o, s, i)) && Continues(s, Enqueue(o, s, i))
  {
    var f := s.files[i];
    if f.status == Added && f.accepted {
      var s' := Enqueue(o, s, i);
      UpdateKeeps(o, s, i, f.(status := Queued));
      assert forall j :: 0 <= j < |s.files| ==> FileOk(s.files[j], s.nextId, s.nextXhr);
      assert forall j :: 0 <= j < |s.files| ==> Evolves(s.files[j], s'.files[j]);
      EvolveContinues(s, s');
    } else {
      SameContinues(o, s);
    }
  }

  lemma ProcessQueueKeeps(o: Options, s: State)
    requires Core(o, s)
    ensures Inv(o, ProcessQueue(o, s)) && Continues(s, ProcessQueue(o, s))
  {
    ProcessQueueFills(o, s);
    ProcessQueueKeepsList(o, s);
    forall i | 0 <= i < |s.files|
      ensures FileSettles(s.files[i], ProcessQueue(o, s).files[i])
    {
      ProcessQueueSettles(o, s, i);
    }
    SettleContinues(o, s, ProcessQueue(o, s));
  }

  /** A request ends, then the scheduler runs: still one stage forward for every file. */
  lemma FinishedEvolves(files: seq<File>, xhr: nat, st: Status, files': seq<File>)
    requires st == Success || st == Error
    requires forall j :: 0 <= j < |files| && files[j].xhr == Some(xhr) ==> files[j].status == Uploading
    requires AllSettle(SetGroup(files, xhr, st), files')
    ensures AllEvolve(files, files')
  {
    forall j | 0 <= j < |files|
      ensures Evolves(files[j], files'[j])
    {
      assert FileSettles(SetGroup(files, xhr, st)[j], files'[j]);
    }
  }

  lemma CompleteKeeps(o: Options, s: State, xhr: nat, ok: bool)
    requires Inv(o, s)
    ensures Inv(o, Complete(o, s, xhr, ok)) && Continues(s, Complete(o, s, xhr, ok))
  {
    if i :| 0 <= i < |s.files| && s.files[i].xhr == Some(xhr) && s.files[i].status == Uploading {
      FinishKeeps(o, s, i, if ok then Success else Error);
    } else {
      SameContinues(o, s);
    }
  }

  lemma FinishKeeps(o: Options, s: State, i: nat, st: Status)
    requires Core(o, s) && i < |s.files| && s.files[i].status == Uploading && (st == Success || st == Error)
    ensures s.files[i].xhr.Some?
    ensures
      var s' := AutoProcess(o, s.(files := SetGroup(s.files, s.files[i].xhr.value, st)));
      Core(o, s') && (o.autoProcessQueue ==> SlotsUsed(o, s'.files)) && Continues(s, s')
  {
    SetGroupKeeps(o, s, i, st);
    var s1 := s.(files := SetGroup(s.files, s.files[i].xhr.value, st));
    AutoProcessKeeps(o, s1);
    AutoProcessSettles(o, s1);
    FinishedEvolves(s.files, s.files[i].xhr.value, st, AutoProcess(o, s1).files);
    assert forall j :: 0 <= j < |s.files| ==> FileOk(s.files[j], s.nextId, s.nextXhr);
    EvolveContinues(s, AutoProcess(o, s1));
  }

  lemma RemoveKeeps(o: Options, s: State, i: nat)
    requires Inv(o, s) && i < |s.files|
    ensures Inv(o, Remove(o, s, i)) && Continues(s, Remove(o, s, i))
  {
    if s.files[i].status == Uploading {
      CancelKeeps(o, s, i);
      WithoutKeeps(o, s, Cancel(o, s, i), i);
    } else {
      assert forall j :: 0 <= j < |s.files| ==> FileSettles(s.files[j], s.files[j]);
      WithoutKeeps(o, s, s, i);
    }
  }

  /** A file leaves the list after the others have settled. */
  lemma WithoutKeeps(o: Options, s: State, s1: State, i: nat)
    requires Core(o, s) && Core(o, s1) && AllSettle(s.files, s1.files) && s.nextId == s1.nextId && i < |s1.files|
    requires o.autoProcessQueue && s1.timers == 0 ==> SlotsUsed(o, s1.files)
    requires s1.files[i].status != Uploading
    ensures
      var s2 := s1.(files := Without(s1.files, i));
      Inv(o, s2) && Continues(s, s2)
  {
    WithoutKeepsInv(o, s1, i);
    WithoutContinues(o, s, s1, i);
  }

  lemma WithoutKeepsInv(o: Options, s: State, i: nat)
    requires Core(o, s) && i < |s.files| && s.files[i].status != Uploading
    requires o.autoProcessQueue && s.timers == 0 ==> SlotsUsed(o, s.files)
    ensures Inv(o, s.(files := Without(s.files, i)))
  {
    var s2 := s.(files := Without(s.files, i));
    CountWithout(s.files, i, Uploading);
    CountWithout(s.files, i, Queued);
    WithoutKeepsList(s.files, i, s.nextId, s.nextXhr);
    CoreFrom(o, s2, Without(s.files, i), s.nextId);
    InvFrom(o, s2);
  }

  lemma WithoutContinues(o: Options, s: State, s1: State, i: nat)
    requires Core(o, s) && Core(o, s1) && AllSettle(s.files, s1.files) && s.nextId == s1.nextId && i < |s1.files|
    ensures Continues(s, s1.(files := Without(s1.files, i)))
  {
    var s2 := s1.(files := Without(s1.files, i));
    forall j | 0 <= j < |s2.files|
      ensures s2.files[j].id < s.nextId && Descends(s.files, s2.files[j])
    {
      var k := if j < i then j else j + 1;
      assert FileSettles(s.files[k], s1.files[k]) && FileOk(s1.files[k], s1.nextId, s1.nextXhr);
      assert Evolves(s.files[k], s2.files[j]);
    }
  }

  lemma WithoutKeepsList(files: seq<File>, i: nat, nextId: nat, nextXhr: nat)
    requires ListOk(files, nextId, nextXhr) && i < |files|
    ensures ListOk(Without(files, i), nextId, nextXhr)
  {
    assert forall j :: 0 <= j < |files| - 1 ==> Without(files, i)[j] == files[if j < i then j else j + 1];
  }

  lemma CancelEventKeeps(o: Options, s: State, i: nat)
    requires Inv(o, s) && i < |s.files|
    ensures Inv(o, Cancel(o, s, i)) && Continues(s, Cancel(o, s, i))
  {
    CancelKeeps(o, s, i);
    SettleContinues(o, s, Cancel(o, s, i));
  }

  lemma DisableEventKeeps(o: Options, s: State)
    requires Inv(o, s)
    ensures Inv(o, DisableFrom(o, s, 0)) && Continues(s, DisableFrom(o, s, 0))
  {
    DisableKeeps(o, s, 0);
    SettleContinues(o, s, DisableFrom(o, s, 0));
  }

  lemma TimerKeeps(o: Options, s: State)
    requires Inv(o, s)
    ensures Inv(o, TimerFires(o, s)) && Continues(s, TimerFires(o, s))
  {
    if s.timers > 0 {
      ProcessQueueKeeps(o, s.(timers := s.timers - 1));
    } else {
      SameContinues(o, s);
    }
  }

  /** The event names a file that is not on the list. */
  predicate Misses(s: State, e: Event) {
    (e.EnqueueEvent? || e.CancelEvent? || e.RemoveEvent?) && e.i >= |s.files|
  }

  /** Every event keeps the invariant and takes every file at most one stage forward. */
  lemma StepKeeps(o: Options, s: State, e: Event)
    requires Inv(o, s)
    ensures Inv(o, Step(o, s, e)) && Continues(s, Step(o, s, e))
  {
    if Misses(s, e) {
      SameContinues(o, s);
    } else {
      match e
      case AddFileEvent(ok) => AddFileKeeps(o, s, ok);
      case EnqueueEvent(i) => EnqueueKeeps(o, s, i);
      case CancelEvent(i) => CancelEventKeeps(o, s, i);
      case RemoveEvent(i) => RemoveKeeps(o, s, i);
      case TimerEvent => TimerKeeps(o, s);
      case CompleteEvent(xhr, ok) => CompleteKeeps(o, s, xhr, ok);
      case DisableEvent => DisableEventKeeps(o, s);
      case ProcessQueueEvent => ProcessQueueKeeps(o, s);
    }
  }

  // ---------------------------------------------------------------- whole runs

  lemma {:induction false} RunKeeps(o: Options, events: seq<Event>)
    ensures Inv(o, Run(o, EMPTY, events))
    decreases |events|
  {
    if events != [] {
      var last := |events| - 1;
      RunKeeps(o, events[..last]);
      StepKeeps(o, Run(o, EMPTY, events[..last]), events[last]);
    }
  }

  /** After any events: no more uploads than slots; with autoProcessQueue and no timer pending, all slots are
      busy or nothing is queued; and never more accepted files than maxFiles. Single and multiple uploads. */
  lemma SchedulerIsBoundedAndBusy(o: Options, events: seq<Event>)
    ensures
      var s := Run(o, EMPTY, events);
      && Count(s.files, Uploading) <= o.parallelUploads
      && (o.autoProcessQueue && s.timers == 0 ==>
            Count(s.files, Uploading) == o.parallelUploads || forall i :: 0 <= i < |s.files| ==> s.files[i].status != Queued)
      && (o.maxFiles.Some? ==> Accepted(s.files) <= o.maxFiles.value)
  {
    var s := Run(o, EMPTY, events);
    RunKeeps(o, events);
    HavingFirst(s.files, Queued, 0);
    HavingCount(s.files, Queued, 0);
  }

  /** A file from the event that lists it on, event by event. */
  ghost predicate Life(h: seq<File>) {
    h != [] && Newborn(h[0]) && forall k :: 0 < k < |h| ==> Evolves(h[k - 1], h[k])
  }

  /** `h` is the file listed by event number `born`, after that event and each one since. */
  ghost predicate LivesIn(states: seq<State>, born: nat, h: seq<File>) {
    && 0 < born && born + |h| == |states|
    && Life(h) && states[born - 1].nextId <= h[0].id
    && forall k :: 0 <= k < |h| ==> h[k] in states[born + k].files
  }

  lemma ComesFrom(s: State, s': State, f: File)
    requires Continues(s, s') && f in s'.files
    ensures if f.id < s.nextId then exists g :: g in s.files && Evolves(g, f) else Newborn(f)
  {
    var j :| 0 <= j < |s'.files| && s'.files[j] == f;
    if f.id < s.nextId {
      assert Descends(s.files, f);
      var i :| 0 <= i < |s.files| && Evolves(s.files[i], f);
      assert s.files[i] in s.files;
    }
  }

  lemma {:induction false} LifeIn(states: seq<State>, f: File) returns (born: nat, h: seq<File>)
    requires states != [] && states[0].files == []
    requires forall n :: 0 < n < |states| ==> Continues(states[n - 1], states[n])
    requires f in states[|states| - 1].files
    ensures LivesIn(states, born, h) && h[|h| - 1] == f
    decreases |states|
  {
    var last := |states| - 1;
    ComesFrom(states[last - 1], states[last], f);
    if f.id < states[last - 1].nextId {
      var g :| g in states[last - 1].files && Evolves(g, f);
      born, h := LifeIn(states[..last], g);
      LifeGoesOn(states, born, h, f);
      h := h + [f];
    } else {
      born, h := last, [f];
    }
  }

  lemma LifeGoesOn(states: seq<State>, born: nat, h: seq<File>, f: File)
    requires states != [] && LivesIn(states[..|states| - 1], born, h)
    requires Evolves(h[|h| - 1], f) && f in states[|states| - 1].files
    ensures LivesIn(states, born, h + [f])
  {
  }

  /** The states of a run, one before the first event and one after each. */
  function History(o: Options, events: seq<Event>): seq<State> {
    seq(|events| + 1, n requires 0 <= n <= |events| => Run(o, EMPTY, events[..n]))
  }

  lemma HistoryStep(o: Options, events: seq<Event>, n: nat)
    requires 0 < n <= |events|
    ensures History(o, events)[n - 1] == Run(o, EMPTY, events[..n - 1])
    ensures History(o, events)[n] == Step(o, History(o, events)[n - 1], events[n - 1])
  {
    assert events[..n][..n - 1] == events[..n - 1];
  }

  lemma HistoryContinues(o: Options, events: seq<Event>, n: nat)
    requires 0 < n <= |events|
    ensures Continues(History(o, events)[n - 1], History(o, events)[n])
  {
    HistoryStep(o, events, n);
    RunKeeps(o, events[..n - 1]);
    StepKeeps(o, History(o, events)[n - 1], events[n - 1]);
  }

  /** Every file on the list has come there by one event and has since moved forward, at most one stage an
      event; its request was made once, out of the queue. */
  lemma FilesMoveForward(o: Options, events: seq<Event>, f: File) returns (born: nat, h: seq<File>)
    requires f in Run(o, EMPTY, events).files
    ensures LivesIn(History(o, events), born, h) && h[|h| - 1] == f
  {
    var states := History(o, events);
    assert events[..|events|] == events;
    forall n | 0 < n < |states|
      ensures Continues(states[n - 1], states[n])
    {
      HistoryContinues(o, events, n);
    }
    born, h := LifeIn(states, f);
  }

  /** Who is uploading was in the queue before, at some moment of its life. */
  lemma {:induction false} UploadingWasQueued(h: seq<File>) returns (k: nat)
    requires Life(h) && h[|h| - 1].status == Uploading
    ensures k < |h| - 1 && h[k].status == Queued
    decreases |h|
  {
    var last := |h| - 1;
    assert Evolves(h[last - 1], h[last]);
    if h[last - 1].status == Queued {
      k := last - 1;
    } else {
      k := UploadingWasQueued(h[..last]);
    }
  }

  /** Who has succeeded was uploading before, with the same request. */
  lemma {:induction false} SuccessWasUploading(h: seq<File>) returns (k: nat)
    requires Life(h) && h[|h| - 1].status == Success
    ensures k < |h| - 1 && h[k].status == Uploading && h[k].xhr == h[|h| - 1].xhr
    decreases |h|
  {
    var last := |h| - 1;
    assert Evolves(h[last - 1], h[last]);
    if h[last - 1].status == Uploading {
      k := last - 1;
    } else {
      k := SuccessWasUploading(h[..last]);
    }
  }

  /** Who has a request got it when started out of the queue. */
  lemma {:induction false} RequestWasQueued(h: seq<File>) returns (k: nat)
    requires Life(h) && h[|h| - 1].xhr.Some?
    ensures k < |h| - 1 && h[k].status == Queued && h[k].xhr.None? && h[k + 1].xhr == h[|h| - 1].xhr
    ensures h[k + 1].status == Uploading || h[k + 1].status == Canceled
    decreases |h|
  {
    var last := |h| - 1;
    assert Evolves(h[last - 1], h[last]);
    if h[last - 1].xhr.None? {
      k := last - 1;
    } else {
      k := RequestWasQueued(h[..last]);
    }
  }

  /** A file of this id was on the list with this status. */
  ghost predicate Was(s: State, id: nat, st: Status) {
    exists f :: f in s.files && f.id == id && f.status == st
  }

  lemma {:induction false} LifeKeepsId(h: seq<File>, k: nat)
    requires Life(h) && k < |h|
    ensures h[k].id == h[|h| - 1].id
    decreases |h|
  {
    var last := |h| - 1;
    if k < last {
      assert Evolves(h[last - 1], h[last]);
      LifeKeepsId(h[..last], k);
    }
  }

  /** No file succeeds in a run without having been queued, and after that uploading, at earlier moments. */
  lemma SuccessOnlyThroughUpload(o: Options, events: seq<Event>, f: File)
    requires f in Run(o, EMPTY, events).files && f.status == Success
    ensures
      var states := History(o, events);
      exists m, n :: 0 <= m < n < |events| && Was(states[m], f.id, Queued) && Was(states[n], f.id, Uploading)
  {
    var born, h := FilesMoveForward(o, events, f);
    SuccessInLife(History(o, events), born, h);
  }

  lemma SuccessInLife(states: seq<State>, born: nat, h: seq<File>)
    requires LivesIn(states, born, h) && h[|h| - 1].status == Success
    ensures
      var id := h[|h| - 1].id;
      exists m, n :: 0 <= m < n < |states| - 1 && Was(states[m], id, Queued) && Was(states[n], id, Uploading)
  {
    var n := SuccessWasUploading(h);
    var m := UploadingWasQueued(h[..n + 1]);
    LifeKeepsId(h, m);
    LifeKeepsId(h, n);
    assert Was(states[born + m], h[m].id, Queued) && Was(states[born + n], h[n].id, Uploading);
  }
}
