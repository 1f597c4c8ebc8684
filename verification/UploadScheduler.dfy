/** The Dropzone object of dropzone.js: its methods, with the source's loops over the list of files, each
    proved to take the state where UploadQueue says. A file is referred to by its index in the list. */
module UploadScheduler {
  import opened UploadQueue
  import opened UploadOutcomes

  /** Files grouped under one request, all started. */
  ghost predicate GroupStarted(files: seq<File>, files': seq<File>, group: seq<nat>, xhr: nat) {
    && |files'| == |files|
    && forall j :: 0 <= j < |files| ==> files'[j] == if j in group then Started(files[j], xhr) else files[j]
  }

  /** Starting the first n queued files under one request, at once or one after another. */
  lemma {:induction false} LaunchTogether(files: seq<File>, n: nat, xhr: nat)
    requires n <= |Having(files, Queued, 0)|
    ensures GroupStarted(files, Launch(files, n, xhr, true), Having(files, Queued, 0)[..n], xhr)
    decreases n
  {
    if n > 0 {
      var q := Having(files, Queued, 0);
      var i, f := LaunchStep(files, n, xhr, true);
      HavingTail(files, 0, f);
      LaunchTogether(files[i := f], n - 1, xhr);
      assert q[..n] == [i] + q[1..][..n - 1];
    }
  }

  lemma SameFiles(a: seq<File>, b: seq<File>, files: seq<File>, group: seq<nat>, xhr: nat)
    requires GroupStarted(files, a, group, xhr) && GroupStarted(files, b, group, xhr)
    ensures a == b
  {
  }

  lemma UpdateLast(files: seq<File>, f: File, f': File)
    ensures (files + [f])[|files| := f'] == files + [f']
  {
  }

  class Dropzone {
    const options: Options
    var files: seq<File>
    var nextId: nat
    var nextXhr: nat
    var timers: nat

    function Now(): State
      reads this
    {
      State(files, nextId, nextXhr, timers)
    }

    constructor (options: Options)
      ensures Now() == EMPTY && this.options == options
    {
      this.options := options;
      files, nextId, nextXhr, timers := [], 0, 0, 0;
    }

    /** getUploadingFiles and getQueuedFiles: filters over the list. */
    method GetFilesWithStatus(st: Status) returns (r: seq<nat>)
      ensures r == Having(files, st, 0)
    {
      r := [];
      var i := 0;
      while i < |files|
        invariant 0 <= i <= |files|
        invariant r + Having(files, st, i) == Having(files, st, 0)
      {
        ghost var rest := Having(files, st, i + 1);
        if files[i].status == st {
          assert (r + [i]) + rest == r + ([i] + rest);
          r := r + [i];
        } else {
          assert [] + rest == rest;
        }
        i := i + 1;
      }
      assert r + [] == r;
    }

    /** _getFilesWithXhr: the files of the request, which stays their only one. */
    method GetFilesWithXhr(xhr: Option<nat>) returns (r: seq<nat>)
      ensures forall j :: j in r <==> 0 <= j < |files| && files[j].xhr == xhr
    {
      r := [];
      var i := 0;
      while i < |files|
        invariant 0 <= i <= |files|
        invariant forall j :: j in r <==> 0 <= j < i && files[j].xhr == xhr
      {
        if files[i].xhr == xhr {
          r := r + [i];
        }
        i := i + 1;
      }
    }

    /** Sets the status of each file of a group. */
    method SetStatus(group: seq<nat>, st: Status)
      requires forall j :: j in group ==> j < |files|
      modifies this`files
      ensures |files| == |old(files)|
      ensures forall j :: 0 <= j < |files| ==>
        files[j] == if j in group then old(files)[j].(status := st) else old(files)[j]
    {
      var k := 0;
      while k < |group|
        invariant 0 <= k <= |group| && |files| == |old(files)|
        invariant forall j :: 0 <= j < |files| ==>
          files[j] == if j in group[..k] then old(files)[j].(status := st) else old(files)[j]
      {
        var i := group[k];
        assert i in group;
        assert group[..k + 1] == group[..k] + [i];
        files := files[i := files[i].(status := st)];
        k := k + 1;
      }
      assert group[..k] == group;
    }

    /** uploadFiles: one new request for the whole group. */
    method UploadFiles(group: seq<nat>)
      requires forall j :: j in group ==> j < |files|
      modifies this`files, this`nextXhr
      ensures |files| == |old(files)| && nextXhr == old(nextXhr) + 1
      ensures forall j :: 0 <= j < |files| ==>
        files[j] == if j in group then old(files)[j].(xhr := Some(old(nextXhr))) else old(files)[j]
    {
      var xhr := nextXhr;
      nextXhr := nextXhr + 1;
      var k := 0;
      while k < |group|
        invariant 0 <= k <= |group| && |files| == |old(files)| && nextXhr == old(nextXhr) + 1
        invariant forall j :: 0 <= j < |files| ==>
          files[j] == if j in group[..k] then old(files)[j].(xhr := Some(xhr)) else old(files)[j]
      {
        var i := group[k];
        assert i in group;
        assert group[..k + 1] == group[..k] + [i];
        files := files[i := files[i].(xhr := Some(xhr))];
        k := k + 1;
      }
      assert group[..k] == group;
    }

    method ProcessFiles(group: seq<nat>)
      requires forall j :: j in group ==> j < |files|
      modifies this`files, this`nextXhr
      ensures GroupStarted(old(files), files, group, old(nextXhr)) && nextXhr == old(nextXhr) + 1
    {
      SetStatus(group, Uploading);
      UploadFiles(group);
    }

    method ProcessQueue()
      modifies this`files, this`nextXhr
      ensures Now() == UploadQueue.ProcessQueue(options, old(Now()))
    {
      var uploading := GetFilesWithStatus(Uploading);
      HavingCount(files, Uploading, 0);
      var i := |uploading|;
      if i >= options.parallelUploads {
        return;
      }
      var queued := GetFilesWithStatus(Queued);
      if |queued| == 0 {
        return;
      }
      var n := Min(options.parallelUploads - i, |queued|);
      if options.uploadMultiple {
        ProcessTogether(queued, n);
      } else {
        ProcessSingly(queued, i, n);
      }
    }

    /** The first n queued files in one request. */
    method ProcessTogether(queued: seq<nat>, n: nat)
      requires queued == Having(files, Queued, 0) && n <= |queued|
      modifies this`files, this`nextXhr
      ensures files == Launch(old(files), n, old(nextXhr), true) && nextXhr == old(nextXhr) + 1
    {
      HavingRange(files, Queued, 0);
      LaunchTogether(files, n, nextXhr);
      ghost var launched := Launch(files, n, nextXhr, true);
      assert forall j :: j in queued[..n] ==> j in queued;
      ProcessFiles(queued[..n]);
      SameFiles(files, launched, old(files), queued[..n], old(nextXhr));
    }

    /** The loop for single uploads: shift the next queued file off the list and start it. */
    method ProcessSingly(queued: seq<nat>, processing: nat, ghost n: nat)
      requires queued == Having(files, Queued, 0) && processing < options.parallelUploads
      requires n == Min(options.parallelUploads - processing, |queued|)
      modifies this`files, this`nextXhr
      ensures files == Launch(old(files), n, old(nextXhr), false) && nextXhr == old(nextXhr) + n
    {
      var i, rest := processing, queued;
      while i < options.parallelUploads
        invariant processing <= i <= options.parallelUploads && rest == Having(files, Queued, 0)
        invariant i - processing <= n && |rest| == |queued| - (i - processing)
        invariant Launch(files, n - (i - processing), nextXhr, false) == Launch(old(files), n, old(nextXhr), false)
        invariant nextXhr == old(nextXhr) + (i - processing)
      {
        if |rest| == 0 {
          return;
        }
        var next := rest[0];
        ghost var f;
        ghost var k;
        HavingRange(files, Queued, 0);
        k, f := LaunchStep(files, n - (i - processing), nextXhr, false);
        HavingTail(files, 0, f);
        ghost var before := files;
        ProcessFiles([next]);
        assert files == before[next := f];
        rest := rest[1..];
        i := i + 1;
      }
    }

    method AutoProcess()
      modifies this`files, this`nextXhr
      ensures Now() == UploadQueue.AutoProcess(options, old(Now()))
    {
      if options.autoProcessQueue {
        ProcessQueue();
      }
    }

    /** Throws (here: returns false) unless the file was just added and accepted. */
    method EnqueueFile(i: nat) returns (ok: bool)
      requires i < |files|
      modifies this`files, this`timers
      ensures Now() == Enqueue(options, old(Now()), i)
      ensures ok == (old(files)[i].status == Added && old(files)[i].accepted)
    {
      if files[i].status == Added && files[i].accepted {
        files := files[i := files[i].(status := Queued)];
        if options.autoProcessQueue {
          timers := timers + 1;
        }
        return true;
      }
      return false;
    }

    /** getAcceptedFiles().length */
    method CountAccepted() returns (n: nat)
      ensures n == Accepted(files)
    {
      n := 0;
      var i := 0;
      while i < |files|
        invariant 0 <= i <= |files| && n == Accepted(files[..i])
      {
        assert files[..i + 1][..i] == files[..i];
        if files[i].accepted {
          n := n + 1;
        }
        i := i + 1;
      }
      assert files[..i] == files;
    }

    /** _errorProcessing for a single file. */
    method ErrorProcessing(i: nat)
      requires i < |files|
      modifies this`files, this`nextXhr
      ensures Now() == UploadQueue.AutoProcess(options,
        old(Now()).(files := old(files)[i := old(files)[i].(status := Error)]))
    {
      SetStatus([i], Error);
      assert files == old(files)[i := old(files)[i].(status := Error)];
      AutoProcess();
    }

    method AddFile(ok: bool)
      modifies this
      ensures Now() == UploadQueue.AddFile(options, old(Now()), ok)
    {
      var accepted := CountAccepted();
      var rejected := !ok || (options.maxFiles.Some? && accepted >= options.maxFiles.value);
      files := files + [File(nextId, Added, !rejected, None)];
      nextId := nextId + 1;
      UpdateLast(old(files), files[|files| - 1], File(old(nextId), Error, !rejected, None));
      Done(rejected);
    }

    /** The callback of accept, for the file just added. */
    method Done(rejected: bool)
      requires files != [] && files[|files| - 1].status == Added && files[|files| - 1].accepted == !rejected
      modifies this
      ensures
        var s := old(Now());
        var i := |s.files| - 1;
        Now() == if rejected then UploadQueue.AutoProcess(options, s.(files := s.files[i := s.files[i].(status := Error)]))
                 else if options.autoQueue then Enqueue(options, s, i) else s
    {
      if rejected {
        ErrorProcessing(|files| - 1);
      } else if options.autoQueue {
        var queued := EnqueueFile(|files| - 1);
      }
    }

    method CancelUpload(i: nat)
      requires i < |files| && (files[i].status == Uploading ==> files[i].xhr.Some?)
      modifies this`files, this`nextXhr
      ensures Now() == Cancel(options, old(Now()), i)
    {
      var file := files[i];
      if file.status == Uploading {
        var grouped := GetFilesWithXhr(file.xhr);
        SetStatus(grouped, Canceled);
        assert files == SetGroup(old(files), file.xhr.value, Canceled);
      } else if file.status == Added || file.status == Queued {
        files := files[i := file.(status := Canceled)];
      }
      AutoProcess();
    }

    method RemoveFile(i: nat)
      requires i < |files| && (files[i].status == Uploading ==> files[i].xhr.Some?)
      modifies this`files, this`nextXhr
      ensures Now() == Remove(options, old(Now()), i)
    {
      if files[i].status == Uploading {
        CancelUpload(i);
      }
      files := files[..i] + files[i + 1..];
    }

    /** handleError: _errorProcessing of the whole group, once for each of its files; all but the first run
        change nothing. */
    method HandleError(group: seq<nat>, ghost failed: seq<File>)
      requires group != [] && |failed| == |files| && forall j :: j in group ==> j < |files|
      requires forall j :: 0 <= j < |files| ==>
        failed[j] == if j in group then files[j].(status := Error) else files[j]
      requires Core(options, Now().(files := failed))
      modifies this`files, this`nextXhr
      ensures Now() == UploadQueue.AutoProcess(options, old(Now()).(files := failed))
    {
      ghost var after := UploadQueue.AutoProcess(options, Now().(files := failed));
      AutoProcessSettles(options, Now().(files := failed));
      AutoProcessAgain(options, Now().(files := failed));
      for k := 0 to |group|
        invariant k == 0 ==> Now() == old(Now())
        invariant k > 0 ==> Now() == after
      {
        SetStatus(group, Error);
        assert files == if k == 0 then failed else after.files;
        AutoProcess();
      }
    }

    /** The end of a request: ignored if its files were canceled, else success or error for all of them. A
        request ends at most once, so its files are never already in a final state by success or error. */
    method CompleteRequest(xhr: nat, ok: bool)
      requires forall j :: 0 <= j < |files| && files[j].xhr == Some(xhr) ==>
        files[j].status == Uploading || files[j].status == Canceled
      requires Core(options, Now())
      modifies this`files, this`nextXhr
      ensures Now() == Complete(options, old(Now()), xhr, ok) && |files| == |old(files)|
      ensures forall j :: 0 <= j < |files| && old(files)[j].status == Uploading && old(files)[j].xhr == Some(xhr) ==>
        files[j] == old(files)[j].(status := if ok then Success else Error)
    {
      forall j | 0 <= j < |files| && files[j].status == Uploading && files[j].xhr == Some(xhr)
        ensures Complete(options, Now(), xhr, ok).files[j] == files[j].(status := if ok then Success else Error)
      {
        CompleteOutcome(options, Now(), xhr, ok, j);
      }
      var group := GetFilesWithXhr(Some(xhr));
      if |group| == 0 {
        assert forall j :: 0 <= j < |files| && files[j].xhr == Some(xhr) ==> j in group;
        return;
      }
      assert group[0] in group;
      if files[group[0]].status == Canceled {
        return;
      }
      SetGroupKeeps(options, Now(), group[0], if ok then Success else Error);
      if ok {
        SetStatus(group, Success);
        assert files == SetGroup(old(files), xhr, Success);
        AutoProcess();
      } else {
        HandleError(group, SetGroup(files, xhr, Error));
      }
    }

    method TimerElapses()
      requires timers > 0
      modifies this`files, this`nextXhr, this`timers
      ensures Now() == TimerFires(options, old(Now()))
    {
      timers := timers - 1;
      ProcessQueue();
    }

    /** Cancels every file in list order. */
    method Disable()
      requires Core(options, Now())
      modifies this`files, this`nextXhr
      ensures Now() == DisableFrom(options, old(Now()), 0)
      ensures forall j :: 0 <= j < |files| ==> !Active(files[j].status)
    {
      DisableStops(options, Now());
      var i := 0;
      while i < |files|
        invariant 0 <= i <= |files| && Core(options, Now())
        invariant DisableFrom(options, Now(), i) == DisableFrom(options, old(Now()), 0)
      {
        CancelKeeps(options, Now(), i);
        CancelUpload(i);
        i := i + 1;
      }
    }
  }
}
