/** Command framing in scpi-server.c: socket chunks are appended to a growable buffer, which is scanned in
    place for CRLF-terminated commands. */
module ScpiFraming {
  type Byte = bv8

  const CR: Byte := 13
  const LF: Byte := 10
  const MAX_BUFF_SIZE := 1024

  // ---------------------------------------------------------------- what framing means

  /** A delimiter ends at index i. */
  predicate DelimiterAt(s: seq<Byte>, i: int) {
    1 <= i < |s| && s[i - 1] == CR && s[i] == LF
  }

  ghost predicate NoDelimiter(s: seq<Byte>) {
    forall i :: 0 <= i < |s| ==> !DelimiterAt(s, i)
  }

  /** A command ends in its only delimiter. */
  ghost predicate IsCommand(s: seq<Byte>) {
    DelimiterAt(s, |s| - 1) && forall i :: 0 <= i < |s| - 1 ==> !DelimiterAt(s, i)
  }

  /** Position after the first delimiter that ends at `from` or later, or -1. */
  function NextFrom(s: seq<Byte>, from: nat): (p: int)
    ensures p == -1 || from < p <= |s|
    decreases |s| - from
  {
    if from >= |s| then -1 else if DelimiterAt(s, from) then from + 1 else NextFrom(s, from + 1)
  }

  lemma {:induction false} NextFromIsFirst(s: seq<Byte>, from: nat)
    ensures
      var p := NextFrom(s, from);
      if p == -1 then forall i :: from <= i < |s| ==> !DelimiterAt(s, i)
      else DelimiterAt(s, p - 1) && forall i :: from <= i < p - 1 ==> !DelimiterAt(s, i)
    decreases |s| - from
  {
    if from < |s| && !DelimiterAt(s, from) {
      NextFromIsFirst(s, from + 1);
    }
  }

  function Commands(s: seq<Byte>): seq<seq<Byte>>
    decreases |s|
  {
    var p := NextFrom(s, 0);
    if p == -1 then [] else [s[..p]] + Commands(s[p..])
  }

  function Residual(s: seq<Byte>): seq<Byte>
    decreases |s|
  {
    var p := NextFrom(s, 0);
    if p == -1 then s else Residual(s[p..])
  }

  function Flatten(pieces: seq<seq<Byte>>): seq<Byte> {
    if pieces == [] then [] else Flatten(pieces[..|pieces| - 1]) + pieces[|pieces| - 1]
  }

  // ---------------------------------------------------------------- framing is a unique decomposition

  lemma FlattenCons(head: seq<Byte>, tail: seq<seq<Byte>>)
    ensures Flatten([head] + tail) == head + Flatten(tail)
  {
    var all := [head] + tail;
    if tail == [] {
      assert all[..|all| - 1] == [];
    } else {
      assert all[..|all| - 1] == [head] + tail[..|tail| - 1];
      FlattenCons(head, tail[..|tail| - 1]);
    }
  }

  /** Nothing is lost, reordered or invented, every command ends in its only CRLF, and what remains
      holds no complete command. */
  lemma {:induction false} FramingDecomposes(s: seq<Byte>)
    ensures Flatten(Commands(s)) + Residual(s) == s
    ensures forall c :: c in Commands(s) ==> IsCommand(c)
    ensures NoDelimiter(Residual(s))
    decreases |s|
  {
    var p := NextFrom(s, 0);
    NextFromIsFirst(s, 0);
    if p != -1 {
      FramingDecomposes(s[p..]);
      FlattenCons(s[..p], Commands(s[p..]));
      HeadIsCommand(s, p);
      assert s == s[..p] + s[p..];
      Associate(s[..p], Flatten(Commands(s[p..])), Residual(s[p..]));
    }
  }

  lemma HeadIsCommand(s: seq<Byte>, p: nat)
    requires p <= |s| && DelimiterAt(s, p - 1) && forall i :: 0 <= i < p - 1 ==> !DelimiterAt(s, i)
    ensures IsCommand(s[..p])
  {
    assert forall i :: 0 <= i < p ==> (DelimiterAt(s[..p], i) <==> DelimiterAt(s, i));
  }

  lemma Associate(a: seq<Byte>, b: seq<Byte>, c: seq<Byte>)
    ensures (a + b) + c == a + (b + c)
  {
  }

  /** A command at the head of a stream is found whatever follows it. */
  lemma HeadCommand(c: seq<Byte>, rest: seq<Byte>)
    requires IsCommand(c)
    ensures NextFrom(c + rest, 0) == |c|
  {
    var s := c + rest;
    assert forall i :: 0 <= i < |c| ==> (DelimiterAt(s, i) <==> DelimiterAt(c, i));
    var p := NextFrom(s, 0);
    NextFromIsFirst(s, 0);
    assert DelimiterAt(s, |c| - 1);
    assert p != -1;
    assert DelimiterAt(s, p - 1);
  }

  /** It is the only such decomposition. */
  lemma {:induction false} FramingIsUnique(cs: seq<seq<Byte>>, rest: seq<Byte>)
    requires forall c :: c in cs ==> IsCommand(c)
    requires NoDelimiter(rest)
    ensures Commands(Flatten(cs) + rest) == cs && Residual(Flatten(cs) + rest) == rest
    decreases |cs|
  {
    var s := Flatten(cs) + rest;
    if cs == [] {
      assert s == rest;
      NextFromIsFirst(s, 0);
    } else {
      var tail := cs[1..];
      assert cs == [cs[0]] + tail;
      FlattenCons(cs[0], tail);
      assert s == cs[0] + (Flatten(tail) + rest);
      HeadCommand(cs[0], Flatten(tail) + rest);
      assert s[..|cs[0]|] == cs[0] && s[|cs[0]|..] == Flatten(tail) + rest;
      FramingIsUnique(tail, rest);
    }
  }

  lemma FlattenAppend(a: seq<seq<Byte>>, b: seq<seq<Byte>>)
    ensures Flatten(a + b) == Flatten(a) + Flatten(b)
  {
    if b == [] {
      assert a + b == a;
    } else {
      var front, last := b[..|b| - 1], b[|b| - 1];
      assert (a + b)[..|a + b| - 1] == a + front;
      FlattenAppend(a, front);
      Associate(Flatten(a), Flatten(front), last);
    }
  }

  lemma Regroup(s: seq<Byte>, t: seq<Byte>, f1: seq<Byte>, r1: seq<Byte>, f2: seq<Byte>, r2: seq<Byte>)
    requires s == f1 + r1 && r1 + t == f2 + r2
    ensures s + t == (f1 + f2) + r2
  {
    Associate(f1, r1, t);
    Associate(f1, f2, r2);
  }

  /** Framing a stream in two parts, keeping the residual in between, frames the whole. */
  lemma FramingSplits(s: seq<Byte>, t: seq<Byte>)
    ensures Commands(s + t) == Commands(s) + Commands(Residual(s) + t)
    ensures Residual(s + t) == Residual(Residual(s) + t)
  {
    var (c1, r1) := (Commands(s), Residual(s));
    var (c2, r2) := (Commands(r1 + t), Residual(r1 + t));
    FramingDecomposes(s);
    FramingDecomposes(r1 + t);
    FlattenAppend(c1, c2);
    Regroup(s, t, Flatten(c1), r1, Flatten(c2), r2);
    FramingIsUnique(c1 + c2, r2);
  }

  // ---------------------------------------------------------------- the server's loops

  function Max(a: int, b: int): int {
    if a >= b then a else b
  }

  /** The most bytes ever waiting in the buffer: what was left over plus what was just received. */
  function PeakPending(chunks: seq<seq<Byte>>): nat {
    if chunks == [] then 0
    else
      var last := |chunks| - 1;
      Max(PeakPending(chunks[..last]), |Residual(Flatten(chunks[..last]))| + |chunks[last]|)
  }

  /** getNextCommand on the buffer from offset m: looks for the last character of the delimiter, then
      checks backwards for the others. */
  method GetNextCommand(buffer: array<Byte>, m: nat, bufferLen: nat) returns (pos: int)
    requires m + bufferLen <= buffer.Length
    ensures pos == NextFrom(buffer[m..m + bufferLen], 0)
  {
    var delimiter := [CR, LF];
    var delimiterLen := 2;
    ghost var s := buffer[m..m + bufferLen];
    var i := 0;
    while i < bufferLen
      invariant 0 <= i <= bufferLen
      invariant NextFrom(s, 0) == NextFrom(s, i)
    {
      if buffer[m + i] == delimiter[delimiterLen - 1] {
        var dist := 0;
        while i - dist >= 0 && delimiterLen - dist > 0
          invariant 0 <= dist < delimiterLen
          invariant dist >= 1 ==> s[i] == LF
          decreases delimiterLen - dist
        {
          if buffer[m + i - dist] != delimiter[delimiterLen - dist - 1] {
            break;
          }
          if delimiterLen - dist - 1 == 0 {
            return i + 1;
          }
          dist := dist + 1;
        }
      }
      i := i + 1;
    }
    return -1;
  }

  // The bound `i - dist >= 0` is on unsigned numbers in C, and so holds always: the backward check can look at
  // the byte before the buffer.

  /** The position found in s by a scan for which `before` is the byte in front of s. */
  function NextUnsigned(before: Byte, s: seq<Byte>): int {
    var p := NextFrom([before] + s, 1);
    if p == -1 then -1 else p - 1
  }

  lemma {:induction false} NextBehind(before: Byte, s: seq<Byte>, from: nat)
    requires from >= 1
    ensures
      var p := NextFrom(s, from);
      NextFrom([before] + s, from + 1) == if p == -1 then -1 else p + 1
    decreases |s| - from
  {
    if from < |s| {
      assert DelimiterAt([before] + s, from + 1) <==> DelimiterAt(s, from);
      NextBehind(before, s, from + 1);
    }
  }

  /** The unsigned scan frames differently exactly if the first byte is LF and the byte before it happens to be
      CR: then it reports a command that consists of that LF. */
  lemma UnsignedScanDiffers(before: Byte, s: seq<Byte>)
    ensures NextUnsigned(before, s) != NextFrom(s, 0) <==> s != [] && s[0] == LF && before == CR
    ensures NextUnsigned(before, s) != NextFrom(s, 0) ==> NextUnsigned(before, s) == 1
  {
    if s != [] {
      assert DelimiterAt([before] + s, 1) <==> s[0] == LF && before == CR;
      assert !DelimiterAt(s, 0);
      NextBehind(before, s, 1);
      NextFromIsFirst(s, 0);
    }
  }

  /** Behind a command the two scans agree; only the first scan after a receive can differ. */
  lemma ScansAgreeAfterCommand(c: seq<Byte>, s: seq<Byte>)
    requires IsCommand(c)
    ensures NextUnsigned(c[|c| - 1], s) == NextFrom(s, 0)
  {
    UnsignedScanDiffers(c[|c| - 1], s);
  }

  /** getNextCommand with the unsigned bound. It looks at the byte before the buffer exactly if the first byte
      is LF. */
  method GetNextCommandUnsigned(buffer: array<Byte>, m: nat, bufferLen: nat, before: Byte)
    returns (pos: int, lookedBefore: bool)
    requires m + bufferLen <= buffer.Length
    ensures pos == NextUnsigned(before, buffer[m..m + bufferLen])
    ensures lookedBefore <==> bufferLen > 0 && buffer[m] == LF
  {
    var delimiter := [CR, LF];
    var delimiterLen := 2;
    ghost var s := [before] + buffer[m..m + bufferLen];
    lookedBefore := false;
    var i := 0;
    while i < bufferLen
      invariant 0 <= i <= bufferLen
      invariant NextFrom(s, 1) == NextFrom(s, i + 1)
      invariant lookedBefore <==> i > 0 && buffer[m] == LF
    {
      if buffer[m + i] == delimiter[delimiterLen - 1] {
        var dist := 0;
        while delimiterLen - dist > 0
          invariant 0 <= dist < delimiterLen
          invariant dist >= 1 ==> s[i + 1] == LF
          invariant lookedBefore <==> i > 0 && buffer[m] == LF
          decreases delimiterLen - dist
        {
          lookedBefore := lookedBefore || i - dist < 0;
          var byte := if i - dist < 0 then before else buffer[m + i - dist];
          assert byte == s[i + 1 - dist];
          if byte != delimiter[delimiterLen - dist - 1] {
            break;
          }
          if delimiterLen - dist - 1 == 0 {
            return i + 1, lookedBefore;
          }
          dist := dist + 1;
        }
      }
      i := i + 1;
    }
    return -1, lookedBefore;
  }

  /** memmove of the unparsed rest to the front of the buffer. */
  method MoveToFront(buffer: array<Byte>, m: nat, n: nat)
    requires m + n <= buffer.Length
    modifies buffer
    ensures buffer[..n] == old(buffer[m..m + n])
  {
    var k := 0;
    while k < n
      invariant 0 <= k <= n
      invariant forall j :: 0 <= j < k ==> buffer[j] == old(buffer[m + j])
      invariant forall j :: m + k <= j < m + n ==> buffer[j] == old(buffer[j])
    {
      buffer[k] := buffer[m + k];
      k := k + 1;
    }
  }

  /** realloc: a larger block with the old contents at its front. */
  method Grow(buffer: array<Byte>, newLen: nat) returns (r: array<Byte>)
    requires buffer.Length <= newLen
    ensures fresh(r) && r.Length == newLen && r[..buffer.Length] == buffer[..]
  {
    r := new Byte[newLen];
    var k := 0;
    while k < buffer.Length
      invariant 0 <= k <= buffer.Length
      invariant r[..k] == buffer[..k]
    {
      r[k] := buffer[k];
      k := k + 1;
    }
  }

  /** Hands every complete command in buffer[..msgEnd] to SCPI_Input; m is where the rest begins. */
  method DeliverCommands(buffer: array<Byte>, msgEnd: nat) returns (delivered: seq<seq<Byte>>, m: nat)
    requires msgEnd <= buffer.Length
    ensures delivered == Commands(buffer[..msgEnd])
    ensures m <= msgEnd && buffer[m..msgEnd] == Residual(buffer[..msgEnd])
  {
    delivered, m := [], 0;
    var pos := GetNextCommand(buffer, m, msgEnd - m);
    while pos != -1
      invariant m <= msgEnd
      invariant pos == NextFrom(buffer[m..msgEnd], 0)
      invariant delivered + Commands(buffer[m..msgEnd]) == Commands(buffer[..msgEnd])
      invariant Residual(buffer[m..msgEnd]) == Residual(buffer[..msgEnd])
      decreases msgEnd - m
    {
      SplitSlice(buffer, m, pos, msgEnd);
      OneCommand(buffer[m..msgEnd], delivered);
      delivered := delivered + [buffer[m..m + pos]];
      m := m + pos;
      pos := GetNextCommand(buffer, m, msgEnd - m);
    }
  }

  lemma SplitSlice(buffer: array<Byte>, m: nat, pos: nat, n: nat)
    requires m + pos <= n <= buffer.Length
    ensures buffer[m..n][..pos] == buffer[m..m + pos] && buffer[m..n][pos..] == buffer[m + pos..n]
  {
  }

  lemma OneCommand(rest: seq<Byte>, delivered: seq<seq<Byte>>)
    requires NextFrom(rest, 0) != -1
    ensures
      var pos := NextFrom(rest, 0);
      && Residual(rest[pos..]) == Residual(rest)
      && (delivered + [rest[..pos]]) + Commands(rest[pos..]) == delivered + Commands(rest)
  {
  }

  /** Parses out every command and keeps the rest at the front of the buffer. */
  method ParseCommands(buffer: array<Byte>, msgEnd: nat) returns (delivered: seq<seq<Byte>>, end: nat)
    requires msgEnd <= buffer.Length
    modifies buffer
    ensures delivered == Commands(old(buffer[..msgEnd]))
    ensures end <= msgEnd && buffer[..end] == Residual(old(buffer[..msgEnd]))
  {
    var m;
    delivered, m := DeliverCommands(buffer, msgEnd);
    end := msgEnd - m;
    if m != 0 && end > 0 {
      MoveToFront(buffer, m, end);
    }
  }

  /** One turn of the receive loop: make room, append the chunk, parse out commands, compact. */
  method Receive(message: array<Byte>, msgEnd: nat, chunk: seq<Byte>)
    returns (message': array<Byte>, msgEnd': nat, commands: seq<seq<Byte>>)
    requires msgEnd < message.Length
    modifies message
    ensures message' == message || fresh(message')
    ensures msgEnd' < message'.Length
    ensures message'.Length <= Max(message.Length, 2 * (msgEnd + |chunk|))
    ensures commands == Commands(old(message[..msgEnd]) + chunk)
    ensures message'[..msgEnd'] == Residual(old(message[..msgEnd]) + chunk)
  {
    var messageLen;
    message', messageLen := MakeRoom(message, msgEnd, |chunk|);
    Append(message', msgEnd, chunk);
    commands, msgEnd' := ParseCommands(message', msgEnd + |chunk|);
  }

  /** The receive loop: one chunk per recv, until the peer closes or `stopAt` chunks have been handled when
      the termination signal is noticed. Whatever the chunking, the commands delivered are those of the
      whole stream, and the buffer stays within twice the peak amount of pending data. */
  method HandleConnection(chunks: seq<seq<Byte>>, stopAt: nat)
    returns (delivered: seq<seq<Byte>>, pending: seq<Byte>, capacity: nat)
    requires forall c :: c in chunks ==> 0 < |c| <= MAX_BUFF_SIZE
    ensures
      var handled := chunks[..if stopAt < |chunks| then stopAt else |chunks|];
      && delivered == Commands(Flatten(handled))
      && pending == Residual(Flatten(handled))
      && capacity <= Max(MAX_BUFF_SIZE, 2 * PeakPending(handled))
  {
    var message := new Byte[MAX_BUFF_SIZE];
    var msgEnd: nat := 0;
    delivered := [];
    var n: nat := 0;
    while n < |chunks| && n < stopAt
      invariant n <= |chunks| && n <= stopAt
      invariant fresh(message) && msgEnd < message.Length
      invariant delivered == Commands(Flatten(chunks[..n]))
      invariant message[..msgEnd] == Residual(Flatten(chunks[..n]))
      invariant message.Length <= Max(MAX_BUFF_SIZE, 2 * PeakPending(chunks[..n]))
    {
      var chunk := chunks[n];
      assert chunks[..n + 1][..n] == chunks[..n];
      FramingSplits(Flatten(chunks[..n]), chunk);
      var commands;
      message, msgEnd, commands := Receive(message, msgEnd, chunk);
      delivered := delivered + commands;
      n := n + 1;
    }
    pending := message[..msgEnd];
    capacity := message.Length;
  }

  /** Doubles the buffer until the chunk fits with a byte to spare. */
  method MakeRoom(buffer: array<Byte>, msgEnd: nat, readSize: nat) returns (r: array<Byte>, len: nat)
    requires 0 < buffer.Length && msgEnd <= buffer.Length
    ensures r == buffer || fresh(r)
    ensures r.Length == len && msgEnd + readSize < len && r[..msgEnd] == buffer[..msgEnd]
    ensures len <= Max(buffer.Length, 2 * (msgEnd + readSize))
  {
    r, len := buffer, buffer.Length;
    while msgEnd + readSize >= len
      invariant r == buffer || fresh(r)
      invariant r.Length == len > 0 && msgEnd <= len && r[..msgEnd] == buffer[..msgEnd]
      invariant len <= Max(buffer.Length, 2 * (msgEnd + readSize))
      decreases msgEnd + readSize - len
    {
      len := len * 2;
      r := Grow(r, len);
    }
  }

  method Append(buffer: array<Byte>, at: nat, chunk: seq<Byte>)
    requires at + |chunk| <= buffer.Length
    modifies buffer
    ensures buffer[..at + |chunk|] == old(buffer[..at]) + chunk
  {
    var k := 0;
    while k < |chunk|
      invariant 0 <= k <= |chunk|
      invariant buffer[..at] == old(buffer[..at])
      invariant buffer[at..at + k] == chunk[..k]
    {
      buffer[at + k] := chunk[k];
      k := k + 1;
    }
    assert buffer[..at + |chunk|] == buffer[..at] + buffer[at..at + |chunk|];
  }
}
