/** The notification messages and the output lines of a service, cut out of the buffers its streams are read into. */
module Notifications {
  import opened Splitting

  /** The pieces of a message between its equals signs; the first one is its name. */
  function Pieces(msg: string): (parts: seq<string>)
    ensures |parts| > 0
  {
    Split(msg, '=')
  }

  /** The second piece of a STATUS message is used without a check that there is one. */
  predicate Acceptable(msg: string) {
    Pieces(msg)[0] == "STATUS" ==> |Pieces(msg)| > 1
  }

  predicate AllAcceptable(msgs: seq<string>) {
    forall i :: 0 <= i < |msgs| ==> Acceptable(msgs[i])
  }

  predicate SaysReady(msg: string) {
    Pieces(msg)[0] == "READY"
  }

  /** The messages that a stream completes. */
  function MessagesIn(stream: string): seq<string> {
    Complete(stream, '\n')
  }

  /** The texts of the STATUS messages, in order. */
  function StatusTexts(msgs: seq<string>): seq<string>
    requires AllAcceptable(msgs)
  {
    if msgs == [] then []
    else
      assert Acceptable(msgs[0]);
      (if Pieces(msgs[0])[0] == "STATUS" then [Pieces(msgs[0])[1]] else []) + StatusTexts(msgs[1..])
  }

  predicate AnyReady(msgs: seq<string>) {
    exists i :: 0 <= i < |msgs| && SaysReady(msgs[i])
  }

  lemma AcceptablePart(a: seq<string>, b: seq<string>)
    ensures AllAcceptable(a + b) <==> AllAcceptable(a) && AllAcceptable(b)
  {
    if AllAcceptable(a + b) {
      forall i | 0 <= i < |a| ensures Acceptable(a[i]) {
        assert Acceptable((a + b)[i]);
      }
      forall i | 0 <= i < |b| ensures Acceptable(b[i]) {
        assert Acceptable((a + b)[|a| + i]);
      }
    }
  }

  lemma AcceptableTail(msgs: seq<string>)
    requires AllAcceptable(msgs) && msgs != []
    ensures Acceptable(msgs[0]) && AllAcceptable(msgs[1..])
  {
    assert msgs == msgs[..1] + msgs[1..];
    AcceptablePart(msgs[..1], msgs[1..]);
  }

  lemma {:induction false} StatusTextsOfConcat(a: seq<string>, b: seq<string>)
    requires AllAcceptable(a) && AllAcceptable(b)
    ensures AllAcceptable(a + b) && StatusTexts(a + b) == StatusTexts(a) + StatusTexts(b)
  {
    if a == [] {
      assert a + b == b;
    } else {
      AcceptableTail(a);
      StatusTextsOfConcat(a[1..], b);
      hide Pieces;
      assert (a + b)[1..] == a[1..] + b && (a + b)[0] == a[0];
      AcceptablePart(a, b);
      assert AllAcceptable(a + b);
    }
  }

  lemma AnyReadyOfConcat(a: seq<string>, b: seq<string>)
    ensures AnyReady(a + b) <==> AnyReady(a) || AnyReady(b)
  {
    if AnyReady(a) {
      var i :| 0 <= i < |a| && SaysReady(a[i]);
      assert SaysReady((a + b)[i]);
    }
    if AnyReady(b) {
      var i :| 0 <= i < |b| && SaysReady(b[i]);
      assert SaysReady((a + b)[|a| + i]);
    }
  }

  function OneIfNonEmpty(line: string): seq<string> {
    if line == [] then [] else [line]
  }

  function NonEmpty(lines: seq<string>): seq<string> {
    if lines == [] then [] else OneIfNonEmpty(lines[0]) + NonEmpty(lines[1..])
  }

  function Framed(prefix: string, lines: seq<string>): seq<string> {
    seq(|lines|, i requires 0 <= i < |lines| => prefix + lines[i] + "\n")
  }

  /** The buffers of a service and what is made of them; `written` is what went to the log, write by write. */
  class ServiceStreams {
    var notificationsBuffer: string
    var statusMsgs: seq<string>
    var signaledReady: bool
    var stdoutBuffer: string
    var written: seq<string>

    constructor ()
      ensures Drained()
      ensures notificationsBuffer == "" && statusMsgs == [] && !signaledReady && stdoutBuffer == "" && written == []
    {
      notificationsBuffer, statusMsgs, signaledReady, stdoutBuffer, written := "", [], false, "", [];
    }

    /** Every line is handled as soon as it is complete, so between two reads the buffers hold at most one unfinished line. */
    ghost predicate Drained()
      reads this
    {
      '\n' !in notificationsBuffer && '\n' !in stdoutBuffer
    }

    method HandleNotificationMessage(msg: string)
      requires Acceptable(msg)
      modifies this`statusMsgs, this`signaledReady
      ensures statusMsgs == old(statusMsgs) + StatusTexts([msg])
      ensures signaledReady == (old(signaledReady) || AnyReady([msg]))
    {
      var split := Pieces(msg);
      assert [msg][0] == msg && [msg][1..] == [];
      if split[0] == "STATUS" {
        statusMsgs := statusMsgs + [split[1]];
      } else if split[0] == "READY" {
        signaledReady := true;
      }
    }

    /** Every complete line in the buffer is handled as a message, in order; an incomplete last line stays. */
    method HandleNotificationsFromBuffer()
      requires AllAcceptable(MessagesIn(notificationsBuffer))
      modifies this`notificationsBuffer, this`statusMsgs, this`signaledReady
      ensures notificationsBuffer == Remainder(old(notificationsBuffer), '\n')
      ensures statusMsgs == old(statusMsgs) + StatusTexts(MessagesIn(old(notificationsBuffer)))
      ensures signaledReady == (old(signaledReady) || AnyReady(MessagesIn(old(notificationsBuffer))))
    {
      hide Split;
      hide AnyReady;
      hide AllAcceptable;
      hide StatusTexts;
      NoMessages();
      ghost var all := notificationsBuffer;
      ghost var handled: seq<string> := [];
      while '\n' in notificationsBuffer
        invariant Split(all, '\n') == handled + Split(notificationsBuffer, '\n')
        invariant AllAcceptable(handled) && AllAcceptable(MessagesIn(all))
        invariant statusMsgs == old(statusMsgs) + StatusTexts(handled)
        invariant signaledReady == (old(signaledReady) || AnyReady(handled))
        decreases |notificationsBuffer|
      {
        var pos := Position(notificationsBuffer, '\n');
        SplitFirst(notificationsBuffer, '\n', pos);
        var line := notificationsBuffer[..pos];
        notificationsBuffer := notificationsBuffer[pos + 1..];
        LineIsAcceptable(all, handled, line, Split(notificationsBuffer, '\n'));
        HandleNotificationMessage(line);
        StatusTextsOfConcat(handled, [line]);
        AnyReadyOfConcat(handled, [line]);
        handled := handled + [line];
      }
      SplitNone(notificationsBuffer, '\n');
      assert MessagesIn(all) == handled;
    }

    /** What is done with a received chunk. */
    method Receive(chunk: string)
      requires AllAcceptable(MessagesIn(notificationsBuffer + chunk))
      modifies this`notificationsBuffer, this`statusMsgs, this`signaledReady
      ensures old(Drained()) ==> Drained()
      ensures notificationsBuffer == Remainder(old(notificationsBuffer) + chunk, '\n')
      ensures statusMsgs == old(statusMsgs) + StatusTexts(MessagesIn(old(notificationsBuffer) + chunk))
      ensures signaledReady == (old(signaledReady) || AnyReady(MessagesIn(old(notificationsBuffer) + chunk)))
    {
      notificationsBuffer := notificationsBuffer + chunk;
      SplitIsFaithful(notificationsBuffer, '\n');
      HandleNotificationsFromBuffer();
    }

    /** Each complete line of the output that is not empty is written once, with the prefix and its newline. */
    method LogLines(prefix: string)
      modifies this`stdoutBuffer, this`written
      ensures stdoutBuffer == Remainder(old(stdoutBuffer), '\n')
      ensures written == old(written) + Framed(prefix, NonEmpty(Complete(old(stdoutBuffer), '\n')))
    {
      hide Split;
      hide NonEmpty;
      hide Framed;
      NothingLogged(prefix);
      ghost var all := stdoutBuffer;
      ghost var handled: seq<string> := [];
      while '\n' in stdoutBuffer
        invariant Split(all, '\n') == handled + Split(stdoutBuffer, '\n')
        invariant written == old(written) + Framed(prefix, NonEmpty(handled))
        decreases |stdoutBuffer|
      {
        var splitPos := Position(stdoutBuffer, '\n');
        SplitFirst(stdoutBuffer, '\n', splitPos);
        var line := stdoutBuffer[..splitPos];
        stdoutBuffer := stdoutBuffer[splitPos + 1..];
        NonEmptyOfConcat(handled, [line]);
        NonEmptyOfOne(line);
        FramedOfConcat(prefix, NonEmpty(handled), NonEmpty([line]));
        handled := handled + [line];
        if line == [] {
          continue;
        }
        written := written + [prefix + line + "\n"];
      }
      SplitNone(stdoutBuffer, '\n');
      assert Complete(all, '\n') == handled;
    }

    /** What is done with a chunk of output. */
    method ReadStdout(prefix: string, chunk: string)
      modifies this`stdoutBuffer, this`written
      ensures old(Drained()) ==> Drained()
      ensures stdoutBuffer == Remainder(old(stdoutBuffer) + chunk, '\n')
      ensures written == old(written) + Framed(prefix, NonEmpty(Complete(old(stdoutBuffer) + chunk, '\n')))
    {
      stdoutBuffer := stdoutBuffer + chunk;
      SplitIsFaithful(stdoutBuffer, '\n');
      LogLines(prefix);
    }
  }

  lemma NoMessages()
    ensures AllAcceptable([]) && !AnyReady([]) && StatusTexts([]) == []
  {
  }

  lemma LineIsAcceptable(all: string, handled: seq<string>, line: string, rest: seq<string>)
    requires AllAcceptable(Complete(all, '\n')) && Split(all, '\n') == handled + ([line] + rest) && rest != []
    ensures Acceptable(line) && AllAcceptable([line]) && (AllAcceptable(handled) ==> AllAcceptable(handled + [line]))
  {
    hide Split;
    assert Complete(all, '\n')[|handled|] == line;
  }

  lemma NothingLogged(prefix: string)
    ensures Framed(prefix, NonEmpty([])) == []
  {
  }

  lemma NonEmptyOfOne(line: string)
    ensures NonEmpty([line]) == OneIfNonEmpty(line)
  {
    assert [line][1..] == [];
  }

  lemma FramedOfConcat(prefix: string, a: seq<string>, b: seq<string>)
    ensures Framed(prefix, a + b) == Framed(prefix, a) + Framed(prefix, b)
    ensures Framed(prefix, []) == []
    ensures forall line :: Framed(prefix, [line]) == [prefix + line + "\n"]
  {
  }

  lemma NonEmptyOfCons(line: string, lines: seq<string>)
    ensures NonEmpty([line] + lines) == OneIfNonEmpty(line) + NonEmpty(lines)
  {
    assert ([line] + lines)[1..] == lines;
  }

  lemma {:induction false} NonEmptyOfConcat(a: seq<string>, b: seq<string>)
    ensures NonEmpty(a + b) == NonEmpty(a) + NonEmpty(b)
  {
    if a == [] {
      assert a + b == b;
    } else {
      hide NonEmpty;
      hide OneIfNonEmpty;
      NonEmptyOfConcat(a[1..], b);
      assert a == [a[0]] + a[1..] && a + b == [a[0]] + (a[1..] + b);
      NonEmptyOfCons(a[0], a[1..]);
      NonEmptyOfCons(a[0], a[1..] + b);
      var first, mine, yours := OneIfNonEmpty(a[0]), NonEmpty(a[1..]), NonEmpty(b);
      assert first + (mine + yours) == (first + mine) + yours;
    }
  }

  // ---------- chunking ----------

  function Concat(chunks: seq<string>): string {
    if chunks == [] then "" else Concat(chunks[..|chunks| - 1]) + chunks[|chunks| - 1]
  }

  lemma {:induction false} ConcatAt(chunks: seq<string>, i: nat)
    requires i <= |chunks|
    ensures Concat(chunks) == Concat(chunks[..i]) + Concat(chunks[i..])
  {
    if i == |chunks| {
      assert chunks[..i] == chunks && chunks[i..] == [];
    } else {
      var n := |chunks| - 1;
      ConcatAt(chunks[..n], i);
      assert chunks[..n][..i] == chunks[..i] && chunks[..n][i..] == chunks[i..n];
      assert chunks[i..][..n - i] == chunks[i..n];
    }
  }

  /** One more chunk adds the messages that it completes. */
  lemma OneMoreChunk(before: string, chunk: string, later: string)
    requires AllAcceptable(MessagesIn(before + chunk + later))
    ensures AllAcceptable(MessagesIn(before)) && AllAcceptable(MessagesIn(before + chunk))
    ensures AllAcceptable(MessagesIn(Remainder(before, '\n') + chunk))
    ensures StatusTexts(MessagesIn(before + chunk))
      == StatusTexts(MessagesIn(before)) + StatusTexts(MessagesIn(Remainder(before, '\n') + chunk))
    ensures AnyReady(MessagesIn(before + chunk))
      <==> AnyReady(MessagesIn(before)) || AnyReady(MessagesIn(Remainder(before, '\n') + chunk))
    ensures Remainder(before + chunk, '\n') == Remainder(Remainder(before, '\n') + chunk, '\n')
  {
    CompleteOfConcat(before + chunk, later, '\n');
    CompleteOfConcat(before, chunk, '\n');
    hide Complete;
    hide Remainder;
    hide AllAcceptable;
    hide AnyReady;
    var rest := Remainder(before + chunk, '\n') + later;
    AcceptablePart(MessagesIn(before + chunk), MessagesIn(rest));
    var mine := MessagesIn(Remainder(before, '\n') + chunk);
    AcceptablePart(MessagesIn(before), mine);
    StatusTextsOfConcat(MessagesIn(before), mine);
    AnyReadyOfConcat(MessagesIn(before), mine);
  }

  lemma OneMoreConcat(chunks: seq<string>, i: nat)
    requires i < |chunks|
    ensures Concat(chunks[..i + 1]) == Concat(chunks[..i]) + chunks[i]
  {
    assert chunks[..i + 1][..i] == chunks[..i];
  }

  lemma Regroup(buffer: string, front: string, chunk: string, later: string)
    ensures buffer + (front + chunk) == buffer + front + chunk
    ensures buffer + (front + chunk + later) == buffer + front + chunk + later
  {
  }

  lemma ChunkInStream(buffer: string, chunks: seq<string>, i: nat)
    requires i < |chunks|
    ensures buffer + Concat(chunks[..i + 1]) == buffer + Concat(chunks[..i]) + chunks[i]
    ensures buffer + Concat(chunks) == buffer + Concat(chunks[..i]) + chunks[i] + Concat(chunks[i + 1..])
  {
    hide Concat;
    OneMoreConcat(chunks, i);
    ConcatAt(chunks, i + 1);
    Regroup(buffer, Concat(chunks[..i]), chunks[i], Concat(chunks[i + 1..]));
  }

  lemma NothingReceived(buffer: string, chunks: seq<string>)
    requires '\n' !in buffer
    ensures buffer + Concat(chunks[..0]) == buffer && buffer + Concat([]) == buffer
    ensures Complete(buffer, '\n') == [] && MessagesIn(buffer) == [] && Remainder(buffer, '\n') == buffer
    ensures StatusTexts([]) == [] && AllAcceptable([]) && !AnyReady([])
  {
    SplitNone(buffer, '\n');
  }

  /** Receiving chunk after chunk leaves the service as if it had received everything at once. */
  method ReceiveAll(srvc: ServiceStreams, chunks: seq<string>)
    requires srvc.Drained() && AllAcceptable(MessagesIn(srvc.notificationsBuffer + Concat(chunks)))
    modifies srvc`notificationsBuffer, srvc`statusMsgs, srvc`signaledReady
    ensures srvc.Drained()
    ensures srvc.notificationsBuffer == Remainder(old(srvc.notificationsBuffer) + Concat(chunks), '\n')
    ensures AllAcceptable(MessagesIn(old(srvc.notificationsBuffer) + Concat(chunks)))
    ensures srvc.statusMsgs == old(srvc.statusMsgs) + StatusTexts(MessagesIn(old(srvc.notificationsBuffer) + Concat(chunks)))
    ensures srvc.signaledReady == (old(srvc.signaledReady) || AnyReady(MessagesIn(old(srvc.notificationsBuffer) + Concat(chunks))))
  {
    hide AnyReady;
    hide AllAcceptable;
    hide MessagesIn;
    hide Remainder;
    hide Concat;
    ghost var buffer := srvc.notificationsBuffer;
    NothingReceived(buffer, chunks);
    for i := 0 to |chunks|
      invariant srvc.Drained() && AllAcceptable(MessagesIn(buffer + Concat(chunks[..i])))
      invariant srvc.notificationsBuffer == Remainder(buffer + Concat(chunks[..i]), '\n')
      invariant srvc.statusMsgs == old(srvc.statusMsgs) + StatusTexts(MessagesIn(buffer + Concat(chunks[..i])))
      invariant srvc.signaledReady == (old(srvc.signaledReady) || AnyReady(MessagesIn(buffer + Concat(chunks[..i]))))
    {
      ChunkInStream(buffer, chunks, i);
      OneMoreChunk(buffer + Concat(chunks[..i]), chunks[i], Concat(chunks[i + 1..]));
      srvc.Receive(chunks[i]);
    }
    assert chunks[..|chunks|] == chunks;
  }

  // ---------- waiting for readiness ----------

  /** After the first `m` chunks the flag is set: it was before, or the stream has completed a READY message. */
  predicate ReadyBy(flag: bool, buffer: string, chunks: seq<string>, m: nat)
    requires m <= |chunks|
  {
    flag || AnyReady(MessagesIn(buffer + Concat(chunks[..m])))
  }

  /** Looking after each chunk, from the `m`-th on: whether the flag was found set, and after how many chunks. */
  function ReadyAt(flag: bool, buffer: string, chunks: seq<string>, m: nat): (bool, nat)
    requires m <= |chunks| + 1
    decreases |chunks| + 1 - m
  {
    if m == |chunks| + 1 then (false, |chunks|)
    else if ReadyBy(flag, buffer, chunks, m) then (true, m)
    else ReadyAt(flag, buffer, chunks, m + 1)
  }

  /**
   * The wait of a notify service: receive until a chunk has been received and the flag is set. Nothing resets the flag
   * or the buffer before, so they may be left over from an earlier run. The chunks are those that arrive in time.
   */
  method WaitForReady(srvc: ServiceStreams, chunks: seq<string>) returns (ready: bool, n: nat)
    requires srvc.Drained() && AllAcceptable(MessagesIn(srvc.notificationsBuffer + Concat(chunks)))
    modifies srvc`notificationsBuffer, srvc`statusMsgs, srvc`signaledReady
    ensures srvc.Drained()
    ensures (ready, n) == ReadyAt(old(srvc.signaledReady), old(srvc.notificationsBuffer), chunks, 1)
    ensures n <= |chunks| && srvc.signaledReady == (!ready && old(srvc.signaledReady))
    ensures AllAcceptable(MessagesIn(old(srvc.notificationsBuffer) + Concat(chunks[..n])))
    ensures srvc.statusMsgs
      == old(srvc.statusMsgs) + StatusTexts(MessagesIn(old(srvc.notificationsBuffer) + Concat(chunks[..n])))
    ensures srvc.notificationsBuffer == Remainder(old(srvc.notificationsBuffer) + Concat(chunks[..n]), '\n')
  {
    hide AnyReady;
    hide AllAcceptable;
    hide MessagesIn;
    hide Remainder;
    hide Concat;
    ghost var buffer, flag := srvc.notificationsBuffer, srvc.signaledReady;
    NothingReceived(buffer, chunks);
    n := 0;
    while n < |chunks|
      invariant n <= |chunks| && srvc.Drained() && srvc.signaledReady == flag && (n > 0 ==> !flag)
      invariant AllAcceptable(MessagesIn(buffer + Concat(chunks[..n])))
      invariant !AnyReady(MessagesIn(buffer + Concat(chunks[..n])))
      invariant ReadyAt(flag, buffer, chunks, 1) == ReadyAt(flag, buffer, chunks, n + 1)
      invariant srvc.notificationsBuffer == Remainder(buffer + Concat(chunks[..n]), '\n')
      invariant srvc.statusMsgs == old(srvc.statusMsgs) + StatusTexts(MessagesIn(buffer + Concat(chunks[..n])))
    {
      ChunkInStream(buffer, chunks, n);
      OneMoreChunk(buffer + Concat(chunks[..n]), chunks[n], Concat(chunks[n + 1..]));
      srvc.Receive(chunks[n]);
      n := n + 1;
      if srvc.signaledReady {
        srvc.signaledReady := false;
        return true, n;
      }
    }
    assert chunks[..|chunks|] == chunks;
    return false, n;
  }

  /** The wait ends after the first chunk with which the flag is set, and not at all if there is none. */
  lemma {:induction false} ReadyAtIsFirst(flag: bool, buffer: string, chunks: seq<string>, m: nat)
    requires 1 <= m <= |chunks| + 1
    ensures var (ready, n) := ReadyAt(flag, buffer, chunks, m);
      && n <= |chunks|
      && (ready ==> m <= n && ReadyBy(flag, buffer, chunks, n) && forall k :: m <= k < n ==> !ReadyBy(flag, buffer, chunks, k))
      && (!ready ==> n == |chunks| && forall k :: m <= k <= |chunks| ==> !ReadyBy(flag, buffer, chunks, k))
    decreases |chunks| + 1 - m
  {
    if m <= |chunks| && !ReadyBy(flag, buffer, chunks, m) {
      ReadyAtIsFirst(flag, buffer, chunks, m + 1);
    }
  }

  /** A message says READY exactly if it is the word itself or the word with any value, such as 0. */
  lemma SaysReadyIff(msg: string)
    ensures SaysReady(msg) <==> msg == "READY" || "READY=" <= msg
  {
    if "READY=" <= msg {
      assert msg[5] == '=' && msg[..5] == "READY";
      SplitFirst(msg, '=', 5);
    } else if '=' in msg {
      SplitFirst(msg, '=', Position(msg, '='));
    } else {
      SplitNone(msg, '=');
    }
  }

  /** A flag that is still set from an earlier run ends the next wait with the first chunk, whatever that says. */
  lemma LeftoverFlagEndsWait(buffer: string, chunks: seq<string>)
    requires chunks != []
    ensures ReadyAt(true, buffer, chunks, 1) == (true, 1)
  {
  }

  lemma OneMessage(buffer: string, line: string)
    requires '\n' !in buffer && '\n' !in line
    ensures MessagesIn(buffer + Concat([line + "\n"])) == [buffer + line]
  {
    var stream := buffer + Concat([line + "\n"]);
    assert [line + "\n"][..0] == [] && Concat([line + "\n"]) == Concat([]) + (line + "\n");
    var pos := |buffer| + |line|;
    assert stream[..pos] == buffer + line && stream[pos] == '\n' && stream[pos + 1..] == "";
    SplitFirst(stream, '\n', pos);
    SplitNone("", '\n');
  }

  /** One chunk that completes one message: whether the wait ends. */
  lemma OneChunkWait(buffer: string, line: string)
    requires '\n' !in buffer && '\n' !in line
    ensures ReadyAt(false, buffer, [line + "\n"], 1) == (SaysReady(buffer + line), 1)
    ensures AllAcceptable(MessagesIn(buffer + Concat([line + "\n"]))) <==> Acceptable(buffer + line)
  {
    var chunks := [line + "\n"];
    OneMessage(buffer, line);
    assert chunks[..1] == chunks;
    assert AnyReady([buffer + line]) <==> SaysReady(buffer + line) by {
      assert [buffer + line][0] == buffer + line;
    }
    assert AllAcceptable([buffer + line]) <==> Acceptable(buffer + line) by {
      assert [buffer + line][0] == buffer + line;
    }
    assert ReadyAt(false, buffer, chunks, 2) == (false, 1);
  }

  /** The wait with the flag and the buffer ends as one with neither, on every stream that both can handle. */
  ghost predicate WaitsForOwnReady(flag: bool, buffer: string) {
    forall chunks :: AllAcceptable(MessagesIn(buffer + Concat(chunks))) && AllAcceptable(MessagesIn(Concat(chunks))) ==>
      ReadyAt(flag, buffer, chunks, 1) == ReadyAt(false, "", chunks, 1)
  }

  lemma LeftoverMatters(flag: bool, buffer: string, chunks: seq<string>)
    requires AllAcceptable(MessagesIn(buffer + Concat(chunks))) && AllAcceptable(MessagesIn("" + Concat(chunks)))
    requires ReadyAt(flag, buffer, chunks, 1) != ReadyAt(false, "", chunks, 1)
    ensures !WaitsForOwnReady(flag, buffer)
  {
    assert "" + Concat(chunks) == Concat(chunks);
  }

  /**
   * What a caller has to see to before the service is started again: the wait ends exactly with the first READY message
   * of the new run, for every stream, if and only if the flag is clear and the buffer is empty.
   */
  lemma WaitsForOwnReadyIff(flag: bool, buffer: string)
    requires '\n' !in buffer
    ensures WaitsForOwnReady(flag, buffer) <==> !flag && buffer == ""
  {
    hide Concat;
    if flag {
      OneChunkWait(buffer, "");
      OneChunkWait("", "");
      LeftoverFlagMatters(buffer);
    } else if buffer != "" {
      BufferMatters(buffer);
    } else {
      forall chunks ensures "" + Concat(chunks) == Concat(chunks) {
      }
    }
  }

  lemma LeftoverFlagMatters(buffer: string)
    requires '\n' !in buffer
    ensures !WaitsForOwnReady(true, buffer)
  {
    var chunks := [""];
    assert Concat(chunks) == "" by {
      assert chunks[..0] == [];
    }
    assert buffer + Concat(chunks) == buffer && "" + Concat(chunks) == "";
    NothingReceived(buffer, chunks);
    NothingReceived("", chunks);
    LeftoverFlagEndsWait(buffer, chunks);
    assert chunks[..1] == chunks;
    assert ReadyAt(false, "", chunks, 2) == (false, 1);
    LeftoverMatters(true, buffer, chunks);
  }

  lemma BufferMatters(buffer: string)
    requires '\n' !in buffer && buffer != ""
    ensures !WaitsForOwnReady(false, buffer)
  {
    hide ReadyAt;
    hide SaysReady;
    if SaysReady(buffer) {
      ReadyIsAcceptable(buffer);
      OneChunkWait(buffer, "");
      OneChunkWait("", "");
      SaysReadyIff("");
      SplitNone("", '=');
      assert buffer + "" == buffer && "" + "" == "";
      LeftoverMatters(false, buffer, ["" + "\n"]);
    } else {
      OneChunkWait(buffer, "READY");
      OneChunkWait("", "READY");
      SaysReadyIff("READY");
      ReadyIsAcceptable("READY");
      assert "" + "READY" == "READY";
      PrefixedReady(buffer);
      LeftoverMatters(false, buffer, ["READY" + "\n"]);
    }
  }

  lemma ReadyIsAcceptable(msg: string)
    requires SaysReady(msg)
    ensures Acceptable(msg)
  {
  }

  /** Put behind an unfinished line that is not a READY message itself, the word is not one either. */
  lemma PrefixedReady(buffer: string)
    requires buffer != "" && !SaysReady(buffer)
    ensures !SaysReady(buffer + "READY") && Acceptable(buffer + "READY")
  {
    var msg := buffer + "READY";
    hide SaysReady;
    SaysReadyIff(msg);
    SaysReadyIff(buffer);
    assert |buffer| >= 6 ==> buffer[..6] == msg[..6];
    assert |buffer| < 6 ==> msg[5] == "READY"[5 - |buffer|];
    assert "READY="[5] == '=';
    if '=' !in msg {
      SplitNone(msg, '=');
      assert msg[|msg| - 1] == 'Y';
      assert "STATUS"[5] == 'S';
    } else {
      SplitFirst(msg, '=', Position(msg, '='));
    }
  }

  // ---------- logging ----------

  lemma OneMoreLoggedChunk(before: string, chunk: string)
    ensures NonEmpty(Complete(before + chunk, '\n'))
      == NonEmpty(Complete(before, '\n')) + NonEmpty(Complete(Remainder(before, '\n') + chunk, '\n'))
    ensures Remainder(before + chunk, '\n') == Remainder(Remainder(before, '\n') + chunk, '\n')
  {
    CompleteOfConcat(before, chunk, '\n');
    NonEmptyOfConcat(Complete(before, '\n'), Complete(Remainder(before, '\n') + chunk, '\n'));
  }

  /** Logging after every chunk writes the same lines, in the same order, as logging everything at once. */
  method LogAll(srvc: ServiceStreams, prefix: string, chunks: seq<string>)
    requires srvc.Drained()
    modifies srvc`stdoutBuffer, srvc`written
    ensures srvc.Drained()
    ensures srvc.stdoutBuffer == Remainder(old(srvc.stdoutBuffer) + Concat(chunks), '\n')
    ensures srvc.written
      == old(srvc.written) + Framed(prefix, NonEmpty(Complete(old(srvc.stdoutBuffer) + Concat(chunks), '\n')))
  {
    hide Complete;
    hide Remainder;
    hide Concat;
    hide NonEmpty;
    hide Framed;
    ghost var buffer := srvc.stdoutBuffer;
    NothingReceived(buffer, chunks);
    NothingLogged(prefix);
    for i := 0 to |chunks|
      invariant srvc.Drained() && srvc.stdoutBuffer == Remainder(buffer + Concat(chunks[..i]), '\n')
      invariant srvc.written == old(srvc.written) + Framed(prefix, NonEmpty(Complete(buffer + Concat(chunks[..i]), '\n')))
    {
      ChunkInStream(buffer, chunks, i);
      ghost var before := buffer + Concat(chunks[..i]);
      OneMoreLoggedChunk(before, chunks[i]);
      FramedOfConcat(prefix, NonEmpty(Complete(before, '\n')), NonEmpty(Complete(srvc.stdoutBuffer + chunks[i], '\n')));
      srvc.ReadStdout(prefix, chunks[i]);
    }
    assert chunks[..|chunks|] == chunks;
  }

  // ---------- status texts ----------

  /** A status text arrives whole exactly if it has no equals sign: the original keeps only what stands between two. */
  lemma StatusTextArrives(text: string)
    ensures Acceptable("STATUS=" + text)
    ensures StatusTexts(["STATUS=" + text]) == [text] <==> '=' !in text
  {
    var msg := "STATUS=" + text;
    assert msg[..6] == "STATUS" && msg[6 + 1..] == text;
    SplitFirst(msg, '=', 6);
    assert Pieces(msg) == ["STATUS"] + Split(text, '=');
    assert [msg][0] == msg && [msg][1..] == [] && Acceptable(msg);
    assert StatusTexts([msg]) == [Split(text, '=')[0]] + StatusTexts([]);
    if '=' !in text {
      SplitNone(text, '=');
    } else {
      SplitIsFaithful(text, '=');
      CutIsSplit(text, '=');
      var first := Split(text, '=')[0];
      assert '=' !in first;
      assert StatusTexts([msg])[0] == first;
    }
  }
}
