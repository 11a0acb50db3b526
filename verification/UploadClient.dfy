/** The browser's side of the chunked upload: the retry loop, when it ends, and what its normal
    return means. frontend/src/fileApi.js:19-82, 239-245 */
module UploadClient {
  import opened FileTree
  import opened Options
  import Recycle
  import Upload

  // ----- one round of the loop

  datatype ApiCode = TicketExpired | Unauthenticated | OffsetMismatch | InvalidResponse | UploadIncomplete | OtherCode

  datatype ClientError =
    | NetworkError
    | ApiError(code: ApiCode, status: int, retryable: bool)
    | Aborted

  predicate IsRetryable(error: ClientError) {
    match error
    case NetworkError => true
    case Aborted => false
    case ApiError(code, status, retryable) =>
      || retryable || status in {0, 408, 425, 429, 502, 503, 504}
      || code == TicketExpired || code == Unauthenticated || code == OffsetMismatch
  }

  /** The loop's variables. */
  datatype Progress = Progress(offset: nat, attempts: nat, finalizePending: bool)

  /** How a chunk request ended for the client. */
  datatype SendResult = Accepted(reported: int) | Errored(error: ClientError)

  /** How the wait, the new grant and the status request after an error ended. */
  datatype Recovery = GaveUp(error: ClientError) | Reported(complete: bool, offset: nat)

  datatype Response = Response(sent: SendResult, recovery: Recovery)

  datatype Step = Continue(next: Progress) | Returned | Thrown(error: ClientError)

  function Min(a: int, b: int): int { if a <= b then a else b }
  function Max(a: int, b: int): int { if a >= b then a else b }

  predicate Looping(size: nat, p: Progress) {
    p.offset < size || p.finalizePending
  }

  function Recover(size: nat, p: Progress, error: ClientError, recovery: Recovery): Step {
    if error.Aborted? || !IsRetryable(error) || p.attempts >= 4 then Thrown(error)
    else match recovery
      case GaveUp(e) => Thrown(e)
      case Reported(complete, offset) =>
        if complete then Returned
        else Continue(Progress(Min(offset, size), p.attempts + 1, Min(offset, size) == size))
  }

  function Round(size: nat, chunkSize: nat, p: Progress, r: Response): Step {
    var final := Min(p.offset + Max(1, chunkSize), size) == size;
    match r.sent
    case Errored(error) => Recover(size, p, error, r.recovery)
    case Accepted(reported) =>
      if final then Returned
      else if reported < 0 || reported > size then
        Recover(size, p, ApiError(InvalidResponse, 0, false), r.recovery)
      else Continue(Progress(reported, 0, false))
  }

  // ----- when the loop ends

  /** A round after which the node acknowledges no more than the client already had: a chunk
      accepted without advancing, or a status below the last offset. */
  predicate Setback(size: nat, chunkSize: nat, p: Progress, r: Response) {
    var step := Round(size, chunkSize, p, r);
    step.Continue? && (if step.next.attempts == 0 then step.next.offset <= p.offset else step.next.offset < p.offset)
  }

  datatype RoundInput = RoundInput(chunkSize: nat, response: Response)

  /** The loop runs through all these rounds without returning or throwing. */
  predicate RunsThrough(size: nat, p: Progress, rounds: seq<RoundInput>)
    decreases |rounds|
  {
    rounds == [] ||
    (&& Looping(size, p)
     && var step := Round(size, rounds[0].chunkSize, p, rounds[0].response);
     && step.Continue? && RunsThrough(size, step.next, rounds[1..]))
  }

  function Setbacks(size: nat, p: Progress, rounds: seq<RoundInput>): nat
    requires RunsThrough(size, p, rounds)
    decreases |rounds|
  {
    if rounds == [] then 0 else
      var step := Round(size, rounds[0].chunkSize, p, rounds[0].response);
      (if Setback(size, rounds[0].chunkSize, p, rounds[0].response) then 1 else 0) + Setbacks(size, step.next, rounds[1..])
  }

  /** Where the loop stands after the rounds. */
  function EndOf(size: nat, p: Progress, rounds: seq<RoundInput>): Progress
    requires RunsThrough(size, p, rounds)
    decreases |rounds|
  {
    if rounds == [] then p else
      EndOf(size, Round(size, rounds[0].chunkSize, p, rounds[0].response).next, rounds[1..])
  }

  lemma {:induction false} RunsOneMore(size: nat, p: Progress, rounds: seq<RoundInput>, last: RoundInput)
    requires RunsThrough(size, p, rounds) && Looping(size, EndOf(size, p, rounds))
    requires Round(size, last.chunkSize, EndOf(size, p, rounds), last.response).Continue?
    ensures RunsThrough(size, p, rounds + [last])
    ensures EndOf(size, p, rounds + [last]) == Round(size, last.chunkSize, EndOf(size, p, rounds), last.response).next
    decreases |rounds|
  {
    if rounds == [] {
      assert rounds + [last] == [last];
      assert [last][1..] == [];
    } else {
      var step := Round(size, rounds[0].chunkSize, p, rounds[0].response);
      RunsOneMore(size, step.next, rounds[1..], last);
      assert (rounds + [last])[1..] == rounds[1..] + [last];
    }
  }

  predicate InRange(size: nat, p: Progress) {
    p.offset <= size && p.attempts <= 4
  }

  /** The rounds left if there is no setback. */
  function Patience(size: nat, p: Progress): nat
    requires InRange(size, p)
  {
    5 * (size - p.offset) + (4 - p.attempts)
  }

  lemma RoundCosts(size: nat, chunkSize: nat, p: Progress, r: Response)
    requires InRange(size, p)
    ensures var step := Round(size, chunkSize, p, r); step.Continue? ==>
      && InRange(size, step.next)
      && (if Setback(size, chunkSize, p, r) then Patience(size, step.next) <= 5 * size + 4
          else Patience(size, step.next) < Patience(size, p))
  {
  }

  /** Without setbacks (size - offset, 4 - attempts) falls lexicographically at every round; each
      setback allows at most 5 * size + 5 more. */
  lemma {:induction false} LoopIsBounded(size: nat, p: Progress, rounds: seq<RoundInput>)
    requires InRange(size, p) && RunsThrough(size, p, rounds)
    ensures |rounds| <= Patience(size, p) + Setbacks(size, p, rounds) * (5 * size + 5)
    decreases |rounds|
  {
    if rounds != [] {
      var step := Round(size, rounds[0].chunkSize, p, rounds[0].response);
      RoundCosts(size, rounds[0].chunkSize, p, rounds[0].response);
      LoopIsBounded(size, step.next, rounds[1..]);
      OneMoreSetback(Setbacks(size, step.next, rounds[1..]), 5 * size + 5);
    }
  }

  lemma RoundLands(size: nat, chunkSize: nat, p: Progress, r: Response)
    requires p.attempts <= 4
    ensures var step := Round(size, chunkSize, p, r); step.Continue? ==> InRange(size, step.next)
  {
  }

  /** Wherever the client was told to start. */
  lemma LoopIsBoundedAnywhere(size: nat, p: Progress, rounds: seq<RoundInput>)
    requires p.attempts <= 4 && RunsThrough(size, p, rounds)
    ensures |rounds| <= (Setbacks(size, p, rounds) + 1) * (5 * size + 5)
  {
    var cost := 5 * size + 5;
    if InRange(size, p) {
      LoopIsBounded(size, p, rounds);
      OneMoreSetback(Setbacks(size, p, rounds), cost);
    } else if rounds != [] {
      var step := Round(size, rounds[0].chunkSize, p, rounds[0].response);
      RoundLands(size, rounds[0].chunkSize, p, rounds[0].response);
      LoopIsBounded(size, step.next, rounds[1..]);
      OneMoreSetback(Setbacks(size, step.next, rounds[1..]), cost);
      OneMoreSetback(Setbacks(size, p, rounds), cost);
      MoreSetbacks(Setbacks(size, step.next, rounds[1..]), Setbacks(size, p, rounds), cost);
    }
  }

  lemma MoreSetbacks(m: nat, n: nat, cost: nat)
    requires m <= n
    ensures m * cost <= n * cost
  {
  }

  lemma OneMoreSetback(n: nat, cost: nat)
    ensures (1 + n) * cost == cost + n * cost
  {
  }

  /** A lost connection, a ticket that has run out, an offset that has moved on, or a node that says
      it is busy, unreachable or worth asking again. */
  predicate Passing(error: ClientError) {
    || error.NetworkError?
    || (error.ApiError? && (error.code in {TicketExpired, Unauthenticated, OffsetMismatch} || error.retryable))
    || (error.ApiError? && error.status in {0, 408, 425, 429, 502, 503, 504})
  }

  /** An error that may pass, after which the node could be asked how far the upload is. */
  predicate Transient(r: Response) {
    r.sent.Errored? && Passing(r.sent.error) && r.recovery.Reported? && !r.recovery.complete
  }

  /** Up to four transient errors in a row are survived, wherever the node says to go on; the next
      one is thrown. */
  lemma {:induction false} TransientIsRetried(size: nat, p: Progress, rounds: seq<RoundInput>, last: RoundInput)
    requires Looping(size, p) && p.attempts + |rounds| <= 4 && Transient(last.response)
    requires forall i :: 0 <= i < |rounds| ==> Transient(rounds[i].response)
    ensures RunsThrough(size, p, rounds) && Looping(size, EndOf(size, p, rounds))
    ensures EndOf(size, p, rounds).attempts == p.attempts + |rounds|
    ensures Round(size, last.chunkSize, EndOf(size, p, rounds), last.response) ==
      if p.attempts + |rounds| < 4 then
        var offset := Min(last.response.recovery.offset, size);
        Continue(Progress(offset, p.attempts + |rounds| + 1, offset == size))
      else Thrown(last.response.sent.error)
    ensures forall error :: !Passing(error) ==>
      Round(size, last.chunkSize, p, Response(Errored(error), last.response.recovery)) == Thrown(error)
    decreases |rounds|
  {
    if rounds != [] {
      var step := Round(size, rounds[0].chunkSize, p, rounds[0].response);
      assert Transient(rounds[0].response);
      TransientIsRetried(size, step.next, rounds[1..], last);
    }
  }

  /** A node that forgets the upload after every chunk keeps the loop going for ever: a chunk of one
      byte is accepted, the next request fails, the status is zero again. */
  function Forgetful(n: nat): seq<RoundInput> {
    if n == 0 then [] else
      [ RoundInput(1, Response(Accepted(1), GaveUp(NetworkError))),
        RoundInput(1, Response(Errored(NetworkError), Reported(false, 0))) ] + Forgetful(n - 1)
  }

  lemma {:induction false} ForgetfulNodeNeverEnds(size: nat, attempts: nat, n: nat)
    requires size >= 2 && attempts <= 4
    ensures |Forgetful(n)| == 2 * n
    ensures RunsThrough(size, Progress(0, attempts, false), Forgetful(n))
    ensures Setbacks(size, Progress(0, attempts, false), Forgetful(n)) == n
    decreases n
  {
    if n > 0 {
      var rounds, rest := Forgetful(n), Forgetful(n - 1);
      ForgetfulNodeNeverEnds(size, 1, n - 1);
      assert rounds[1..][1..] == rest;
      var after := Progress(1, 0, false);
      assert Round(size, 1, Progress(0, attempts, false), rounds[0].response) == Continue(after);
      assert Round(size, 1, after, rounds[1..][0].response) == Continue(Progress(0, 1, false));
      assert RunsThrough(size, after, rounds[1..]);
      assert Setbacks(size, after, rounds[1..]) == 1 + (n - 1);
    }
  }

  // ----- the loop against a node

  /** What may happen to the session on the node while the client waits. */
  method Disturb(upload: Upload.UploadSession)
    requires upload.Valid()
    modifies upload, upload.files.disk
    ensures upload.Valid() && old(upload.published) <= upload.published
    ensures upload.files.disk.faults >= old(upload.files.disk.faults)
  {
    if {
      case true =>
      case true => upload.Expire();
      case true => upload.Interfere();
      case true => upload.Restart();
      case true => var _ := upload.RemoveSession();
    }
  }

  ghost predicate Faultless(faults: nat, upload: Upload.UploadSession)
    reads upload.files.disk`faults
  {
    upload.files.disk.faults == faults
  }

  /** The node has stored the chunk and nothing else has changed that matters to the next one. */
  ghost predicate Advanced(upload: Upload.UploadSession, before: Tree, request: Upload.ChunkRequest)
    requires request.offset >= 0
    reads upload, upload.files.disk`tree
  {
    && upload.removals == 0 && upload.session == Some(Upload.Receiving)
    && upload.StoredIn(upload.files.disk.tree) == Upload.Grown(upload.StoredIn(before), request.offset, request.source)
    && Upload.OnlyTemp(before, upload.files.disk.tree, upload.temp, |upload.relative|)
  }

  /** The node has stored the first bytes of the file, and its target may be written. */
  ghost predicate OpenFor(upload: Upload.UploadSession, file: Bytes, id: Name, overwrite: bool, offset: nat)
    reads upload, upload.files.disk`tree
  {
    var t := upload.files.disk.tree;
    && upload.removals == 0 && (upload.session.None? || upload.session == Some(Upload.Receiving))
    && offset <= |file| <= upload.files.maxUpload
    && upload.StoredIn(t) == file[..offset] && (upload.temp in t ==> t[upload.temp].File?)
    && !Recycle.Blocked(t, upload.relative) && Recycle.MayReplace(t, upload.relative, overwrite, None)
    && (upload.relative in t ==> Recycle.CanRecycle(t, id, upload.relative))
  }

  function AsClientError(why: Upload.Rejection, status: int, retryable: bool): ClientError {
    ApiError(if why.WrongOffset? then OffsetMismatch else OtherCode, status, retryable)
  }

  /** One chunk request; the request or its answer may get lost. When it is calm nothing does, and
      nothing else happens to the session. */
  method SendChunk(upload: Upload.UploadSession, id: Name, request: Upload.ChunkRequest, calm: bool) returns (sent: SendResult)
    requires upload.Valid() && Recycle.ValidId(id) && Upload.FromContent(request, upload.content)
    modifies upload, upload.files.disk
    ensures upload.Valid() && old(upload.published) <= upload.published
    ensures sent.Accepted? ==> sent.reported == request.offset + |request.source|
    ensures sent.Accepted? && request.final ==> upload.published != []
    ensures calm && Faultless(old(upload.files.disk.faults), upload) && old(upload.removals) == 0 ==> (sent.Accepted? <==>
      upload.Admissible(request) && upload.Accepts(old(upload.files.disk.tree), old(upload.session), id, request))
    ensures calm && Faultless(old(upload.files.disk.faults), upload) && old(upload.removals) == 0 && sent.Accepted? && !request.final ==>
      Advanced(upload, old(upload.files.disk.tree), request)
    ensures upload.files.disk.faults >= old(upload.files.disk.faults)
  {
    var error: ClientError := *;
    if !calm {
      Disturb(upload);
      var lost: bool := *;
      if lost {
        return Errored(error);
      }
    }
    var received: bool, idle: bool := *, *;
    var reply := upload.UploadChunk(id, request, calm || received, !calm && idle);
    if !calm {
      var lost: bool := *;
      if lost {
        return Errored(error);
      }
    }
    match reply
    case Ack(next, _) =>
      sent := Accepted(next);
    case Rejected(why) =>
      var status: int, retryable: bool := *, *;
      sent := Errored(AsClientError(why, status, retryable));
  }

  /** The slice the client sends next. */
  ghost predicate Next(request: Upload.ChunkRequest, file: Bytes, overwrite: bool, offset: nat, end: nat) {
    && offset <= end <= |file|
    && request == Upload.ChunkRequest(offset, file[offset..end], end == |file|, |file|, None, overwrite, None)
  }

  /** A node that is open for an offset accepts the next slice. */
  lemma NextIsAccepted(upload: Upload.UploadSession, file: Bytes, id: Name, overwrite: bool, offset: nat, end: nat, request: Upload.ChunkRequest)
    requires OpenFor(upload, file, id, overwrite, offset) && Next(request, file, overwrite, offset, end)
    requires end - offset <= Upload.CHUNK_SIZE
    ensures upload.Admissible(request) && upload.Accepts(upload.files.disk.tree, upload.session, id, request)
    ensures Upload.Grown(file[..offset], offset, request.source) == file[..end]
  {
    hide Recycle.Blocked, Recycle.MayReplace, Recycle.CanRecycle;
    assert file[..offset] + file[offset..end] == file[..end];
    if end == |file| { assert file[..end] == file; }
  }

  /** Once it has stored the slice it is open for the next offset. */
  lemma OpenForNext(upload: Upload.UploadSession, before: Tree, file: Bytes, id: Name, overwrite: bool, offset: nat, end: nat,
                    request: Upload.ChunkRequest)
    requires upload.Valid() && |file| <= upload.files.maxUpload
    requires Next(request, file, overwrite, offset, end) && upload.StoredIn(before) == file[..offset]
    requires Upload.Grown(file[..offset], offset, request.source) == file[..end]
    requires !Recycle.Blocked(before, upload.relative) && Recycle.MayReplace(before, upload.relative, overwrite, None)
    requires upload.relative in before ==> Recycle.CanRecycle(before, id, upload.relative)
    requires Advanced(upload, before, request)
    ensures OpenFor(upload, file, id, overwrite, end)
  {
    var t := upload.files.disk.tree;
    StaysFree(before, t, upload.temp, upload.relative);
    StaysRecyclable(before, t, upload.temp, id, upload.relative);
  }

  lemma StaysFree(before: Tree, t: Tree, temp: Path, relative: Path)
    requires Upload.OnlyTemp(before, t, temp, |relative|) && Recycle.TempFor(temp, relative)
    requires !Recycle.Blocked(before, relative)
    ensures !Recycle.Blocked(t, relative) && (relative in t <==> relative in before)
    ensures relative in before ==> t[relative] == before[relative]
  {
    forall i | 1 <= i <= |relative| && relative[..i] in t
      ensures t[relative[..i]] != Symlink && (i < |relative| ==> t[relative[..i]] == Dir)
    {
      assert relative[..|relative|] == relative;
      assert relative[..i] != temp by { assert |Parent(temp)| == |Parent(relative)|; }
    }
  }

  lemma StaysRecyclable(before: Tree, t: Tree, temp: Path, id: Name, relative: Path)
    requires Upload.OnlyTemp(before, t, temp, |relative|) && Recycle.TempFor(temp, relative) && WellFormed(t)
    requires relative in before ==> Recycle.CanRecycle(before, id, relative)
    ensures relative in before ==> Recycle.CanRecycle(t, id, relative)
  {
  }

  /** Waiting, a new grant and the status request, any of which may fail. */
  method RecoverFrom(upload: Upload.UploadSession) returns (recovery: Recovery)
    requires upload.Valid()
    modifies upload, upload.files.disk
    ensures upload.Valid() && old(upload.published) <= upload.published
    ensures recovery.Reported? ==> recovery.offset <= |upload.content|
    ensures recovery.Reported? && recovery.complete ==> upload.published != []
    ensures upload.files.disk.faults >= old(upload.files.disk.faults)
  {
    Disturb(upload);
    var error: ClientError := *;
    if * {
      return GaveUp(error);
    }
    var status := upload.Status();
    if status.None? {
      return GaveUp(error);
    }
    return Reported(status.value.complete, status.value.offset);
  }

  datatype Ending = Normally | WithError(error: ClientError) | StillLooping

  datatype Settings = Settings(resume: bool, offset: nat)

  /** The loop goes on behind the slice, and the node is open for the next one. */
  ghost predicate Forward(upload: Upload.UploadSession, file: Bytes, id: Name, overwrite: bool, p: Progress, step: Step)
    reads upload, upload.files.disk`tree
  {
    && step.Continue? && p.offset < step.next.offset < |file| && step.next.attempts == 0 && !step.next.finalizePending
    && OpenFor(upload, file, id, overwrite, step.next.offset)
  }

  lemma OpenWithin(upload: Upload.UploadSession, file: Bytes, id: Name, overwrite: bool, offset: nat)
    requires OpenFor(upload, file, id, overwrite, offset)
    ensures offset <= |file|
  {
  }

  /** Sends the slice up to end; one behind the offset is empty. */
  method SendNext(upload: Upload.UploadSession, file: Bytes, id: Name, overwrite: bool, offset: nat, end: nat, calm: bool)
    returns (sent: SendResult)
    requires upload.Valid() && Recycle.ValidId(id) && file == upload.content && end <= |file|
    modifies upload, upload.files.disk
    ensures upload.Valid() && old(upload.published) <= upload.published
    ensures sent.Accepted? ==> sent.reported == if offset <= end then end else offset
    ensures sent.Accepted? && end == |file| ==> upload.published != []
    ensures calm && Faultless(old(upload.files.disk.faults), upload) && old(OpenFor(upload, file, id, overwrite, offset)) ==>
      !(offset <= end <= offset + Upload.CHUNK_SIZE) || (sent.Accepted? && (end == |file| || OpenFor(upload, file, id, overwrite, end)))
    ensures upload.files.disk.faults >= old(upload.files.disk.faults)
  {
    hide Recycle.ValidId, Upload.UploadSession.Valid;
    var chunk := if offset <= end then file[offset..end] else [];
    var request := Upload.ChunkRequest(offset, chunk, end == |file|, |file|, None, overwrite, None);
    ghost var before := upload.files.disk.tree;
    ghost var expected := OpenFor(upload, file, id, overwrite, offset) && offset <= end <= offset + Upload.CHUNK_SIZE;
    if expected { NextIsAccepted(upload, file, id, overwrite, offset, end, request); }
    sent := SendChunk(upload, id, request, calm);
    if calm && Faultless(old(upload.files.disk.faults), upload) && expected && sent.Accepted? && end < |file| {
      OpenForNext(upload, before, file, id, overwrite, offset, end, request);
    }
  }

  /** One pass of the loop. */
  method TakeRound(upload: Upload.UploadSession, file: Bytes, id: Name, overwrite: bool, chunkSize: nat, p: Progress, calm: bool)
    returns (step: Step, response: Response)
    requires upload.Valid() && Recycle.ValidId(id) && file == upload.content
    modifies upload, upload.files.disk
    ensures upload.Valid() && old(upload.published) <= upload.published
    ensures step == Round(|file|, chunkSize, p, response) || (step == Thrown(Aborted) && !calm)
    ensures step.Returned? ==> upload.published != []
    ensures calm && Faultless(old(upload.files.disk.faults), upload) && old(OpenFor(upload, file, id, overwrite, p.offset)) ==>
      chunkSize > Upload.CHUNK_SIZE || step == Returned || Forward(upload, file, id, overwrite, p, step)
    ensures upload.files.disk.faults >= old(upload.files.disk.faults)
  {
    hide IsRetryable, Recycle.ValidId, Upload.UploadSession.Valid, OpenFor;
    response := Response(Errored(Aborted), GaveUp(Aborted));
    var aborted: bool := *;
    if aborted && !calm {
      return Thrown(Aborted), response;
    }
    var end := Min(p.offset + Max(1, chunkSize), |file|);
    var final := end == |file|;
    if OpenFor(upload, file, id, overwrite, p.offset) { OpenWithin(upload, file, id, overwrite, p.offset); }
    var sent := SendNext(upload, file, id, overwrite, p.offset, end, calm);
    response := Response(sent, GaveUp(Aborted));
    var error := if sent.Accepted? then ApiError(InvalidResponse, 0, false) else sent.error;
    if sent.Accepted? {
      var offset := if final then |file| else sent.reported;
      if 0 <= offset <= |file| {
        return if final then Returned else Continue(Progress(offset, 0, false)), response;
      }
    }
    if error.Aborted? || !IsRetryable(error) || p.attempts >= 4 {
      return Thrown(error), response;
    }
    var recovery := RecoverFrom(upload);
    response := Response(sent, recovery);
    if recovery.GaveUp? {
      return Thrown(recovery.error), response;
    }
    if recovery.complete {
      return Returned, response;
    }
    var offset := Min(recovery.offset, |file|);
    step := Continue(Progress(offset, p.attempts + 1, offset == |file|));
  }

  /** The chunk size a grant carries; it is the node's to choose. */
  method ChunkSizeOfGrant(calm: bool) returns (chunkSize: nat)
    ensures calm ==> chunkSize <= Upload.CHUNK_SIZE
  {
    chunkSize := *;
    if calm && chunkSize > Upload.CHUNK_SIZE { chunkSize := Upload.CHUNK_SIZE; }
  }

  /** The client, watched for at most the given number of rounds. It ends normally only when the
      node has published the whole content. Each error brings a new grant, with its own chunk size.
      When it is calm and no call on the node fails, it does end normally, after a round for each byte
      at most. */
  method UploadFile(upload: Upload.UploadSession, file: Bytes, id: Name, overwrite: bool, settings: Settings, rounds: nat, calm: bool)
    returns (ending: Ending, ghost taken: seq<RoundInput>, ghost start: Progress)
    requires upload.Valid() && Recycle.ValidId(id) && file == upload.content
    modifies upload, upload.files.disk
    ensures upload.Valid()
    ensures ending.Normally? ==> upload.published != [] && upload.published[|upload.published| - 1] == file
    ensures RunsThrough(|file|, start, taken) && |taken| <= rounds
    ensures start.offset == settings.offset || start.offset <= |file|
    ensures start.attempts == 0
    ensures ending.StillLooping? ==> |taken| == rounds
    ensures calm && Faultless(old(upload.files.disk.faults), upload) && old(OpenFor(upload, file, id, overwrite, 0)) ==>
      settings != Settings(false, 0) || rounds <= |file| || ending == Normally
    ensures upload.files.disk.faults >= old(upload.files.disk.faults)
  {
    var p := Progress(settings.offset, 0, |file| == 0);
    start, taken := p, [];
    var chunkSize: nat := ChunkSizeOfGrant(calm);
    if settings.resume {
      var status := RecoverFrom(upload);
      if status.GaveUp? {
        return WithError(status.error), taken, start;
      }
      if status.complete {
        return Normally, taken, start;
      }
      p := Progress(Min(status.offset, |file|), 0, Min(status.offset, |file|) == |file|);
      start := p;
    }
    var left := rounds;
    while Looping(|file|, p)
      invariant upload.Valid() && RunsThrough(|file|, start, taken)
      invariant EndOf(|file|, start, taken) == p && |taken| + left == rounds
      invariant upload.files.disk.faults >= old(upload.files.disk.faults)
      invariant calm ==> chunkSize <= Upload.CHUNK_SIZE
      invariant calm && Faultless(old(upload.files.disk.faults), upload) && old(OpenFor(upload, file, id, overwrite, 0)) ==>
        || settings != Settings(false, 0)
        || (Looping(|file|, p) && |taken| <= p.offset && OpenFor(upload, file, id, overwrite, p.offset))
      decreases left
    {
      if left == 0 {
        return StillLooping, taken, start;
      }
      left := left - 1;
      var step, response := TakeRound(upload, file, id, overwrite, chunkSize, p, calm);
      match step
      case Returned =>
        return Normally, taken, start;
      case Thrown(error) =>
        return WithError(error), taken, start;
      case Continue(next) =>
        RunsOneMore(|file|, start, taken, RoundInput(chunkSize, response));
        taken := taken + [RoundInput(chunkSize, response)];
        p := next;
        if next.attempts > 0 {
          chunkSize := ChunkSizeOfGrant(calm);
        }
    }
    ending := WithError(ApiError(UploadIncomplete, 0, true));
  }

  /** Watched long enough for the setbacks it met, the client is no longer looping. */
  method UploadEnds(upload: Upload.UploadSession, file: Bytes, id: Name, overwrite: bool, settings: Settings, rounds: nat, calm: bool)
    returns (ending: Ending, ghost taken: seq<RoundInput>, ghost start: Progress)
    requires upload.Valid() && Recycle.ValidId(id) && file == upload.content
    modifies upload, upload.files.disk
    ensures RunsThrough(|file|, start, taken) && (ending.StillLooping? ==> |taken| == rounds)
    ensures |taken| <= (Setbacks(|file|, start, taken) + 1) * (5 * |file| + 5)
    ensures (Setbacks(|file|, start, taken) + 1) * (5 * |file| + 5) < rounds ==> !ending.StillLooping?
  {
    hide Setbacks, RunsThrough, Recycle.ValidId, Upload.UploadSession.Valid;
    ending, taken, start := UploadFile(upload, file, id, overwrite, settings, rounds, calm);
    LoopIsBoundedAnywhere(|file|, start, taken);
  }
}
