/** Conservation of files over whole runs: file requests and upload sessions on one workspace, in any
    order, with any failures. daemon/internal/files/recycle.go, daemon/internal/files/service.go:250-892 */
module Workspace {
  import opened FileTree
  import opened Options
  import opened Recycle
  import Upload

  /** A request with the random names it draws, or an event of one of the upload sessions. */
  datatype Event = Ask(request: Request, names: Names) | ToSession(session: nat, step: Upload.SessionEvent)

  datatype Reply = Answered(result: Outcome, overwrote: bool) | FromSession(reply: Option<Upload.Reply>) | Ignored

  predicate Overwrote(reply: Reply) {
    reply.Answered? && reply.overwrote
  }

  /** The files an event may cost for good: one that a Save wrote over while the bin did not get it,
      those in purged entries, and what an upload has stored under its temporary name so far. */
  ghost function Risk(t: Tree, event: Event, uploads: seq<Upload.UploadSession>, overwrote: bool): set<(nat, Bytes)> {
    match event
    case Ask(request, _) => if request.SaveRequest? && !overwrote then {} else Stakes(t, request)
    case ToSession(session, _) => if session < |uploads| then FileAt(t, uploads[session].temp) else {}
  }

  /** The workspace and its sessions between two events, and how many calls had failed at will. */
  datatype Point = Point(tree: Tree, faults: nat, sessions: seq<Upload.Moment>, limits: Limits)

  ghost function Here(service: FileService, uploads: seq<Upload.UploadSession>): Point
    requires forall s :: s in uploads ==> s.files == service
    reads service.disk, uploads
  {
    Point(service.disk.tree, service.disk.faults,
          seq(|uploads|, i requires 0 <= i < |uploads| && uploads[i].files == service reads service.disk, uploads => uploads[i].Now()),
          Limits(service.maxEdit, service.maxUpload))
  }

  /** What an event does: a request what it asks for, or it says why not; a session its step. */
  ghost predicate Worked(before: Point, after: Point, event: Event, uploads: seq<Upload.UploadSession>, reply: Reply)
    requires |before.sessions| == |after.sessions| == |uploads|
  {
    match event
    case Ask(request, names) =>
      Drawn(names, before.tree, request) ==>
        && reply.Answered?
        && (reply.result.Done? ==> Did(before.tree, after.tree, request, names, reply.overwrote))
        && (before.faults == after.faults && reply.result.Failed? ==> Refusable(before.tree, after.tree, request, names, before.limits))
    case ToSession(i, step) =>
      i < |uploads| && (step.Chunk? ==> ValidId(step.id)) ==>
        reply.FromSession? && uploads[i].Stepped(step, reply.reply, before.sessions[i], after.sessions[i])
  }

  /** One event of a run. A Save that wrote over a file with no other name has lost it, and does so
      only if a call failed meanwhile. */
  ghost predicate Happened(before: Point, after: Point, event: Event, uploads: seq<Upload.UploadSession>, reply: Reply) {
    && |before.sessions| == |after.sessions| == |uploads| && before.limits == after.limits
    && Worked(before, after, event, uploads, reply)
    && Files(before.tree) <= Files(after.tree) + Risk(before.tree, event, uploads, Overwrote(reply))
    && before.faults <= after.faults
    && (Overwrote(reply) ==> event.Ask? && event.request.SaveRequest? && before.faults < after.faults)
    && (Overwrote(reply) && OneName(before.tree, event.request.relative) ==> !(Files(before.tree) <= Files(after.tree)))
  }

  ghost predicate IsHistory(points: seq<Point>, events: seq<Event>, uploads: seq<Upload.UploadSession>, replies: seq<Reply>) {
    && |points| == |events| + 1 && |replies| == |events|
    && forall i :: 0 <= i < |events| ==> Happened(points[i], points[i + 1], events[i], uploads, replies[i])
  }

  lemma HappenedFacts(before: Point, after: Point, event: Event, uploads: seq<Upload.UploadSession>, reply: Reply)
    requires Happened(before, after, event, uploads, reply)
    ensures Files(before.tree) <= Files(after.tree) + Risk(before.tree, event, uploads, Overwrote(reply))
    ensures before.faults <= after.faults
    ensures Overwrote(reply) ==> event.Ask? && event.request.SaveRequest? && before.faults < after.faults
  {
    hide Worked, Files, Risk, OneName;
  }

  /** A file of the start that is nowhere at the end left with an event that put it at risk: a Save
      over its path during which a call failed and which the bin missed, a purge of its entry, or an
      upload that stored it so far. */
  lemma {:induction false} LostAtRisk(points: seq<Point>, events: seq<Event>, uploads: seq<Upload.UploadSession>, replies: seq<Reply>, file: (nat, Bytes))
    returns (i: nat)
    requires IsHistory(points, events, uploads, replies) && file in Files(points[0].tree) && file !in Files(points[|events|].tree)
    ensures i < |events| && file in Files(points[i].tree) && file !in Files(points[i + 1].tree)
    ensures file in Risk(points[i].tree, events[i], uploads, Overwrote(replies[i]))
    ensures events[i].Ask? && events[i].request.SaveRequest? ==> Overwrote(replies[i]) && points[i].faults < points[i + 1].faults
    decreases |events|
  {
    hide Files, Happened;
    assert Happened(points[0], points[0 + 1], events[0], uploads, replies[0]);
    HappenedFacts(points[0], points[1], events[0], uploads, replies[0]);
    if file !in Files(points[1].tree) {
      i := 0;
    } else {
      HistoryAfter(points, events, uploads, replies);
      var k := LostAtRisk(points[1..], events[1..], uploads, replies[1..], file);
      i := k + 1;
    }
  }

  lemma HistoryAfter(points: seq<Point>, events: seq<Event>, uploads: seq<Upload.UploadSession>, replies: seq<Reply>)
    requires |events| > 0 && IsHistory(points, events, uploads, replies)
    ensures IsHistory(points[1..], events[1..], uploads, replies[1..])
  {
    hide Happened;
    forall j | 0 <= j < |events| - 1
      ensures Happened(points[1..][j], points[1..][j + 1], events[1..][j], uploads, replies[1..][j])
    {
      assert Happened(points[j + 1], points[j + 1 + 1], events[j + 1], uploads, replies[j + 1]);
    }
  }

  lemma {:induction false} FaultsRise(points: seq<Point>, events: seq<Event>, uploads: seq<Upload.UploadSession>, replies: seq<Reply>, i: nat, j: nat)
    requires IsHistory(points, events, uploads, replies) && i <= j <= |events|
    ensures points[i].faults <= points[j].faults
    decreases j - i
  {
    hide Happened;
    if i < j {
      assert Happened(points[i], points[i + 1], events[i], uploads, replies[i]);
      HappenedFacts(points[i], points[i + 1], events[i], uploads, replies[i]);
      FaultsRise(points, events, uploads, replies, i + 1, j);
    }
  }

  /** In a history in which no call failed, only purges and the temporary files of uploads cost files. */
  lemma SavesLoseNothing(points: seq<Point>, events: seq<Event>, uploads: seq<Upload.UploadSession>, replies: seq<Reply>, file: (nat, Bytes))
    returns (i: nat)
    requires IsHistory(points, events, uploads, replies) && points[|events|].faults == points[0].faults
    requires file in Files(points[0].tree) && file !in Files(points[|events|].tree)
    ensures i < |events| && file in Risk(points[i].tree, events[i], uploads, false)
    ensures events[i].ToSession? || events[i].request.PurgeRequest? || events[i].request.ClearRequest?
  {
    hide Files, Happened;
    i := LostAtRisk(points, events, uploads, replies, file);
    FaultsRise(points, events, uploads, replies, 0, i);
    FaultsRise(points, events, uploads, replies, i + 1, |events|);
  }

  lemma WithoutOne(t: Tree, u: Tree, p: Path)
    requires Files(t - {p}) <= Files(u)
    ensures Files(t) <= Files(u) + FileAt(t, p)
  {
    forall q | q in t && t[q].File? && q != p ensures (t[q].number, t[q].data) in Files(t - {p}) {
      assert (t - {p})[q] == t[q];
    }
  }

  method HandleEvent(service: FileService, uploads: seq<Upload.UploadSession>, event: Event) returns (reply: Reply)
    requires service.disk.Valid() && BinTidy(service.disk.tree)
    requires forall s :: s in uploads ==> s.files == service && TempFor(s.temp, s.relative)
    modifies service.disk, set s | s in uploads
    ensures service.disk.Valid() && BinTidy(service.disk.tree)
    ensures Happened(old(Here(service, uploads)), Here(service, uploads), event, uploads, reply)
  {
    hide Files, FileAt, Stakes, BinTidy, WellFormed, OneName, Did, Refusable, Drawn, TempFor;
    reply := Ignored;
    match event
    case Ask(request, names) =>
      if Drawn(names, service.disk.tree, request) {
        var result, overwrote := service.Serve(request, names);
        reply := Answered(result, overwrote);
      }
    case ToSession(session, step) =>
      if session < |uploads| && (step.Chunk? ==> ValidId(step.id)) {
        var upload := uploads[session];
        var answer := upload.Handle(step);
        reply := FromSession(answer);
        WithoutOne(old(service.disk.tree), service.disk.tree, upload.temp);
      }
  }

  /** Conservation over runs, whatever calls fail: a file there ever was is in the tree or its bin, or
      left it with an event that put it at risk. */
  method Run(service: FileService, uploads: seq<Upload.UploadSession>, events: seq<Event>)
    returns (replies: seq<Reply>, ghost points: seq<Point>)
    requires service.disk.Valid() && BinTidy(service.disk.tree)
    requires forall s :: s in uploads ==> s.files == service && TempFor(s.temp, s.relative)
    modifies service.disk, set s | s in uploads
    ensures service.disk.Valid() && BinTidy(service.disk.tree)
    ensures IsHistory(points, events, uploads, replies)
    ensures points[0] == old(Here(service, uploads)) && points[|events|] == Here(service, uploads)
  {
    hide Happened, BinTidy, WellFormed, TempFor, Here;
    replies, points := [], [Here(service, uploads)];
    for i := 0 to |events|
      invariant service.disk.Valid() && BinTidy(service.disk.tree)
      invariant |points| == i + 1 && |replies| == i
      invariant points[0] == old(Here(service, uploads)) && points[i] == Here(service, uploads)
      invariant forall j :: 0 <= j < i ==> Happened(points[j], points[j + 1], events[j], uploads, replies[j])
    {
      var reply := HandleEvent(service, uploads, events[i]);
      replies, points := replies + [reply], points + [Here(service, uploads)];
    }
  }
}
