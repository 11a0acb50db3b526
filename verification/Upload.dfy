/** The resumable chunked upload of one session: requests arrive in any order, any number of times,
    or never; writes may be cut short; the session may expire, be cancelled or be forgotten.
    daemon/internal/files/service.go:429-741 */
module Upload {
  import opened FileTree
  import opened Options
  import opened Recycle

  const CHUNK_SIZE := 2 * 1024 * 1024

  datatype Entry = Entry(path: Path, size: nat)

  datatype Session = Receiving | Complete(entry: Entry, finalOffset: nat)

  datatype Rejection = WrongSize | WrongOffset | WrongHash | Broken | Refused(error: Recycle.Error)

  datatype Reply = Ack(next: nat, entry: Option<Entry>) | Rejected(why: Rejection)

  datatype UploadStatus = UploadStatus(offset: nat, complete: bool)

  // ----- comparing a retried chunk

  function Zeros(n: nat): Bytes {
    seq(n, _ => 0)
  }

  /** What ReadAt leaves in a zeroed buffer of n bytes when the file may end before them. */
  function ReadPadded(stored: Bytes, offset: nat, n: nat): (buffer: Bytes)
    ensures |buffer| == n
  {
    if offset + n <= |stored| then stored[offset..offset + n]
    else if offset <= |stored| then stored[offset..] + Zeros(n - (|stored| - offset))
    else Zeros(n)
  }

  /** A chunk that starts where the stored bytes end, or is among them. */
  predicate Fits(stored: Bytes, offset: nat, chunk: Bytes) {
    offset <= |stored| && (offset < |stored| ==> ReadPadded(stored, offset, |chunk|) == chunk)
  }

  function Grown(stored: Bytes, offset: nat, chunk: Bytes): Bytes {
    if offset < |stored| then stored else stored + chunk
  }

  predicate IsSlice(content: Bytes, offset: int, chunk: Bytes) {
    0 <= offset && offset + |chunk| <= |content| && chunk == content[offset..offset + |chunk|]
  }

  /** A retried slice is accepted against a stored prefix exactly when what the file does not hold
      of it is zero bytes: the acknowledged offset may then exceed the bytes stored. */
  lemma RetryAcceptedIff(content: Bytes, stored: Bytes, offset: nat, chunk: Bytes)
    requires stored <= content && offset < |stored| && IsSlice(content, offset, chunk)
    ensures ReadPadded(stored, offset, |chunk|) == chunk <==>
      forall i :: |stored| <= i < offset + |chunk| ==> content[i] == 0
  {
    var buffer := ReadPadded(stored, offset, |chunk|);
    forall i | 0 <= i < |chunk|
      ensures chunk[i] == content[offset + i]
      ensures buffer[i] == if offset + i < |stored| then content[offset + i] else 0
    {
    }
    if forall i :: |stored| <= i < offset + |chunk| ==> content[i] == 0 {
      assert forall i :: 0 <= i < |chunk| ==> buffer[i] == chunk[i];
    } else {
      var i :| |stored| <= i < offset + |chunk| && content[i] != 0;
      assert buffer[i - offset] != chunk[i - offset];
    }
  }

  /** Three zero bytes, of which one was stored: sending all three again is acknowledged as three. */
  lemma AckBeyondStored()
    ensures var content: Bytes := Zeros(4);
      IsSlice(content, 0, content[..3]) && ReadPadded(content[..1], 0, 3) == content[..3]
  {
    var content: Bytes := Zeros(4);
    RetryAcceptedIff(content, content[..1], 0, content[..3]);
  }

  ghost predicate TempIsPrefix(t: Tree, temp: Path, content: Bytes) {
    temp in t ==> t[temp].File? && t[temp].data <= content
  }

  lemma PrefixStays(before: Tree, after: Tree, temp: Path, content: Bytes)
    requires TempIsPrefix(before, temp, content) && (temp in after ==> temp in before && after[temp] == before[temp])
    ensures TempIsPrefix(after, temp, content)
  {
  }

  lemma AppendKeepsPrefix(content: Bytes, offset: nat, chunk: Bytes, part: Bytes)
    requires IsSlice(content, offset, chunk) && part <= content[..offset] + chunk
    ensures part <= content
  {
    assert content[..offset] + chunk == content[..offset + |chunk|];
  }

  ghost predicate SameBut(before: Tree, after: Tree, temp: Path) {
    && (forall p :: p != temp ==> (p in before <==> p in after))
    && (forall p :: p != temp && p in before ==> after[p] == before[p])
  }

  /** An append to the temporary file, whole or cut short, leaves a prefix of the content. */
  lemma AppendedIsPrefix(before: Tree, after: Tree, temp: Path, content: Bytes, offset: nat, chunk: Bytes)
    requires IsSlice(content, offset, chunk) && TempIsPrefix(before, temp, content)
    requires temp in before && |before[temp].data| == offset
    requires after == before || PartlyAppended(before, after, temp, chunk)
    ensures TempIsPrefix(after, temp, content)
  {
    assert before[temp].data == content[..offset];
    if PartlyAppended(before, after, temp, chunk) { AppendKeepsPrefix(content, offset, chunk, after[temp].data); }
  }

  lemma SameButFiles(before: Tree, after: Tree, temp: Path)
    requires SameBut(before, after, temp)
    ensures Files(before - {temp}) == Files(after - {temp}) && Files(after - {temp}) <= Files(after)
  {
    assert before - {temp} == after - {temp};
    forall p | p in after - {temp} ensures (after - {temp})[p] == after[p] {
    }
  }

  /** Besides the temporary file, at most directories above a path of n names are new. */
  ghost predicate OnlyTemp(before: Tree, after: Tree, temp: Path, n: nat) {
    && (forall p :: p != temp && p in before ==> p in after && after[p] == before[p])
    && (forall p :: p != temp && p in after && p !in before ==> after[p] == Dir && |p| < n && !InBin(p))
  }

  lemma OnlyTempWith(t: Tree, u: Tree, v: Tree, temp: Path, n: nat)
    requires OnlyNewDirs(t, u, n)
    ensures OnlyTemp(t, u, temp, n) && (SameBut(u, v, temp) ==> OnlyTemp(t, v, temp, n))
  {
  }

  lemma SameTarget(before: Tree, after: Tree, temp: Path, id: Name, relative: Path)
    requires SameBut(before, after, temp) && TempFor(temp, relative) && WellFormed(before) && WellFormed(after)
    ensures (relative in after <==> relative in before) && (relative in before ==> after[relative] == before[relative])
    ensures HasParent(after, relative) <==> HasParent(before, relative)
    ensures relative in before ==> (CanRecycle(after, id, relative) <==> CanRecycle(before, id, relative))
  {
    assert Parent(relative) != temp by { assert Parent(temp) == Parent(relative); }
  }

  lemma SameButRemoved(before: Tree, after: Tree, temp: Path)
    requires after == before || after == before - {temp}
    ensures SameBut(before, after, temp)
  {
  }

  lemma SameButTwice(t: Tree, u: Tree, v: Tree, temp: Path)
    requires SameBut(t, u, temp) && SameBut(u, v, temp)
    ensures SameBut(t, v, temp)
  {
  }

  /** Opening the temporary file adds an empty one at most. */
  lemma OpenedIsSame(before: Tree, after: Tree, relative: Path, temp: Path, content: Bytes)
    requires BinTidy(before) && TempFor(temp, relative)
    requires after == before
      || (temp in after && after == before[temp := after[temp]] && after[temp].File? && after[temp].data == [])
    ensures BinTidy(after) && SameBut(before, after, temp)
    ensures TempIsPrefix(before, temp, content) ==> TempIsPrefix(after, temp, content)
  {
  }

  datatype ChunkRequest = ChunkRequest(
    offset: int, source: Bytes, final: bool, expectedSize: int, expectedData: Option<Bytes>, overwrite: bool, expected: Option<Bytes>)

  /** The client slices one content, whose size is the one in the ticket. */
  ghost predicate FromContent(request: ChunkRequest, content: Bytes) {
    && request.expectedSize == |content|
    && (0 <= request.offset && request.offset + |request.source| <= |content| ==> IsSlice(content, request.offset, request.source))
  }

  ghost predicate Acknowledged(request: ChunkRequest, reply: Reply, content: Bytes)
    requires reply.Ack?
  {
    && IsSlice(content, request.offset, request.source) && reply.next == request.offset + |request.source|
    && (request.final <==> reply.next == |content|)
    && (request.final <==> reply.entry.Some?)
  }

  lemma NewDirsKeepFiles(before: Tree, after: Tree, n: nat, temp: Path)
    requires OnlyNewDirs(before, after, n) && |temp| >= n
    ensures Files(before - {temp}) <= Files(after - {temp}) && Files(after - {temp}) <= Files(after)
    ensures temp in after <==> temp in before
  {
    forall p | p in before - {temp} ensures p in after - {temp} && (after - {temp})[p] == (before - {temp})[p] {
    }
    forall p | p in after - {temp} ensures (after - {temp})[p] == after[p] {
    }
  }

  lemma NewDirsKeepRest(before: Tree, after: Tree, n: nat, temp: Path, content: Bytes)
    requires OnlyNewDirs(before, after, n) && BinTidy(before) && |temp| >= n
    ensures BinTidy(after) && (TempIsPrefix(before, temp, content) ==> TempIsPrefix(after, temp, content))
  {
  }

  lemma FilesWithout(t: Tree, p: Path)
    ensures Files(t - {p}) <= Files(t)
  {
    forall q | q in t - {p} ensures (t - {p})[q] == t[q] {
    }
  }

  /** A request to the session, or what happens to it by itself. What comes with a chunk tells whether
      it was received, and whether the sweep found the session idle. */
  datatype SessionEvent =
    | Chunk(id: Name, request: ChunkRequest, received: bool, idle: bool)
    | AskStatus
    | Cancel
    | LateCancel
    | Idle
    | Removal
    | Forget

  /** A session and its workspace at one instant. */
  datatype Moment = Moment(tree: Tree, session: Option<Session>, removals: nat, published: seq<Bytes>, faults: nat)

  predicate IsComplete(session: Option<Session>) {
    session.Some? && session.value.Complete?
  }

  predicate FinalAck(reply: Option<Reply>) {
    reply.Some? && reply.value.Ack? && reply.value.entry.Some?
  }

  class UploadSession {
    const files: FileService
    const relative: Path
    const temp: Path
    /** The one content the client takes its slices from; its length is the size in the ticket. */
    ghost const content: Bytes

    /** The entry of the uploads map, absent before the first chunk and after expiry or restart. */
    var session: Option<Session>
    /** Entries taken out of the map whose temporary file is still to be removed. */
    var removals: nat
    /** What the target held after each successful publication. */
    ghost var published: seq<Bytes>

    /** A valid session, and a chunk cut from its content. */
    ghost predicate Honest(request: ChunkRequest)
      reads this, files.disk`tree, files.disk`nextNumber
    {
      Valid() && FromContent(request, content)
    }

    /** What holds whoever sends chunks and whatever else happens in the workspace. */
    ghost predicate Sound()
      reads files.disk`tree, files.disk`nextNumber
    {
      files.disk.Valid() && BinTidy(files.disk.tree) && TempFor(temp, relative)
    }

    ghost predicate Valid()
      reads this, files.disk`tree, files.disk`nextNumber
    {
      && Sound() && TempIsPrefix(files.disk.tree, temp, content)
      && (forall i :: 0 <= i < |published| ==> published[i] == content)
      && (session.Some? && session.value.Complete? ==>
           && session.value.entry == Entry(relative, |content|) && session.value.finalOffset <= |content|
           && published != [])
    }

    /** The session was completed by a final chunk at this offset. */
    ghost predicate Finished(offset: int)
      reads this
    {
      offset >= 0 && session == Some(Complete(Entry(relative, |content|), offset))
    }

    ghost predicate TargetHoldsContent()
      reads this, files.disk`tree, files.disk`nextNumber
    {
      relative in files.disk.tree && files.disk.tree[relative].File? && files.disk.tree[relative].data == content
    }

    constructor (files: FileService, relative: Path, temp: Path, ghost content: Bytes)
      requires files.disk.Valid() && BinTidy(files.disk.tree) && TempFor(temp, relative) && temp !in files.disk.tree
      ensures Valid() && this.files == files && this.relative == relative && this.temp == temp && this.content == content
      ensures session == None && published == []
    {
      this.files, this.relative, this.temp, this.content := files, relative, temp, content;
      session, removals, published := None, 0, [];
    }

    // ----- what may happen at any time

    /** An expired entry's file is removed, under no lock a request holds. */
    method Interfere()
      requires Sound()
      modifies this`removals, files.disk`tree, files.disk`faults
      ensures Sound() && (old(Valid()) ==> Valid())
      ensures files.disk.tree == old(files.disk.tree) || files.disk.tree == old(files.disk.tree) - {temp}
      ensures files.disk.faults >= old(files.disk.faults)
      ensures old(removals) == 0 ==>
        removals == 0 && files.disk.tree == old(files.disk.tree) && files.disk.faults == old(files.disk.faults)
    {
      var now: bool := *;
      if removals > 0 && now {
        removals := removals - 1;
        ghost var before := files.disk.tree;
        var status := files.disk.Remove(temp);
        if status == Ok { WithoutFile(before, temp); }
      }
    }

    /** A timer or a sweep finds the session idle for longer than its time to live. */
    method Expire()
      modifies this`session, this`removals
      ensures session == None
      ensures removals == old(removals) + if old(session).Some? then 1 else 0
    {
      if session.Some? { removals := removals + 1; }
      session := None;
    }

    /** The map lives in memory only. */
    method Restart()
      modifies this`session, this`removals
      ensures session == None && removals == 0
    {
      session, removals := None, 0;
    }

    // ----- one chunk

    /** Opens the temporary file; its name may be removed before and after. */
    method OpenTemp() returns (status: Status, stored: Bytes)
      requires Sound()
      modifies this`removals, files.disk
      ensures Sound() && (old(Valid()) ==> Valid()) && SameBut(old(files.disk.tree), files.disk.tree, temp)
      ensures status == Ok ==> Stores(stored)
      ensures files.disk.faults >= old(files.disk.faults)
      ensures files.disk.faults == old(files.disk.faults) && old(removals) == 0 ==> removals == 0 && (status == Ok <==> CanOpen(old(files.disk.tree)))
      ensures files.disk.faults == old(files.disk.faults) && old(removals) == 0 && status == Ok ==>
        stored == StoredIn(old(files.disk.tree)) && HoldsNow(stored)
    {
      hide BinTidy, WellFormed, SameBut, TempIsPrefix;
      ghost var t := files.disk.tree;
      Interfere();
      ghost var u := files.disk.tree;
      SameButRemoved(t, u, temp);
      status, stored := files.disk.Open(temp);
      ghost var v := files.disk.tree;
      OpenedIsSame(u, v, relative, temp, content);
      Interfere();
      SameButRemoved(v, files.disk.tree, temp);
      SameButTwice(t, u, v, temp);
      SameButTwice(t, v, files.disk.tree, temp);
    }

    /** Writes the chunk at the end of the opened file, wherever its name has gone. */
    method WriteChunk(stored: Bytes, chunk: Bytes) returns (status: Status)
      requires Sound() && Stores(stored)
      modifies files.disk`tree, files.disk`faults
      ensures Sound() && (old(Valid()) && IsSlice(content, |stored|, chunk) ==> Valid())
      ensures SameBut(old(files.disk.tree), files.disk.tree, temp)
      ensures status == Ok ==> Stores(stored + chunk)
      ensures files.disk.faults >= old(files.disk.faults)
      ensures files.disk.faults == old(files.disk.faults) ==> status == Ok && (old(HoldsNow(stored)) ==> HoldsNow(stored + chunk))
    {
      status := Ok;
      if temp in files.disk.tree {
        ghost var before := files.disk.tree;
        status := files.disk.Append(temp, chunk);
        TidyStays(before, files.disk.tree, chunk);
        if old(Valid()) && IsSlice(content, |stored|, chunk) {
          AppendedIsPrefix(before, files.disk.tree, temp, content, |stored|, chunk);
        }
      } else {
        var failed := files.disk.Slip();
        if failed {
          status := Other;
        }
      }
    }

    /** What the temporary file of a tree holds. */
    ghost function StoredIn(t: Tree): Bytes {
      if temp in t && t[temp].File? then t[temp].data else []
    }

    ghost predicate HoldsNow(stored: Bytes)
      reads files.disk`tree
    {
      temp in files.disk.tree && files.disk.tree[temp].File? && files.disk.tree[temp].data == stored
    }

    ghost predicate CanOpen(t: Tree) {
      temp != [] && if temp in t then t[temp].File? else HasParent(t, temp)
    }

    /** What a final chunk needs once its bytes are stored. */
    ghost predicate Completes(t: Tree, stored: Bytes, id: Name, request: ChunkRequest) {
      && |stored| == request.expectedSize && (request.expectedData.Some? ==> stored == request.expectedData.value)
      && MayReplace(t, relative, request.overwrite, request.expected) && (relative in t ==> CanRecycle(t, id, relative))
    }

    lemma OpensBeside(t: Tree)
      requires TempFor(temp, relative)
      ensures relative != [] && (HasParent(t, relative) ==> (CanOpen(t) <==> (temp in t ==> t[temp].File?)))
    {
    }

    /** The directories made for the target do not matter to a chunk. */
    lemma AcceptsUnder(before: Tree, after: Tree, was: Option<Session>, id: Name, request: ChunkRequest)
      requires OnlyNewDirs(before, after, |relative|) && WellFormed(before) && WellFormed(after)
      requires TempFor(temp, relative) && request.offset >= 0 && !Blocked(after, relative)
      requires !Blocked(before, relative)
      ensures Accepts(before, was, id, request) <==> Accepts(after, was, id, request)
    {
      hide Blocked;
      RecyclableUnder(before, after, id, relative);
    }

    /** What a chunk needs besides being admissible, if no call fails and no removal is pending. */
    ghost predicate Accepts(t: Tree, was: Option<Session>, id: Name, request: ChunkRequest)
      requires request.offset >= 0
    {
      && !Blocked(t, relative)
      && if was.Some? && was.value.Complete? then request.final && request.offset == was.value.finalOffset
         else
           && (temp in t ==> t[temp].File?) && Fits(StoredIn(t), request.offset, request.source)
           && (request.final ==> Completes(t, Grown(StoredIn(t), request.offset, request.source), id, request))
    }

    /** The target or its directory is there, and no symbolic link on the way. */
    ghost predicate Reachable(t: Tree) {
      relative != [] && !Blocked(t, relative) && (relative in t || HasParent(t, relative))
    }

    /** The temporary file, if its name is there, holds these bytes. */
    ghost predicate Stores(stored: Bytes)
      reads files.disk`tree
    {
      temp in files.disk.tree ==> files.disk.tree[temp].File? && files.disk.tree[temp].data == stored
    }

    lemma TidyStays(before: Tree, after: Tree, chunk: Bytes)
      requires BinTidy(before) && (after == before || PartlyAppended(before, after, temp, chunk) || SameBut(before, after, temp))
      requires TempFor(temp, relative)
      ensures BinTidy(after)
    {
    }

    /** Compares the chunk with what the file holds, or appends it; returns the content then. */
    method StoreChunk(offset: nat, chunk: Bytes) returns (why: Option<Rejection>, stored: Bytes)
      requires Sound()
      modifies this`removals, files.disk
      ensures Sound() && (old(Valid()) && IsSlice(content, offset, chunk) ==> Valid())
      ensures SameBut(old(files.disk.tree), files.disk.tree, temp)
      ensures why.None? ==> offset <= |stored| && Stores(stored)
      ensures files.disk.faults >= old(files.disk.faults)
      ensures files.disk.faults == old(files.disk.faults) && old(removals) == 0 ==>
        removals == 0 && (why.None? <==> CanOpen(old(files.disk.tree)) && Fits(StoredIn(old(files.disk.tree)), offset, chunk))
      ensures files.disk.faults == old(files.disk.faults) && old(removals) == 0 && why.None? ==>
        stored == Grown(StoredIn(old(files.disk.tree)), offset, chunk) && HoldsNow(stored)
    {
      hide BinTidy, WellFormed, SameBut, TempIsPrefix, TempFor, Fits, Grown, IsSlice;
      ghost var t := files.disk.tree;
      var status;
      status, stored := OpenTemp();
      if status != Ok {
        return Some(Broken), stored;
      }
      ghost var u := files.disk.tree;
      why, stored := PutChunk(stored, offset, chunk);
      ghost var v := files.disk.tree;
      SameButTwice(t, u, v, temp);
      if why.Some? {
        return;
      }
      Interfere();
      SameButRemoved(v, files.disk.tree, temp);
      SameButTwice(t, v, files.disk.tree, temp);
    }

    /** Compares the chunk with what the opened file holds, or writes it at the end. */
    method PutChunk(stored: Bytes, offset: nat, chunk: Bytes) returns (why: Option<Rejection>, grown: Bytes)
      requires Sound() && Stores(stored)
      modifies files.disk`tree, files.disk`faults
      ensures Sound() && (old(Valid()) && IsSlice(content, offset, chunk) ==> Valid())
      ensures SameBut(old(files.disk.tree), files.disk.tree, temp)
      ensures why.None? ==> offset <= |grown| && Stores(grown)
      ensures files.disk.faults >= old(files.disk.faults)
      ensures files.disk.faults == old(files.disk.faults) ==> (why.None? <==> Fits(stored, offset, chunk))
      ensures files.disk.faults == old(files.disk.faults) && why.None? ==>
        grown == Grown(stored, offset, chunk) && (old(HoldsNow(stored)) ==> HoldsNow(grown))
    {
      hide BinTidy, WellFormed, TempIsPrefix, TempFor;
      grown := stored;
      if |stored| < offset {
        return Some(WrongOffset), grown;
      }
      if |stored| > offset {
        var failed := files.disk.Slip();
        if failed {
          return Some(Broken), grown;
        }
        if ReadPadded(stored, offset, |chunk|) != chunk {
          return Some(WrongOffset), grown;
        }
      } else if |chunk| > 0 {
        var status := WriteChunk(stored, chunk);
        if status != Ok {
          return Some(Broken), grown;
        }
        grown := stored + chunk;
      }
      return None, grown;
    }

    /** The checks of the final chunk, and the publication. */
    method FinishUpload(id: Name, stored: Bytes, offset: nat, expectedSize: int, expectedData: Option<Bytes>, overwrite: bool,
                        expected: Option<Bytes>)
      returns (reply: Option<Rejection>)
      requires Sound() && ValidId(id) && session == Some(Receiving) && Stores(stored)
      modifies this, files.disk
      ensures Sound() && (old(Valid()) && offset <= |content| == expectedSize ==> Valid())
      ensures Files(old(files.disk.tree) - {temp}) <= Files(files.disk.tree)
      ensures reply.None? && old(Valid()) && offset <= |content| == expectedSize ==>
        Finished(offset) && TargetHoldsContent() && published == old(published) + [content]
      ensures reply.None? && old(Valid()) && offset <= |content| == expectedSize ==>
        |stored| == |content| && (expectedData.Some? ==> content == expectedData.value)
      ensures reply.None? ==> session.Some? && session.value.Complete? && |published| == |old(published)| + 1
      ensures reply.None? ==> MayReplace(old(files.disk.tree), relative, overwrite, expected)
      ensures reply.Some? ==> session == old(session)
      ensures old(published) <= published
      ensures files.disk.faults >= old(files.disk.faults)
      ensures files.disk.faults == old(files.disk.faults) && old(removals) == 0 && old(HoldsNow(stored)) ==> (reply.None? <==>
        && |stored| == expectedSize && (expectedData.Some? ==> stored == expectedData.value)
        && MayReplace(old(files.disk.tree), relative, overwrite, expected)
        && CanPublish(old(files.disk.tree), id, relative, LinkFrom(temp)))
    {
      hide Files, BinTidy, TempFor, WellFormed, MayReplace, CanPublish, CanRecycle, TempIsPrefix;
      FilesWithout(files.disk.tree, temp);
      reply := CheckFinal(stored, expectedSize, expectedData, overwrite, expected);
      if reply.Some? {
        return;
      }
      if Valid() { StoredIsContent(stored); }
      ghost var t := files.disk.tree;
      reply := PublishStored(id, offset);
      if old(Valid()) { PrefixStays(t, files.disk.tree, temp, content); }
    }

    /** The publication of what the temporary file holds. */
    method PublishStored(id: Name, offset: nat) returns (why: Option<Rejection>)
      requires Sound() && ValidId(id) && session == Some(Receiving)
      modifies this, files.disk
      ensures Sound() && Files(old(files.disk.tree) - {temp}) <= Files(files.disk.tree)
      ensures temp in files.disk.tree ==> temp in old(files.disk.tree) && files.disk.tree[temp] == old(files.disk.tree)[temp]
      ensures published == old(published) || published == old(published) + [StoredIn(old(files.disk.tree))]
      ensures why.Some? ==> session == old(session)
      ensures why.None? ==>
        && published == old(published) + [StoredIn(old(files.disk.tree))]
        && session == Some(Complete(Entry(relative, |StoredIn(old(files.disk.tree))|), offset))
        && relative in files.disk.tree && files.disk.tree[relative].File? && files.disk.tree[relative].data == StoredIn(old(files.disk.tree))
      ensures files.disk.faults >= old(files.disk.faults)
      ensures files.disk.faults == old(files.disk.faults) && old(removals) == 0 ==>
        (why.None? <==> CanPublish(old(files.disk.tree), id, relative, LinkFrom(temp)))
    {
      hide Files, BinTidy, TempFor, WellFormed, CanPublish, CanRecycle;
      FilesWithout(files.disk.tree, temp);
      Interfere();
      var result := files.PublishUpload(id, temp, relative);
      if result.Failed? {
        return Some(Refused(result.error));
      }
      published := published + [files.disk.tree[relative].data];
      var found, node := files.disk.Lstat(relative);
      if found != Ok {
        return Some(Broken);
      }
      session := Some(Complete(Entry(relative, |node.data|), offset));
      return None;
    }

    lemma StoredIsContent(stored: Bytes)
      requires Valid() && HoldsNow(stored)
      ensures stored <= content && (|stored| == |content| ==> stored == content)
    {
    }

    /** The checks of the final chunk: the size, the digest of what is stored, and the target. */
    method CheckFinal(stored: Bytes, expectedSize: int, expectedData: Option<Bytes>, overwrite: bool, expected: Option<Bytes>)
      returns (why: Option<Rejection>)
      requires Sound() && Stores(stored)
      modifies files.disk`faults
      ensures why.None? ==>
        && |stored| == expectedSize && (expectedData.Some? ==> stored == expectedData.value)
        && HoldsNow(stored) && MayReplace(files.disk.tree, relative, overwrite, expected)
      ensures files.disk.faults >= old(files.disk.faults)
      ensures files.disk.faults == old(files.disk.faults) && HoldsNow(stored) ==> (why.None? <==>
        && |stored| == expectedSize && (expectedData.Some? ==> stored == expectedData.value)
        && MayReplace(files.disk.tree, relative, overwrite, expected))
    {
      hide BinTidy, TempFor, WellFormed, MayReplace;
      if |stored| != expectedSize {
        return Some(WrongSize);
      }
      var status, data := files.disk.Read(temp);
      if status != Ok {
        return Some(Broken);
      }
      if expectedData.Some? && data != expectedData.value {
        return Some(WrongHash);
      }
      var target := files.CheckUploadTarget(relative, overwrite, expected);
      if target.Failed? {
        return Some(Refused(target.error));
      }
      return None;
    }

    /** What a published session does with one more chunk: nothing, but for missing directories above
        the target. It acknowledges the final chunk with the entry it had given, and no other chunk. */
    ghost predicate Replayed(was: Option<Session>, published': seq<Bytes>, tree: Tree, request: ChunkRequest, reply: Reply)
      requires was.Some? && was.value.Complete?
      reads this, files.disk`tree, files.disk`nextNumber
    {
      && session == was && published == published' && OnlyNewDirs(tree, files.disk.tree, |relative|)
      && (reply.Ack? ==>
           && request.final && request.offset == was.value.finalOffset
           && reply.next == request.expectedSize && reply.entry == Some(was.value.entry))
      && (reply == Rejected(WrongOffset) ==> !(request.final && request.offset == was.value.finalOffset))
    }

    /** UploadChunk; received tells whether there was a slot for the transfer and the body could be
        read, idle whether the sweep that follows finds this session expired. */
    method UploadChunk(id: Name, request: ChunkRequest, received: bool, idle: bool) returns (reply: Reply)
      requires Sound() && ValidId(id)
      modifies this, files.disk
      ensures Sound() && old(published) <= published
      ensures Files(old(files.disk.tree) - {temp}) <= Files(files.disk.tree)
      ensures old(Honest(request)) ==> Valid()
      ensures old(Honest(request)) && reply.Ack? ==> Acknowledged(request, reply, content)
      ensures old(Honest(request)) && reply.Ack? && request.final ==>
        Finished(request.offset) && reply.entry == Some(Entry(relative, |content|))
      ensures old(Honest(request)) && reply.Ack? && request.final && published != old(published) ==>
        TargetHoldsContent() && (request.expectedData.Some? ==> content == request.expectedData.value)
      ensures reply.Ack? && request.final && published == old(published) ==>
        session == old(session) && OnlyNewDirs(old(files.disk.tree), files.disk.tree, |relative|)
      ensures !idle && old(session).Some? && old(session).value.Complete? ==>
        Replayed(old(session), old(published), old(files.disk.tree), request, reply)
      ensures files.disk.faults >= old(files.disk.faults)
      ensures files.disk.faults == old(files.disk.faults) && old(removals) == 0 && received && !idle ==>
        (reply.Ack? <==> Admissible(request) && Accepts(old(files.disk.tree), old(session), id, request))
      ensures files.disk.faults == old(files.disk.faults) && old(removals) == 0 && received && !idle && reply.Ack? && !request.final ==>
        && removals == 0 && session == Some(Receiving)
        && StoredIn(files.disk.tree) == Grown(StoredIn(old(files.disk.tree)), request.offset, request.source)
      ensures !request.final ==> OnlyTemp(old(files.disk.tree), files.disk.tree, temp, |relative|)
    {
      hide Files, BinTidy, TempFor, WellFormed, TempIsPrefix, Admissible, Acknowledged;
      FilesWithout(files.disk.tree, temp);
      var next := AdmitChunk(request);
      if next.None? {
        return Rejected(WrongSize);
      }
      if !received {
        return Rejected(Broken);
      }
      if idle {
        Expire();
      }
      reply := HandleChunk(id, request, next.value);
    }

    /** The part of UploadChunk under the workspace's lock. */
    method HandleChunk(id: Name, request: ChunkRequest, next: nat) returns (reply: Reply)
      requires Sound() && ValidId(id) && Admissible(request) && next == request.offset + |request.source|
      modifies this, files.disk
      ensures Sound() && old(published) <= published
      ensures Files(old(files.disk.tree) - {temp}) <= Files(files.disk.tree)
      ensures old(Honest(request)) ==> Valid()
      ensures old(Honest(request)) && reply.Ack? ==> Acknowledged(request, reply, content)
      ensures old(Honest(request)) && reply.Ack? && request.final ==>
        Finished(request.offset) && reply.entry == Some(Entry(relative, |content|))
      ensures old(Honest(request)) && reply.Ack? && request.final && published != old(published) ==>
        TargetHoldsContent() && (request.expectedData.Some? ==> content == request.expectedData.value)
      ensures reply.Ack? && request.final ==> session.Some? && session.value.Complete?
      ensures reply.Ack? && request.final && published == old(published) ==>
        session == old(session) && OnlyNewDirs(old(files.disk.tree), files.disk.tree, |relative|)
      ensures old(session).Some? && old(session).value.Complete? ==>
        Replayed(old(session), old(published), old(files.disk.tree), request, reply)
      ensures files.disk.faults >= old(files.disk.faults)
      ensures files.disk.faults == old(files.disk.faults) && old(removals) == 0 ==>
        (reply.Ack? <==> Accepts(old(files.disk.tree), old(session), id, request))
      ensures files.disk.faults == old(files.disk.faults) && old(removals) == 0 && reply.Ack? && !request.final ==>
        && removals == 0 && session == Some(Receiving)
        && StoredIn(files.disk.tree) == Grown(StoredIn(old(files.disk.tree)), request.offset, request.source)
      ensures !request.final ==> OnlyTemp(old(files.disk.tree), files.disk.tree, temp, |relative|)
    {
      hide Files, BinTidy, WellFormed, TempIsPrefix, OnlyNewDirs, Accepts, Replayed, Blocked, OnlyTemp, SameBut, TempFor, StoredIn, Grown;
      ghost var t := files.disk.tree;
      var result := EnterTarget();
      OnlyTempWith(t, files.disk.tree, files.disk.tree, temp, |relative|);
      if result.Failed? {
        AcceptsOnlyUnblocked(t, session, id, request);
        if IsComplete(session) { RefusedIsReplayed(session, published, t, request, result.error); }
        return Rejected(Refused(result.error));
      }
      AcceptsUnder(t, files.disk.tree, session, id, request);
      if session.Some? { AcceptsIff(files.disk.tree, session, id, request); }
      if IsComplete(session) {
        reply := Replay(t, request, next);
        return;
      }
      AcceptsFresh(files.disk.tree, id, request);
      session := Some(Receiving);
      ghost var made := files.disk.tree;
      reply := ReceiveChunk(id, request, next);
      OnlyTempWith(t, made, files.disk.tree, temp, |relative|);
    }

    /** The directory of the target, made if it is missing. */
    method EnterTarget() returns (result: Outcome)
      requires Sound()
      modifies files.disk`tree, files.disk`faults
      ensures Sound() && (old(Valid()) ==> Valid()) && OnlyNewDirs(old(files.disk.tree), files.disk.tree, |relative|)
      ensures Files(old(files.disk.tree) - {temp}) <= Files(files.disk.tree - {temp}) <= Files(files.disk.tree)
      ensures StoredIn(files.disk.tree) == StoredIn(old(files.disk.tree))
      ensures result.Done? ==> HasParent(files.disk.tree, relative) && !Blocked(files.disk.tree, relative) && !Blocked(old(files.disk.tree), relative)
      ensures files.disk.faults >= old(files.disk.faults)
      ensures files.disk.faults == old(files.disk.faults) ==> (result.Done? <==> !Blocked(old(files.disk.tree), relative))
    {
      hide Files, BinTidy, WellFormed, TempIsPrefix, OnlyNewDirs, Blocked;
      ghost var t := files.disk.tree;
      result := files.UploadTarget(relative);
      NewDirsKeepFiles(t, files.disk.tree, |relative|, temp);
      NewDirsKeepRest(t, files.disk.tree, |relative|, temp, content);
      if result.Done? { UnblockedBefore(t, files.disk.tree); }
      StoredUnder(t, files.disk.tree);
    }

    /** The answer of a session that is published. */
    method Replay(ghost before: Tree, request: ChunkRequest, next: nat) returns (reply: Reply)
      requires IsComplete(session) && OnlyNewDirs(before, files.disk.tree, |relative|)
      requires Admissible(request) && next == request.offset + |request.source|
      ensures Replayed(session, published, before, request, reply)
      ensures reply.Ack? <==> request.final && request.offset == session.value.finalOffset
      ensures Valid() && FromContent(request, content) && reply.Ack? ==>
        Acknowledged(request, reply, content) && Finished(request.offset) && reply.entry == Some(Entry(relative, |content|))
    {
      hide OnlyNewDirs, TempIsPrefix;
      if request.final && request.offset == session.value.finalOffset {
        return Ack(next, Some(session.value.entry));
      }
      return Rejected(WrongOffset);
    }

    lemma RefusedIsReplayed(was: Option<Session>, published': seq<Bytes>, before: Tree, request: ChunkRequest, error: Recycle.Error)
      requires IsComplete(was) && session == was && published == published' && OnlyNewDirs(before, files.disk.tree, |relative|)
      ensures Replayed(was, published', before, request, Rejected(Refused(error)))
    {
      hide OnlyNewDirs;
    }

    lemma AcceptsOnlyUnblocked(t: Tree, was: Option<Session>, id: Name, request: ChunkRequest)
      requires request.offset >= 0
      ensures Accepts(t, was, id, request) ==> !Blocked(t, relative)
    {
    }

    lemma UnblockedBefore(before: Tree, after: Tree)
      requires OnlyNewDirs(before, after, |relative|) && !Blocked(after, relative)
      ensures !Blocked(before, relative)
    {
    }

    lemma StoredUnder(before: Tree, after: Tree)
      requires OnlyNewDirs(before, after, |relative|) && TempFor(temp, relative)
      ensures StoredIn(after) == StoredIn(before)
    {
    }

    lemma AcceptsFresh(t: Tree, id: Name, request: ChunkRequest)
      requires request.offset >= 0
      ensures Accepts(t, Some(Receiving), id, request) <==> Accepts(t, None, id, request)
    {
    }

    lemma AcceptsIff(t: Tree, was: Option<Session>, id: Name, request: ChunkRequest)
      requires was.Some? && request.offset >= 0 && !Blocked(t, relative)
      ensures IsComplete(was) ==> (Accepts(t, was, id, request) <==> request.final && request.offset == was.value.finalOffset)
      ensures !IsComplete(was) ==> (Accepts(t, was, id, request) <==> Accepts(t, None, id, request))
    {
    }

    /** The checks before any state is touched; the offset after the chunk if they pass. */
    method AdmitChunk(request: ChunkRequest) returns (next: Option<nat>)
      ensures next.Some? <==> Admissible(request)
      ensures next.Some? ==> next.value == request.offset + |request.source|
    {
      var offset, source, expectedSize := request.offset, request.source, request.expectedSize;
      if expectedSize < 0 || expectedSize > files.maxUpload || offset < 0 || offset > expectedSize {
        return None;
      }
      var chunk := if |source| <= CHUNK_SIZE + 1 then source else source[..CHUNK_SIZE + 1];
      if |chunk| > CHUNK_SIZE || |chunk| > expectedSize - offset {
        return None;
      }
      if request.final != (offset + |chunk| == expectedSize) {
        return None;
      }
      return Some(offset + |chunk|);
    }

    /** A chunk of at most the agreed size that lies within the file, and is final if it ends it. */
    predicate Admissible(request: ChunkRequest) {
      && 0 <= request.offset && request.offset + |request.source| <= request.expectedSize <= files.maxUpload
      && |request.source| <= CHUNK_SIZE
      && (request.final <==> request.offset + |request.source| == request.expectedSize)
    }

    /** The part of UploadChunk for a session that is still receiving. */
    method ReceiveChunk(id: Name, request: ChunkRequest, next: nat) returns (reply: Reply)
      requires Sound() && ValidId(id) && session == Some(Receiving)
      requires Admissible(request) && next == request.offset + |request.source|
      modifies this, files.disk
      ensures Sound() && old(published) <= published
      ensures Files(old(files.disk.tree) - {temp}) <= Files(files.disk.tree)
      ensures old(Honest(request)) ==> Valid()
      ensures old(Honest(request)) && reply.Ack? ==> Acknowledged(request, reply, content)
      ensures reply.Ack? && request.final ==> published != old(published) && session.Some? && session.value.Complete?
      ensures old(Honest(request)) && reply.Ack? && request.final ==>
        && Finished(request.offset) && reply.entry == Some(Entry(relative, |content|))
        && TargetHoldsContent() && (request.expectedData.Some? ==> content == request.expectedData.value)
      ensures files.disk.faults >= old(files.disk.faults)
      ensures files.disk.faults == old(files.disk.faults) && old(removals) == 0 ==>
        || !HasParent(old(files.disk.tree), relative) || Blocked(old(files.disk.tree), relative)
        || (reply.Ack? <==> Accepts(old(files.disk.tree), Some(Receiving), id, request))
      ensures files.disk.faults == old(files.disk.faults) && old(removals) == 0 && reply.Ack? && !request.final ==>
        && removals == 0 && session == old(session)
        && StoredIn(files.disk.tree) == Grown(StoredIn(old(files.disk.tree)), request.offset, request.source)
      ensures !request.final ==> SameBut(old(files.disk.tree), files.disk.tree, temp)
    {
      hide Files, BinTidy, TempFor, WellFormed, TempIsPrefix, Stores;
      OpensBeside(files.disk.tree);
      var why, stored := StoreChunk(request.offset, request.source);
      SameButFiles(old(files.disk.tree), files.disk.tree, temp);
      SameTarget(old(files.disk.tree), files.disk.tree, temp, id, relative);
      if why.Some? {
        return Rejected(why.value);
      }
      if !request.final {
        return Ack(next, None);
      }
      why := FinishUpload(id, stored, request.offset, request.expectedSize, request.expectedData, request.overwrite, request.expected);
      if why.Some? {
        return Rejected(why.value);
      }
      return Ack(next, Some(session.value.entry));
    }

    method Status() returns (status: Option<UploadStatus>)
      requires Sound()
      modifies files.disk`faults
      ensures status.Some? ==> (status.value.complete <==> session.Some? && session.value.Complete?)
      ensures status.Some? && !status.value.complete && temp !in files.disk.tree ==> status.value.offset == 0
      ensures status.Some? && !status.value.complete && temp in files.disk.tree ==>
        files.disk.tree[temp].File? && status.value.offset == |files.disk.tree[temp].data|
      ensures Valid() && status.Some? ==>
        status.value.offset <= |content| && (status.value.complete ==> status.value.offset == |content|)
      ensures files.disk.faults >= old(files.disk.faults)
      ensures files.disk.faults == old(files.disk.faults) ==> (status.Some? <==>
        && Reachable(files.disk.tree) && ((session.Some? && session.value.Complete?) || (temp in files.disk.tree ==> files.disk.tree[temp].File?)))
    {
      var result := files.SecurePath(relative, true);
      if result.Failed? {
        return None;
      }
      if session.Some? && session.value.Complete? {
        return Some(UploadStatus(session.value.entry.size, true));
      }
      var status', data := files.disk.Read(temp);
      if status' == NotExist && temp !in files.disk.tree {
        return Some(UploadStatus(0, false));
      }
      if status' != Ok {
        return None;
      }
      return Some(UploadStatus(|data|, false));
    }

    /** The second half of a cancellation, which may come after any other request. */
    method RemoveSession() returns (done: bool)
      requires Sound()
      modifies this`session, files.disk`tree, files.disk`faults
      ensures Sound() && (old(Valid()) ==> Valid())
      ensures files.disk.tree == old(files.disk.tree) || files.disk.tree == old(files.disk.tree) - {temp}
      ensures done ==> session == None && temp !in files.disk.tree
      ensures files.disk.faults >= old(files.disk.faults)
      ensures files.disk.faults == old(files.disk.faults) ==> (done <==>
        Reachable(old(files.disk.tree)) && (temp in old(files.disk.tree) ==> old(files.disk.tree)[temp] != Dir))
    {
      var result := files.SecurePath(relative, true);
      if result.Failed? {
        return false;
      }
      session := None;
      ghost var before := files.disk.tree;
      var status := files.disk.Remove(temp);
      if status == Ok { WithoutFile(before, temp); }
      done := status == Ok || (status == NotExist && temp !in files.disk.tree);
    }

    method CancelUpload() returns (done: bool)
      requires Sound()
      modifies this`session, files.disk`tree, files.disk`faults
      ensures Sound() && (old(Valid()) ==> Valid())
      ensures old(session).Some? && old(session).value.Complete? ==> session == old(session) && files.disk.tree == old(files.disk.tree)
      ensures files.disk.tree == old(files.disk.tree) || files.disk.tree == old(files.disk.tree) - {temp}
      ensures files.disk.faults >= old(files.disk.faults)
      ensures done && !(old(session).Some? && old(session).value.Complete?) ==> session == None && temp !in files.disk.tree
      ensures files.disk.faults == old(files.disk.faults) ==> (done <==>
        && Reachable(old(files.disk.tree))
        && ((old(session).Some? && old(session).value.Complete?) || temp !in old(files.disk.tree) || old(files.disk.tree)[temp].File?))
    {
      var status := Status();
      if status.None? || status.value.complete {
        return status.Some?;
      }
      done := RemoveSession();
    }

    ghost function Now(): Moment
      reads this, files.disk`tree, files.disk`faults
    {
      Moment(files.disk.tree, session, removals, published, files.disk.faults)
    }

    /** What an event of the session's own does, from one instant to the next. While no call fails a
        chunk is acknowledged exactly if it is acceptable, a slice that is not final is then stored, and
        a cancellation leaves neither session nor file. */
    ghost predicate Stepped(step: SessionEvent, reply: Option<Reply>, before: Moment, after: Moment) {
      && before.published <= after.published && before.faults <= after.faults
      && Files(before.tree - {temp}) <= Files(after.tree)
      && match step
         case Chunk(id, request, received, idle) =>
           reply.Some? && (received && !idle ==> Received(id, request, reply.value, before, after))
         case AskStatus => reply.None? && after.tree == before.tree && after.session == before.session
         case Cancel => reply.None? && Cancelled(before, after, IsComplete(before.session))
         case LateCancel => reply.None? && Cancelled(before, after, false)
         case Idle => reply.None? && after.session == None && after.tree == before.tree
         case Removal => reply.None? && after.session == before.session
         case Forget => reply.None? && after.session == None && after.removals == 0 && after.tree == before.tree
    }

    ghost predicate Received(id: Name, request: ChunkRequest, reply: Reply, before: Moment, after: Moment) {
      after.faults == before.faults && before.removals == 0 ==>
        && (reply.Ack? <==> Admissible(request) && Accepts(before.tree, before.session, id, request))
        && (reply.Ack? && !request.final ==>
             after.session == Some(Receiving) && StoredIn(after.tree) == Grown(StoredIn(before.tree), request.offset, request.source))
    }

    ghost predicate Cancelled(before: Moment, after: Moment, complete: bool) {
      if complete then after.tree == before.tree && after.session == before.session
      else after.faults == before.faults && Reachable(before.tree) && (temp in before.tree ==> before.tree[temp].File?) ==>
        after.session == None && temp !in after.tree
    }

    /** One event of the session's own. */
    method Handle(step: SessionEvent) returns (reply: Option<Reply>)
      requires Sound() && (step.Chunk? ==> ValidId(step.id))
      modifies this, files.disk
      ensures Sound() && Stepped(step, reply, old(Now()), Now())
      ensures old(Valid()) && (step.Chunk? ==> FromContent(step.request, content)) ==> Valid() && (FinalAck(reply) ==> published != [])
    {
      hide Files, BinTidy, TempFor, WellFormed, TempIsPrefix, FromContent, Accepts, Admissible, OnlyTemp, OnlyNewDirs, Reachable;
      FilesWithout(files.disk.tree, temp);
      reply := None;
      match step
      case Chunk(id, request, received, idle) =>
        var answer := UploadChunk(id, request, received, idle);
        reply := Some(answer);
      case AskStatus => var _ := Status();
      case Cancel => var _ := CancelUpload();
      case LateCancel => var _ := RemoveSession();
      case Idle => Expire();
      case Removal => Interfere();
      case Forget => Restart();
    }

    /** Any other operation on the workspace, provided it only removes the temporary file or brings
        an earlier state of it back. */
    method OthersRun(after: Tree, number: nat)
      requires Valid() && TempIsPrefix(after, temp, content)
      requires WellFormed(after) && BinTidy(after)
      requires forall p :: p in after && after[p].File? ==> after[p].number < number
      modifies files.disk`tree, files.disk`nextNumber
      ensures Valid() && files.disk.tree == after
    {
      files.disk.tree, files.disk.nextNumber := after, number;
    }
  }

  datatype Event = OfSession(step: SessionEvent) | Others(after: Tree, number: nat)

  ghost predicate Possible(event: Event, temp: Path, content: Bytes) {
    match event
    case OfSession(step) => step.Chunk? ==> ValidId(step.id) && FromContent(step.request, content)
    case Others(after, number) =>
      && TempIsPrefix(after, temp, content) && WellFormed(after) && BinTidy(after)
      && forall p :: p in after && after[p].File? ==> after[p].number < number
  }

  ghost predicate Happened(upload: UploadSession, event: Event, reply: Option<Reply>, before: Moment, after: Moment) {
    match event
    case OfSession(step) => upload.Stepped(step, reply, before, after)
    case Others(tree, _) => reply.None? && after == before.(tree := tree)
  }

  ghost predicate IsTrace(upload: UploadSession, events: seq<Event>, replies: seq<Option<Reply>>, moments: seq<Moment>) {
    && |replies| == |events| && |moments| == |events| + 1
    && forall i :: 0 <= i < |events| ==> Happened(upload, events[i], replies[i], moments[i], moments[i + 1])
  }

  /** A whole run: a trace of its events, in which the temporary file is a prefix of the content
      throughout, every publication put the content at the target, and a final acknowledgement means
      there was one. */
  method Run(upload: UploadSession, events: seq<Event>) returns (replies: seq<Option<Reply>>, ghost moments: seq<Moment>)
    requires upload.Valid() && upload.published == []
    requires forall i :: 0 <= i < |events| ==> Possible(events[i], upload.temp, upload.content)
    modifies upload, upload.files.disk
    ensures IsTrace(upload, events, replies, moments) && moments[0] == old(upload.Now()) && moments[|events|] == upload.Now()
    ensures forall i :: 0 <= i <= |events| ==> TempIsPrefix(moments[i].tree, upload.temp, upload.content)
    ensures forall i :: 0 <= i < |upload.published| ==> upload.published[i] == upload.content
    ensures (exists i :: 0 <= i < |events| && FinalAck(replies[i])) ==> upload.published != []
  {
    hide Happened, TempIsPrefix, WellFormed, BinTidy;
    replies, moments := [], [upload.Now()];
    ValidFacts(upload);
    for i := 0 to |events|
      invariant upload.Valid() && |replies| == i && |moments| == i + 1
      invariant moments[0] == old(upload.Now()) && moments[i] == upload.Now()
      invariant forall j :: 0 <= j < i ==> Happened(upload, events[j], replies[j], moments[j], moments[j + 1])
      invariant forall j :: 0 <= j <= i ==> TempIsPrefix(moments[j].tree, upload.temp, upload.content)
      invariant (exists j :: 0 <= j < i && FinalAck(replies[j])) ==> upload.published != []
    {
      var reply := HandleEvent(upload, events[i]);
      replies, moments := replies + [reply], moments + [upload.Now()];
      ValidFacts(upload);
    }
    ValidFacts(upload);
  }

  lemma ValidFacts(upload: UploadSession)
    requires upload.Valid()
    ensures TempIsPrefix(upload.files.disk.tree, upload.temp, upload.content)
    ensures forall i :: 0 <= i < |upload.published| ==> upload.published[i] == upload.content
  {
  }

  method HandleEvent(upload: UploadSession, event: Event) returns (reply: Option<Reply>)
    requires upload.Valid() && Possible(event, upload.temp, upload.content)
    modifies upload, upload.files.disk
    ensures upload.Valid() && old(upload.published) <= upload.published
    ensures Happened(upload, event, reply, old(upload.Now()), upload.Now())
    ensures FinalAck(reply) ==> upload.published != []
  {
    reply := None;
    match event
    case OfSession(step) => reply := upload.Handle(step);
    case Others(after, number) => upload.OthersRun(after, number);
  }
}
