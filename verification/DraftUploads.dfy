/** Upload placeholders kept in a draft, and what a reload makes of the stored ones. */
module DraftUploads {
  import opened Wrappers

  datatype Attachment = Attachment(
    id: string,
    url: string,
    filename: string,
    sizeBytes: int,
    contentType: string,
    downloadUrl: string)

  /** An id minted by this client for its n-th upload, or any other id: of an attachment, or from an earlier build. */
  datatype UploadId = Minted(n: nat) | Given(text: string)

  datatype PendingStatus = Uploading | Failed | Interrupted | Unknown(text: string)

  datatype DraftUpload =
    | Pending(id: UploadId, filename: string, size: int, contentType: Option<string>,
              status: PendingStatus, error: Option<string>)
    | Uploaded(id: UploadId, filename: string, size: int, contentType: Option<string>, attachment: Attachment)
  {
    predicate InFlight() {
      Pending? && status == Uploading
    }
  }

  /** One row of a stored list, as far as the shape checks tell rows apart. */
  datatype StoredRow =
    | StoredUpload(upload: DraftUpload)
    | UploadedWithoutAttachment
    | BareAttachment(attachment: Attachment)
    | Junk

  function AttachmentToDraftUpload(a: Attachment): (u: DraftUpload)
    ensures u.id.Given? && !u.InFlight()
  {
    Uploaded(Given(if a.id != "" then a.id else a.url), a.filename, a.sizeBytes,
             if a.contentType != "" then Some(a.contentType) else None,
             a.(downloadUrl := ""))
  }

  /** The rows of one stored row that survive a load: none or one. */
  function Survivor(row: StoredRow): (kept: seq<DraftUpload>) {
    match row
    case StoredUpload(u) => if u.InFlight() then [] else [u]
    case UploadedWithoutAttachment => []
    case BareAttachment(a) => [AttachmentToDraftUpload(a)]
    case Junk => []
  }

  function Normalized(rows: seq<StoredRow>): seq<DraftUpload> {
    if rows == [] then [] else Normalized(rows[..|rows| - 1]) + Survivor(rows[|rows| - 1])
  }

  method NormalizeStoredUploads(raw: Option<seq<StoredRow>>) returns (uploads: seq<DraftUpload>)
    ensures uploads == if raw.Some? then Normalized(raw.value) else []
  {
    uploads := [];
    if raw.None? { return; }
    var rows := raw.value;
    for n := 0 to |rows|
      invariant uploads == Normalized(rows[..n])
    {
      assert rows[..n + 1][..n] == rows[..n];
      var item := rows[n];
      if item.StoredUpload? {
        if item.upload.InFlight() { continue; }
        uploads := uploads + [item.upload];
      } else if item.BareAttachment? {
        uploads := uploads + [AttachmentToDraftUpload(item.attachment)];
      }
    }
    assert rows[..|rows|] == rows;
  }

  /** The uploads no longer in flight. */
  function Settled(uploads: seq<DraftUpload>): seq<DraftUpload> {
    if uploads == [] then []
    else
      var front, last := Settled(uploads[..|uploads| - 1]), uploads[|uploads| - 1];
      if last.InFlight() then front else front + [last]
  }

  function AsStored(uploads: seq<DraftUpload>): (rows: seq<StoredRow>)
    ensures |rows| == |uploads| && forall i :: 0 <= i < |rows| ==> rows[i] == StoredUpload(uploads[i])
  {
    seq(|uploads|, i requires 0 <= i < |uploads| => StoredUpload(uploads[i]))
  }

  /** Storing a list and loading it gives the list less the uploads in flight. */
  lemma {:induction false} StoredReadsBack(uploads: seq<DraftUpload>)
    ensures Normalized(AsStored(uploads)) == Settled(uploads)
  {
    if uploads != [] {
      var n := |uploads| - 1;
      assert AsStored(uploads)[..n] == AsStored(uploads[..n]);
      StoredReadsBack(uploads[..n]);
    }
  }

  /** A loaded list has nothing in flight, so a load of what it stores changes nothing more. */
  lemma {:induction false} LoadedIsSettled(rows: seq<StoredRow>)
    ensures Settled(Normalized(rows)) == Normalized(rows)
  {
    if rows != [] {
      var front, kept := Normalized(rows[..|rows| - 1]), Survivor(rows[|rows| - 1]);
      LoadedIsSettled(rows[..|rows| - 1]);
      if kept == [] { assert front + kept == front; } else { assert (front + kept)[..|front|] == front; }
    }
  }

  /** The upload wraps one of these stored attachments. */
  ghost predicate Wraps(rows: seq<StoredRow>, u: DraftUpload) {
    exists a :: BareAttachment(a) in rows && u == AttachmentToDraftUpload(a)
  }

  /** Loading returns exactly the stored uploads not in flight and the stored attachments, wrapped. */
  lemma {:induction false} LoadedFromRows(rows: seq<StoredRow>, u: DraftUpload)
    ensures u in Normalized(rows) <==> (StoredUpload(u) in rows && !u.InFlight()) || Wraps(rows, u)
  {
    if rows != [] {
      var front, last := rows[..|rows| - 1], rows[|rows| - 1];
      LoadedFromRows(front, u);
      assert rows == front + [last];
      assert u in Survivor(last) <==>
        (last == StoredUpload(u) && !u.InFlight()) || (last.BareAttachment? && u == AttachmentToDraftUpload(last.attachment));
      if Wraps(rows, u) && !Wraps(front, u) {
        var a :| BareAttachment(a) in rows && u == AttachmentToDraftUpload(a);
        assert last == BareAttachment(a);
      }
      if Wraps(front, u) {
        var a :| BareAttachment(a) in front && u == AttachmentToDraftUpload(a);
        assert BareAttachment(a) in rows;
      }
      if last.BareAttachment? { assert BareAttachment(last.attachment) in rows; }
    }
  }

  /** A stored attachment is shown as a completed upload of its own name, size and type, its download address dropped. */
  lemma AttachmentIsWrapped(a: Attachment)
    ensures var u := AttachmentToDraftUpload(a);
            && u.Uploaded? && u.filename == a.filename && u.size == a.sizeBytes
            && (a.id != "" ==> u.id == Given(a.id)) && (a.id == "" ==> u.id == Given(a.url))
            && (u.contentType.None? <==> a.contentType == "") && (u.contentType.Some? ==> u.contentType.value == a.contentType)
            && (u.attachment.id, u.attachment.url, u.attachment.filename) == (a.id, a.url, a.filename)
            && (u.attachment.sizeBytes, u.attachment.contentType) == (a.sizeBytes, a.contentType)
            && u.attachment.downloadUrl == ""
  {
  }

  lemma Regroup<T>(a: seq<T>, b: seq<T>, c: seq<T>, d: seq<T>)
    ensures a + b + c + d == a + b + (c + d) && a + (b + c + d) == a + b + c + d
  {
  }

  lemma LoadedLast(front: seq<StoredRow>, x: StoredRow)
    ensures Normalized(front + [x])
         == Normalized(front)
            + (match x
               case StoredUpload(u) => if u.Pending? && u.status.Uploading? then [] else [u]
               case BareAttachment(a) => [AttachmentToDraftUpload(a)]
               case _ => [])
    ensures Normalized([]) == []
  {
    assert (front + [x])[..|front|] == front;
    hide AttachmentToDraftUpload;
  }

  /** A load, each stored row for itself: uploads not in flight and wrapped attachments, in the stored order. */
  lemma {:induction false} LoadedByRow(front: seq<StoredRow>, x: StoredRow, back: seq<StoredRow>)
    ensures Normalized(front + [x] + back)
         == Normalized(front)
            + (match x
               case StoredUpload(u) => if u.Pending? && u.status.Uploading? then [] else [u]
               case BareAttachment(a) => [AttachmentToDraftUpload(a)]
               case _ => [])
            + Normalized(back)
  {
    hide *;
    LoadedLast(front, x);
    if back == [] {
      assert front + [x] + back == front + [x];
    } else {
      var rest, last := back[..|back| - 1], back[|back| - 1];
      assert back == rest + [last] && front + [x] + back == (front + [x] + rest) + [last];
      LoadedLast(rest, last);
      LoadedLast(front + [x] + rest, last);
      LoadedByRow(front, x, rest);
    }
  }

  /** The uploads no longer in flight, each for itself: in their order. */
  lemma {:induction false} SettledByRow(front: seq<DraftUpload>, x: DraftUpload, back: seq<DraftUpload>)
    ensures Settled(front + [x] + back) == Settled(front) + (if x.Pending? && x.status.Uploading? then [] else [x]) + Settled(back)
    ensures Settled([]) == []
  {
    var all := front + [x] + back;
    if back == [] {
      assert all == front + [x] && all[..|all| - 1] == front;
    } else {
      var n := |back| - 1;
      assert all[..|all| - 1] == front + [x] + back[..n];
      SettledByRow(front, x, back[..n]);
    }
  }

  // ----- what a submit binds -----

  /** What a submit binds, each row for itself: every completed attachment, in order, and nothing else. */
  lemma {:induction false} BoundByRow(front: seq<DraftUpload>, x: DraftUpload, back: seq<DraftUpload>)
    ensures AttachmentsOf(front + [x] + back) == AttachmentsOf(front) + (if x.Uploaded? then [x.attachment] else []) + AttachmentsOf(back)
    ensures AttachmentsOf([]) == []
  {
    var all := front + [x] + back;
    if back == [] {
      assert all == front + [x] && all[..|all| - 1] == front;
    } else {
      var n := |back| - 1;
      assert all[..|all| - 1] == front + [x] + back[..n];
      BoundByRow(front, x, back[..n]);
    }
  }


  function AttachmentsOf(uploads: seq<DraftUpload>): seq<Attachment> {
    if uploads == [] then []
    else
      var front, last := AttachmentsOf(uploads[..|uploads| - 1]), uploads[|uploads| - 1];
      if last.Uploaded? then front + [last.attachment] else front
  }

  /** The completed attachments in order: exactly what a submit can bind. */
  method UploadedAttachments(uploads: seq<DraftUpload>) returns (bound: seq<Attachment>)
    ensures bound == AttachmentsOf(uploads)
  {
    bound := [];
    for n := 0 to |uploads|
      invariant bound == AttachmentsOf(uploads[..n])
    {
      assert uploads[..n + 1][..n] == uploads[..n];
      if uploads[n].Uploaded? { bound := bound + [uploads[n].attachment]; }
    }
    assert uploads[..|uploads|] == uploads;
  }

  function HasUploadingDraft(uploads: seq<DraftUpload>): bool {
    exists i :: 0 <= i < |uploads| && uploads[i].InFlight()
  }

  /** A reload binds exactly what was bound before it, and it loses a row exactly when the submit gate was closed. */
  lemma {:induction false} ReloadKeepsWhatSubmits(uploads: seq<DraftUpload>)
    ensures AttachmentsOf(Settled(uploads)) == AttachmentsOf(uploads)
    ensures Settled(uploads) == uploads <==> !HasUploadingDraft(uploads)
  {
    SettledIsShorter(uploads);
    if uploads != [] {
      var front, last := uploads[..|uploads| - 1], uploads[|uploads| - 1];
      ReloadKeepsWhatSubmits(front);
      SettledIsShorter(front);
      assert uploads == front + [last];
      if last.InFlight() {
        assert uploads[|front|].InFlight();
      } else {
        assert (Settled(front) + [last])[..|Settled(front)|] == Settled(front);
        assert (Settled(front) + [last] == front + [last]) ==> Settled(front) == front by {
          if Settled(front) + [last] == front + [last] {
            assert (front + [last])[..|front|] == front;
            assert |Settled(front)| == |front|;
          }
        }
      }
    }
  }

  lemma {:induction false} SettledIsShorter(uploads: seq<DraftUpload>)
    ensures |Settled(uploads)| <= |uploads|
  {
    if uploads != [] { SettledIsShorter(uploads[..|uploads| - 1]); }
  }
}
