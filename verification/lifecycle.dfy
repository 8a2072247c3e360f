/**
 The complaint lifecycle engine: filing (`handle_file_complaint`) and the two
 guarded transitions Pending -> Assigned (`handle_assign_task`) and
 Assigned -> Completed (`handle_complete_task`).
 */
module Lifecycle {
  import opened Php
  import opened Seqs
  import opened Schema

  /**
   The identifier of the n-th complaint: "C" followed by n zero-padded to
   three digits.
   */
  function ComplaintId(n: nat): (id: string)
    ensures |id| >= 4 && id[0] == 'C'
  {
    "C" + PadLeft(Decimal(n), 3, '0')
  }

  /** Below 1000 the identifier is exactly four characters; from 1000 on it holds every digit of n. */
  lemma ComplaintIdWidth(n: nat)
    ensures n < 1000 ==> |ComplaintId(n)| == 4
    ensures n >= 1000 ==> |ComplaintId(n)| > 4 && ComplaintId(n)[1..] == Decimal(n)
  {
    ThreeDigitBoundary(n);
    assert ComplaintId(n)[1..] == PadLeft(Decimal(n), 3, '0');
  }

  /** Numbers below 1000 fit in the three-digit padding; larger ones overflow it. */
  lemma ThreeDigitBoundary(n: nat)
    ensures n < 1000 ==> |Decimal(n)| <= 3
    ensures n >= 1000 ==> |Decimal(n)| > 3
  {
    assert Pow10(3) == 1000;
    if n < 1000 {
      DecimalLengthAtMost(n, 3);
    } else {
      DecimalLengthAtLeast(n, 3);
    }
  }

  /** The digits after the "C" read back as the complaint number. */
  lemma ComplaintIdRoundTrip(n: nat)
    ensures AllDigits(ComplaintId(n)[1..])
    ensures DigitsValue(ComplaintId(n)[1..]) == n
  {
    var id := ComplaintId(n);
    assert id[1..] == PadLeft(Decimal(n), 3, '0');
    PadDecimalRoundTrip(n, 3);
  }

  /** Complaint identifiers are distinct for distinct numbers. */
  lemma ComplaintIdInjective(m: nat, n: nat)
    ensures ComplaintId(m) == ComplaintId(n) <==> m == n
  {
    if ComplaintId(m) == ComplaintId(n) {
      ComplaintIdRoundTrip(m);
      ComplaintIdRoundTrip(n);
    }
  }

  /** `handle_file_complaint`: validate, then append a Pending complaint numbered after the existing ones. */
  function FileComplaint(s: Store, qrCode: Option<string>, description: Option<string>, contact: Option<string>, kind: Option<string>): (r: Step<string>)
    ensures r.next.users == s.users
    ensures var (q, d) := (qrCode.Coalesce(""), description.Coalesce(""));
      && (r.reply.Error? <==> Empty(q) || Empty(d))
      && (r.reply.Error? ==> r == Step(Error(ValidationError), s))
      && (r.reply.Success? ==>
            && |r.next.complaints| == |s.complaints| + 1
            && r.next.complaints[..|s.complaints|] == s.complaints
            && var c := r.next.complaints[|s.complaints|];
               && r.reply.value == c.id
               && c.id == ComplaintId(|s.complaints| + 1)
               && c.location == q && c.description == d && c.contact == contact
               && c.status == Pending && c.worker == None && c.photoUrl == None)
  {
    var q, d := qrCode.Coalesce(""), description.Coalesce("");
    if Empty(q) || Empty(d) then
      Step(Error(ValidationError), s)
    else
      var id := ComplaintId(|s.complaints| + 1);
      var c := Complaint(id, q, d, contact, Pending, None, None);
      assert (s.complaints + [c])[..|s.complaints|] == s.complaints;
      Step(Success(id), s.(complaints := s.complaints + [c]))
  }

  /** The rows `WHERE complaint_id = id AND status = from` selects. */
  predicate Targeted(c: Complaint, id: string, from: Status)
  {
    c.id == id && c.status == from
  }

  /** Whether the guarded update affects at least one row (`rowCount() > 0`). */
  predicate AnyTargeted(cs: seq<Complaint>, id: string, from: Status)
  {
    exists i :: 0 <= i < |cs| && Targeted(cs[i], id, from)
  }

  /** `UPDATE complaints SET ... WHERE complaint_id = id AND status = from`: `change` applied to every targeted row. */
  function GuardedUpdate(cs: seq<Complaint>, id: string, from: Status, change: Complaint -> Complaint): (r: seq<Complaint>)
    ensures |r| == |cs|
    ensures forall i :: 0 <= i < |cs| && Targeted(cs[i], id, from) ==> r[i] == change(cs[i])
    ensures forall i :: 0 <= i < |cs| && !Targeted(cs[i], id, from) ==> r[i] == cs[i]
  {
    seq(|cs|, i requires 0 <= i < |cs| => if Targeted(cs[i], id, from) then change(cs[i]) else cs[i])
  }

  /** The assignment `SET status = 'Assigned', assigned_worker_id = worker`. */
  function AssignTo(worker: string): Complaint -> Complaint
  {
    (c: Complaint) => c.(status := Assigned, worker := Some(worker))
  }

  /** `handle_assign_task`: moves the named complaint from Pending to Assigned, and nothing else. */
  function AssignTask(s: Store, complaintId: Option<string>, workerId: Option<string>, officialId: Option<string>): (r: Step<string>)
    ensures r.next.users == s.users
    ensures |r.next.complaints| == |s.complaints|
    ensures r.reply.Error? ==> r.next == s
    ensures var (cid, wid) := (complaintId.Coalesce(""), workerId.Coalesce(""));
      && (Empty(cid) || Empty(wid) ==> r.reply == Error(ValidationError))
      && (!Empty(cid) && !Empty(wid) ==>
            && (r.reply.Success? <==> exists i :: 0 <= i < |s.complaints| && s.complaints[i].id == cid && s.complaints[i].status == Pending)
            && (r.reply.Error? ==> r.reply.failure == NotFoundError))
      && (r.reply.Success? ==> r.reply.value == wid)
      && (forall i :: 0 <= i < |s.complaints| && r.reply.Success? && s.complaints[i].id == cid && s.complaints[i].status == Pending ==>
            var (c, c') := (s.complaints[i], r.next.complaints[i]);
            c'.status == Assigned && c'.worker == Some(wid) && c' == c.(status := Assigned, worker := Some(wid)))
      && (forall i :: 0 <= i < |s.complaints| && !(s.complaints[i].id == cid && s.complaints[i].status == Pending) ==>
            r.next.complaints[i] == s.complaints[i])
  {
    var cid, wid := complaintId.Coalesce(""), workerId.Coalesce("");
    if Empty(cid) || Empty(wid) then
      Step(Error(ValidationError), s)
    else
      var next := s.(complaints := GuardedUpdate(s.complaints, cid, Pending, AssignTo(wid)));
      if AnyTargeted(s.complaints, cid, Pending) then
        Step(Success(wid), next)
      else
        Step(Error(NotFoundError), next)
  }

  /** The mock upload path: "uploads/" followed by the file name, or by "default_proof.jpg" when none is given. */
  function PhotoUrl(photoFilename: Option<string>): (url: string)
    ensures |url| >= 8 && url[..8] == "uploads/"
    ensures photoFilename.Some? ==> url[8..] == photoFilename.value
    ensures photoFilename.None? ==> url[8..] == "default_proof.jpg"
  {
    "uploads/" + photoFilename.Coalesce("default_proof.jpg")
  }

  /** The separator put between the complaint text and the worker's notes. */
  const NotesSeparator: string := "\n\nWorker Notes: "

  /** The completion `SET status = 'Completed', completion_photo_url = url, description = CONCAT(description, separator, notes)`. */
  function CompleteWith(url: string, notes: string): Complaint -> Complaint
  {
    (c: Complaint) => c.(status := Completed, photoUrl := Some(url), description := c.description + NotesSeparator + notes)
  }

  /** `handle_complete_task`: moves the named complaint from Assigned to Completed, and nothing else. */
  function CompleteTask(s: Store, complaintId: Option<string>, notes: Option<string>, photoFilename: Option<string>): (r: Step<string>)
    ensures r.next.users == s.users
    ensures |r.next.complaints| == |s.complaints|
    ensures r.reply.Error? ==> r.next == s
    ensures var (cid, nt) := (complaintId.Coalesce(""), notes.Coalesce(""));
      && (Empty(cid) || Empty(nt) ==> r.reply == Error(ValidationError))
      && (!Empty(cid) && !Empty(nt) ==>
            && (r.reply.Success? <==> exists i :: 0 <= i < |s.complaints| && s.complaints[i].id == cid && s.complaints[i].status == Assigned)
            && (r.reply.Error? ==> r.reply.failure == NotFoundError))
      && (r.reply.Success? ==> r.reply.value == cid)
      && (forall i :: 0 <= i < |s.complaints| && r.reply.Success? && s.complaints[i].id == cid && s.complaints[i].status == Assigned ==>
            var (c, c') := (s.complaints[i], r.next.complaints[i]);
            && c'.status == Completed
            && c'.photoUrl == Some("uploads/" + photoFilename.Coalesce("default_proof.jpg"))
            && c'.description == c.description + "\n\nWorker Notes: " + nt
            && c'.id == c.id && c'.location == c.location && c'.contact == c.contact && c'.worker == c.worker)
      && (forall i :: 0 <= i < |s.complaints| && !(s.complaints[i].id == cid && s.complaints[i].status == Assigned) ==>
            r.next.complaints[i] == s.complaints[i])
  {
    var cid, nt := complaintId.Coalesce(""), notes.Coalesce("");
    var url := PhotoUrl(photoFilename);
    if Empty(cid) || Empty(nt) then
      Step(Error(ValidationError), s)
    else
      var next := s.(complaints := GuardedUpdate(s.complaints, cid, Assigned, CompleteWith(url, nt)));
      if AnyTargeted(s.complaints, cid, Assigned) then
        Step(Success(cid), next)
      else
        Step(Error(NotFoundError), next)
  }
}
