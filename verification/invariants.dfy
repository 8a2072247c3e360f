/**
 Properties of stores built by the writing handlers: generated identifiers
 stay fresh and distinct, phones stay unique, statuses only move forward,
 and the guarded transitions touch exactly the complaint they name.
 */
module Invariants {
  import opened Php
  import opened Seqs
  import opened Schema
  import opened Identity
  import opened Lifecycle
  import opened Queries

  /** The handlers that write to the store, with their request fields. */
  datatype Command =
    | Register(name: Option<string>, phone: Option<string>, password: Option<string>)
    | File(qrCode: Option<string>, description: Option<string>, contact: Option<string>, kind: Option<string>)
    | Assign(complaintId: Option<string>, workerId: Option<string>, officialId: Option<string>)
    | Complete(complaintId: Option<string>, notes: Option<string>, photoFilename: Option<string>)

  function Apply(s: Store, c: Command): Store
  {
    match c
    case Register(n, ph, pw) => RegisterPilgrim(s, n, ph, pw).next
    case File(q, d, ct, k) => FileComplaint(s, q, d, ct, k).next
    case Assign(cid, wid, oid) => AssignTask(s, cid, wid, oid).next
    case Complete(cid, nt, ph) => CompleteTask(s, cid, nt, ph).next
  }

  /** The store after handling the commands one after another. */
  function Run(s: Store, cmds: seq<Command>): Store
    decreases |cmds|
  {
    if cmds == [] then s else Run(Apply(s, cmds[0]), cmds[1..])
  }

  /** Complaint i, counting from 0 in insertion order, is named ComplaintId(i + 1). */
  predicate SequentialComplaintIds(cs: seq<Complaint>)
  {
    forall i :: 0 <= i < |cs| ==> cs[i].id == ComplaintId(i + 1)
  }

  /** Each pilgrim is named after the number of pilgrims registered before it. */
  predicate SequentialPilgrimIds(us: seq<User>)
  {
    forall i :: 0 <= i < |us| && us[i].role == Pilgrim ==> us[i].id == PilgrimId(Count(us[..i], IsPilgrim))
  }

  /** Pre-seeded workers and officials do not use the "P-" namespace. */
  predicate StaffIdsApart(us: seq<User>)
  {
    forall i :: 0 <= i < |us| && us[i].role != Pilgrim ==> !HasPilgrimPrefix(us[i].id)
  }

  predicate UniqueUserIds(us: seq<User>)
  {
    forall i, j :: 0 <= i < j < |us| ==> us[i].id != us[j].id
  }

  predicate UniquePhones(us: seq<User>)
  {
    forall i, j :: 0 <= i < j < |us| && us[i].phone.Some? ==> us[i].phone != us[j].phone
  }

  predicate Valid(s: Store)
  {
    && SequentialComplaintIds(s.complaints)
    && SequentialPilgrimIds(s.users)
    && StaffIdsApart(s.users)
    && UniqueUserIds(s.users)
    && UniquePhones(s.users)
  }

  /** Complaint identifiers in a store filled by filings are pairwise distinct. */
  lemma ComplaintIdsDistinct(cs: seq<Complaint>)
    requires SequentialComplaintIds(cs)
    ensures forall i, j :: 0 <= i < j < |cs| ==> cs[i].id != cs[j].id
  {
    forall i, j | 0 <= i < j < |cs|
      ensures cs[i].id != cs[j].id
    {
      ComplaintIdInjective(i + 1, j + 1);
    }
  }

  /** The identifier the next filing generates is not yet in use. */
  lemma FreshComplaintId(cs: seq<Complaint>)
    requires SequentialComplaintIds(cs)
    ensures forall i :: 0 <= i < |cs| ==> cs[i].id != ComplaintId(|cs| + 1)
  {
    forall i | 0 <= i < |cs|
      ensures cs[i].id != ComplaintId(|cs| + 1)
    {
      ComplaintIdInjective(i + 1, |cs| + 1);
    }
  }

  /** The identifier the next registration generates is not yet in use, by a pilgrim or by staff. */
  lemma FreshPilgrimId(us: seq<User>)
    requires SequentialPilgrimIds(us) && StaffIdsApart(us)
    ensures forall i :: 0 <= i < |us| ==> us[i].id != PilgrimId(Count(us, IsPilgrim))
  {
    forall i | 0 <= i < |us|
      ensures us[i].id != PilgrimId(Count(us, IsPilgrim))
    {
      if us[i].role == Pilgrim {
        CountBeforeMatch(us, IsPilgrim, i);
        PilgrimIdInjective(Count(us[..i], IsPilgrim), Count(us, IsPilgrim));
      }
    }
  }

  /** Pilgrim numbers grow with registration order: P-101, P-102, ... */
  lemma PilgrimNumbersIncrease(us: seq<User>, i: nat, j: nat)
    requires i < j < |us| && us[i].role == Pilgrim
    requires us[i].id == PilgrimId(Count(us[..i], IsPilgrim))
    requires us[j].id == PilgrimId(Count(us[..j], IsPilgrim))
    ensures |us[i].id| > 2 && |us[j].id| > 2
    ensures AllDigits(us[i].id[2..]) && AllDigits(us[j].id[2..])
    ensures DigitsValue(us[i].id[2..]) < DigitsValue(us[j].id[2..])
  {
    PilgrimIdRoundTrip(Count(us[..i], IsPilgrim));
    PilgrimIdRoundTrip(Count(us[..j], IsPilgrim));
    CountPrefixStep(us, IsPilgrim, i);
    assert us[..j][..i + 1] == us[..i + 1];
    CountPrefixBound(us[..j], IsPilgrim, i + 1);
  }

  /** Appending a pilgrim named after the current pilgrim count keeps the numbering sequential. */
  lemma SequentialPilgrimSnoc(us: seq<User>, u: User)
    requires SequentialPilgrimIds(us)
    requires u.role == Pilgrim && u.id == PilgrimId(Count(us, IsPilgrim))
    ensures SequentialPilgrimIds(us + [u])
  {
    forall i | 0 <= i < |us| + 1 && (us + [u])[i].role == Pilgrim
      ensures (us + [u])[i].id == PilgrimId(Count((us + [u])[..i], IsPilgrim))
    {
      if i < |us| {
        assert (us + [u])[..i] == us[..i];
      } else {
        assert (us + [u])[..i] == us;
      }
    }
  }

  /** Appending a user with a fresh identifier keeps identifiers unique. */
  lemma UniqueIdsSnoc(us: seq<User>, u: User)
    requires UniqueUserIds(us)
    requires forall i :: 0 <= i < |us| ==> us[i].id != u.id
    ensures UniqueUserIds(us + [u])
  {
  }

  /** Appending a user whose phone nobody has keeps phones unique. */
  lemma UniquePhonesSnoc(us: seq<User>, u: User)
    requires UniquePhones(us)
    requires u.phone.Some? && !PhoneTaken(us, u.phone.value)
    ensures UniquePhones(us + [u])
  {
  }

  lemma RegisterPreservesValid(s: Store, name: Option<string>, phone: Option<string>, password: Option<string>)
    requires Valid(s)
    ensures Valid(RegisterPilgrim(s, name, phone, password).next)
  {
    var r := RegisterPilgrim(s, name, phone, password);
    if r.reply.Success? {
      var us := s.users;
      var u := r.next.users[|us|];
      assert r.next.users == us + [u];
      FreshPilgrimId(us);
      SequentialPilgrimSnoc(us, u);
      UniqueIdsSnoc(us, u);
      UniquePhonesSnoc(us, u);
    }
  }

  /** Appending the complaint numbered after the existing ones keeps the numbering sequential. */
  lemma SequentialSnoc(cs: seq<Complaint>, c: Complaint)
    requires SequentialComplaintIds(cs) && c.id == ComplaintId(|cs| + 1)
    ensures SequentialComplaintIds(cs + [c])
  {
    forall i | 0 <= i < |cs| + 1
      ensures (cs + [c])[i].id == ComplaintId(i + 1)
    {
      if i < |cs| {
        assert (cs + [c])[i] == cs[i];
      }
    }
  }

  lemma FilePreservesValid(s: Store, qrCode: Option<string>, description: Option<string>, contact: Option<string>, kind: Option<string>)
    requires Valid(s)
    ensures Valid(FileComplaint(s, qrCode, description, contact, kind).next)
  {
    var r := FileComplaint(s, qrCode, description, contact, kind);
    assert r.next.users == s.users;
    if r.reply.Success? {
      var c := r.next.complaints[|s.complaints|];
      assert r.next.complaints == s.complaints + [c];
      SequentialSnoc(s.complaints, c);
    }
  }

  lemma ApplyPreservesValid(s: Store, c: Command)
    requires Valid(s)
    ensures Valid(Apply(s, c))
  {
    match c
    case Register(n, ph, pw) => RegisterPreservesValid(s, n, ph, pw);
    case File(q, d, ct, k) => FilePreservesValid(s, q, d, ct, k);
    case Assign(cid, wid, oid) =>
    case Complete(cid, nt, ph) =>
  }

  /** Every store reached from a valid one, by any sequence of handler calls, is valid. */
  lemma {:induction false} RunPreservesValid(s: Store, cmds: seq<Command>)
    requires Valid(s)
    ensures Valid(Run(s, cmds))
    decreases |cmds|
  {
    if cmds != [] {
      ApplyPreservesValid(s, cmds[0]);
      RunPreservesValid(Apply(s, cmds[0]), cmds[1..]);
    }
  }

  /** A store of pre-seeded staff and no complaints is valid. */
  lemma SeedIsValid(staff: seq<User>)
    requires forall i :: 0 <= i < |staff| ==> staff[i].role != Pilgrim && !HasPilgrimPrefix(staff[i].id)
    requires UniqueUserIds(staff) && UniquePhones(staff)
    ensures Valid(Store(staff, []))
  {
  }

  /** One handler call never deletes a complaint, never renames one, and moves a status at most one step forward. */
  lemma StatusNeverRegresses(s: Store, c: Command)
    ensures |s.complaints| <= |Apply(s, c).complaints|
    ensures forall i :: 0 <= i < |s.complaints| ==>
      var (old_, new_) := (s.complaints[i], Apply(s, c).complaints[i]);
      && new_.id == old_.id
      && old_.status.Rank() <= new_.status.Rank() <= old_.status.Rank() + 1
  {
    match c
    case Register(n, ph, pw) =>
    case File(q, d, ct, k) =>
      var r := FileComplaint(s, q, d, ct, k);
      if r.reply.Success? {
        assert forall i :: 0 <= i < |s.complaints| ==> r.next.complaints[i] == s.complaints[i];
      }
    case Assign(cid, wid, oid) =>
    case Complete(cid, nt, ph) =>
  }

  /** Over any sequence of handler calls, complaints persist under their identifiers and statuses never move backwards. */
  lemma {:induction false} RunNeverRegresses(s: Store, cmds: seq<Command>)
    ensures |s.complaints| <= |Run(s, cmds).complaints|
    ensures forall i :: 0 <= i < |s.complaints| ==>
      && Run(s, cmds).complaints[i].id == s.complaints[i].id
      && s.complaints[i].status.Rank() <= Run(s, cmds).complaints[i].status.Rank()
    decreases |cmds|
  {
    if cmds != [] {
      StatusNeverRegresses(s, cmds[0]);
      RunNeverRegresses(Apply(s, cmds[0]), cmds[1..]);
    }
  }

  /** With unique user ids and phones, login succeeds exactly when some matching row holds the supplied password. */
  lemma LoginMatchesCredentials(s: Store, username: string, password: string, role: string)
    requires UniqueUserIds(s.users) && UniquePhones(s.users)
    ensures Login(s, Some(username), Some(password), Some(role)).Success?
        <==> exists i :: 0 <= i < |s.users| && LoginKey(username, role)(s.users[i]) && s.users[i].password == password
  {
    var us, key := s.users, LoginKey(username, role);
    if i :| 0 <= i < |us| && key(us[i]) && us[i].password == password {
      var k := Find(us, key).value;
      if k < i {
        assert false;
      }
    }
  }

  /** In a valid store a successful assignment changes exactly one complaint: the one it names. */
  lemma AssignTouchesOnlyTarget(s: Store, complaintId: string, workerId: string, officialId: Option<string>)
    requires Valid(s)
    requires AssignTask(s, Some(complaintId), Some(workerId), officialId).reply.Success?
    ensures var cs' := AssignTask(s, Some(complaintId), Some(workerId), officialId).next.complaints;
      exists k :: 0 <= k < |s.complaints|
        && s.complaints[k].id == complaintId
        && cs'[k] == s.complaints[k].(status := Assigned, worker := Some(workerId))
        && forall j :: 0 <= j < |s.complaints| && j != k ==> cs'[j] == s.complaints[j]
  {
    ComplaintIdsDistinct(s.complaints);
  }

  /** In a valid store a successful completion changes exactly one complaint: the one it names. */
  lemma CompleteTouchesOnlyTarget(s: Store, complaintId: string, notes: string, photoFilename: Option<string>)
    requires Valid(s)
    requires CompleteTask(s, Some(complaintId), Some(notes), photoFilename).reply.Success?
    ensures var cs' := CompleteTask(s, Some(complaintId), Some(notes), photoFilename).next.complaints;
      exists k :: 0 <= k < |s.complaints|
        && s.complaints[k].id == complaintId
        && cs'[k].status == Completed
        && forall j :: 0 <= j < |s.complaints| && j != k ==> cs'[j] == s.complaints[j]
  {
    ComplaintIdsDistinct(s.complaints);
  }

  /** A complaint filed with a contact is the first entry of that contact's status list, as Pending and unassigned. */
  lemma FiledComplaintVisible(s: Store, qrCode: Option<string>, description: Option<string>, contact: string, kind: Option<string>)
    requires !Empty(contact)
    requires FileComplaint(s, qrCode, description, Some(contact), kind).reply.Success?
    ensures var r := FileComplaint(s, qrCode, description, Some(contact), kind);
      var view := PilgrimStatus(r.next, Some(contact)).value;
      && |view| >= 1
      && view[0] == StatusView(r.reply.value, qrCode.value, description.value, Pending, None)
      && view[1..] == PilgrimStatus(s, Some(contact)).value
  {
    var r := FileComplaint(s, qrCode, description, Some(contact), kind);
    var c := r.next.complaints[|s.complaints|];
    assert r.next.complaints == s.complaints + [c];
    PilgrimStatusNewestFirst(s.users, s.complaints, [c], contact);
  }
}
