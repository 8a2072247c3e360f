/**
 The end-to-end behaviours the backend promises its clients: sequential
 numbering, duplicate phones, repeated transitions and wrong passwords.
 */
module Scenarios {
  import opened Php
  import opened Seqs
  import opened Schema
  import opened Identity
  import opened Lifecycle
  import opened Queries
  import opened Invariants

  lemma SmallDecimals()
    ensures Decimal(1) == "1" && Decimal(2) == "2" && Decimal(3) == "3"
    ensures Decimal(10) == "10" && Decimal(100) == "100" && Decimal(1000) == "1000"
  {
    assert Decimal(10) == Decimal(1) + "0";
    assert Decimal(100) == Decimal(10) + "0";
    assert Decimal(1000) == Decimal(100) + "0";
  }

  /** The first identifiers are C001, C002, C003; the thousandth is C1000, not truncated. */
  lemma ComplaintIdExamples()
    ensures ComplaintId(1) == "C001"
    ensures ComplaintId(2) == "C002"
    ensures ComplaintId(3) == "C003"
    ensures ComplaintId(1000) == "C1000"
  {
    SmallDecimals();
    assert Repeat('0', 2) == "00";
    assert PadLeft("1", 3, '0') == "001";
    assert PadLeft("2", 3, '0') == "002";
    assert PadLeft("3", 3, '0') == "003";
    assert PadLeft("1000", 3, '0') == "1000";
  }

  /** The first registered pilgrim is P-101. */
  lemma PilgrimIdExample()
    ensures PilgrimId(0) == "P-101"
  {
    assert Decimal(10) == "10";
    assert Decimal(101) == "101";
  }

  /** Filing three complaints into an empty complaint table yields C001, C002 and C003 in order. */
  lemma ThreeFilingsNumbered(users: seq<User>, qr: string, description: string, contact: Option<string>)
    requires !Empty(qr) && !Empty(description)
    ensures var r1 := FileComplaint(Store(users, []), Some(qr), Some(description), contact, None);
      var r2 := FileComplaint(r1.next, Some(qr), Some(description), contact, None);
      var r3 := FileComplaint(r2.next, Some(qr), Some(description), contact, None);
      && r1.reply == Success("C001")
      && r2.reply == Success("C002")
      && r3.reply == Success("C003")
  {
    var r1 := FileComplaint(Store(users, []), Some(qr), Some(description), contact, None);
    assert r1.reply == Success(ComplaintId(1)) && |r1.next.complaints| == 1;
    var r2 := FileComplaint(r1.next, Some(qr), Some(description), contact, None);
    assert r2.reply == Success(ComplaintId(2)) && |r2.next.complaints| == 2;
    var r3 := FileComplaint(r2.next, Some(qr), Some(description), contact, None);
    assert r3.reply == Success(ComplaintId(3));
    ComplaintIdExamples();
  }

  /** Registering a second time with the same phone is a conflict and leaves the store as the first registration left it. */
  lemma DuplicatePhoneConflict(s: Store, name: Option<string>, phone: string, password: Option<string>,
                               name2: Option<string>, password2: Option<string>)
    requires RegisterPilgrim(s, name, Some(phone), password).reply.Success?
    requires !Empty(name2.Coalesce("")) && !Empty(password2.Coalesce(""))
    ensures var s1 := RegisterPilgrim(s, name, Some(phone), password).next;
      RegisterPilgrim(s1, name2, Some(phone), password2) == Step(Error(ConflictError), s1)
  {
    var s1 := RegisterPilgrim(s, name, Some(phone), password).next;
    assert s1.users[|s.users|].phone == Some(phone);
  }

  /** Assigning the same complaint again fails with NotFound and changes nothing: failure is not idempotent success. */
  lemma AssignTwiceNotFound(s: Store, complaintId: string, worker: string, worker2: string, official: Option<string>, official2: Option<string>)
    requires AssignTask(s, Some(complaintId), Some(worker), official).reply.Success?
    requires !Empty(worker2)
    ensures var s1 := AssignTask(s, Some(complaintId), Some(worker), official).next;
      AssignTask(s1, Some(complaintId), Some(worker2), official2) == Step(Error(NotFoundError), s1)
  {
    var s1 := AssignTask(s, Some(complaintId), Some(worker), official).next;
    forall i | 0 <= i < |s1.complaints| && s1.complaints[i].id == complaintId
      ensures s1.complaints[i].status != Pending
    {
    }
  }

  /** Completing the same complaint again fails with NotFound and changes nothing. */
  lemma CompleteTwiceNotFound(s: Store, complaintId: string, notes: string, notes2: string, photo: Option<string>, photo2: Option<string>)
    requires CompleteTask(s, Some(complaintId), Some(notes), photo).reply.Success?
    requires !Empty(notes2)
    ensures var s1 := CompleteTask(s, Some(complaintId), Some(notes), photo).next;
      CompleteTask(s1, Some(complaintId), Some(notes2), photo2) == Step(Error(NotFoundError), s1)
  {
    var s1 := CompleteTask(s, Some(complaintId), Some(notes), photo).next;
    forall i | 0 <= i < |s1.complaints| && s1.complaints[i].id == complaintId
      ensures s1.complaints[i].status != Assigned
    {
    }
  }

  /** In a store filled by filings, the complaint just filed is the only one carrying its identifier. */
  lemma FiledIdUnique(s: Store, qr: Option<string>, description: Option<string>, contact: Option<string>)
    requires SequentialComplaintIds(s.complaints)
    requires FileComplaint(s, qr, description, contact, None).reply.Success?
    ensures var r := FileComplaint(s, qr, description, contact, None);
      forall i :: 0 <= i < |r.next.complaints| && r.next.complaints[i].id == r.reply.value ==>
        i == |s.complaints| && r.next.complaints[i].status == Pending
  {
    var r := FileComplaint(s, qr, description, contact, None);
    var cs := r.next.complaints;
    FreshComplaintId(s.complaints);
    forall i | 0 <= i < |s.complaints|
      ensures cs[i] == s.complaints[i]
    {
      assert cs[..|s.complaints|][i] == cs[i];
    }
  }

  /** In a valid store a freshly filed complaint cannot be completed before it is assigned. */
  lemma CompleteBeforeAssignNotFound(s: Store, qr: Option<string>, description: Option<string>, contact: Option<string>, notes: string, photo: Option<string>)
    requires Valid(s)
    requires FileComplaint(s, qr, description, contact, None).reply.Success?
    requires !Empty(notes)
    ensures var r := FileComplaint(s, qr, description, contact, None);
      CompleteTask(r.next, Some(r.reply.value), Some(notes), photo) == Step(Error(NotFoundError), r.next)
  {
    FiledIdUnique(s, qr, description, contact);
  }

  /** With unique ids and phones, a matching user with a different password is refused. */
  lemma WrongPasswordRejected(s: Store, username: string, password: string, role: string, i: nat)
    requires UniqueUserIds(s.users) && UniquePhones(s.users)
    requires i < |s.users| && LoginKey(username, role)(s.users[i]) && s.users[i].password != password
    ensures Login(s, Some(username), Some(password), Some(role)) == Error(AuthError)
  {
    LoginMatchesCredentials(s, username, password, role);
  }

  /** A pilgrim who just registered can log in with the same phone and password, and gets the new id back. */
  lemma RegisteredPilgrimCanLogIn(s: Store, name: Option<string>, phone: string, password: string)
    requires RegisterPilgrim(s, name, Some(phone), Some(password)).reply.Success?
    ensures var s1 := RegisterPilgrim(s, name, Some(phone), Some(password)).next;
      Login(s1, Some(phone), Some(password), Some("pilgrim"))
        == Success(Session("pilgrim", PilgrimId(Count(s.users, IsPilgrim)), Some(phone)))
  {
    var s1 := RegisterPilgrim(s, name, Some(phone), Some(password)).next;
    var key := LoginKey(phone, "pilgrim");
    forall j | 0 <= j < |s.users|
      ensures !key(s1.users[j])
    {
      assert s1.users[j] == s.users[j];
    }
    assert key(s1.users[|s.users|]);
  }
}
