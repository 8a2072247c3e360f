/**
 Pilgrim registration and login against the `users` table
 (`handle_register_pilgrim` and `handle_login`).
 */
module Identity {
  import opened Php
  import opened Seqs
  import opened Schema

  predicate HasPilgrimPrefix(id: string)
  {
    |id| >= 2 && id[..2] == "P-"
  }

  /**
   The identifier given to a pilgrim registered when `k` pilgrims already
   exist: "P-" followed by the decimal text of 101 + k.
   */
  function PilgrimId(k: nat): (id: string)
    ensures HasPilgrimPrefix(id)
  {
    "P-" + Decimal(101 + k)
  }

  /** The digits after "P-" read back as 101 + k. */
  lemma PilgrimIdRoundTrip(k: nat)
    ensures |PilgrimId(k)| > 2
    ensures AllDigits(PilgrimId(k)[2..])
    ensures DigitsValue(PilgrimId(k)[2..]) == 101 + k
  {
    assert PilgrimId(k)[2..] == Decimal(101 + k);
    DecimalRoundTrip(101 + k);
  }

  /** Pilgrim identifiers are distinct for distinct pilgrim counts. */
  lemma PilgrimIdInjective(j: nat, k: nat)
    ensures PilgrimId(j) == PilgrimId(k) <==> j == k
  {
    if PilgrimId(j) == PilgrimId(k) {
      PilgrimIdRoundTrip(j);
      PilgrimIdRoundTrip(k);
    }
  }

  /** True when some user, of any role, already has this phone number. */
  predicate PhoneTaken(users: seq<User>, phone: string)
  {
    exists i :: 0 <= i < |users| && users[i].phone == Some(phone)
  }

  /** `handle_register_pilgrim`: validate, reject a known phone, append a new pilgrim. */
  function RegisterPilgrim(s: Store, name: Option<string>, phone: Option<string>, password: Option<string>): (r: Step<string>)
    ensures r.next.complaints == s.complaints
    ensures var (n, ph, pw) := (name.Coalesce(""), phone.Coalesce(""), password.Coalesce(""));
      && (Empty(n) || Empty(ph) || Empty(pw) ==> r == Step(Error(ValidationError), s))
      && (!Empty(n) && !Empty(ph) && !Empty(pw) && PhoneTaken(s.users, ph) ==> r == Step(Error(ConflictError), s))
      && (r.reply.Success? <==> !Empty(n) && !Empty(ph) && !Empty(pw) && !PhoneTaken(s.users, ph))
      && (r.reply.Success? ==>
            && r.reply.value == ph
            && |r.next.users| == |s.users| + 1
            && r.next.users[..|s.users|] == s.users
            && Count(r.next.users, IsPilgrim) == Count(s.users, IsPilgrim) + 1
            && var u := r.next.users[|s.users|];
               && u.role == Pilgrim && u.name == n && u.phone == Some(ph) && u.password == pw
               && u.id == PilgrimId(Count(s.users, IsPilgrim)))
  {
    var n, ph, pw := name.Coalesce(""), phone.Coalesce(""), password.Coalesce("");
    if Empty(n) || Empty(ph) || Empty(pw) then
      Step(Error(ValidationError), s)
    else if PhoneTaken(s.users, ph) then
      Step(Error(ConflictError), s)
    else
      var u := User(PilgrimId(Count(s.users, IsPilgrim)), n, Some(ph), pw, Pilgrim);
      CountSnoc(s.users, IsPilgrim, u);
      Step(Success(ph), s.(users := s.users + [u]))
  }

  /** What a successful login reports: the role asked for, the user id, and the phone for pilgrims. */
  datatype Session = Session(role: string, id: string, phone: Option<string>)

  /**
   The row a login looks for: a pilgrim with that phone number when the role
   is "pilgrim", otherwise a user with that id and that role.
   */
  function LoginKey(username: string, role: string): User -> bool
  {
    (u: User) =>
      if role == "pilgrim" then u.role == Pilgrim && u.phone == Some(username)
      else u.role.Name() == role && u.id == username
  }

  /**
   `handle_login`: the first row matching the key must carry exactly the
   supplied password. The store is only read.
   */
  function Login(s: Store, username: Option<string>, password: Option<string>, role: Option<string>): (r: Reply<Session>)
    ensures var (un, pw, rl) := (username.Coalesce(""), password.Coalesce(""), role.Coalesce(""));
      && (r.Error? ==> r.failure == AuthError)
      && (r.Success? <==>
            exists i :: 0 <= i < |s.users| && LoginKey(un, rl)(s.users[i]) && s.users[i].password == pw
              && forall j :: 0 <= j < i ==> !LoginKey(un, rl)(s.users[j]))
      && (r.Success? ==>
            exists i :: 0 <= i < |s.users| && LoginKey(un, rl)(s.users[i]) && s.users[i].password == pw
              && (forall j :: 0 <= j < i ==> !LoginKey(un, rl)(s.users[j]))
              && r.value == Session(rl, s.users[i].id, if rl == "pilgrim" then Some(un) else None))
  {
    var un, pw, rl := username.Coalesce(""), password.Coalesce(""), role.Coalesce("");
    match Find(s.users, LoginKey(un, rl))
    case Some(i) =>
      if s.users[i].password == pw then
        Success(Session(rl, s.users[i].id, if rl == "pilgrim" then s.users[i].phone else None))
      else
        Error(AuthError)
    case None => Error(AuthError)
  }
}
