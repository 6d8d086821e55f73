/**
 * The request handlers of the service over its three Firestore collections:
 * `users` and `registration_pending`, both keyed by phone number, and the
 * `certificates` sub-collection under each user.  The SMS provider enters as
 * the verdict `approved` of a code check and the opaque `status` of a code
 * send; the clock enters as `now`.
 */
module App {
  import opened Wrappers
  import opened Normalize
  import opened Certificates

  /** A document of `users`. */
  datatype User = User(name: string, mobile: string, createdAt: string)

  /** A document of `registration_pending`. */
  datatype Pending = Pending(name: string, mobile: string, requestedAt: string)

  /** The answers a handler gives instead of its reply. */
  datatype Error =
    | MissingFields           // "Name and phone required", "Phone and OTP required", "Phone required"
    | AlreadyRegistered       // "User already registered"
    | InvalidOtp              // "Invalid OTP"
    | NoRegistrationPending   // "No registration pending"
    | NotRegistered           // "User not registered"
    | Unauthorized            // no X-User-Phone header
    | UserNotFound            // "User not found"
    | DocumentNotFound        // "Document not found for this certificate type"
    | ServerError             // an exception the handler does not catch

  /** Where a phone number stands in the registration lifecycle. */
  datatype Phase = Unregistered | PendingRegistration | Registered

  /** The reply of a successful registration check. */
  datatype Registration = Registration(name: string, phone: string)

  /** The reply of a successful login check: the user and all of its certificates. */
  datatype Login = Login(name: string, phone: string, documents: seq<Doc>)

  /** Python's truth test on a request field: present, not null, not empty. */
  predicate Present(field: Option<string>) {
    field.Some? && field.value != ""
  }

  /** `data.get(key)`: absent keys read as null. */
  function Get(body: map<string, Option<string>>, key: string): Option<string> {
    if key in body then body[key] else None
  }

  /** The keys add_certificate reads with `data[key]`, which raise when absent. */
  predicate HasRequired(body: map<string, Option<string>>) {
    && "certificate_type" in body
    && "certificate_name" in body
    && "holder_name" in body
    && "ipfs_url" in body
  }

  /** The record add_certificate writes for `body` at time `now`. */
  function Upload(body: map<string, Option<string>>, now: string): Cert
    requires HasRequired(body)
  {
    Cert(body["certificate_type"], body["certificate_name"], body["holder_name"],
         Get(body, "identifier_number"), body["ipfs_url"], UserUpload, now)
  }

  /** The scan of get_single_document: walk the stream in order and stop at
      the first record that passes `test` (in the handler, RequestMatcher:
      both normalised keys equal the request's). */
  method ScanFirst(stream: seq<Doc>, test: Cert -> bool) returns (found: Option<nat>)
    ensures found == FirstMatch(stream, test)
  {
    var i := 0;
    while i < |stream|
      invariant 0 <= i <= |stream|
      invariant forall j :: 0 <= j < i ==> !test(stream[j].cert)
    {
      if test(stream[i].cert) {
        return Some(i);
      }
      i := i + 1;
    }
    return None;
  }

  class Store {
    var users: map<string, User>
    var pending: map<string, Pending>
    var certs: map<string, seq<Doc>>

    /** Each document sits under its own phone, no phone is both pending and
        registered, and no two certificates of one phone share an id. */
    ghost predicate Valid()
      reads this
    {
      && (forall p :: p in users ==> users[p].mobile == p)
      && (forall p :: p in pending ==> pending[p].mobile == p)
      && users.Keys !! pending.Keys
      && (forall p :: p in certs ==> UniqueIds(certs[p]))
    }

    function PhaseOf(phone: string): Phase
      reads this
    {
      if phone in users then Registered
      else if phone in pending then PendingRegistration
      else Unregistered
    }

    constructor ()
      ensures Valid()
      ensures users == map[] && pending == map[] && certs == map[]
    {
      users, pending, certs := map[], map[], map[];
    }

    /** POST /register: refuse a registered phone, otherwise (re)write the
        pending registration with the given name. */
    method StartRegistration(phone: Option<string>, name: Option<string>, status: string, now: string)
      returns (r: Result<string, Error>)
      requires Valid()
      modifies this
      ensures Valid()
      ensures !Present(phone) || !Present(name) ==> r == Err(MissingFields)
      ensures Present(phone) && Present(name) && phone.value in old(users) ==> r == Err(AlreadyRegistered)
      ensures r.Ok? <==> Present(phone) && Present(name) && phone.value !in old(users)
      ensures r.Err? ==> users == old(users) && pending == old(pending) && certs == old(certs)
      ensures r.Ok? ==>
        && r.value == status
        && pending == old(pending)[phone.value := Pending(name.value, phone.value, now)]
        && users == old(users) && certs == old(certs)
        && old(PhaseOf(phone.value)) != Registered && PhaseOf(phone.value) == PendingRegistration
    {
      if !Present(phone) || !Present(name) {
        return Err(MissingFields);
      }
      var p := phone.value;
      if p in users {
        return Err(AlreadyRegistered);
      }
      pending := pending[p := Pending(name.value, p, now)];
      return Ok(status);
    }

    /** POST /register/verify-otp: the code must be approved, then a pending
        registration must exist; it becomes the user and is deleted. */
    method VerifyRegistration(phone: Option<string>, otp: Option<string>, approved: bool, now: string)
      returns (r: Result<Registration, Error>)
      requires Valid()
      modifies this
      ensures Valid()
      ensures !Present(phone) || !Present(otp) ==> r == Err(MissingFields)
      ensures Present(phone) && Present(otp) && !approved ==> r == Err(InvalidOtp)
      ensures Present(phone) && Present(otp) && approved && phone.value !in old(pending) ==>
        r == Err(NoRegistrationPending)
      ensures r.Ok? <==> Present(phone) && Present(otp) && approved && phone.value in old(pending)
      ensures r.Err? ==> users == old(users) && pending == old(pending) && certs == old(certs)
      ensures r.Ok? ==>
        var p := phone.value;
        var name := old(pending)[p].name;
        && r.value == Registration(name, p)
        && p !in old(users)
        && users == old(users)[p := User(name, p, now)]
        && pending == old(pending) - {p}
        && certs == old(certs)
        && old(PhaseOf(p)) == PendingRegistration && PhaseOf(p) == Registered
    {
      if !Present(phone) || !Present(otp) {
        return Err(MissingFields);
      }
      if !approved {
        return Err(InvalidOtp);
      }
      var p := phone.value;
      if p !in pending {
        return Err(NoRegistrationPending);
      }
      var name := pending[p].name;
      users := users[p := User(name, p, now)];
      pending := pending - {p};
      return Ok(Registration(name, p));
    }

    /** POST /login: only a registered phone is sent a code; nothing is written. */
    method StartLogin(phone: Option<string>, status: string) returns (r: Result<string, Error>)
      ensures !Present(phone) ==> r == Err(MissingFields)
      ensures Present(phone) && phone.value !in users ==> r == Err(NotRegistered)
      ensures r.Ok? <==> Present(phone) && phone.value in users
      ensures r.Ok? ==> r.value == status
    {
      if !Present(phone) {
        return Err(MissingFields);
      }
      if phone.value !in users {
        return Err(NotRegistered);
      }
      return Ok(status);
    }

    /** POST /login/verify-otp: with an approved code, read the user back with
        every certificate of the phone in stream order.  The user document is
        read but never checked to exist; a missing user fails only when its
        name is taken from it. */
    method VerifyLogin(phone: Option<string>, otp: Option<string>, approved: bool)
      returns (r: Result<Login, Error>)
      ensures !Present(phone) || !Present(otp) ==> r == Err(MissingFields)
      ensures Present(phone) && Present(otp) && !approved ==> r == Err(InvalidOtp)
      ensures Present(phone) && Present(otp) && approved && phone.value !in users ==> r == Err(ServerError)
      ensures r.Ok? <==> Present(phone) && Present(otp) && approved && phone.value in users
      ensures r.Ok? ==>
        r.value == Login(users[phone.value].name, phone.value, Owned(certs, phone.value))
    {
      if !Present(phone) || !Present(otp) {
        return Err(MissingFields);
      }
      if !approved {
        return Err(InvalidOtp);
      }
      var p := phone.value;
      var stream := Owned(certs, p);
      var documents: seq<Doc> := [];
      var i := 0;
      while i < |stream|
        invariant 0 <= i <= |stream|
        invariant documents == stream[..i]
      {
        documents := documents + [stream[i]];
        i := i + 1;
      }
      assert documents == stream;
      if p !in users {
        return Err(ServerError);
      }
      return Ok(Login(users[p].name, p, documents));
    }

    /** POST /certificate/add: the caller's phone comes from the X-User-Phone
        header, which is the only check; one record with a fresh id is added
        under that phone, whether or not it is a registered user.  The store
        streams a collection in the order of its random ids, so where the new
        record lands is the input `rank` (past the end: last). */
    method AddCertificate(phone: Option<string>, body: map<string, Option<string>>, now: string, rank: nat)
      returns (r: Result<(), Error>)
      requires Valid()
      modifies this
      ensures Valid()
      ensures !Present(phone) ==> r == Err(Unauthorized)
      ensures Present(phone) && !HasRequired(body) ==> r == Err(ServerError)
      ensures r.Ok? <==> Present(phone) && HasRequired(body)
      ensures users == old(users) && pending == old(pending)
      ensures r.Err? ==> certs == old(certs)
      ensures r.Ok? ==>
        var p := phone.value;
        var before := Owned(old(certs), p);
        var k := if rank < |before| then rank else |before|;
        && p in certs
        && |certs[p]| == |before| + 1
        && certs == old(certs)[p := Insert(before, k, certs[p][k])]
        && certs[p][k].cert == Upload(body, now)
        && certs[p][k].id !in Ids(before)
    {
      if !Present(phone) {
        return Err(Unauthorized);
      }
      if !HasRequired(body) {
        return Err(ServerError);
      }
      var p := phone.value;
      var before := Owned(certs, p);
      var k := if rank < |before| then rank else |before|;
      var doc := Doc(FreshId(Ids(before)), Upload(body, now));
      InsertFreshKeepsUnique(before, k, doc);
      certs := certs[p := Insert(before, k, doc)];
      return Ok(());
    }

    /** GET /certificate/get/<mobile>: every certificate of a registered user,
        in stream order, each with its id; none is an empty list. */
    method GetCertificates(mobile: string) returns (r: Result<seq<Doc>, Error>)
      ensures mobile !in users ==> r == Err(UserNotFound)
      ensures mobile in users ==> r == Ok(Owned(certs, mobile))
    {
      if mobile !in users {
        return Err(UserNotFound);
      }
      var stream := Owned(certs, mobile);
      var docs: seq<Doc> := [];
      var i := 0;
      while i < |stream|
        invariant 0 <= i <= |stream|
        invariant docs == stream[..i]
      {
        docs := docs + [stream[i]];
        i := i + 1;
      }
      assert docs == stream;
      return Ok(docs);
    }

    /** GET /document/<mobile>/<cert_type>/<identifier>: the first certificate
        in stream order whose normalised type and identifier both equal the
        normalised request. */
    method GetSingleDocument(mobile: string, certType: string, identifier: string)
      returns (r: Result<Cert, Error>)
      ensures mobile !in users ==> r == Err(UserNotFound)
      ensures mobile in users ==>
        match Found(Owned(certs, mobile), RequestMatcher(NormType(certType), NormIdent(identifier)))
        case Some(c) => r == Ok(c)
        case None => r == Err(DocumentNotFound)
    {
      if mobile !in users {
        return Err(UserNotFound);
      }
      var stream := Owned(certs, mobile);
      var found := ScanFirst(stream, RequestMatcher(NormType(certType), NormIdent(identifier)));
      if found.Some? {
        return Ok(stream[found.value].cert);
      }
      return Err(DocumentNotFound);
    }
  }

  /** The registration lifecycle of one phone, from an empty store: a second
      start overwrites the pending name, a denied code changes nothing, an
      approved code registers the latest name, a repeated check finds nothing
      pending, and the phone can then log in but not register again. */
  method RegistrationLifecycle(phone: string, first: string, second: string, code: string, status: string, now: string)
    returns (denied: Result<Registration, Error>, confirmed: Result<Registration, Error>,
             repeated: Result<Registration, Error>, again: Result<string, Error>, login: Result<string, Error>)
    requires phone != "" && first != "" && second != "" && code != ""
    ensures denied == Err(InvalidOtp)
    ensures confirmed == Ok(Registration(second, phone))
    ensures repeated == Err(NoRegistrationPending)
    ensures again == Err(AlreadyRegistered)
    ensures login == Ok(status)
  {
    var s := new Store();
    var r1 := s.StartRegistration(Some(phone), Some(first), status, now);
    var r2 := s.StartRegistration(Some(phone), Some(second), status, now);
    denied := s.VerifyRegistration(Some(phone), Some(code), false, now);
    confirmed := s.VerifyRegistration(Some(phone), Some(code), true, now);
    repeated := s.VerifyRegistration(Some(phone), Some(code), true, now);
    again := s.StartRegistration(Some(phone), Some(first), status, now);
    login := s.StartLogin(Some(phone), status);
  }

  /** Two uploads under one registered phone are both listed, under
      different ids, in whatever order the store streams them. */
  method UploadThenList(phone: string, name: string, first: map<string, Option<string>>,
                        second: map<string, Option<string>>, now: string, rank1: nat, rank2: nat)
    returns (listed: Result<seq<Doc>, Error>)
    requires phone != "" && name != ""
    requires HasRequired(first) && HasRequired(second)
    ensures listed.Ok? && |listed.value| == 2
    ensures multiset{listed.value[0].cert, listed.value[1].cert}
         == multiset{Upload(first, now), Upload(second, now)}
    ensures listed.value[0].id != listed.value[1].id
  {
    var s := new Store();
    var started := s.StartRegistration(Some(phone), Some(name), "pending", now);
    var registered := s.VerifyRegistration(Some(phone), Some("0"), true, now);
    var added1 := s.AddCertificate(Some(phone), first, now, rank1);
    ghost var one := s.certs[phone];
    var added2 := s.AddCertificate(Some(phone), second, now, rank2);
    ghost var docs := s.certs[phone];
    assert |one| == 1 && one[0].cert == Upload(first, now);
    assert docs[0].id != docs[1].id;
    assert docs == Insert(one, 0, docs[0]) || docs == Insert(one, 1, docs[1]);
    listed := s.GetCertificates(phone);
  }

  /** add_certificate does not ask whether the phone is a user: the record is
      stored, yet the listing of that phone still answers "User not found". */
  method UploadForStranger(phone: string, body: map<string, Option<string>>, now: string)
    returns (added: Result<(), Error>, listed: Result<seq<Doc>, Error>)
    requires phone != "" && HasRequired(body)
    ensures added.Ok?
    ensures listed == Err(UserNotFound)
  {
    var s := new Store();
    added := s.AddCertificate(Some(phone), body, now, 0);
    assert phone !in s.users;
    listed := s.GetCertificates(phone);
  }
}
