/** The server's account routes: public login and signup, technician
    creation by a company's admin, and admin creation by the super admin.
    The user, technician and company collections are fields of a
    `Database` object whose methods append and update documents as the
    route handlers' `save` calls do; fresh document ids come from a counter.
    Password hashing and comparison, token signing and geocoding are
    parameters. */
module AuthRoutes {
  import opened Common
  import opened AuthMiddleware

  datatype TechnicianRecord = TechnicianRecord(id: Id, userId: Id, companyId: Option<Id>)

  datatype Company = Company(id: Id, name: string, adminId: Option<Id>, technicians: seq<Id>)

  /** What a successful login sends back besides the user's fields. */
  datatype Session = Session(token: string, userId: Id, technicianId: Option<Id>, role: string,
                             companyId: Option<Id>)

  /** A signup request; `role` is `None` when the request carries none. */
  datatype SignupBody = SignupBody(name: string, countryId: string, email: string, phone: string,
                                   address: string, password: string, role: Option<string>, companyId: Option<Id>)

  datatype TechnicianBody = TechnicianBody(name: string, countryId: string, email: string, phone: string,
                                           password: string, address: string)

  datatype AdminBody = AdminBody(name: string, countryId: string, email: string, phone: string,
                                 password: string, companyName: string)

  const CustomerRole: string := "customer"
  const TechnicianRole: string := "technician"
  const AdminRole: string := "admin"
  const SuperAdminRole: string := "superAdmin"
  const Roles: seq<string> := [CustomerRole, TechnicianRole, AdminRole, SuperAdminRole]

  const LoginExpiry: string := "1h"
  const SignupExpiry: string := "7d"

  const InvalidEmail: Reply := Reply(400, "Invalid email")
  const InvalidPassword: Reply := Reply(400, "Invalid password")
  const InvalidRole: Reply := Reply(403, "Unauthorized: Invalid user role")
  const TechnicianNotFound: Reply := Reply(404, "Technician not found")
  const EmailTaken: Reply := Reply(400, "This email already has an account")
  const ServerError: Reply := Reply(500, "Server error")
  const MissingFields: Reply := Reply(400, "All fields are required")
  const ShortPassword: Reply := Reply(400, "Password must be at least 6 characters long")
  const BadPhone: Reply := Reply(400, "Phone number must be at least 10 digits long")
  const BadName: Reply := Reply(400, "Name must be at least 2 words")
  const NotAdmin: Reply := Reply(403, "Unauthorized: Only admins can assign technicians")
  const CompanyNotFound: Reply := Reply(404, "Company not found")
  const UserExists: Reply := Reply(400, "User already exists")
  const NotSuperAdmin: Reply := Reply(403, "Unauthorized: Only super admins can create admins")
  const CompanyExists: Reply := Reply(400, "Company already exists")

  const MinPasswordLength: nat := 6
  const PhoneLength: nat := 10

  /** `toLowerCase` on one character, for the ASCII capitals. */
  function LowerChar(c: char): char
  {
    if 'A' <= c <= 'Z' then (c as int - 'A' as int + 'a' as int) as char else c
  }

  /** The schema's `lowercase` setter, applied to stored emails and
      addresses and to the email of every `findOne({ email })`. */
  function Lower(s: string): string
  {
    seq(|s|, i requires 0 <= i < |s| => LowerChar(s[i]))
  }

  /** Lowercasing twice is lowercasing once: stored emails are fixed points. */
  lemma LowerIdempotent(s: string)
    ensures Lower(Lower(s)) == Lower(s)
    ensures Lower(s) == "" <==> s == ""
  {
    assert forall i :: 0 <= i < |s| ==> LowerChar(LowerChar(s[i])) == LowerChar(s[i]);
  }

  function HasEmail(email: string): User -> bool
  {
    (u: User) => u.email == email
  }

  /** `User.findOne({ email })`: the setter lowercases the email in the
      filter, so the lookup ignores the case of ASCII letters. */
  function UserByEmail(users: seq<User>, email: string): Option<User>
  {
    Find(users, HasEmail(Lower(email)))
  }

  /** Two spellings of an email that differ only in case find the same user. */
  lemma LookupIgnoresCase(users: seq<User>, a: string, b: string)
    requires Lower(a) == Lower(b)
    ensures UserByEmail(users, a) == UserByEmail(users, b)
  {
  }

  function OfUser(userId: Id): TechnicianRecord -> bool
  {
    (t: TechnicianRecord) => t.userId == userId
  }

  function CompanyWithId(id: Id): Company -> bool
  {
    (c: Company) => c.id == id
  }

  function CompanyNamed(name: string): Company -> bool
  {
    (c: Company) => c.name == name
  }

  // ---------------------------------------------------------------------
  // Login

  /** `/login`: the checks run in order and the first failing one answers. */
  function Login(users: seq<User>, technicians: seq<TechnicianRecord>, email: string, password: string,
                 matches: (string, string) -> bool, sign: (Claims, string) -> string): (r: Result<Session, Reply>)
    ensures r == Err(InvalidEmail) <==> UserByEmail(users, email).None?
    ensures r == Err(InvalidPassword) <==>
              UserByEmail(users, email).Some? && !matches(password, UserByEmail(users, email).value.passwordHash)
    ensures r == Err(InvalidRole) <==>
              UserByEmail(users, email).Some? && matches(password, UserByEmail(users, email).value.passwordHash) &&
              UserByEmail(users, email).value.role !in Roles
    ensures r == Err(TechnicianNotFound) <==>
              UserByEmail(users, email).Some? && matches(password, UserByEmail(users, email).value.passwordHash) &&
              UserByEmail(users, email).value.role == TechnicianRole &&
              Find(technicians, OfUser(UserByEmail(users, email).value.id)).None?
    ensures r.Ok? ==>
              UserByEmail(users, email).Some? &&
              (var u := UserByEmail(users, email).value;
               u.email == Lower(email) && u.role in Roles && matches(password, u.passwordHash) &&
               r.value.userId == u.id && r.value.role == u.role &&
               r.value.token == sign(Claims(u.id, u.role), LoginExpiry))
  {
    match UserByEmail(users, email)
    case None => Err(InvalidEmail)
    case Some(user) =>
      if !matches(password, user.passwordHash) then Err(InvalidPassword)
      else if user.role !in Roles then Err(InvalidRole)
      else
        var token := sign(Claims(user.id, user.role), LoginExpiry);
        if user.role == TechnicianRole then
          match Find(technicians, OfUser(user.id))
          case None => Err(TechnicianNotFound)
          case Some(technician) => Ok(Session(token, user.id, Some(technician.id), user.role, technician.companyId))
        else Ok(Session(token, user.id, None, user.role, user.companyId))
  }

  /** A user stored under a fresh email, lowercased as the schema stores it,
      logs in under any spelling of that email that differs only in case,
      with the password whose hash was stored and with the role and company
      recorded; a technician gets the company of its technician record. */
  lemma NewUserLogsIn(users: seq<User>, technicians: seq<TechnicianRecord>, user: User, record: Option<TechnicianRecord>,
                      email: string, password: string, matches: (string, string) -> bool, sign: (Claims, string) -> string)
    requires UserByEmail(users, email).None? && user.email == Lower(email)
    requires user.role in Roles && matches(password, user.passwordHash)
    requires forall i :: 0 <= i < |technicians| ==> technicians[i].userId != user.id
    requires user.role == TechnicianRole <==> record.Some?
    requires record.Some? ==> record.value.userId == user.id
    ensures Login(users + [user], technicians + (if record.Some? then [record.value] else []),
                  email, password, matches, sign)
            == Ok(Session(sign(Claims(user.id, user.role), LoginExpiry), user.id,
                          if record.Some? then Some(record.value.id) else None, user.role,
                          if record.Some? then record.value.companyId else user.companyId))
  {
    FindSnoc(users, user, HasEmail(Lower(email)));
    if record.Some? {
      FindSnoc(technicians, record.value, OfUser(user.id));
    }
  }

  /** Looking up an element that only the appended one matches finds it. */
  lemma FindSnoc<T>(s: seq<T>, x: T, p: T -> bool)
    requires forall i :: 0 <= i < |s| ==> !p(s[i])
    requires p(x)
    ensures Find(s + [x], p) == Some(x)
  {
    var r := Find(s + [x], p);
    assert (s + [x])[|s|] == x;
    assert forall i :: 0 <= i < |s| ==> (s + [x])[i] == s[i];
  }

  // ---------------------------------------------------------------------
  // Request validation

  /** A name of two or three words, split on single spaces. */
  predicate NameHasTwoOrThreeWords(name: string)
  {
    2 <= |Split(name, ' ')| <= 3
  }

  /** The split counts spaces: a valid name has one or two of them, so a
      double space counts as a word. */
  lemma NameWords(name: string)
    ensures NameHasTwoOrThreeWords(name) <==> 1 <= multiset(name)[' '] <= 2
  {
    SplitCount(name, ' ');
  }

  /** The checks of `/create-and-assign-technician` that precede any lookup:
      the request fields in order, then the caller's role. */
  function TechnicianRequestCheck(caller: User, body: TechnicianBody): (r: Option<Reply>)
    ensures r.None? <==>
              body.name != "" && body.countryId != "" && body.email != "" && body.phone != "" &&
              body.password != "" && body.address != "" && |body.password| >= MinPasswordLength &&
              |body.phone| == PhoneLength && NameHasTwoOrThreeWords(body.name) && caller.role == AdminRole
    ensures r == Some(NotAdmin) <==>
              body.name != "" && body.countryId != "" && body.email != "" && body.phone != "" &&
              body.password != "" && body.address != "" && |body.password| >= MinPasswordLength &&
              |body.phone| == PhoneLength && NameHasTwoOrThreeWords(body.name) && caller.role != AdminRole
    ensures r.Some? && r != Some(NotAdmin) ==> r.value.status == 400
  {
    if body.name == "" || body.countryId == "" || body.email == "" || body.phone == "" ||
       body.password == "" || body.address == "" then Some(MissingFields)
    else if |body.password| < MinPasswordLength then Some(ShortPassword)
    else if |body.phone| != PhoneLength then Some(BadPhone)
    else if !NameHasTwoOrThreeWords(body.name) then Some(BadName)
    else if caller.role != AdminRole then Some(NotAdmin)
    else None
  }

  /** The role check comes last: the same request gets the same field error
      from any caller. */
  lemma FieldErrorsIgnoreCaller(caller: User, other: User, body: TechnicianBody)
    requires TechnicianRequestCheck(caller, body).Some? && TechnicianRequestCheck(caller, body) != Some(NotAdmin)
    ensures TechnicianRequestCheck(other, body) == TechnicianRequestCheck(caller, body)
  {
  }

  /** All checks of `/create-and-assign-technician`, in order: the request,
      the caller's company, the email, then geocoding the address (which
      throws on failure). On success: the index of the caller's company. */
  function TechnicianGuard(caller: User, body: TechnicianBody, users: seq<User>, companies: seq<Company>,
                           geocode: string -> Option<Coord>): (r: Result<nat, Reply>)
    ensures TechnicianRequestCheck(caller, body).Some? ==> r == Err(TechnicianRequestCheck(caller, body).value)
    ensures TechnicianRequestCheck(caller, body).None? &&
            (caller.companyId.None? || Find(companies, CompanyWithId(caller.companyId.value)).None?)
            ==> r == Err(CompanyNotFound)
    ensures r == Err(UserExists) <==>
              TechnicianRequestCheck(caller, body).None? && caller.companyId.Some? &&
              Find(companies, CompanyWithId(caller.companyId.value)).Some? && UserByEmail(users, body.email).Some?
    ensures r.Ok? <==>
              TechnicianRequestCheck(caller, body).None? && caller.companyId.Some? &&
              Find(companies, CompanyWithId(caller.companyId.value)).Some? &&
              UserByEmail(users, body.email).None? && geocode(body.address).Some?
    ensures r.Ok? ==> r.value < |companies| && companies[r.value].id == caller.companyId.value
  {
    if TechnicianRequestCheck(caller, body).Some? then Err(TechnicianRequestCheck(caller, body).value)
    else if caller.companyId.None? then Err(CompanyNotFound)
    else
      var k := FindIndex(companies, CompanyWithId(caller.companyId.value));
      if k == -1 then Err(CompanyNotFound)
      else if UserByEmail(users, body.email).Some? then Err(UserExists)
      else if geocode(body.address).None? then Err(ServerError)
      else Ok(k)
  }

  /** All checks of `/create-admin`, in order: the caller's role, the email,
      then the company name. */
  function AdminGuard(caller: User, body: AdminBody, users: seq<User>, companies: seq<Company>): (r: Option<Reply>)
    ensures caller.role != SuperAdminRole <==> r == Some(NotSuperAdmin)
    ensures r == Some(UserExists) <==> caller.role == SuperAdminRole && UserByEmail(users, body.email).Some?
    ensures r == Some(CompanyExists) <==>
              caller.role == SuperAdminRole && UserByEmail(users, body.email).None? &&
              Find(companies, CompanyNamed(body.companyName)).Some?
    ensures r.None? <==>
              caller.role == SuperAdminRole && UserByEmail(users, body.email).None? &&
              Find(companies, CompanyNamed(body.companyName)).None?
  {
    if caller.role != SuperAdminRole then Some(NotSuperAdmin)
    else if UserByEmail(users, body.email).Some? then Some(UserExists)
    else if Find(companies, CompanyNamed(body.companyName)).Some? then Some(CompanyExists)
    else None
  }

  // ---------------------------------------------------------------------
  // The user schema

  /** What `user.save()` validates besides the address: the required strings
      are present and non-empty, `country_id` casts to a Number (the cast is
      the parameter `isNumber`), and the role is one of the four roles. */
  predicate RequiredFields(u: User, isNumber: string -> bool)
  {
    u.name != "" && isNumber(u.countryId) && u.email != "" && u.phone != "" &&
    u.passwordHash != "" && u.role in Roles
  }

  /** The whole validation of the user schema: the address is required too. */
  predicate Conforms(u: User, isNumber: string -> bool)
  {
    RequiredFields(u, isNumber) && u.address != ""
  }

  /** The stored role: the schema's default when the request has none. */
  function StoredRole(role: Option<string>): string
  {
    if role.Some? then role.value else CustomerRole
  }

  /** The document `/signup` builds. The company is dropped only when the
      request's role is `customer`, so a request without a role keeps it. */
  function SignupUser(id: Id, body: SignupBody, hash: string -> string, geocode: string -> Option<Coord>): User
  {
    User(id, body.name, body.countryId, Lower(body.email), body.phone, Lower(body.address), geocode(body.address),
         hash(body.password), StoredRole(body.role), if body.role != Some(CustomerRole) then body.companyId else None)
  }

  /** The document `/create-and-assign-technician` builds, in the caller's company. */
  function TechnicianUser(id: Id, caller: User, body: TechnicianBody, hash: string -> string,
                          geocode: string -> Option<Coord>): User
  {
    User(id, body.name, body.countryId, Lower(body.email), body.phone, Lower(body.address), geocode(body.address),
         hash(body.password), TechnicianRole, caller.companyId)
  }

  /** The document `/create-admin` builds: it has no address. */
  function AdminUser(id: Id, body: AdminBody, hash: string -> string): User
  {
    User(id, body.name, body.countryId, Lower(body.email), body.phone, "", None, hash(body.password), AdminRole, None)
  }

  /** The admin document never passes validation, whatever the request: its
      address is missing. */
  lemma AdminNeverConforms(id: Id, body: AdminBody, hash: string -> string, isNumber: string -> bool)
    ensures !Conforms(AdminUser(id, body, hash), isNumber)
  {
  }

  /** A technician request that passed its checks fails validation only on
      the `country_id` cast or an empty hash: every other required field was
      checked to be present. */
  lemma TechnicianFieldsChecked(caller: User, body: TechnicianBody, id: Id, hash: string -> string,
                                geocode: string -> Option<Coord>, isNumber: string -> bool)
    requires TechnicianRequestCheck(caller, body).None?
    ensures Conforms(TechnicianUser(id, caller, body, hash, geocode), isNumber)
            <==> isNumber(body.countryId) && hash(body.password) != ""
  {
    LowerIdempotent(body.email);
    LowerIdempotent(body.address);
  }

  // ---------------------------------------------------------------------
  // The store and the routes that write to it

  class Database {
    var users: seq<User>
    var technicians: seq<TechnicianRecord>
    var companies: seq<Company>
    var nextId: int

    /** Every id is below the counter, and every stored email is lowercase
        and belongs to one account only. */
    ghost predicate Valid()
      reads this
    {
      (forall i :: 0 <= i < |users| ==> users[i].id < nextId && Lower(users[i].email) == users[i].email) &&
      (forall i :: 0 <= i < |technicians| ==> technicians[i].id < nextId && technicians[i].userId < nextId) &&
      (forall i :: 0 <= i < |companies| ==> companies[i].id < nextId) &&
      (forall i, j :: 0 <= i < j < |users| ==> users[i].email != users[j].email)
    }

    constructor ()
      ensures Valid()
      ensures users == [] && technicians == [] && companies == []
    {
      users := [];
      technicians := [];
      companies := [];
      nextId := 0;
    }

    /** Draws a fresh document id. */
    method NewId() returns (id: Id)
      requires Valid()
      modifies this
      ensures Valid()
      ensures id == old(nextId) && nextId == old(nextId) + 1
      ensures users == old(users) && technicians == old(technicians) && companies == old(companies)
    {
      id := nextId;
      nextId := nextId + 1;
    }

    /** Saves a user, lowercased and with an email no account has, under an
        id already drawn. */
    method AddUser(user: User)
      requires UserByEmail(users, user.email).None? && Lower(user.email) == user.email && user.id < nextId
      requires Valid()
      modifies this
      ensures Valid()
      ensures users == old(users) + [user]
      ensures technicians == old(technicians) && companies == old(companies) && nextId == old(nextId)
    {
      forall i | 0 <= i < |users| ensures users[i].email != user.email {
        assert !HasEmail(user.email)(users[i]);
      }
      users := users + [user];
    }

    /** Saves a technician record and `company.technicians.push` its id
        onto the k-th company, which is then saved. */
    method AssignTechnician(record: TechnicianRecord, k: nat)
      requires Valid() && k < |companies| && record.id < nextId && record.userId < nextId
      modifies this
      ensures Valid()
      ensures technicians == old(technicians) + [record]
      ensures companies == old(companies)[k := old(companies)[k].(technicians := old(companies)[k].technicians + [record.id])]
      ensures users == old(users) && nextId == old(nextId)
    {
      technicians := technicians + [record];
      var company := companies[k];
      company := company.(technicians := company.technicians + [record.id]);
      companies := companies[k := company];
    }

    /** Saves a new company under an id already drawn. */
    method AddCompany(company: Company)
      requires Valid() && company.id < nextId
      modifies this
      ensures Valid()
      ensures companies == old(companies) + [company]
      ensures users == old(users) && technicians == old(technicians) && nextId == old(nextId)
    {
      companies := companies + [company];
    }

    /** `user.companyId = company._id` followed by `user.save()` on the
        last user saved. */
    method SetLastCompany(companyId: Id)
      requires Valid() && users != []
      modifies this
      ensures Valid()
      ensures users == old(users)[|old(users)| - 1 := old(users)[|old(users)| - 1].(companyId := Some(companyId))]
      ensures technicians == old(technicians) && companies == old(companies) && nextId == old(nextId)
    {
      users := users[|users| - 1 := users[|users| - 1].(companyId := Some(companyId))];
    }

    /** `/signup`: a taken email, in any case, is refused before anything is
        stored; a failed geocoding or a document the schema rejects is a
        server error with nothing stored; otherwise the lowercased user is
        appended under a fresh id and a seven-day token is returned. */
    method Signup(body: SignupBody, hash: string -> string, geocode: string -> Option<Coord>,
                  isNumber: string -> bool, sign: (Claims, string) -> string) returns (r: Result<Session, Reply>)
      requires Valid()
      modifies this
      ensures Valid()
      ensures r == Err(EmailTaken) <==> UserByEmail(old(users), body.email).Some?
      ensures r == Err(ServerError) <==>
                UserByEmail(old(users), body.email).None? &&
                (geocode(body.address).None? || !Conforms(SignupUser(old(nextId), body, hash, geocode), isNumber))
      ensures r.Err? ==> unchanged(this) && (r.error == EmailTaken || r.error == ServerError)
      ensures r.Ok? <==>
                UserByEmail(old(users), body.email).None? && geocode(body.address).Some? &&
                Conforms(SignupUser(old(nextId), body, hash, geocode), isNumber)
      ensures r.Ok? ==>
                users == old(users) + [SignupUser(old(nextId), body, hash, geocode)] &&
                technicians == old(technicians) && companies == old(companies) &&
                r.value == Session(sign(Claims(old(nextId), StoredRole(body.role)), SignupExpiry), old(nextId), None,
                                   StoredRole(body.role), users[|users| - 1].companyId)
    {
      if UserByEmail(users, body.email).Some? {
        return Err(EmailTaken);
      }
      var coords := geocode(body.address);
      if coords.None? {
        return Err(ServerError);
      }
      var user := SignupUser(nextId, body, hash, geocode);
      if !Conforms(user, isNumber) {
        return Err(ServerError);
      }
      var id := NewId();
      LowerIdempotent(body.email);
      AddUser(user);
      r := Ok(Session(sign(Claims(user.id, user.role), SignupExpiry), user.id, None, user.role, user.companyId));
    }

    /** `/create-and-assign-technician`: after the checks, and once the schema
        accepts the document, a technician user and its technician record
        are stored with the caller's company, and the record's id is
        appended to that company's technicians. */
    method CreateTechnician(caller: User, body: TechnicianBody, hash: string -> string,
                            geocode: string -> Option<Coord>, isNumber: string -> bool) returns (r: Result<Company, Reply>)
      requires Valid()
      modifies this
      ensures Valid()
      ensures var guard := TechnicianGuard(caller, body, old(users), old(companies), geocode);
              var user := TechnicianUser(old(nextId), caller, body, hash, geocode);
              (r.Err? <==> guard.Err? || !Conforms(user, isNumber)) &&
              (r.Err? ==> r.error == (if guard.Err? then guard.error else ServerError) && unchanged(this)) &&
              (r.Ok? ==>
                var k := guard.value;
                users == old(users) + [user] &&
                technicians == old(technicians) + [TechnicianRecord(old(nextId) + 1, old(nextId), caller.companyId)] &&
                companies == old(companies)[k := old(companies)[k].(technicians := old(companies)[k].technicians + [old(nextId) + 1])] &&
                r.value == companies[k])
    {
      var guard := TechnicianGuard(caller, body, users, companies, geocode);
      if guard.Err? {
        return Err(guard.error);
      }
      var k := guard.value;
      var user := TechnicianUser(nextId, caller, body, hash, geocode);
      if !Conforms(user, isNumber) {
        return Err(ServerError);
      }
      var userId := NewId();
      LowerIdempotent(body.email);
      AddUser(user);
      var technicianId := NewId();
      AssignTechnician(TechnicianRecord(technicianId, user.id, caller.companyId), k);
      r := Ok(companies[k]);
    }

    /** `/create-admin` as written: after the checks, `user.save()` validates
        the admin document, which has no address, so every request that
        passes the checks is a server error and nothing is stored. */
    method CreateAdmin(caller: User, body: AdminBody, hash: string -> string, isNumber: string -> bool)
        returns (r: Result<User, Reply>)
      requires Valid()
      ensures r.Err?
      ensures AdminGuard(caller, body, users, companies).Some? ==> r.error == AdminGuard(caller, body, users, companies).value
      ensures AdminGuard(caller, body, users, companies).None? ==> r.error == ServerError
    {
      var guard := AdminGuard(caller, body, users, companies);
      if guard.Some? {
        return Err(guard.value);
      }
      var user := AdminUser(nextId, body, hash);
      AdminNeverConforms(nextId, body, hash, isNumber);
      assert !Conforms(user, isNumber);
      r := Err(ServerError);
    }

    /** `/create-admin` as evidently intended, with the admin saved without an
        address: the admin is stored, then the company (whose name the
        schema requires), and the two are linked both ways. A company the
        schema rejects leaves the admin stored without a company. */
    method CreateLinkedAdmin(caller: User, body: AdminBody, hash: string -> string, isNumber: string -> bool)
        returns (r: Result<User, Reply>)
      requires Valid()
      modifies this
      ensures Valid()
      ensures var guard := AdminGuard(caller, body, old(users), old(companies));
              var admin := AdminUser(old(nextId), body, hash);
              (r.Ok? <==> guard.None? && RequiredFields(admin, isNumber) && body.companyName != "") &&
              (guard.Some? ==> r == Err(guard.value) && unchanged(this)) &&
              (guard.None? && !RequiredFields(admin, isNumber) ==> r == Err(ServerError) && unchanged(this)) &&
              (guard.None? && RequiredFields(admin, isNumber) && body.companyName == "" ==>
                 r == Err(ServerError) && users == old(users) + [admin] &&
                 companies == old(companies) && technicians == old(technicians)) &&
              (r.Ok? ==>
                 r.value == admin.(companyId := Some(old(nextId) + 1)) &&
                 users == old(users) + [r.value] &&
                 companies == old(companies) + [Company(old(nextId) + 1, body.companyName, Some(old(nextId)), [])] &&
                 technicians == old(technicians))
    {
      var guard := AdminGuard(caller, body, users, companies);
      if guard.Some? {
        return Err(guard.value);
      }
      var user := AdminUser(nextId, body, hash);
      if !RequiredFields(user, isNumber) {
        return Err(ServerError);
      }
      var userId := NewId();
      LowerIdempotent(body.email);
      r := SaveLinkedAdmin(user, body.companyName);
    }

    /** The saves of the intended `/create-admin`, for an admin document under
        a drawn id: the admin, then the company naming it, then the admin
        again with the company's id. */
    method SaveLinkedAdmin(user: User, companyName: string) returns (r: Result<User, Reply>)
      requires UserByEmail(users, user.email).None? && Lower(user.email) == user.email && user.id < nextId
      requires Valid()
      modifies this
      ensures Valid()
      ensures technicians == old(technicians)
      ensures companyName == "" ==> r == Err(ServerError) && users == old(users) + [user] && companies == old(companies)
      ensures companyName != "" ==>
                r == Ok(user.(companyId := Some(old(nextId)))) &&
                users == old(users) + [r.value] &&
                companies == old(companies) + [Company(old(nextId), companyName, Some(user.id), [])]
    {
      ghost var before := users;
      AddUser(user);
      if companyName == "" {
        return Err(ServerError);
      }
      var companyId := NewId();
      AddCompany(Company(companyId, companyName, Some(user.id), []));
      assert users[..|users| - 1] == before;
      SetLastCompany(companyId);
      var linked := user.(companyId := Some(companyId));
      assert users == before + [linked];
      r := Ok(linked);
    }
  }
}
