/** The account rules of the authentication handlers: route id parsing, the register and
    login checks and the profile update. bcrypt is an oracle: the hash a registration
    stores is a parameter, and the password comparison is a function parameter. */
module Auth {
  import opened Models

  /** The largest value strconv.ParseUint accepts with bit size 32. */
  const MaxUint32: nat := 0xFFFF_FFFF

  predicate IsDigit(c: char) { '0' <= c <= '9' }

  predicate AllDigits(s: string)
  {
    forall i :: 0 <= i < |s| ==> IsDigit(s[i])
  }

  function DigitValue(c: char): (d: nat)
    requires IsDigit(c)
    ensures d < 10
  {
    (c as int) - ('0' as int)
  }

  function DigitChar(d: nat): (c: char)
    requires d < 10
    ensures IsDigit(c) && DigitValue(c) == d
  {
    (('0' as int) + d) as char
  }

  /** The value of a string of decimal digits, most significant digit first. */
  function DecimalValue(s: string): nat
    requires AllDigits(s)
  {
    if s == [] then 0 else DecimalValue(s[..|s| - 1]) * 10 + DigitValue(s[|s| - 1])
  }

  /** The shortest decimal spelling of n (strconv.FormatUint with base 10). */
  function Decimal(n: nat): (s: string)
    ensures s != [] && AllDigits(s)
  {
    if n < 10 then [DigitChar(n)] else Decimal(n / 10) + [DigitChar(n % 10)]
  }

  /** parseID: strconv.ParseUint(s, 10, 32). Succeeds exactly on a non-empty string of
      ASCII digits (no sign, no separators) whose value fits in 32 unsigned bits. */
  function ParseId(s: string): (r: Option<nat>)
    ensures r.Some? ==> r.value <= MaxUint32
    ensures r.Some? ==> s != [] && AllDigits(s) && r.value == DecimalValue(s)
    ensures r.None? ==> s == [] || !AllDigits(s) || DecimalValue(s) > MaxUint32
  {
    if s != [] && AllDigits(s) && DecimalValue(s) <= MaxUint32 then Some(DecimalValue(s)) else None
  }

  lemma {:induction false} DecimalValueOfDecimal(n: nat)
    ensures DecimalValue(Decimal(n)) == n
  {
    var s := Decimal(n);
    if n >= 10 {
      DecimalValueOfDecimal(n / 10);
      assert s[..|s| - 1] == Decimal(n / 10);
    }
  }

  /** Every id the 32-bit parse can produce is read back from its decimal spelling,
      and no larger number is. */
  lemma ParseIdOfDecimal(n: nat)
    ensures ParseId(Decimal(n)) == if n <= MaxUint32 then Some(n) else None
  {
    DecimalValueOfDecimal(n);
  }

  /** Concrete cases of the parse: leading zeros are accepted; a sign, a space, the empty
      string and 2^32 are refused. */
  lemma ParseIdExamples()
    ensures ParseId("007") == Some(7)
    ensures ParseId("") == None
    ensures ParseId("+7") == None
    ensures ParseId("-1") == None
    ensures ParseId(" 7") == None
  {
    assert "007"[..2] == "00" && "00"[..1] == "0" && "0"[..0] == "";
    assert AllDigits("007");
    assert DecimalValue("0") == 0;
    assert DecimalValue("00") == 0;
    assert DecimalValue("007") == 7;
    assert !IsDigit("+7"[0]) && !IsDigit("-1"[0]) && !IsDigit(" 7"[0]);
  }

  /** The decimal spellings of the largest 32-bit value and of the next number. */
  lemma {:induction false} DecimalOfMaxUint32()
    ensures Decimal(MaxUint32) == "4294967295"
    ensures Decimal(MaxUint32 + 1) == "4294967296"
  {
    assert Decimal(4) == "4";
    assert Decimal(42) == "42";
    assert Decimal(429) == "429";
    assert Decimal(4294) == "4294";
    assert Decimal(42949) == "42949";
    assert Decimal(429496) == "429496";
    assert Decimal(4294967) == "4294967";
    assert Decimal(42949672) == "42949672";
    assert Decimal(429496729) == "429496729";
  }

  /** The 32-bit bound: 4294967295 is the largest id accepted. */
  lemma ParseIdBoundary()
    ensures ParseId("4294967295") == Some(MaxUint32)
    ensures ParseId("4294967296") == None
  {
    ParseIdOfDecimal(MaxUint32);
    ParseIdOfDecimal(MaxUint32 + 1);
    DecimalOfMaxUint32();
  }

  /** The login query `username = ? OR email = ?` with the same identifier for both. */
  predicate IdentifiedBy(u: User, ident: string)
  {
    u.username == ident || u.email == ident
  }

  /** The first user (lowest id) the identifier names, as `First` returns it. */
  function FindAccount(users: seq<User>, ident: string): (r: Option<nat>)
    ensures r.Some? ==> r.value < |users| && IdentifiedBy(users[r.value], ident)
    ensures r.Some? ==> forall j :: 0 <= j < r.value ==> !IdentifiedBy(users[j], ident)
    ensures r.None? ==> forall j :: 0 <= j < |users| ==> !IdentifiedBy(users[j], ident)
  {
    if users == [] then None
    else if IdentifiedBy(users[0], ident) then Some(0)
    else match FindAccount(users[1..], ident)
      case None => None
      case Some(i) => Some(i + 1)
  }

  /** The register query `username = ? OR email = ?`: some account already has the
      username or the email. */
  predicate AccountTaken(users: seq<User>, username: string, email: string)
  {
    exists i :: 0 <= i < |users| && (users[i].username == username || users[i].email == email)
  }

  /** Register's checks, in the source's order: required fields, then uniqueness. */
  function RegisterCheck(users: seq<User>, username: string, email: string, password: string): (r: Result<()>)
    ensures r.Ok? <==> (username != "" && email != "" && password != ""
                       && forall i :: 0 <= i < |users| ==> users[i].username != username && users[i].email != email)
    ensures (username == "" || email == "" || password == "") ==>
              r == Err(StatusBadRequest, "Username, email, and password are required")
    ensures (username != "" && email != "" && password != "" && AccountTaken(users, username, email)) ==>
              r == Err(StatusConflict, "Username or email already exists")
  {
    if username == "" || email == "" || password == "" then
      Err(StatusBadRequest, "Username, email, and password are required")
    else if AccountTaken(users, username, email) then
      Err(StatusConflict, "Username or email already exists")
    else Ok(())
  }

  /** The account a registration creates: role "user", active, no points, and the
      password column holding the hash. */
  function NewAccount(id: nat, username: string, email: string, hashed: string,
                      firstName: string, lastName: string, now: nat): (u: User)
    ensures u.id == id && u.username == username && u.email == email && u.password == hashed
    ensures u.role == RoleUser && u.isActive && u.totalPoints == 0
  {
    User(id, now, now, username, email, hashed, firstName, lastName, "", "", 0, RoleUser, true, None)
  }

  /** Login's checks, in the source's order: required fields, account lookup by username
      or email, the active flag, and only then the password. The result is the index of
      the account that logs in. */
  function LoginCheck(users: seq<User>, ident: string, password: string,
                      verify: (string, string) -> bool): (r: Result<nat>)
    ensures r.Ok? <==> (ident != "" && password != "" && FindAccount(users, ident).Some?
                       && users[FindAccount(users, ident).value].isActive
                       && verify(users[FindAccount(users, ident).value].password, password))
    ensures r.Ok? ==> r.value < |users| && IdentifiedBy(users[r.value], ident)
    ensures r.Ok? ==> FindAccount(users, ident).Some? && r.value == FindAccount(users, ident).value
    ensures (ident == "" || password == "") ==> r == Err(StatusBadRequest, "Username and password are required")
    ensures r.Err? ==> r.status == StatusBadRequest || r.status == StatusUnauthorized
    ensures ident != "" && password != "" && FindAccount(users, ident).None? ==>
              r == Err(StatusUnauthorized, "Invalid credentials")
    ensures ident != "" && password != "" && FindAccount(users, ident).Some?
            && !users[FindAccount(users, ident).value].isActive ==>
              r == Err(StatusUnauthorized, "Account is deactivated")
    ensures ident != "" && password != "" && FindAccount(users, ident).Some?
            && users[FindAccount(users, ident).value].isActive
            && !verify(users[FindAccount(users, ident).value].password, password) ==>
              r == Err(StatusUnauthorized, "Invalid credentials")
  {
    if ident == "" || password == "" then
      Err(StatusBadRequest, "Username and password are required")
    else match FindAccount(users, ident)
      case None => Err(StatusUnauthorized, "Invalid credentials")
      case Some(i) =>
        if !users[i].isActive then Err(StatusUnauthorized, "Account is deactivated")
        else if !verify(users[i].password, password) then Err(StatusUnauthorized, "Invalid credentials")
        else Ok(i)
  }

  /** A deactivated account is refused before its password is compared: the outcome is
      the same whatever the password check would say. */
  lemma DeactivatedBeforePassword(users: seq<User>, ident: string, password: string,
                                  verify1: (string, string) -> bool, verify2: (string, string) -> bool)
    requires ident != "" && password != ""
    requires FindAccount(users, ident).Some? && !users[FindAccount(users, ident).value].isActive
    ensures LoginCheck(users, ident, password, verify1) == Err(StatusUnauthorized, "Account is deactivated")
    ensures LoginCheck(users, ident, password, verify1) == LoginCheck(users, ident, password, verify2)
  {
  }

  /** An unknown identifier and a wrong password for an active account get the same
      answer, so the response does not tell which of the two was wrong. */
  lemma UnknownAccountLooksLikeWrongPassword(users1: seq<User>, users2: seq<User>, ident: string,
                                             password: string, verify: (string, string) -> bool)
    requires ident != "" && password != ""
    requires FindAccount(users1, ident).None?
    requires FindAccount(users2, ident).Some? && users2[FindAccount(users2, ident).value].isActive
    requires !verify(users2[FindAccount(users2, ident).value].password, password)
    ensures LoginCheck(users1, ident, password, verify) == LoginCheck(users2, ident, password, verify)
  {
  }

  /** The account row after a successful login: only the last-login time (and the row's
      update time) change. */
  function LoggedIn(u: User, now: nat): (v: User)
    ensures v.lastLogin == Some(now)
    ensures v.(lastLogin := u.lastLogin, updatedAt := u.updatedAt) == u
  {
    u.(lastLogin := Some(now), updatedAt := now)
  }

  /** User id k is stored at index k - 1. */
  ghost predicate UsersKeyed(users: seq<User>)
  {
    forall i :: 0 <= i < |users| ==> users[i].id == i + 1
  }

  /** GetProfile: the caller's own row, or not found. Row id k sits at index k - 1. */
  function GetProfile(users: seq<User>, userId: nat): (r: Result<User>)
    ensures r.Ok? <==> 1 <= userId <= |users|
    ensures r.Ok? ==> r.value == users[userId - 1]
    ensures UsersKeyed(users) ==> (r.Ok? <==> exists i :: 0 <= i < |users| && users[i].id == userId)
    ensures UsersKeyed(users) && r.Ok? ==> r.value.id == userId
    ensures r.Err? ==> r == Err(StatusNotFound, "User not found")
  {
    if 1 <= userId <= |users| then Ok(users[userId - 1]) else Err(StatusNotFound, "User not found")
  }

  /** UpdateProfile's column map: first name, last name, bio and avatar are overwritten
      (empty strings included); identity, credentials, role, points and status are not. */
  function ProfileUpdated(u: User, firstName: string, lastName: string, bio: string,
                          avatar: string, now: nat): (v: User)
    ensures v.firstName == firstName && v.lastName == lastName && v.bio == bio && v.avatar == avatar
    ensures v.id == u.id && v.username == u.username && v.email == u.email && v.password == u.password
    ensures v.role == u.role && v.totalPoints == u.totalPoints && v.isActive == u.isActive
    ensures v.createdAt == u.createdAt && v.lastLogin == u.lastLogin
    ensures v.updatedAt == now
    ensures v.(firstName := u.firstName, lastName := u.lastName, bio := u.bio, avatar := u.avatar,
               updatedAt := u.updatedAt) == u
  {
    u.(firstName := firstName, lastName := lastName, bio := bio, avatar := avatar, updatedAt := now)
  }
}
