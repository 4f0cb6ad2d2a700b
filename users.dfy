/** The user directory: the Users table behind `UserService`, its lookups,
    its check-then-change operations and its two demographic reports. */
module Users {
  import opened Wrappers
  import opened Text
  import opened Errors
  import opened Entities
  import opened Queries
  import opened Reports
  import opened Passwords

  // Columns of the Users table, in table order.

  function Ids(users: seq<User>): seq<int> {
    seq(|users|, i requires 0 <= i < |users| => users[i].id)
  }

  function Usernames(users: seq<User>): seq<string> {
    seq(|users|, i requires 0 <= i < |users| => users[i].username)
  }

  function Genders(users: seq<User>): seq<string> {
    seq(|users|, i requires 0 <= i < |users| => users[i].gender)
  }

  function Platforms(users: seq<User>): seq<string> {
    seq(|users|, i requires 0 <= i < |users| => users[i].preferredPlatform)
  }

  /** Both credentials present and of the lengths `VerifyPasswordHash` demands. */
  predicate HasCredentials(u: User) {
    |u.passwordHash| == HashLength && |u.passwordSalt| == SaltLength
  }

  /** The table invariant: ids and usernames are keys, and every user has
      credentials, since a row is only ever added by a successful registration. */
  predicate WellFormedTable(users: seq<User>) {
    && Distinct(Ids(users))
    && Distinct(Usernames(users))
    && forall i | 0 <= i < |users| :: HasCredentials(users[i])
  }

  /** What `Login` answers over the table `users`: no user (null) for an empty
      username or password, an unknown username or a wrong password; the
      user whose username matches otherwise. A whitespace-only password gets
      past the emptiness test and is then refused by `VerifyPasswordHash`. */
  function Authenticate(users: seq<User>, mac: Mac, username: string, password: string)
    : (r: Result<Option<User>, Error>)
    requires Distinct(Usernames(users))
    ensures username == [] || password == [] ==> r == Success(None)
    ensures username !in Usernames(users) ==> r == Success(None)
    ensures r.Success? && r.value.Some? ==>
              r.value.value in users && r.value.value.username == username
              && r.value.value.passwordHash == mac(r.value.value.passwordSalt, password)
  {
    if username == [] || password == [] then Success(None)
    else
      match IndexOf(Usernames(users), username)
      case None => Success(None)
      case Some(k) =>
        match PasswordCheck(mac, password, users[k].passwordHash, users[k].passwordSalt)
        case Failure(e) => Failure(e)
        case Success(ok) => Success(if ok then Some(users[k]) else None)
  }

  /** Login of a registered user: a whitespace-only password is an argument
      error; any other password succeeds exactly when its MAC under the
      stored salt is the stored hash. */
  lemma AuthenticateRegistered(users: seq<User>, mac: Mac, k: nat, password: string)
    requires WellFormedTable(users) && k < |users| && users[k].username != [] && password != []
    ensures Blank(password) ==>
              Authenticate(users, mac, users[k].username, password) == Failure(ArgumentError(EmptyPasswordMessage))
    ensures !Blank(password) ==>
              Authenticate(users, mac, users[k].username, password)
              == if mac(users[k].passwordSalt, password) == users[k].passwordHash
                 then Success(Some(users[k])) else Success(None)
  {
    assert Usernames(users)[k] == users[k].username;
    DistinctIndexOf(Usernames(users), k);
  }

  /** A user whose stored credentials were made from `password` logs in with
      it: after `Register`, and after an `Update` that set the password. */
  lemma CredentialsAuthenticate(users: seq<User>, mac: Mac, k: nat, password: string, salt: Salt)
    requires WellFormedTable(users) && k < |users| && users[k].username != [] && !Blank(password)
    requires CreatePasswordHash(mac, password, salt).Success?
    requires var c := CreatePasswordHash(mac, password, salt).value;
      users[k].passwordHash == c.hash && users[k].passwordSalt == c.salt
    ensures Authenticate(users, mac, users[k].username, password) == Success(Some(users[k]))
  {
    AuthenticateRegistered(users, mac, k, password);
  }

  /** The registration of one user on top of `users`, as `Register` performs it. */
  lemma RegisterPreservesTable(users: seq<User>, u: User)
    requires WellFormedTable(users) && HasCredentials(u)
    requires u.username !in Usernames(users) && u.id !in Ids(users)
    ensures WellFormedTable(users + [u])
  {
    assert Usernames(users + [u]) == Usernames(users) + [u.username];
    assert Ids(users + [u]) == Ids(users) + [u.id];
    DistinctAppend(Usernames(users), u.username);
    DistinctAppend(Ids(users), u.id);
  }

  /** Rewriting one row with its id kept and a username not used by another
      row, as `Update` does. */
  lemma ReplacePreservesTable(users: seq<User>, k: nat, u: User)
    requires WellFormedTable(users) && k < |users| && HasCredentials(u)
    requires u.id == users[k].id
    requires u.username == users[k].username || u.username !in Usernames(users)
    ensures WellFormedTable(users[k := u])
  {
    var updated := users[k := u];
    assert Ids(updated) == Ids(users);
    forall i, j | 0 <= i < j < |updated|
      ensures Usernames(updated)[i] != Usernames(updated)[j]
    {
      assert Usernames(users)[i] == users[i].username;
      assert Usernames(users)[j] == users[j].username;
    }
  }

  /** An id missing from the id column belongs to no row. */
  lemma AbsentId(users: seq<User>, id: int)
    requires id !in Ids(users)
    ensures forall u | u in users :: u.id != id
  {
    forall u | u in users
      ensures u.id != id
    {
      var i :| 0 <= i < |users| && users[i] == u;
      assert Ids(users)[i] == u.id;
    }
  }

  /** Removing one row, as `Delete` does. */
  lemma RemovePreservesTable(users: seq<User>, k: nat)
    requires WellFormedTable(users) && k < |users|
    ensures WellFormedTable(users[..k] + users[k + 1..])
    ensures forall u :: u in users[..k] + users[k + 1..] <==> u in users && u.id != users[k].id
  {
    var rest := users[..k] + users[k + 1..];
    forall i, j | 0 <= i < j < |rest|
      ensures Ids(rest)[i] != Ids(rest)[j] && Usernames(rest)[i] != Usernames(rest)[j]
    {
      var i', j' := if i < k then i else i + 1, if j < k then j else j + 1;
      assert rest[i] == users[i'] && rest[j] == users[j'];
      assert Ids(users)[i'] != Ids(users)[j'];
      assert Usernames(users)[i'] != Usernames(users)[j'];
    }
    forall u | u in users && u.id != users[k].id
      ensures u in rest
    {
      var i :| 0 <= i < |users| && users[i] == u;
      assert i != k;
      if i < k {
        assert rest[i] == u;
      } else {
        assert rest[i - 1] == u;
      }
    }
    forall u | u in rest
      ensures u in users && u.id != users[k].id
    {
      var i :| 0 <= i < |rest| && rest[i] == u;
      var i' := if i < k then i else i + 1;
      assert users[i'] == u && i' != k;
      assert Ids(users)[i'] != Ids(users)[k];
    }
  }

  /** The report of `GetMaleFemaleRatio`; `totalUsers` counts the users whose
      gender is one of the three recognised values, not all users. */
  datatype Demographic = Demographic(
    malePercentage: Number,
    femalePercentage: Number,
    otherPercentage: Number,
    totalUsers: nat)

  /** The report of `GetPlatform`. */
  datatype PlatformShares = PlatformShares(
    ps4Percentage: Number,
    xboxPercentage: Number,
    pcPercentage: Number,
    switchPercentage: Number,
    mobilePercentage: Number)

  class UserService {
    /** The Users table, in table order. */
    var users: seq<User>
    /** The next value of the table's identity column. */
    var nextId: int
    /** The HMAC-SHA512 the credentials are made with. */
    const mac: Mac

    ghost predicate Valid()
      reads this
    {
      WellFormedTable(users) && forall i | 0 <= i < |users| :: users[i].id < nextId
    }

    constructor (mac: Mac)
      ensures Valid() && users == [] && nextId == 1 && this.mac == mac
    {
      users := [];
      nextId := 1;
      this.mac := mac;
    }

    /** `Login`: the stored user whose username and password match, or none. */
    method Login(username: string, password: string) returns (r: Result<Option<User>, Error>)
      requires Valid()
      ensures r == Authenticate(users, mac, username, password)
    {
      if username == [] || password == [] {
        return Success(None);
      }
      var found := IndexOf(Usernames(users), username);
      if found.None? {
        return Success(None);
      }
      var user := users[found.value];
      var verified := VerifyPasswordHash(mac, password, user.passwordHash, user.passwordSalt);
      match verified {
        case Failure(e) =>
          return Failure(e);
        case Success(ok) =>
          if !ok {
            return Success(None);
          }
      }
      return Success(Some(user));
    }

    /** `GetAllUsers`: the whole table, which it leaves as it is. */
    method GetAllUsers() returns (r: seq<User>)
      ensures r == users
    {
      r := users;
    }

    /** `GetUsersById`: the user with that id, or none (a null result, not an error). */
    function GetUsersById(id: int): (r: Option<User>)
      reads this
      ensures r.None? <==> id !in Ids(users)
      ensures r.Some? ==> r.value in users && r.value.id == id
    {
      match IndexOf(Ids(users), id)
      case None => None
      case Some(k) => Some(users[k])
    }

    /** `Register`: refuses a blank password, then a username already in use;
        otherwise stores the user with fresh credentials and the next id. */
    method Register(user: User, password: string, freshSalt: Salt) returns (r: Result<User, Error>)
      requires Valid()
      modifies this
      ensures Valid()
      ensures Blank(password) ==> r == Failure(AppError("Password is required"))
      ensures !Blank(password) && user.username in Usernames(old(users)) ==>
                r == Failure(AppError("Username \"" + user.username + "\" is already taken"))
      ensures r.Success? <==> !Blank(password) && user.username !in Usernames(old(users))
      ensures r.Failure? ==> users == old(users) && nextId == old(nextId)
      ensures r.Success? ==>
                && r.value == user.(id := old(nextId), passwordHash := mac(freshSalt, password), passwordSalt := freshSalt)
                && users == old(users) + [r.value]
                && nextId == old(nextId) + 1
    {
      if Blank(password) {
        return Failure(AppError("Password is required"));
      }
      if user.username in Usernames(users) {
        return Failure(AppError("Username \"" + user.username + "\" is already taken"));
      }
      var credentials := CreatePasswordHash(mac, password, freshSalt).value;
      var added := user.(passwordHash := credentials.hash, passwordSalt := credentials.salt);
      added := added.(id := nextId);
      assert nextId !in Ids(users);
      RegisterPreservesTable(users, added);
      users := users + [added];
      nextId := nextId + 1;
      return Success(added);
    }

    /** `Update`: a partial patch of the user with `patch.id`. A blank patch value
        leaves its field as it is; a new username must not be in use; a
        non-blank password replaces hash and salt together. */
    method Update(patch: User, password: string, freshSalt: Salt) returns (r: Outcome<Error>)
      requires Valid()
      modifies this
      ensures Valid() && nextId == old(nextId)
      ensures patch.id !in Ids(old(users)) ==> r == Fail(AppError("User not found"))
      ensures r.Fail? ==> users == old(users)
      ensures patch.id in Ids(old(users)) ==>
                var k := IndexOf(Ids(old(users)), patch.id).value;
                var before := old(users)[k];
                var renames := !Blank(patch.username) && patch.username != before.username;
                if renames && patch.username in Usernames(old(users)) then
                  r == Fail(AppError("Username " + patch.username + " is already taken"))
                else
                  && r == Pass
                  && |users| == |old(users)|
                  && (forall j | 0 <= j < |users| && j != k :: users[j] == old(users)[j])
                  && users[k].id == before.id
                  && users[k].username == (if renames then patch.username else before.username)
                  && users[k].firstName == (if Blank(patch.firstName) then before.firstName else patch.firstName)
                  && users[k].lastName == (if Blank(patch.lastName) then before.lastName else patch.lastName)
                  && users[k].gender == (if Blank(patch.gender) then before.gender else patch.gender)
                  && users[k].preferredPlatform ==
                       (if Blank(patch.preferredPlatform) then before.preferredPlatform else patch.preferredPlatform)
                  && (if Blank(password)
                      then users[k].passwordHash == before.passwordHash && users[k].passwordSalt == before.passwordSalt
                      else users[k].passwordHash == mac(freshSalt, password) && users[k].passwordSalt == freshSalt)
    {
      var found := IndexOf(Ids(users), patch.id);
      if found.None? {
        return Fail(AppError("User not found"));
      }
      var k := found.value;
      var user := users[k];

      if !Blank(patch.username) && patch.username != user.username {
        if patch.username in Usernames(users) {
          return Fail(AppError("Username " + patch.username + " is already taken"));
        }
        user := user.(username := patch.username);
      }
      user := PatchProfile(user, patch, password, freshSalt);

      ReplacePreservesTable(users, k, user);
      users := users[k := user];
      return Pass;
    }

    /** The second half of `Update`: each profile field whose patch value is
        non-blank is overwritten, and a non-blank password replaces hash and
        salt together; id and username are kept. */
    method PatchProfile(user: User, patch: User, password: string, freshSalt: Salt) returns (patched: User)
      ensures patched.id == user.id && patched.username == user.username
      ensures patched.firstName == if Blank(patch.firstName) then user.firstName else patch.firstName
      ensures patched.lastName == if Blank(patch.lastName) then user.lastName else patch.lastName
      ensures patched.gender == if Blank(patch.gender) then user.gender else patch.gender
      ensures patched.preferredPlatform ==
                if Blank(patch.preferredPlatform) then user.preferredPlatform else patch.preferredPlatform
      ensures Blank(password) ==>
                patched.passwordHash == user.passwordHash && patched.passwordSalt == user.passwordSalt
      ensures !Blank(password) ==>
                patched.passwordHash == mac(freshSalt, password) && patched.passwordSalt == freshSalt
    {
      patched := user;
      if !Blank(patch.firstName) {
        patched := patched.(firstName := patch.firstName);
      }
      if !Blank(patch.lastName) {
        patched := patched.(lastName := patch.lastName);
      }
      if !Blank(password) {
        var credentials := CreatePasswordHash(mac, password, freshSalt).value;
        patched := patched.(passwordHash := credentials.hash, passwordSalt := credentials.salt);
      }
      if !Blank(patch.gender) {
        patched := patched.(gender := patch.gender);
      }
      if !Blank(patch.preferredPlatform) {
        patched := patched.(preferredPlatform := patch.preferredPlatform);
      }
    }

    /** `Delete`: removes the user with that id; nothing happens if there is none. */
    method Delete(id: int)
      requires Valid()
      modifies this
      ensures Valid() && nextId == old(nextId)
      ensures id !in Ids(old(users)) ==> users == old(users)
      ensures id in Ids(old(users)) ==>
                var k := IndexOf(Ids(old(users)), id).value;
                users == old(users)[..k] + old(users)[k + 1..]
      ensures forall u :: u in users <==> u in old(users) && u.id != id
    {
      var found := IndexOf(Ids(users), id);
      if found.Some? {
        var k := found.value;
        RemovePreservesTable(users, k);
        users := users[..k] + users[k + 1..];
      } else {
        AbsentId(users, id);
      }
    }

    /** `GetMaleFemaleRatio`: tallies the exact genders "Male", "Female" and
        "Other"; any other value is left out of the tallies and the total. */
    method GetMaleFemaleRatio() returns (r: Demographic)
      ensures var genders := Genders(users);
        var m, f, o := Occurrences(genders, "Male"), Occurrences(genders, "Female"), Occurrences(genders, "Other");
        && r.totalUsers == m + f + o
        && r.malePercentage == Percentage(m, r.totalUsers)
        && r.femalePercentage == Percentage(f, r.totalUsers)
        && r.otherPercentage == Percentage(o, r.totalUsers)
      ensures r.totalUsers <= |users|
      ensures r.totalUsers > 0 ==>
                r.malePercentage.value + r.femalePercentage.value + r.otherPercentage.value == 100.0
    {
      var genders := Genders(users);
      var m, n, o := 0, 0, 0;
      for i := 0 to |genders|
        invariant m == Occurrences(genders[..i], "Male")
        invariant n == Occurrences(genders[..i], "Female")
        invariant o == Occurrences(genders[..i], "Other")
        invariant m + n + o <= i
      {
        OccurrencesStep(genders, i, "Male");
        OccurrencesStep(genders, i, "Female");
        OccurrencesStep(genders, i, "Other");
        if genders[i] == "Male" {
          m := m + 1;
        } else if genders[i] == "Female" {
          n := n + 1;
        } else if genders[i] == "Other" {
          o := o + 1;
        }
      }
      assert genders[..|genders|] == genders;
      var total := m + n + o;
      if total > 0 {
        PercentagesOfThree(m, n, o);
      }
      r := Demographic(Percentage(m, total), Percentage(n, total), Percentage(o, total), total);
    }

    /** `GetPlatform`: tallies the exact platforms "PlayStation", "XBOX", "PC",
        "Switch" and "Mobile" and reports each as a share of their sum. */
    method GetPlatform() returns (r: PlatformShares)
      ensures var platforms := Platforms(users);
        var ps4, xbox, pc := Occurrences(platforms, "PlayStation"), Occurrences(platforms, "XBOX"), Occurrences(platforms, "PC");
        var switch, mobile := Occurrences(platforms, "Switch"), Occurrences(platforms, "Mobile");
        var total := ps4 + xbox + pc + switch + mobile;
        && total <= |users|
        && r.ps4Percentage == Percentage(ps4, total)
        && r.xboxPercentage == Percentage(xbox, total)
        && r.pcPercentage == Percentage(pc, total)
        && r.switchPercentage == Percentage(switch, total)
        && r.mobilePercentage == Percentage(mobile, total)
        && (total > 0 ==>
              r.ps4Percentage.value + r.xboxPercentage.value + r.pcPercentage.value
              + r.switchPercentage.value + r.mobilePercentage.value == 100.0)
    {
      var platforms := Platforms(users);
      var ps4Count, xboxCount, switchCount, pcCount, mobileCount := 0, 0, 0, 0, 0;
      for i := 0 to |platforms|
        invariant ps4Count == Occurrences(platforms[..i], "PlayStation")
        invariant xboxCount == Occurrences(platforms[..i], "XBOX")
        invariant pcCount == Occurrences(platforms[..i], "PC")
        invariant switchCount == Occurrences(platforms[..i], "Switch")
        invariant mobileCount == Occurrences(platforms[..i], "Mobile")
        invariant ps4Count + xboxCount + pcCount + switchCount + mobileCount <= i
      {
        OccurrencesStep(platforms, i, "PlayStation");
        OccurrencesStep(platforms, i, "XBOX");
        OccurrencesStep(platforms, i, "PC");
        OccurrencesStep(platforms, i, "Switch");
        OccurrencesStep(platforms, i, "Mobile");
        if platforms[i] == "PlayStation" {
          ps4Count := ps4Count + 1;
        } else if platforms[i] == "XBOX" {
          xboxCount := xboxCount + 1;
        } else if platforms[i] == "PC" {
          pcCount := pcCount + 1;
        } else if platforms[i] == "Switch" {
          switchCount := switchCount + 1;
        } else if platforms[i] == "Mobile" {
          mobileCount := mobileCount + 1;
        }
      }
      assert platforms[..|platforms|] == platforms;
      var total := ps4Count + xboxCount + pcCount + switchCount + mobileCount;
      if total > 0 {
        PercentagesOfFive(ps4Count, xboxCount, pcCount, switchCount, mobileCount);
      }
      r := PlatformShares(
        Percentage(ps4Count, total), Percentage(xboxCount, total), Percentage(pcCount, total),
        Percentage(switchCount, total), Percentage(mobileCount, total));
    }
  }
}
