/** Salted password hashing with HMAC-SHA512: the salt is the HMAC key, the
    hash is the MAC of the password's UTF-8 bytes under that key. The MAC
    itself is not modelled; a `Mac` stands for it, and the only fact used
    about it is its 64-byte output. */
module Passwords {
  import opened Wrappers
  import opened Text
  import opened Errors
  import opened Entities

  const HashLength: nat := 64
  const SaltLength: nat := 128

  type Digest = s: seq<byte> | |s| == HashLength witness seq(HashLength, _ => 0 as byte)
  type Salt = s: seq<byte> | |s| == SaltLength witness seq(SaltLength, _ => 0 as byte)

  /** HMAC-SHA512 keyed with the first argument, applied to the UTF-8 encoding
      of the second. */
  type Mac = (seq<byte>, string) -> Digest

  datatype Credentials = Credentials(hash: Digest, salt: Salt)

  /** `CreatePasswordHash`: the freshly generated 128-byte key `salt` becomes
      the stored salt, and the MAC of the password under it the stored hash. */
  function CreatePasswordHash(mac: Mac, password: string, salt: Salt): (r: Result<Credentials, Error>)
    ensures r.Failure? <==> Blank(password)
    ensures r.Failure? ==> r.error == ArgumentError(EmptyPasswordMessage)
    ensures r.Success? ==> r.value.salt == salt && r.value.hash == mac(r.value.salt, password)
  {
    if Blank(password) then Failure(ArgumentError(EmptyPasswordMessage))
    else Success(Credentials(mac(salt, password), salt))
  }

  /** What `VerifyPasswordHash` answers: argument errors first, in the order the
      source checks them, then whether the recomputed MAC equals the stored hash. */
  function PasswordCheck(mac: Mac, password: string, storedHash: seq<byte>, storedSalt: seq<byte>): (r: Result<bool, Error>)
    ensures Blank(password) ==> r == Failure(ArgumentError(EmptyPasswordMessage))
    ensures !Blank(password) && |storedHash| != HashLength ==> r == Failure(ArgumentError(HashLengthMessage))
    ensures !Blank(password) && |storedHash| == HashLength && |storedSalt| != SaltLength ==>
              r == Failure(ArgumentError(SaltLengthMessage))
    ensures r.Success? <==> !Blank(password) && |storedHash| == HashLength && |storedSalt| == SaltLength
    ensures r.Success? ==>
              (r.value <==> forall i | 0 <= i < HashLength :: mac(storedSalt, password)[i] == storedHash[i])
  {
    if Blank(password) then Failure(ArgumentError(EmptyPasswordMessage))
    else if |storedHash| != HashLength then Failure(ArgumentError(HashLengthMessage))
    else if |storedSalt| != SaltLength then Failure(ArgumentError(SaltLengthMessage))
    else Success(mac(storedSalt, password) == storedHash)
  }

  /** `VerifyPasswordHash`: the length checks, then a byte-by-byte comparison
      that stops at the first mismatch. */
  method VerifyPasswordHash(mac: Mac, password: string, storedHash: seq<byte>, storedSalt: seq<byte>)
    returns (r: Result<bool, Error>)
    ensures r == PasswordCheck(mac, password, storedHash, storedSalt)
  {
    if Blank(password) {
      return Failure(ArgumentError(EmptyPasswordMessage));
    }
    if |storedHash| != HashLength {
      return Failure(ArgumentError(HashLengthMessage));
    }
    if |storedSalt| != SaltLength {
      return Failure(ArgumentError(SaltLengthMessage));
    }
    var computedHash := mac(storedSalt, password);
    for i := 0 to |computedHash|
      invariant forall j | 0 <= j < i :: computedHash[j] == storedHash[j]
    {
      if computedHash[i] != storedHash[i] {
        return Success(false);
      }
    }
    return Success(true);
  }

  /** Credentials made from a password verify against that same password. */
  lemma HashRoundTrip(mac: Mac, password: string, salt: Salt)
    requires !Blank(password)
    ensures CreatePasswordHash(mac, password, salt).Success?
    ensures var c := CreatePasswordHash(mac, password, salt).value;
      PasswordCheck(mac, password, c.hash, c.salt) == Success(true)
  {
  }
}
