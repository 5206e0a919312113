/** The password a user's Secret holds: base64 text under one of its keys. */
module Secrets {
  import opened Common
  import opened Utf8
  import Base64

  /** The API server's answer for a Secret: its data, by key. */
  type Secret = Result<map<string, seq<Byte>>>

  /** The Secret of that name in the user's namespace. */
  function Fetch(secrets: map<string, Secret>, name: string): Secret
  {
    if name in secrets then secrets[name] else Failure("Secret not found")
  }

  const ILLEGAL := "illegal base64 data"

  /** `getUserPassword` as the spec gets to see it: bytes that are not UTF-8 reach a JSON document as U+FFFD. */
  function Password(secret: Secret, key: string): Result<string>
  {
    var data :- secret;
    if key !in data then Failure("secret does not contain key " + key)
    else
      var bytes := Base64.Decode(data[key]);
      if bytes.None? then Failure(ILLEGAL) else Success(Text(bytes.value))
  }

  function TextOf(r: Result<seq<Byte>>): Result<string>
  {
    var bytes :- r;
    Success(Text(bytes))
  }

  /** `stored` is base64 of `password`, on one line or wrapped. */
  predicate Holds(stored: seq<Byte>, password: seq<Byte>) { Base64.Unwrap(stored) == Base64.Encode(password) }

  /** `getUserPassword`. Whatever bytes a password has, when its base64 form is stored it is what comes back. The
      buffer is sized by the longest possible result. */
  method GetUserPassword(secret: Secret, key: string) returns (r: Result<seq<Byte>>)
    ensures TextOf(r) == Password(secret, key)
    ensures secret.Failure? ==> r == Failure(secret.message)
    ensures secret.Success? && key !in secret.value ==> r == Failure("secret does not contain key " + key)
    ensures secret.Success? && key in secret.value ==>
              && (r.Success? <==> Base64.Decode(secret.value[key]).Some?)
              && (r.Success? ==> r.value == Base64.Decode(secret.value[key]).value)
              && forall password :: Holds(secret.value[key], password) ==> r == Success(password)
  {
    if secret.Failure? {
      return Failure(secret.message);
    }
    var data := secret.value;
    if key !in data {
      return Failure("secret does not contain key " + key);
    }
    forall password | Holds(data[key], password)
      ensures Base64.Decode(data[key]) == Some(password)
    {
      Base64.DecodeWrapped(data[key], password);
    }
    var pass := new Byte[Base64.DecodedLen(|data[key]|)](_ => 0);
    var decoded := Base64.DecodeInto(pass, data[key]);
    if decoded.Failure? {
      return Failure(ILLEGAL);
    }
    return Success(pass[..decoded.value]);
  }

  /** A text stored as base64 of its UTF-8 form is the password that users get, whatever else the Secret holds;
      it is empty only if the text is. */
  lemma PasswordRecovered(data: map<string, seq<Byte>>, key: string, text: string)
    requires key in data && Holds(data[key], Encode(text))
    ensures Password(Success(data), key) == Success(text)
  {
    Base64.DecodeWrapped(data[key], Encode(text));
    RoundTrip(text);
    TextDecodes(Encode(text));
  }
}
