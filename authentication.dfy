/**
 * The key scan both caches run before and after a refresh: every cached
 * user's keys are tried against the signature, and the first key that
 * verifies decides the user. Users are visited in an unspecified order, as
 * Go visits the entries of a map.
 */
module Authentication {
  import opened Wrappers
  import opened Identity

  /** Some key of `user` verifies `signature` over `challenge`. */
  ghost predicate CanVerify(ssh: SshLibrary, user: User, challenge: seq<byte>, signature: Signature) {
    exists i :: 0 <= i < |user.sshKeys| && ssh.verify(user.sshKeys[i], challenge, signature)
  }

  /** Some cached user holds a key that verifies the signature. */
  ghost predicate AnyUserVerifies(ssh: SshLibrary, users: map<string, User>, challenge: seq<byte>, signature: Signature) {
    exists name :: name in users && CanVerify(ssh, users[name], challenge, signature)
  }

  /**
   * What a scan may answer: a cached user one of whose keys verifies,
   * or nothing exactly when no cached key verifies.
   */
  ghost predicate ScanOutcome(ssh: SshLibrary, users: map<string, User>, challenge: seq<byte>, signature: Signature, found: Option<User>) {
    match found
    case None => !AnyUserVerifies(ssh, users, challenge, signature)
    case Some(user) => user in users.Values && CanVerify(ssh, user, challenge, signature)
  }

  method Scan(ssh: SshLibrary, users: map<string, User>, challenge: seq<byte>, signature: Signature)
    returns (found: Option<User>)
    ensures ScanOutcome(ssh, users, challenge, signature, found)
  {
    var remaining := users.Keys;
    while remaining != {}
      invariant remaining <= users.Keys
      invariant forall name :: name in users && name !in remaining ==> !CanVerify(ssh, users[name], challenge, signature)
      decreases remaining
    {
      var name :| name in remaining;
      var user := users[name];
      for i := 0 to |user.sshKeys|
        invariant forall j :: 0 <= j < i ==> !ssh.verify(user.sshKeys[j], challenge, signature)
      {
        if ssh.verify(user.sshKeys[i], challenge, signature) {
          assert users[name] in users.Values;
          return Some(user);
        }
      }
      remaining := remaining - {name};
    }
    return None;
  }

  /**
   * When exactly one cached user holds a key that verifies, every scan
   * answers with that user.
   */
  lemma ScanFindsSoleKeyHolder(ssh: SshLibrary, users: map<string, User>, challenge: seq<byte>, signature: Signature,
                               name: string, found: Option<User>)
    requires name in users && CanVerify(ssh, users[name], challenge, signature)
    requires forall other :: other in users && other != name ==> !CanVerify(ssh, users[other], challenge, signature)
    requires ScanOutcome(ssh, users, challenge, signature, found)
    ensures found == Some(users[name])
  {
  }
}
