/**
 * The identity model shared by both caches: users, SSH keys and the
 * lenient key parsing both caches apply to directory values.
 */
module Identity {
  import opened Wrappers

  newtype byte = x: int | 0 <= x < 256

  /** An SSH public key: its algorithm name and its wire encoding. */
  datatype PublicKey = PublicKey(format: string, blob: seq<byte>)

  /** An SSH signature: its algorithm name and its blob. */
  datatype Signature = Signature(format: string, blob: seq<byte>)

  /** An error reported by a directory adapter; the cache passes it on unchanged. */
  datatype Error = Error(message: string)

  /** A cached user: the keys that authenticate them, the roles they may assume, and their default role. */
  datatype User = User(username: string, sshKeys: seq<PublicKey>, arns: seq<string>, defaultRole: string)

  /**
   * The SSH and base64 library the caches call. Decoding ignores its error,
   * so it yields whatever bytes the decoder produced; the two parsers fail
   * with None; `verify` holds when the key verifies the signature over the challenge.
   */
  datatype SshLibrary = SshLibrary(
    decodeBase64: string -> seq<byte>,
    parsePublicKey: seq<byte> -> Option<PublicKey>,
    parseAuthorizedKey: string -> Option<PublicKey>,
    verify: (PublicKey, seq<byte>, Signature) -> bool)

  /** A key value is base64 wire format, or else an authorized_keys line. */
  function ParseKey(ssh: SshLibrary, text: string): Option<PublicKey> {
    match ssh.parsePublicKey(ssh.decodeBase64(text))
    case Some(key) => Some(key)
    case None => ssh.parseAuthorizedKey(text)
  }

  /** The keys of `values` that parse, in order; the others are skipped. */
  function ParsedKeys(ssh: SshLibrary, values: seq<string>): (keys: seq<PublicKey>)
    ensures |keys| <= |values|
  {
    if values == [] then []
    else
      var n := |values| - 1;
      ParsedKeys(ssh, values[..n]) + (match ParseKey(ssh, values[n]) case Some(key) => [key] case None => [])
  }

  /** Parsing a list piecewise gives the same keys: no value affects another. */
  lemma {:induction false} ParsedKeysAppend(ssh: SshLibrary, a: seq<string>, b: seq<string>)
    ensures ParsedKeys(ssh, a + b) == ParsedKeys(ssh, a) + ParsedKeys(ssh, b)
    decreases |b|
  {
    if b == [] {
      assert a + b == a;
    } else {
      var n := |b| - 1;
      assert (a + b)[..|a + b| - 1] == a + b[..n];
      assert (a + b)[|a + b| - 1] == b[n];
      ParsedKeysAppend(ssh, a, b[..n]);
    }
  }

  /** A key is kept exactly when some value parses to it. */
  lemma {:induction false} ParsedKeysMembership(ssh: SshLibrary, values: seq<string>, key: PublicKey)
    ensures key in ParsedKeys(ssh, values) <==> exists i :: 0 <= i < |values| && ParseKey(ssh, values[i]) == Some(key)
  {
    if values != [] {
      var n := |values| - 1;
      ParsedKeysMembership(ssh, values[..n], key);
      if key in ParsedKeys(ssh, values[..n]) {
        var i :| 0 <= i < n && ParseKey(ssh, values[..n][i]) == Some(key);
        assert ParseKey(ssh, values[i]) == Some(key);
      }
      if i :| 0 <= i < |values| && ParseKey(ssh, values[i]) == Some(key) {
        if i < n {
          assert ParseKey(ssh, values[..n][i]) == Some(key);
        }
      }
    }
  }

  /** When every value parses, each value yields its key at the same position. */
  lemma {:induction false} ParsedKeysAllValid(ssh: SshLibrary, values: seq<string>)
    requires forall i :: 0 <= i < |values| ==> ParseKey(ssh, values[i]).Some?
    ensures |ParsedKeys(ssh, values)| == |values|
    ensures forall i :: 0 <= i < |values| ==> Some(ParsedKeys(ssh, values)[i]) == ParseKey(ssh, values[i])
  {
    if values != [] {
      var n := |values| - 1;
      ParsedKeysAllValid(ssh, values[..n]);
    }
  }

  /** An unparseable value anywhere in the list only drops itself. */
  lemma UnparseableValueSkipped(ssh: SshLibrary, a: seq<string>, bad: string, b: seq<string>)
    requires ParseKey(ssh, bad).None?
    ensures ParsedKeys(ssh, a + [bad] + b) == ParsedKeys(ssh, a + b)
  {
    ParsedKeysAppend(ssh, a + [bad], b);
    ParsedKeysAppend(ssh, a, [bad]);
    ParsedKeysAppend(ssh, a, b);
    assert [bad][..0] == [];
  }

  /** No role occurs twice. */
  predicate NoDuplicates(s: seq<string>) {
    forall i, j :: 0 <= i < j < |s| ==> s[i] != s[j]
  }
}
