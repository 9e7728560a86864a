/**
 * The keys-file-backed user cache. An update reloads the file, then folds
 * its records (one per key string) into a fresh user map, appending one key
 * per record that parses and each role the user does not have yet; the new
 * map replaces the cached one only once every record is folded in. Records
 * are visited in an unspecified order, as Go visits the entries of a map.
 */
module KeysFileCache {
  import opened Wrappers
  import opened Identity
  import opened Authentication

  /** A loosely typed attribute value read from the keys file. */
  datatype Value = Str(text: string) | List(items: seq<Value>) | Other

  type Attributes = map<string, Value>

  /** The keys file's contents: each key string and the attributes stored with it. */
  type KeysMap = map<string, Attributes>

  /** One entry of the keys map. */
  datatype KeyRecord = KeyRecord(key: string, data: Attributes)

  /** The cache's configuration, fixed at construction. */
  datatype KeysFileConfig = KeysFileConfig(
    enableServerRoles: bool,
    userAttr: string,
    roleAttr: string,
    defaultRole: string,
    defaultRoleAttr: string)

  /**
   * The attribute types the update relies on: a string username on every
   * record, and a list of strings as roles on every record whose key parses
   * when roles are enabled.
   */
  predicate WellTyped(config: KeysFileConfig, ssh: SshLibrary, record: KeyRecord) {
    && config.userAttr in record.data && record.data[config.userAttr].Str?
    && (config.enableServerRoles && ParseKey(ssh, record.key).Some? ==>
          && config.roleAttr in record.data && record.data[config.roleAttr].List?
          && forall v :: v in record.data[config.roleAttr].items ==> v.Str?)
  }

  predicate KeysWellTyped(config: KeysFileConfig, ssh: SshLibrary, keys: KeysMap) {
    forall key :: key in keys ==> WellTyped(config, ssh, KeyRecord(key, keys[key]))
  }

  function RecordUsername(config: KeysFileConfig, record: KeyRecord): string
    requires config.userAttr in record.data && record.data[config.userAttr].Str?
  {
    record.data[config.userAttr].text
  }

  /** The record's own default role if it is a non-empty string, else the configured one. */
  function RecordDefaultRole(config: KeysFileConfig, record: KeyRecord): (r: string)
    ensures r == config.defaultRole || (config.defaultRoleAttr in record.data && record.data[config.defaultRoleAttr] == Str(r))
    ensures r != "" || config.defaultRole == ""
  {
    if config.defaultRoleAttr in record.data && record.data[config.defaultRoleAttr].Str? &&
       record.data[config.defaultRoleAttr].text != ""
    then record.data[config.defaultRoleAttr].text
    else config.defaultRole
  }

  function RecordRoles(config: KeysFileConfig, ssh: SshLibrary, record: KeyRecord): seq<string>
    requires WellTyped(config, ssh, record) && config.enableServerRoles && ParseKey(ssh, record.key).Some?
  {
    var items := record.data[config.roleAttr].items;
    seq(|items|, i requires 0 <= i < |items| => items[i].text)
  }

  /** Appends, in order, each role not already present. */
  function AppendNew(arns: seq<string>, roles: seq<string>): (r: seq<string>)
    ensures forall role :: role in r <==> role in arns || role in roles
    ensures NoDuplicates(arns) ==> NoDuplicates(r)
    ensures |arns| <= |r| && r[..|arns|] == arns
  {
    if roles == [] then arns
    else
      var n := |roles| - 1;
      var prefix := AppendNew(arns, roles[..n]);
      assert forall role :: role in roles <==> role in roles[..n] || role == roles[n] by {
        assert roles == roles[..n] + [roles[n]];
      }
      if roles[n] in prefix then prefix else prefix + [roles[n]]
  }

  /** Appending two role lists one after the other is appending their concatenation. */
  lemma {:induction false} AppendNewConcat(arns: seq<string>, xs: seq<string>, ys: seq<string>)
    ensures AppendNew(AppendNew(arns, xs), ys) == AppendNew(arns, xs + ys)
    decreases |ys|
  {
    if ys == [] {
      assert xs + ys == xs;
    } else {
      var n := |ys| - 1;
      AppendNewConcat(arns, xs, ys[..n]);
      assert (xs + ys)[..|xs + ys| - 1] == xs + ys[..n];
      assert (xs + ys)[|xs + ys| - 1] == ys[n];
    }
  }

  /** The user map after one more record; a record whose key parses in neither form changes nothing. */
  function AddRecord(config: KeysFileConfig, ssh: SshLibrary, users: map<string, User>, record: KeyRecord): (r: map<string, User>)
    requires WellTyped(config, ssh, record)
    ensures forall name :: name in r <==> name in users || Contributes(config, ssh, record, name)
  {
    var name := RecordUsername(config, record);
    match ParseKey(ssh, record.key)
    case None => users
    case Some(key) =>
      var user := if name in users then users[name] else User(name, [], [], RecordDefaultRole(config, record));
      var arns := if config.enableServerRoles then AppendNew(user.arns, RecordRoles(config, ssh, record)) else user.arns;
      users[name := User(user.username, user.sshKeys + [key], arns, user.defaultRole)]
  }

  /** The user map built from records folded in the given order. */
  function Aggregate(config: KeysFileConfig, ssh: SshLibrary, records: seq<KeyRecord>): map<string, User>
    requires forall r :: r in records ==> WellTyped(config, ssh, r)
  {
    if records == [] then map[]
    else
      var n := |records| - 1;
      AddRecord(config, ssh, Aggregate(config, ssh, records[..n]), records[n])
  }

  /** No two records share a key. */
  ghost predicate DistinctKeys(records: seq<KeyRecord>) {
    forall i, j :: 0 <= i < j < |records| ==> records[i].key != records[j].key
  }

  /** `records` lists every entry of `keys` exactly once. */
  ghost predicate Enumerates(records: seq<KeyRecord>, keys: KeysMap) {
    && (forall i :: 0 <= i < |records| ==> records[i].key in keys && records[i].data == keys[records[i].key])
    && DistinctKeys(records)
    && (forall key :: key in keys ==> exists i :: 0 <= i < |records| && records[i].key == key)
  }

  /** `users` is what folding the entries of `keys` in some order gives. */
  ghost predicate Rebuilt(config: KeysFileConfig, ssh: SshLibrary, keys: KeysMap, users: map<string, User>) {
    exists records ::
      && Enumerates(records, keys)
      && (forall r :: r in records ==> WellTyped(config, ssh, r))
      && users == Aggregate(config, ssh, records)
  }

  /** The record parses and belongs to `name`. */
  predicate Contributes(config: KeysFileConfig, ssh: SshLibrary, record: KeyRecord, name: string)
    requires WellTyped(config, ssh, record)
  {
    ParseKey(ssh, record.key).Some? && RecordUsername(config, record) == name
  }

  /** The records that contribute to `name`, in order. */
  function OwnRecords(config: KeysFileConfig, ssh: SshLibrary, records: seq<KeyRecord>, name: string): (own: seq<KeyRecord>)
    requires forall r :: r in records ==> WellTyped(config, ssh, r)
    ensures forall r :: r in own ==> r in records && WellTyped(config, ssh, r) && Contributes(config, ssh, r, name)
    ensures |own| <= |records|
  {
    if records == [] then []
    else
      var n := |records| - 1;
      var prefix := OwnRecords(config, ssh, records[..n], name);
      if Contributes(config, ssh, records[n], name) then prefix + [records[n]] else prefix
  }

  function KeysOf(ssh: SshLibrary, own: seq<KeyRecord>): (keys: seq<PublicKey>)
    requires forall r :: r in own ==> ParseKey(ssh, r.key).Some?
    ensures |keys| == |own|
  {
    if own == [] then []
    else
      var n := |own| - 1;
      KeysOf(ssh, own[..n]) + [ParseKey(ssh, own[n].key).value]
  }

  function RolesOf(config: KeysFileConfig, ssh: SshLibrary, own: seq<KeyRecord>): seq<string>
    requires config.enableServerRoles
    requires forall r :: r in own ==> WellTyped(config, ssh, r) && ParseKey(ssh, r.key).Some?
  {
    if own == [] then []
    else
      var n := |own| - 1;
      RolesOf(config, ssh, own[..n]) + RecordRoles(config, ssh, own[n])
  }

  /**
   * The user that the contributing records of `name` describe, written
   * without the fold: one key per record, the roles of all records with
   * repeats dropped, and the default role of the first record.
   */
  function ExpectedUser(config: KeysFileConfig, ssh: SshLibrary, name: string, own: seq<KeyRecord>): User
    requires |own| > 0
    requires forall r :: r in own ==> WellTyped(config, ssh, r) && ParseKey(ssh, r.key).Some?
  {
    User(name, KeysOf(ssh, own),
         if config.enableServerRoles then AppendNew([], RolesOf(config, ssh, own)) else [],
         RecordDefaultRole(config, own[0]))
  }

  /** A record that does not contribute to `name` leaves its entry alone. */
  lemma AddRecordElsewhere(config: KeysFileConfig, ssh: SshLibrary, users: map<string, User>, record: KeyRecord, name: string)
    requires WellTyped(config, ssh, record) && !Contributes(config, ssh, record, name)
    ensures var after := AddRecord(config, ssh, users, record);
      (name in after <==> name in users) && (name in users ==> after[name] == users[name])
  {
  }

  /**
   * A record that contributes to `name` gives that user exactly its key, after
   * the keys it had, and its roles, after the roles it had and none twice; an
   * existing user keeps its username and default role, a new one takes the
   * record's.
   */
  lemma AddRecordHere(config: KeysFileConfig, ssh: SshLibrary, users: map<string, User>, record: KeyRecord, name: string)
    requires WellTyped(config, ssh, record) && Contributes(config, ssh, record, name)
    ensures var after := AddRecord(config, ssh, users, record);
      var key := ParseKey(ssh, record.key).value;
      var prior := if name in users then users[name] else User(name, [], [], RecordDefaultRole(config, record));
      && name in after
      && after[name].username == prior.username
      && after[name].defaultRole == prior.defaultRole
      && after[name].sshKeys == prior.sshKeys + [key]
      && prior.arns <= after[name].arns
      && (forall role :: role in after[name].arns <==>
            role in prior.arns || (config.enableServerRoles && role in RecordRoles(config, ssh, record)))
      && (NoDuplicates(prior.arns) ==> NoDuplicates(after[name].arns))
  {
  }

  /** Folding one more record of `name`'s into a map that holds its expected user extends that user. */
  lemma ExpectedUserStep(config: KeysFileConfig, ssh: SshLibrary, before: map<string, User>, ownBefore: seq<KeyRecord>,
                         last: KeyRecord, own: seq<KeyRecord>, name: string)
    requires forall r :: r in ownBefore ==> WellTyped(config, ssh, r) && ParseKey(ssh, r.key).Some?
    requires forall r :: r in own ==> WellTyped(config, ssh, r) && ParseKey(ssh, r.key).Some?
    requires WellTyped(config, ssh, last) && Contributes(config, ssh, last, name)
    requires own == ownBefore + [last]
    requires name in before <==> |ownBefore| > 0
    requires |ownBefore| > 0 ==> before[name] == ExpectedUser(config, ssh, name, ownBefore)
    ensures var after := AddRecord(config, ssh, before, last);
      name in after && after[name] == ExpectedUser(config, ssh, name, own)
  {
    var after := AddRecord(config, ssh, before, last);
    assert own[..|own| - 1] == ownBefore;
    var key := ParseKey(ssh, last.key).value;
    var prior := if name in before then before[name] else User(name, [], [], RecordDefaultRole(config, last));
    assert after[name] == User(prior.username, prior.sshKeys + [key],
                               if config.enableServerRoles then AppendNew(prior.arns, RecordRoles(config, ssh, last)) else prior.arns,
                               prior.defaultRole);
    assert KeysOf(ssh, own) == KeysOf(ssh, ownBefore) + [key];
    if |ownBefore| > 0 {
      assert own[0] == ownBefore[0];
      if config.enableServerRoles {
        assert RolesOf(config, ssh, own) == RolesOf(config, ssh, ownBefore) + RecordRoles(config, ssh, last);
        AppendNewConcat([], RolesOf(config, ssh, ownBefore), RecordRoles(config, ssh, last));
      }
    } else {
      assert [last][..0] == [];
      if config.enableServerRoles {
        assert RolesOf(config, ssh, own) == RecordRoles(config, ssh, last);
      }
    }
  }

  /**
   * Folding the records builds a user exactly for the names some parsing
   * record carries, and that user is the one its records describe.
   */
  lemma {:induction false} AggregatePerUser(config: KeysFileConfig, ssh: SshLibrary, records: seq<KeyRecord>, name: string)
    requires forall r :: r in records ==> WellTyped(config, ssh, r)
    ensures var users := Aggregate(config, ssh, records);
      var own := OwnRecords(config, ssh, records, name);
      && (name in users <==> |own| > 0)
      && (|own| > 0 ==> users[name] == ExpectedUser(config, ssh, name, own))
  {
    if records != [] {
      var n := |records| - 1;
      var prefix := records[..n];
      var last := records[n];
      assert forall r :: r in prefix ==> r in records;
      AggregatePerUser(config, ssh, prefix, name);
      var before := Aggregate(config, ssh, prefix);
      var after := Aggregate(config, ssh, records);
      assert after == AddRecord(config, ssh, before, last);
      var ownBefore := OwnRecords(config, ssh, prefix, name);
      var own := OwnRecords(config, ssh, records, name);
      if !Contributes(config, ssh, last, name) {
        assert own == ownBefore;
        AddRecordElsewhere(config, ssh, before, last, name);
      } else {
        assert own == ownBefore + [last];
        ExpectedUserStep(config, ssh, before, ownBefore, last, own, name);
      }
    }
  }

  /** Every folded user is stored under its own name and holds no role twice. */
  lemma AggregateWellFormed(config: KeysFileConfig, ssh: SshLibrary, records: seq<KeyRecord>)
    requires forall r :: r in records ==> WellTyped(config, ssh, r)
    ensures var users := Aggregate(config, ssh, records);
      forall name :: name in users ==> users[name].username == name && NoDuplicates(users[name].arns)
  {
  }

  /**
   * Each contributing record adds exactly one key, and the default role is
   * the one of the first record that contributes to the user.
   */
  lemma AggregateKeysAndDefaultRole(config: KeysFileConfig, ssh: SshLibrary, records: seq<KeyRecord>, name: string)
    requires forall r :: r in records ==> WellTyped(config, ssh, r)
    requires name in Aggregate(config, ssh, records)
    ensures var user := Aggregate(config, ssh, records)[name];
      var own := OwnRecords(config, ssh, records, name);
      && |own| > 0
      && |user.sshKeys| == |own|
      && user.defaultRole == RecordDefaultRole(config, own[0])
  {
    AggregatePerUser(config, ssh, records, name);
  }

  /** A user's roles are the roles of its contributing records, none twice. */
  lemma AggregateRoles(config: KeysFileConfig, ssh: SshLibrary, records: seq<KeyRecord>, name: string)
    requires forall r :: r in records ==> WellTyped(config, ssh, r)
    requires name in Aggregate(config, ssh, records)
    ensures var user := Aggregate(config, ssh, records)[name];
      var own := OwnRecords(config, ssh, records, name);
      && NoDuplicates(user.arns)
      && (!config.enableServerRoles ==> user.arns == [])
      && (config.enableServerRoles ==> forall role :: role in user.arns <==> role in RolesOf(config, ssh, own))
  {
    AggregatePerUser(config, ssh, records, name);
  }

  /** Appending a record appends it to `name`'s own records exactly when it contributes. */
  lemma OwnRecordsAppend(config: KeysFileConfig, ssh: SshLibrary, records: seq<KeyRecord>, last: KeyRecord, name: string)
    requires forall r :: r in records + [last] ==> WellTyped(config, ssh, r)
    ensures forall r :: r in records ==> WellTyped(config, ssh, r)
    ensures WellTyped(config, ssh, last)
    ensures OwnRecords(config, ssh, records + [last], name) ==
      OwnRecords(config, ssh, records, name) + (if Contributes(config, ssh, last, name) then [last] else [])
  {
    assert forall r :: r in records ==> r in records + [last];
    assert last in records + [last];
    assert (records + [last])[..|records|] == records;
  }

  /** A record whose key parses in neither form contributes nothing, wherever it comes. */
  lemma UnparseableRecordIgnored(config: KeysFileConfig, ssh: SshLibrary, a: seq<KeyRecord>, bad: KeyRecord, b: seq<KeyRecord>)
    requires forall r :: r in a + [bad] + b ==> WellTyped(config, ssh, r)
    requires ParseKey(ssh, bad.key).None?
    ensures Aggregate(config, ssh, a + [bad] + b) == Aggregate(config, ssh, a + b)
  {
    var with := a + [bad] + b;
    var without := a + b;
    assert forall r :: r in without ==> r in with;
    var m1 := Aggregate(config, ssh, with);
    var m2 := Aggregate(config, ssh, without);
    forall name
      ensures (name in m1 <==> name in m2) && (name in m1 ==> m1[name] == m2[name])
    {
      AggregatePerUser(config, ssh, with, name);
      AggregatePerUser(config, ssh, without, name);
      OwnRecordsSkip(config, ssh, a, bad, b, name);
    }
  }

  lemma {:induction false} OwnRecordsSkip(config: KeysFileConfig, ssh: SshLibrary, a: seq<KeyRecord>, bad: KeyRecord, b: seq<KeyRecord>, name: string)
    requires forall r :: r in a + [bad] + b ==> WellTyped(config, ssh, r)
    requires ParseKey(ssh, bad.key).None?
    ensures forall r :: r in a + b ==> WellTyped(config, ssh, r)
    ensures OwnRecords(config, ssh, a + [bad] + b, name) == OwnRecords(config, ssh, a + b, name)
    decreases |b|
  {
    assert forall r :: r in a + b ==> r in a + [bad] + b;
    if b == [] {
      assert a + [bad] + b == a + [bad] && a + b == a;
      OwnRecordsAppend(config, ssh, a, bad, name);
    } else {
      var n := |b| - 1;
      var fullPrefix, shortPrefix := a + [bad] + b[..n], a + b[..n];
      assert a + [bad] + b == fullPrefix + [b[n]] && a + b == shortPrefix + [b[n]];
      assert forall r :: r in fullPrefix + [b[n]] ==> WellTyped(config, ssh, r);
      assert forall r :: r in shortPrefix + [b[n]] ==> WellTyped(config, ssh, r);
      OwnRecordsSkip(config, ssh, a, bad, b[..n], name);
      OwnRecordsAppend(config, ssh, fullPrefix, b[n], name);
      OwnRecordsAppend(config, ssh, shortPrefix, b[n], name);
    }
  }


  /** A record contributes to `name` exactly when it is among that user's own records. */
  lemma {:induction false} OwnRecordsMembership(config: KeysFileConfig, ssh: SshLibrary, records: seq<KeyRecord>, name: string, r: KeyRecord)
    requires forall r :: r in records ==> WellTyped(config, ssh, r)
    ensures r in OwnRecords(config, ssh, records, name) <==> r in records && Contributes(config, ssh, r, name)
  {
    if records != [] {
      var n := |records| - 1;
      assert records == records[..n] + [records[n]];
      OwnRecordsMembership(config, ssh, records[..n], name, r);
    }
  }

  /** Records with distinct keys have as many keys as records. */
  lemma {:induction false} DistinctKeysCount(records: seq<KeyRecord>)
    requires DistinctKeys(records)
    ensures |set r | r in records :: r.key| == |records|
  {
    if records != [] {
      var n := |records| - 1;
      var prefix := records[..n];
      DistinctKeysCount(prefix);
      var keys := set r | r in records :: r.key;
      var prefixKeys := set r | r in prefix :: r.key;
      forall r | r in prefix
        ensures r.key != records[n].key
      {
        var i :| 0 <= i < n && prefix[i] == r;
      }
      assert records[n].key !in prefixKeys;
      assert records == prefix + [records[n]];
      assert keys == prefixKeys + {records[n].key};
    }
  }

  /** A role is among a user's roles exactly when one of its own records lists it. */
  lemma {:induction false} RolesOfMembership(config: KeysFileConfig, ssh: SshLibrary, own: seq<KeyRecord>, role: string)
    requires config.enableServerRoles
    requires forall r :: r in own ==> WellTyped(config, ssh, r) && ParseKey(ssh, r.key).Some?
    ensures role in RolesOf(config, ssh, own) <==> exists r :: r in own && role in RecordRoles(config, ssh, r)
  {
    if own != [] {
      var n := |own| - 1;
      assert own == own[..n] + [own[n]];
      RolesOfMembership(config, ssh, own[..n], role);
    }
  }

  /** A key is among a user's keys exactly when one of its records parses to it. */
  lemma {:induction false} KeysOfMembership(ssh: SshLibrary, own: seq<KeyRecord>, k: PublicKey)
    requires forall r :: r in own ==> ParseKey(ssh, r.key).Some?
    ensures k in KeysOf(ssh, own) <==> exists r :: r in own && ParseKey(ssh, r.key) == Some(k)
  {
    if own != [] {
      var n := |own| - 1;
      var prefix := own[..n];
      assert own == prefix + [own[n]];
      assert forall r :: r in prefix ==> r in own;
      KeysOfMembership(ssh, prefix, k);
      if k in KeysOf(ssh, own) {
        if k !in KeysOf(ssh, prefix) {
          assert ParseKey(ssh, own[n].key) == Some(k);
        }
      } else {
        forall r | r in own
          ensures ParseKey(ssh, r.key) != Some(k)
        {
          if r != own[n] {
            assert r in prefix;
          }
        }
      }
    }
  }

  /** The keys of the entries that contribute to `name`. */
  ghost function ContributingKeys(config: KeysFileConfig, ssh: SshLibrary, keys: KeysMap, name: string): set<string>
    requires KeysWellTyped(config, ssh, keys)
  {
    set key | key in keys && Contributes(config, ssh, KeyRecord(key, keys[key]), name)
  }

  /** A user's own records keep the records' distinct keys. */
  lemma {:induction false} OwnRecordsDistinct(config: KeysFileConfig, ssh: SshLibrary, records: seq<KeyRecord>, name: string)
    requires forall r :: r in records ==> WellTyped(config, ssh, r)
    requires DistinctKeys(records)
    ensures DistinctKeys(OwnRecords(config, ssh, records, name))
  {
    if records != [] {
      var n := |records| - 1;
      var prefix := records[..n];
      assert forall r :: r in prefix ==> r in records;
      OwnRecordsDistinct(config, ssh, prefix, name);
      var own := OwnRecords(config, ssh, prefix, name);
      forall r | r in own
        ensures r.key != records[n].key
      {
        var i :| 0 <= i < n && prefix[i] == r;
      }
    }
  }

  /** Under an enumeration of `keys`, the contributing keys are the keys of the user's own records. */
  lemma ContributingKeysOfEnumeration(config: KeysFileConfig, ssh: SshLibrary, keys: KeysMap, records: seq<KeyRecord>, name: string)
    requires KeysWellTyped(config, ssh, keys)
    requires Enumerates(records, keys) && forall r :: r in records ==> WellTyped(config, ssh, r)
    ensures forall r :: r in records ==> r == KeyRecord(r.key, keys[r.key])
    ensures ContributingKeys(config, ssh, keys, name) == set r | r in OwnRecords(config, ssh, records, name) :: r.key
  {
    var own := OwnRecords(config, ssh, records, name);
    var contributing := ContributingKeys(config, ssh, keys, name);
    forall r | r in records
      ensures r == KeyRecord(r.key, keys[r.key])
    {
      var i :| 0 <= i < |records| && records[i] == r;
    }
    forall key | key in contributing
      ensures key in set r | r in own :: r.key
    {
      var i :| 0 <= i < |records| && records[i].key == key;
      OwnRecordsMembership(config, ssh, records, name, records[i]);
    }
    forall r | r in own
      ensures r.key in contributing
    {
      OwnRecordsMembership(config, ssh, records, name, r);
    }
  }

  /**
   * Whatever order the entries of the keys map were visited in, a user exists
   * exactly for each username carried by an entry whose key parses, and it
   * holds one key per such entry: exactly the keys those entries parse to.
   */
  lemma RebuiltUserKeys(config: KeysFileConfig, ssh: SshLibrary, keys: KeysMap, users: map<string, User>, name: string)
    requires KeysWellTyped(config, ssh, keys)
    requires Rebuilt(config, ssh, keys, users)
    ensures name in users <==> ContributingKeys(config, ssh, keys, name) != {}
    ensures name in users ==>
      && users[name].username == name
      && |users[name].sshKeys| == |ContributingKeys(config, ssh, keys, name)|
      && exists key :: key in ContributingKeys(config, ssh, keys, name) &&
           users[name].defaultRole == RecordDefaultRole(config, KeyRecord(key, keys[key]))
    ensures name in users ==> forall k :: k in users[name].sshKeys <==>
      exists key :: key in ContributingKeys(config, ssh, keys, name) && ParseKey(ssh, key) == Some(k)
  {
    var records: seq<KeyRecord> :| Enumerates(records, keys) && (forall r :: r in records ==> WellTyped(config, ssh, r))
                                   && users == Aggregate(config, ssh, records);
    var own := OwnRecords(config, ssh, records, name);
    AggregatePerUser(config, ssh, records, name);
    ContributingKeysOfEnumeration(config, ssh, keys, records, name);
    if name in users {
      OwnRecordsDistinct(config, ssh, records, name);
      DistinctKeysCount(own);
      assert own[0] in own;
      assert own[0].key in ContributingKeys(config, ssh, keys, name);
      forall k
        ensures k in users[name].sshKeys <==>
          exists key :: key in ContributingKeys(config, ssh, keys, name) && ParseKey(ssh, key) == Some(k)
      {
        KeysOfMembership(ssh, own, k);
        if k in users[name].sshKeys {
          var r :| r in own && ParseKey(ssh, r.key) == Some(k);
          assert r.key in ContributingKeys(config, ssh, keys, name);
        }
        if exists key :: key in ContributingKeys(config, ssh, keys, name) && ParseKey(ssh, key) == Some(k) {
          var key :| key in ContributingKeys(config, ssh, keys, name) && ParseKey(ssh, key) == Some(k);
          var r :| r in own && r.key == key;
        }
      }
    } else {
      assert |own| == 0;
      assert ContributingKeys(config, ssh, keys, name) == {};
    }
  }

  /**
   * Whatever order the entries of the keys map were visited in, a user's
   * roles are those its contributing entries list, none twice.
   */
  lemma RebuiltUserRoles(config: KeysFileConfig, ssh: SshLibrary, keys: KeysMap, users: map<string, User>, name: string)
    requires KeysWellTyped(config, ssh, keys)
    requires Rebuilt(config, ssh, keys, users)
    requires name in users
    ensures NoDuplicates(users[name].arns)
    ensures !config.enableServerRoles ==> users[name].arns == []
    ensures config.enableServerRoles ==> forall role :: role in users[name].arns <==>
      exists key :: key in ContributingKeys(config, ssh, keys, name) && role in RecordRoles(config, ssh, KeyRecord(key, keys[key]))
  {
    var records: seq<KeyRecord> :| Enumerates(records, keys) && (forall r :: r in records ==> WellTyped(config, ssh, r))
                                   && users == Aggregate(config, ssh, records);
    var own := OwnRecords(config, ssh, records, name);
    var contributing := ContributingKeys(config, ssh, keys, name);
    AggregatePerUser(config, ssh, records, name);
    ContributingKeysOfEnumeration(config, ssh, keys, records, name);
    if config.enableServerRoles {
      forall role
        ensures role in users[name].arns <==>
          exists key :: key in contributing && role in RecordRoles(config, ssh, KeyRecord(key, keys[key]))
      {
        RolesOfMembership(config, ssh, own, role);
        if r :| r in own && role in RecordRoles(config, ssh, r) {
          assert r.key in contributing;
        }
        if key :| key in contributing && role in RecordRoles(config, ssh, KeyRecord(key, keys[key])) {
          var r :| r in own && r.key == key;
        }
      }
    }
  }

  /** The error of a failed load, else of a failed read of the keys, else none. */
  function RefreshError(load: Option<Error>, keys: Result<KeysMap, Error>): (err: Option<Error>)
    ensures err.None? <==> load.None? && keys.Success?
    ensures load.Some? ==> err == load
    ensures load.None? && keys.Failure? ==> err == Some(keys.error)
  {
    if load.Some? then load
    else if keys.Failure? then Some(keys.error)
    else None
  }

  /**
   * `records` lists, once each, exactly the entries of `keys` that are no
   * longer `remaining`.
   */
  ghost predicate Visited(records: seq<KeyRecord>, keys: KeysMap, remaining: set<string>) {
    && remaining <= keys.Keys
    && (forall i :: 0 <= i < |records| ==>
          records[i].key in keys && records[i].key !in remaining && records[i].data == keys[records[i].key])
    && (forall i, j :: 0 <= i < j < |records| ==> records[i].key != records[j].key)
    && (forall key :: key in keys && key !in remaining ==> exists i :: 0 <= i < |records| && records[i].key == key)
  }

  lemma VisitStep(records: seq<KeyRecord>, keys: KeysMap, remaining: set<string>, key: string)
    requires Visited(records, keys, remaining) && key in remaining
    ensures Visited(records + [KeyRecord(key, keys[key])], keys, remaining - {key})
  {
    var records' := records + [KeyRecord(key, keys[key])];
    forall k | k in keys && k !in remaining - {key}
      ensures exists i :: 0 <= i < |records'| && records'[i].key == k
    {
      if k == key {
        assert records'[|records|].key == k;
      } else {
        var i :| 0 <= i < |records| && records[i].key == k;
        assert records'[i].key == k;
      }
    }
  }

  /** `seenRoles` holds exactly the (username, role) pairs of the users built so far. */
  ghost predicate SeenMatches(seenRoles: set<(string, string)>, built: map<string, User>) {
    forall u, role :: (u, role) in seenRoles <==> u in built && role in built[u].arns
  }

  /**
   * The loop over an entry's roles: each role the user does not hold yet is
   * appended and marked as seen for that user; other users' marks stay.
   */
  method MergeRoles(username: string, arns: seq<string>, items: seq<Value>, seenRoles: set<(string, string)>,
                    ghost roles: seq<string>)
    returns (arns': seq<string>, seenRoles': set<(string, string)>)
    requires |roles| == |items| && forall i :: 0 <= i < |items| ==> items[i] == Str(roles[i])
    requires forall role :: (username, role) in seenRoles <==> role in arns
    ensures arns' == AppendNew(arns, roles)
    ensures forall role :: (username, role) in seenRoles' <==> role in arns'
    ensures forall u, role :: u != username ==> ((u, role) in seenRoles' <==> (u, role) in seenRoles)
  {
    arns', seenRoles' := arns, seenRoles;
    for j := 0 to |items|
      invariant arns' == AppendNew(arns, roles[..j])
      invariant forall role :: (username, role) in seenRoles' <==> role in arns'
      invariant forall u, role :: u != username ==> ((u, role) in seenRoles' <==> (u, role) in seenRoles)
    {
      var role := items[j].text;
      assert roles[..j + 1][..j] == roles[..j] && roles[j] == role;
      if (username, role) in seenRoles' {
        continue;
      }
      arns' := arns' + [role];
      seenRoles' := seenRoles' + {(username, role)};
    }
    assert roles[..|items|] == roles;
  }

  class KeysFileUserCache {
    var users: map<string, User>
    const config: KeysFileConfig
    const ssh: SshLibrary
    /** How many times Update has run. */
    ghost var updateCalls: nat

    /** Every user is cached under its own username and holds no role twice. */
    ghost predicate Valid()
      reads this
    {
      forall name :: name in users ==> users[name].username == name && NoDuplicates(users[name].arns)
    }

    constructor (config: KeysFileConfig, ssh: SshLibrary)
      ensures Valid()
      ensures users == map[] && updateCalls == 0
      ensures this.config == config && this.ssh == ssh
    {
      this.config := config;
      this.ssh := ssh;
      users := map[];
      updateCalls := 0;
    }

    method Update(load: Option<Error>, keys: Result<KeysMap, Error>) returns (err: Option<Error>)
      requires Valid()
      requires load.None? && keys.Success? ==> KeysWellTyped(config, ssh, keys.value)
      modifies this
      ensures Valid()
      ensures updateCalls == old(updateCalls) + 1
      ensures err == RefreshError(load, keys)
      ensures err.Some? ==> users == old(users)
      ensures err.None? ==> Rebuilt(config, ssh, keys.value, users)
    {
      updateCalls := updateCalls + 1;
      if load.Some? {
        return load;
      }
      if keys.Failure? {
        return Some(keys.error);
      }
      var built: map<string, User>;
      ghost var records: seq<KeyRecord>;
      built, records := Fold(keys.value);
      assert Enumerates(records, keys.value) && (forall r :: r in records ==> WellTyped(config, ssh, r))
        && built == Aggregate(config, ssh, records);
      users := built;
      return None;
    }

    /** Folds every entry of the keys map into a fresh user map, visiting them in any order. */
    method Fold(keys: KeysMap) returns (built: map<string, User>, ghost records: seq<KeyRecord>)
      requires KeysWellTyped(config, ssh, keys)
      ensures Enumerates(records, keys)
      ensures forall r :: r in records ==> WellTyped(config, ssh, r)
      ensures built == Aggregate(config, ssh, records)
      ensures forall name :: name in built ==> built[name].username == name && NoDuplicates(built[name].arns)
    {
      built := map[];
      var seenRoles: set<(string, string)> := {};
      var remaining := keys.Keys;
      records := [];
      while remaining != {}
        invariant Visited(records, keys, remaining)
        invariant forall r :: r in records ==> WellTyped(config, ssh, r)
        invariant built == Aggregate(config, ssh, records)
        invariant SeenMatches(seenRoles, built)
        decreases remaining
      {
        var key :| key in remaining;
        VisitStep(records, keys, remaining, key);
        remaining := remaining - {key};
        var record := KeyRecord(key, keys[key]);
        assert (records + [record])[..|records|] == records;
        records := records + [record];
        built, seenRoles := AddKey(built, seenRoles, record);
      }
      AggregateWellFormed(config, ssh, records);
    }

    /** Folds one record in, keeping `seenRoles` equal to the roles each built user holds. */
    method AddKey(built: map<string, User>, seenRoles: set<(string, string)>, record: KeyRecord)
      returns (built': map<string, User>, seenRoles': set<(string, string)>)
      requires WellTyped(config, ssh, record)
      requires SeenMatches(seenRoles, built)
      ensures built' == AddRecord(config, ssh, built, record)
      ensures SeenMatches(seenRoles', built')
    {
      built', seenRoles' := built, seenRoles;
      var userData := record.data;
      var username := userData[config.userAttr].text;
      var defaultRole := config.defaultRole;
      if config.defaultRoleAttr in userData && userData[config.defaultRoleAttr].Str? {
        defaultRole := userData[config.defaultRoleAttr].text;
      }
      if defaultRole == "" {
        defaultRole := config.defaultRole;
      }
      assert defaultRole == RecordDefaultRole(config, record);
      var user := if username in built then built[username] else User(username, [], [], defaultRole);
      ghost var before := user;

      var parsed := ParseKey(ssh, record.key);
      if parsed.None? {
        return;
      }
      user := user.(sshKeys := user.sshKeys + [parsed.value]);

      if config.enableServerRoles {
        var items := userData[config.roleAttr].items;
        assert forall i :: 0 <= i < |items| ==> items[i] in items;
        assert forall role :: (username, role) in seenRoles <==> role in user.arns;
        var arns;
        arns, seenRoles' := MergeRoles(username, user.arns, items, seenRoles, RecordRoles(config, ssh, record));
        user := user.(arns := arns);
      }
      assert user == User(before.username, before.sshKeys + [parsed.value],
                          if config.enableServerRoles then AppendNew(before.arns, RecordRoles(config, ssh, record)) else before.arns,
                          before.defaultRole);
      built' := built[username := user];
    }

    function Users(): (r: map<string, User>)
      reads this
      requires Valid()
      ensures forall name :: name in r ==> r[name].username == name && NoDuplicates(r[name].arns)
    {
      users
    }

    /** Scans the cached users for one whose key verifies; never fails. */
    method Verify(challenge: seq<byte>, signature: Signature) returns (user: Option<User>, err: Option<Error>)
      ensures err.None?
      ensures ScanOutcome(ssh, users, challenge, signature, user)
    {
      user := Scan(ssh, users, challenge, signature);
      err := None;
    }

    /**
     * A hit on the cached users is answered without reading the file; a miss
     * refreshes once and answers from one more scan, or with the refresh's error.
     */
    method Authenticate(username: string, challenge: seq<byte>, signature: Signature,
                        load: Option<Error>, keys: Result<KeysMap, Error>)
      returns (user: Option<User>, err: Option<Error>)
      requires Valid()
      requires !AnyUserVerifies(ssh, users, challenge, signature) && load.None? && keys.Success? ==>
        KeysWellTyped(config, ssh, keys.value)
      modifies this
      ensures Valid()
      ensures err.Some? ==> user.None?
      ensures AnyUserVerifies(ssh, old(users), challenge, signature) ==>
        && users == old(users) && updateCalls == old(updateCalls)
        && err.None? && user.Some? && ScanOutcome(ssh, users, challenge, signature, user)
      ensures !AnyUserVerifies(ssh, old(users), challenge, signature) ==>
        && updateCalls == old(updateCalls) + 1
        && (RefreshError(load, keys).Some? ==> err == RefreshError(load, keys) && users == old(users))
        && (RefreshError(load, keys).None? ==>
              err.None? && Rebuilt(config, ssh, keys.value, users) && ScanOutcome(ssh, users, challenge, signature, user))
    {
      var found, verifyErr := Verify(challenge, signature);
      if found.None? {
        var updateErr := Update(load, keys);
        if updateErr.Some? {
          return None, updateErr;
        }
        user, err := Verify(challenge, signature);
        return;
      }
      return found, None;
    }
  }

  /** Builds a cache with an empty user map and runs its first update. */
  method NewKeysFileUserCache(config: KeysFileConfig, ssh: SshLibrary, load: Option<Error>, keys: Result<KeysMap, Error>)
    returns (cache: KeysFileUserCache, err: Option<Error>)
    requires load.None? && keys.Success? ==> KeysWellTyped(config, ssh, keys.value)
    ensures fresh(cache) && cache.Valid()
    ensures cache.config == config && cache.ssh == ssh && cache.updateCalls == 1
    ensures err == RefreshError(load, keys)
    ensures err.Some? ==> cache.users == map[]
    ensures err.None? ==> Rebuilt(config, ssh, keys.value, cache.users)
  {
    cache := new KeysFileUserCache(config, ssh);
    err := cache.Update(load, keys);
  }
}
