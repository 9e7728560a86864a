/**
 * The LDAP-backed user cache. An update first records, for every group
 * entry, the role ARNs attached to its DN, then turns every entry carrying
 * a public key into a user. Both are written into the cache's existing maps
 * in place: entries from earlier updates are overwritten, never removed.
 */
module LdapCache {
  import opened Wrappers
  import opened Identity
  import opened MapWrites
  import opened Authentication

  /** A directory entry: its distinguished name and its attribute values. */
  datatype Entry = Entry(dn: string, attributes: map<string, seq<string>>)

  /** The outcome of one directory search. */
  type SearchResult = Result<seq<Entry>, Error>

  /** The cache's configuration, fixed at construction. */
  datatype LdapConfig = LdapConfig(
    userAttr: string,
    enableServerRoles: bool,
    roleAttribute: string,
    defaultRole: string,
    defaultRoleAttr: string)

  const PublicKeyAttribute: string := "sshPublicKey"
  const MemberOfAttribute: string := "memberOf"

  /** All values of an attribute; none when the entry lacks it. */
  function AttributeValues(entry: Entry, name: string): seq<string> {
    if name in entry.attributes then entry.attributes[name] else []
  }

  /** The first value of an attribute; empty when the entry lacks it. */
  function AttributeValue(entry: Entry, name: string): string {
    var values := AttributeValues(entry, name);
    if values == [] then "" else values[0]
  }

  /** The ARNs of a group; a group the cache does not know has none. */
  function GroupArns(groups: map<string, seq<string>>, dn: string): seq<string> {
    if dn in groups then groups[dn] else []
  }

  /** The ARNs of every listed group, concatenated in order. */
  function GroupRoles(groups: map<string, seq<string>>, memberOf: seq<string>): seq<string> {
    if memberOf == [] then []
    else
      var n := |memberOf| - 1;
      GroupRoles(groups, memberOf[..n]) + GroupArns(groups, memberOf[n])
  }

  /** An ARN is granted exactly when some listed, known group carries it. */
  lemma {:induction false} GroupRolesMembership(groups: map<string, seq<string>>, memberOf: seq<string>, arn: string)
    ensures arn in GroupRoles(groups, memberOf) <==>
      exists i :: 0 <= i < |memberOf| && memberOf[i] in groups && arn in groups[memberOf[i]]
  {
    if memberOf != [] {
      var n := |memberOf| - 1;
      GroupRolesMembership(groups, memberOf[..n], arn);
      if arn in GroupRoles(groups, memberOf[..n]) {
        var i :| 0 <= i < n && memberOf[..n][i] in groups && arn in groups[memberOf[..n][i]];
        assert memberOf[i] == memberOf[..n][i];
      }
      if i :| 0 <= i < |memberOf| && memberOf[i] in groups && arn in groups[memberOf[i]] {
        if i < n {
          assert memberOf[..n][i] == memberOf[i];
        }
      }
    }
  }

  /** The user an entry describes, resolving its groups against `groups`. */
  function EntryToUser(config: LdapConfig, ssh: SshLibrary, groups: map<string, seq<string>>, entry: Entry): User {
    var username := AttributeValue(entry, config.userAttr);
    var keys := ParsedKeys(ssh, AttributeValues(entry, PublicKeyAttribute));
    if config.enableServerRoles then
      var own := AttributeValue(entry, config.defaultRoleAttr);
      User(username, keys, GroupRoles(groups, AttributeValues(entry, MemberOfAttribute)),
           if own == "" then config.defaultRole else own)
    else
      User(username, keys, [], config.defaultRole)
  }

  /** The group writes of a group search, in the order of its entries. */
  function GroupWrites(config: LdapConfig, entries: seq<Entry>): seq<(string, seq<string>)> {
    seq(|entries|, i requires 0 <= i < |entries| => (entries[i].dn, AttributeValues(entries[i], config.roleAttribute)))
  }

  /** The user writes of a user search, in the order of its entries. */
  function UserWrites(config: LdapConfig, ssh: SshLibrary, groups: map<string, seq<string>>, entries: seq<Entry>): seq<(string, User)> {
    seq(|entries|, i requires 0 <= i < |entries| =>
      (AttributeValue(entries[i], config.userAttr), EntryToUser(config, ssh, groups, entries[i])))
  }

  datatype UpdateOutcome = UpdateOutcome(groups: map<string, seq<string>>, users: map<string, User>, err: Option<Error>)

  /** The group map once a group search that did not fail has been recorded. */
  function UpdatedGroups(config: LdapConfig, groups: map<string, seq<string>>, groupSearch: SearchResult): map<string, seq<string>>
    requires !config.enableServerRoles || groupSearch.Success?
  {
    if config.enableServerRoles then Overwrite(groups, GroupWrites(config, groupSearch.value)) else groups
  }

  /**
   * The maps an update leaves behind, given the cache's maps before it and
   * what the two searches return. The group search is made only when roles
   * are enabled.
   */
  function UpdateSpec(config: LdapConfig, ssh: SshLibrary, groups: map<string, seq<string>>, users: map<string, User>,
                      groupSearch: SearchResult, userSearch: SearchResult): (o: UpdateOutcome)
    ensures o.err.None? <==> (!config.enableServerRoles || groupSearch.Success?) && userSearch.Success?
    ensures o.err.Some? ==> o.users == users
    ensures config.enableServerRoles && groupSearch.Failure? ==> o.groups == groups && o.err == Some(groupSearch.error)
    ensures (!config.enableServerRoles || groupSearch.Success?) && userSearch.Failure? ==> o.err == Some(userSearch.error)
    ensures !config.enableServerRoles ==> o.groups == groups
    ensures groups.Keys <= o.groups.Keys && users.Keys <= o.users.Keys
  {
    if config.enableServerRoles && groupSearch.Failure? then
      UpdateOutcome(groups, users, Some(groupSearch.error))
    else
      var groups' := UpdatedGroups(config, groups, groupSearch);
      if userSearch.Failure? then
        UpdateOutcome(groups', users, Some(userSearch.error))
      else
        UpdateOutcome(groups', Overwrite(users, UserWrites(config, ssh, groups', userSearch.value)), None)
  }

  /**
   * A failed user search still leaves behind the group entries written just
   * before it, though it writes no user.
   */
  lemma FailedUserSearchKeepsGroupWrites(config: LdapConfig, ssh: SshLibrary, groups: map<string, seq<string>>,
                                         users: map<string, User>, groupSearch: SearchResult, userSearch: SearchResult)
    requires config.enableServerRoles && groupSearch.Success? && userSearch.Failure?
    ensures var o := UpdateSpec(config, ssh, groups, users, groupSearch, userSearch);
      && o.users == users && o.err == Some(userSearch.error)
      && forall e :: e in groupSearch.value ==> e.dn in o.groups
  {
    var entries := groupSearch.value;
    var writes := GroupWrites(config, entries);
    forall e | e in entries
      ensures e.dn in Overwrite(groups, writes)
    {
      var i :| 0 <= i < |entries| && entries[i] == e;
      assert writes[i].0 == e.dn;
    }
  }

  /**
   * Writing the group entries into the map: a DN returned by the search holds
   * the ARNs of the last entry with that DN, and every other group is as before.
   */
  lemma GroupWritesEffect(config: LdapConfig, groups: map<string, seq<string>>, entries: seq<Entry>, dn: string)
    ensures var after := Overwrite(groups, GroupWrites(config, entries));
      && ((forall i :: 0 <= i < |entries| ==> entries[i].dn != dn) ==>
            (dn in after <==> dn in groups) && (dn in groups ==> after[dn] == groups[dn]))
      && (forall i :: 0 <= i < |entries| && entries[i].dn == dn && (forall j :: i < j < |entries| ==> entries[j].dn != dn) ==>
            dn in after && after[dn] == AttributeValues(entries[i], config.roleAttribute))
  {
    var writes := GroupWrites(config, entries);
    if forall i :: 0 <= i < |entries| ==> entries[i].dn != dn {
      OverwriteUnwritten(groups, writes, dn);
    }
    forall i | 0 <= i < |entries| && entries[i].dn == dn && (forall j :: i < j < |entries| ==> entries[j].dn != dn)
      ensures dn in Overwrite(groups, writes) && Overwrite(groups, writes)[dn] == AttributeValues(entries[i], config.roleAttribute)
    {
      OverwriteLastWrite(groups, writes, i);
    }
  }

  /** After an update whose group search succeeds, the group map is as `GroupWritesEffect` describes. */
  lemma UpdateWritesGroups(config: LdapConfig, ssh: SshLibrary, groups: map<string, seq<string>>, users: map<string, User>,
                           groupSearch: SearchResult, userSearch: SearchResult, dn: string)
    requires config.enableServerRoles && groupSearch.Success?
    ensures var o := UpdateSpec(config, ssh, groups, users, groupSearch, userSearch);
      var entries := groupSearch.value;
      && ((forall i :: 0 <= i < |entries| ==> entries[i].dn != dn) ==>
            (dn in o.groups <==> dn in groups) && (dn in groups ==> o.groups[dn] == groups[dn]))
      && (forall i :: 0 <= i < |entries| && entries[i].dn == dn && (forall j :: i < j < |entries| ==> entries[j].dn != dn) ==>
            dn in o.groups && o.groups[dn] == AttributeValues(entries[i], config.roleAttribute))
  {
    var o := UpdateSpec(config, ssh, groups, users, groupSearch, userSearch);
    assert o.groups == Overwrite(groups, GroupWrites(config, groupSearch.value));
    GroupWritesEffect(config, groups, groupSearch.value, dn);
  }

  /** Entry `i` is the last entry of `entries` whose username is `name`. */
  predicate LastEntryFor(config: LdapConfig, entries: seq<Entry>, i: nat, name: string) {
    && i < |entries|
    && AttributeValue(entries[i], config.userAttr) == name
    && forall j :: i < j < |entries| ==> AttributeValue(entries[j], config.userAttr) != name
  }

  /** After a successful update, a user whose name no entry carries is left exactly as it was. */
  lemma UpdateKeepsOtherUsers(config: LdapConfig, ssh: SshLibrary, groups: map<string, seq<string>>, users: map<string, User>,
                              groupSearch: SearchResult, userSearch: SearchResult, name: string)
    requires (!config.enableServerRoles || groupSearch.Success?) && userSearch.Success?
    requires forall i :: 0 <= i < |userSearch.value| ==> AttributeValue(userSearch.value[i], config.userAttr) != name
    ensures var o := UpdateSpec(config, ssh, groups, users, groupSearch, userSearch);
      (name in o.users <==> name in users) && (name in users ==> o.users[name] == users[name])
  {
    var o := UpdateSpec(config, ssh, groups, users, groupSearch, userSearch);
    var writes := UserWrites(config, ssh, o.groups, userSearch.value);
    assert o.users == Overwrite(users, writes);
    OverwriteUnwritten(users, writes, name);
  }

  /** Writing the user entries into the map: a returned username holds the user built from its last entry. */
  lemma UserWritesEffect(config: LdapConfig, ssh: SshLibrary, groups: map<string, seq<string>>, users: map<string, User>,
                         entries: seq<Entry>, name: string, i: nat)
    requires LastEntryFor(config, entries, i, name)
    ensures var after := Overwrite(users, UserWrites(config, ssh, groups, entries));
      name in after && after[name] == EntryToUser(config, ssh, groups, entries[i])
  {
    var writes := UserWrites(config, ssh, groups, entries);
    assert writes[i] == (name, EntryToUser(config, ssh, groups, entries[i]));
    assert forall j :: i < j < |writes| ==> writes[j].0 != writes[i].0;
    OverwriteLastWrite(users, writes, i);
  }

  /**
   * After a successful update, a username returned by the search holds the
   * user built from the last entry with that username.
   */
  lemma UpdateWritesUsers(config: LdapConfig, ssh: SshLibrary, groups: map<string, seq<string>>, users: map<string, User>,
                          groupSearch: SearchResult, userSearch: SearchResult, name: string, i: nat)
    requires (!config.enableServerRoles || groupSearch.Success?) && userSearch.Success?
    requires LastEntryFor(config, userSearch.value, i, name)
    ensures var o := UpdateSpec(config, ssh, groups, users, groupSearch, userSearch);
      name in o.users && o.users[name] == EntryToUser(config, ssh, o.groups, userSearch.value[i])
  {
    var o := UpdateSpec(config, ssh, groups, users, groupSearch, userSearch);
    var groups' := UpdatedGroups(config, groups, groupSearch);
    assert o.groups == groups';
    assert o.users == Overwrite(users, UserWrites(config, ssh, groups', userSearch.value));
    UserWritesEffect(config, ssh, groups', users, userSearch.value, name, i);
  }

  /** Running an update again against an unchanged directory changes nothing. */
  lemma UpdateIdempotent(config: LdapConfig, ssh: SshLibrary, groups: map<string, seq<string>>, users: map<string, User>,
                         groupSearch: SearchResult, userSearch: SearchResult)
    requires (!config.enableServerRoles || groupSearch.Success?) && userSearch.Success?
    ensures var once := UpdateSpec(config, ssh, groups, users, groupSearch, userSearch);
      UpdateSpec(config, ssh, once.groups, once.users, groupSearch, userSearch) == once
  {
    var once := UpdateSpec(config, ssh, groups, users, groupSearch, userSearch);
    if config.enableServerRoles {
      OverwriteIdempotent(groups, GroupWrites(config, groupSearch.value));
    }
    OverwriteIdempotent(users, UserWrites(config, ssh, once.groups, userSearch.value));
  }

  /**
   * The keys of an entry's user are the values of its public-key attribute
   * that parse, never more of them; a value that does not parse is dropped
   * on its own.
   */
  lemma EntryUserKeys(config: LdapConfig, ssh: SshLibrary, groups: map<string, seq<string>>, entry: Entry)
    ensures var user := EntryToUser(config, ssh, groups, entry);
      var values := AttributeValues(entry, PublicKeyAttribute);
      && user.username == AttributeValue(entry, config.userAttr)
      && |user.sshKeys| <= |values|
      && forall key :: key in user.sshKeys <==> exists i :: 0 <= i < |values| && ParseKey(ssh, values[i]) == Some(key)
  {
    var values := AttributeValues(entry, PublicKeyAttribute);
    forall key
      ensures key in ParsedKeys(ssh, values) <==> exists i :: 0 <= i < |values| && ParseKey(ssh, values[i]) == Some(key)
    {
      ParsedKeysMembership(ssh, values, key);
    }
  }

  /**
   * With roles disabled a user has no ARNs and the configured default role.
   * With roles enabled, its ARNs are those of its known groups, and its
   * default role is its own attribute unless that is empty.
   */
  lemma EntryUserRoles(config: LdapConfig, ssh: SshLibrary, groups: map<string, seq<string>>, entry: Entry)
    ensures var user := EntryToUser(config, ssh, groups, entry);
      var memberOf := AttributeValues(entry, MemberOfAttribute);
      var own := AttributeValue(entry, config.defaultRoleAttr);
      && (!config.enableServerRoles ==> user.arns == [] && user.defaultRole == config.defaultRole)
      && (config.enableServerRoles ==>
            && (forall arn :: arn in user.arns <==>
                  exists i :: 0 <= i < |memberOf| && memberOf[i] in groups && arn in groups[memberOf[i]])
            && user.defaultRole == (if own != "" then own else config.defaultRole))
  {
    var memberOf := AttributeValues(entry, MemberOfAttribute);
    forall arn
      ensures arn in GroupRoles(groups, memberOf) <==>
        exists i :: 0 <= i < |memberOf| && memberOf[i] in groups && arn in groups[memberOf[i]]
    {
      GroupRolesMembership(groups, memberOf, arn);
    }
  }

  /**
   * Two groups that share a role grant it twice: the ARN list keeps
   * repeats, although as a set it is the union of the groups' roles.
   */
  lemma OverlappingGroupsRepeatRole()
    ensures GroupRoles(map["grp1" := ["A", "B"], "grp2" := ["B", "C"]], ["grp1", "grp2"]) == ["A", "B", "B", "C"]
  {
    var groups := map["grp1" := ["A", "B"], "grp2" := ["B", "C"]];
    assert ["grp1", "grp2"][..1] == ["grp1"];
    assert ["grp1"][..0] == [];
  }

  class LdapUserCache {
    var users: map<string, User>
    var groups: map<string, seq<string>>
    const config: LdapConfig
    const ssh: SshLibrary
    /** How many times Update has run. */
    ghost var updateCalls: nat

    /** Every user is cached under its own username. */
    ghost predicate Valid()
      reads this
    {
      forall name :: name in users ==> users[name].username == name
    }

    constructor (config: LdapConfig, ssh: SshLibrary)
      ensures Valid()
      ensures users == map[] && groups == map[] && updateCalls == 0
      ensures this.config == config && this.ssh == ssh
    {
      this.config := config;
      this.ssh := ssh;
      users := map[];
      groups := map[];
      updateCalls := 0;
    }

    method Update(groupSearch: SearchResult, userSearch: SearchResult) returns (err: Option<Error>)
      requires Valid()
      modifies this
      ensures Valid()
      ensures updateCalls == old(updateCalls) + 1
      ensures var o := UpdateSpec(config, ssh, old(groups), old(users), groupSearch, userSearch);
        groups == o.groups && users == o.users && err == o.err
    {
      updateCalls := updateCalls + 1;
      if config.enableServerRoles {
        if groupSearch.Failure? {
          return Some(groupSearch.error);
        }
        RecordGroups(groupSearch.value);
      }
      if userSearch.Failure? {
        return Some(userSearch.error);
      }
      RecordUsers(userSearch.value);
      return None;
    }

    /** Writes the ARNs of every group entry into the group map, in order. */
    method RecordGroups(entries: seq<Entry>)
      modifies this`groups
      ensures groups == Overwrite(old(groups), GroupWrites(config, entries))
    {
      ghost var writes := GroupWrites(config, entries);
      for i := 0 to |entries|
        invariant groups == Overwrite(old(groups), writes[..i])
      {
        var arns := AttributeValues(entries[i], config.roleAttribute);
        assert writes[..i + 1] == writes[..i] + [writes[i]];
        groups := groups[entries[i].dn := arns];
      }
      assert writes[..|entries|] == writes;
    }

    /** Writes the user of every entry into the user map, in order. */
    method RecordUsers(entries: seq<Entry>)
      requires Valid()
      modifies this`users
      ensures Valid()
      ensures users == Overwrite(old(users), UserWrites(config, ssh, groups, entries))
    {
      ghost var writes := UserWrites(config, ssh, groups, entries);
      for i := 0 to |entries|
        invariant users == Overwrite(old(users), writes[..i])
        invariant Valid()
      {
        var username := AttributeValue(entries[i], config.userAttr);
        var user := BuildUser(entries[i]);
        assert writes[..i + 1] == writes[..i] + [writes[i]];
        users := users[username := user];
      }
      assert writes[..|entries|] == writes;
    }

    /** Turns one directory entry into a user, against the current group map. */
    method BuildUser(entry: Entry) returns (user: User)
      ensures user == EntryToUser(config, ssh, groups, entry)
    {
      var username := AttributeValue(entry, config.userAttr);
      var values := AttributeValues(entry, PublicKeyAttribute);
      var userKeys: seq<PublicKey> := [];
      for j := 0 to |values|
        invariant userKeys == ParsedKeys(ssh, values[..j])
      {
        assert values[..j + 1][..j] == values[..j];
        var key := ParseKey(ssh, values[j]);
        if key.Some? {
          userKeys := userKeys + [key.value];
        }
      }
      assert values[..|values|] == values;

      var userDefaultRole := config.defaultRole;
      var arns: seq<string> := [];
      if config.enableServerRoles {
        userDefaultRole := AttributeValue(entry, config.defaultRoleAttr);
        if userDefaultRole == "" {
          userDefaultRole := config.defaultRole;
        }
        var memberOf := AttributeValues(entry, MemberOfAttribute);
        for j := 0 to |memberOf|
          invariant arns == GroupRoles(groups, memberOf[..j])
        {
          assert memberOf[..j + 1][..j] == memberOf[..j];
          arns := arns + GroupArns(groups, memberOf[j]);
        }
        assert memberOf[..|memberOf|] == memberOf;
      }

      user := User(username, userKeys, arns, userDefaultRole);
    }

    function Users(): (r: map<string, User>)
      reads this
      requires Valid()
      ensures forall name :: name in r ==> r[name].username == name
    {
      users
    }

    /** Scans the cached users for one whose key verifies; never fails. */
    method Verify(username: string, challenge: seq<byte>, signature: Signature) returns (user: Option<User>, err: Option<Error>)
      ensures err.None?
      ensures ScanOutcome(ssh, users, challenge, signature, user)
    {
      user := Scan(ssh, users, challenge, signature);
      err := None;
    }

    /**
     * A hit on the cached users is answered without touching the directory;
     * a miss refreshes once and answers from one more scan, or with the
     * refresh's error.
     */
    method Authenticate(username: string, challenge: seq<byte>, signature: Signature,
                        groupSearch: SearchResult, userSearch: SearchResult)
      returns (user: Option<User>, err: Option<Error>)
      requires Valid()
      modifies this
      ensures Valid()
      ensures err.Some? ==> user.None?
      ensures AnyUserVerifies(ssh, old(users), challenge, signature) ==>
        && users == old(users) && groups == old(groups) && updateCalls == old(updateCalls)
        && err.None? && user.Some? && ScanOutcome(ssh, users, challenge, signature, user)
      ensures !AnyUserVerifies(ssh, old(users), challenge, signature) ==>
        var o := UpdateSpec(config, ssh, old(groups), old(users), groupSearch, userSearch);
        && updateCalls == old(updateCalls) + 1
        && groups == o.groups && users == o.users
        && (o.err.Some? ==> err == o.err)
        && (o.err.None? ==> err.None? && ScanOutcome(ssh, users, challenge, signature, user))
    {
      var found, verifyErr := Verify(username, challenge, signature);
      if found.None? {
        var updateErr := Update(groupSearch, userSearch);
        if updateErr.Some? {
          return None, updateErr;
        }
        user, err := Verify(username, challenge, signature);
        return;
      }
      return found, None;
    }
  }

  /** Builds a cache with empty maps and runs its first update. */
  method NewLdapUserCache(config: LdapConfig, ssh: SshLibrary, groupSearch: SearchResult, userSearch: SearchResult)
    returns (cache: LdapUserCache, err: Option<Error>)
    ensures fresh(cache) && cache.Valid()
    ensures cache.config == config && cache.ssh == ssh && cache.updateCalls == 1
    ensures var o := UpdateSpec(config, ssh, map[], map[], groupSearch, userSearch);
      cache.groups == o.groups && cache.users == o.users && err == o.err
  {
    cache := new LdapUserCache(config, ssh);
    err := cache.Update(groupSearch, userSearch);
  }
}
