# Hologram user cache, modelled in Dafny

This project models the user cache of Hologram's server (`server/usercache.go`).
The server resolves an SSH signature challenge to a known user and to the cloud
role ARNs that user may assume. Users come from one of two directories:

- an **LDAP server** (`ldapUserCache`). An update first searches for group
  entries and records each group DN's role ARNs. When roles are disabled it
  skips that search. It then searches for entries with an `sshPublicKey`
  attribute. Each entry becomes a `User`. Its keys are the attribute values
  that parse as base64 wire format or, failing that, as an authorized_keys
  line. Its ARNs are the concatenated ARNs of its `memberOf` groups. Its
  default role is its own attribute, or the configured default. Groups and
  users are written into the cache's existing maps in place.
- a **keys file** (`keysFileUserCache`). An update reloads the file and reads
  its key → attributes map. It folds every entry into a fresh user map: one
  key per entry whose key parses, and each role the user does not have yet.
  The new map replaces the cached one only after every entry is folded in.

Both caches authenticate the same way. They scan every cached user's keys for
one that verifies the signature. On a miss they run `Update` once. They return
the update's error if it fails. Otherwise they return the result of one more
scan, which may be "not found".

Layout, one module per file:

- `wrappers.dfy` (`Wrappers`): `Option` and `Result`.
- `identity.dfy` (`Identity`): `User`, keys, signatures, and the SSH library
  as a record of functions (`SshLibrary`). It also has the lenient key
  parsing both caches share.
- `map_writes.dfy` (`MapWrites`): a sequence of writes applied to a map in
  place, where the last write to a key wins. The LDAP cache writes groups and
  users this way.
- `authentication.dfy` (`Authentication`): the key scan both caches run.
- `ldap_cache.dfy` (`LdapCache`): the LDAP cache as a class over its `users`
  and `groups` maps, plus the pure function `UpdateSpec` that its `Update`
  is proved against.
- `keys_file_cache.dfy` (`KeysFileCache`): the keys-file cache as a class,
  plus the fold `Aggregate` that its `Update` is proved against.

Go visits map entries in an unspecified order. The scan and the keys-file fold
model this with a nondeterministic choice of the next key. Their contracts
hold for every order: `ScanOutcome` allows any cached user whose key verifies,
and `Rebuilt` says the new user map is the fold of the keys-file entries in
some order. Each cache has a ghost counter `updateCalls`, so the contracts can
say that `Authenticate` runs `Update` either zero times or exactly once.

The model follows the code where a cleaner design would differ:

- An LDAP update never removes a user or a group. Entries from earlier updates
  stay cached, including users deleted from the directory.
- A failed LDAP user search returns after the group map has already been
  written.
- An LDAP user's ARN list can repeat a role when two of its groups share that
  role (`OverlappingGroupsRepeatRole`). The keys-file cache never repeats one.
- In the keys-file cache, a user's default role comes from the first entry
  for that user whose key parses. An entry with a bad key does not create
  the user.
- A keys-file entry without a string username makes the Go code panic. The
  model turns this into a precondition instead of skipping the entry.
- Neither cache uses locking or coalesces concurrent refreshes.

## Model

| member | source | states |
|---|---|---|
| `Identity.ParseKey` | server/usercache.go:120-128 | the two-step fallback itself: base64 wire format first, an authorized_keys line otherwise (no contract of its own: `ParsedKeysMembership` and `EntryUserKeys` state what it yields for an entry) |
| `Identity.ParsedKeys` | server/usercache.go:119-131 | an entry never yields more keys than it has key values |
| `Identity.ParsedKeysAppend` | server/usercache.go:119-131 | values are parsed one at a time: the keys of a concatenation are the concatenation of the keys |
| `Identity.ParsedKeysMembership` | server/usercache.go:119-131 | a key is kept exactly when some value parses to it, base64 wire format first and an authorized_keys line as fallback |
| `Identity.ParsedKeysAllValid` | server/usercache.go:119-131 | when every value parses, the keys are the values' keys, position by position |
| `Identity.UnparseableValueSkipped` | server/usercache.go:122-127 | a value that parses in neither form is dropped on its own; the other keys and their order are unaffected |
| `MapWrites.Overwrite` | server/usercache.go:146-151 | in-place writes keep every old key and add exactly the written keys |
| `MapWrites.OverwriteUnwritten` | server/usercache.go:146-151 | a key that no write touches keeps its old binding or stays absent |
| `MapWrites.OverwriteLastWrite` | server/usercache.go:146-151 | a written key holds the value of its last write |
| `MapWrites.OverwriteIdempotent` | server/usercache.go:95-100 | repeating the same writes changes nothing |
| `Authentication.Scan` | server/usercache.go:165-177 | the answer is a cached user one of whose keys verifies; nothing is answered exactly when no cached key verifies |
| `Authentication.ScanFindsSoleKeyHolder` | server/usercache.go:313-322 | when exactly one cached user holds a verifying key, the scan answers with that user |
| `LdapCache.GroupRoles` | server/usercache.go:140-143 | the concatenation, in `memberOf` order, of the ARNs cached for each listed group; unknown groups add none (no contract of its own: `GroupRolesMembership` states it) |
| `LdapCache.EntryToUser` | server/usercache.go:116-151 | the user an entry describes (no contract of its own: `EntryUserKeys` and `EntryUserRoles` state it) |
| `LdapCache.GroupRolesMembership` | server/usercache.go:140-143 | an ARN is granted exactly when a listed group known to the cache carries it; unknown groups add nothing |
| `LdapCache.OverlappingGroupsRepeatRole` | server/usercache.go:140-143 | groups `{A,B}` and `{B,C}` give the list `[A,B,B,C]`: as a set it is `{A,B,C}`, but B appears twice |
| `LdapCache.EntryUserKeys` | server/usercache.go:116-131 | an entry's user has the entry's username, at most one key per value, and exactly the keys that some value parses to |
| `LdapCache.EntryUserRoles` | server/usercache.go:133-144 | roles disabled: no ARNs and the configured default role; roles enabled: the ARNs of the known groups, and the entry's own default role unless it is empty |
| `LdapCache.UpdateSpec` | server/usercache.go:78-159 | an update fails exactly when a search it makes fails, with that search's error unchanged; a failed update writes no user; a failed group search writes nothing; nothing is ever removed |
| `LdapCache.FailedUserSearchKeepsGroupWrites` | server/usercache.go:90-115 | a failed user search returns its error and leaves users untouched, but every DN from the group search is already in the group map |
| `LdapCache.GroupWritesEffect` | server/usercache.go:95-100 | writing the group entries: a returned DN holds the ARNs of its last entry; every other group is as before |
| `LdapCache.UserWritesEffect` | server/usercache.go:146-151 | writing the user entries: a returned username holds the user built from its last entry |
| `LdapCache.UpdateWritesGroups` | server/usercache.go:95-100 | a returned group DN holds the ARNs of its last entry; other groups are unchanged |
| `LdapCache.UpdateKeepsOtherUsers` | server/usercache.go:146-151 | after a successful update, a cached user that no returned entry names is exactly as before |
| `LdapCache.UpdateWritesUsers` | server/usercache.go:146-151 | after a successful update, a returned username holds the user built from its last entry |
| `LdapCache.UpdateIdempotent` | server/usercache.go:78-159 | updating twice against an unchanged directory gives the same maps as updating once |
| `LdapCache.LdapUserCache.constructor` | server/usercache.go:202-213 | a new cache has empty user and group maps |
| `LdapCache.LdapUserCache.Update` | server/usercache.go:78-159 | the new maps and the error are those `UpdateSpec` gives for the old maps and the two search results; every user stays cached under its own name |
| `LdapCache.LdapUserCache.RecordGroups` | server/usercache.go:95-100 | each group entry's DN is written with its role attribute values, in order |
| `LdapCache.LdapUserCache.RecordUsers` | server/usercache.go:116-154 | each entry's user is written under its username, in order, into the existing map |
| `LdapCache.LdapUserCache.BuildUser` | server/usercache.go:117-151 | the loops over key values and over `memberOf` build the entry's user as `EntryToUser` describes it |
| `LdapCache.LdapUserCache.Users` | server/usercache.go:161-163 | every cached user is stored under its own username |
| `LdapCache.LdapUserCache.Verify` | server/usercache.go:165-177 | never returns an error; the user is as `Scan` promises |
| `LdapCache.LdapUserCache.Authenticate` | server/usercache.go:179-196 | hit: the cached user is returned and no update runs; miss: exactly one update runs, and its error is returned or else one more scan's answer |
| `LdapCache.NewLdapUserCache` | server/usercache.go:201-219 | a fresh cache after one update from empty maps, returned with that update's error |
| `KeysFileCache.WellTyped` | server/usercache.go:259-288 | the conditions under which the Go code does not panic: a string username, and a list of strings as roles when roles are enabled and the key parses |
| `KeysFileCache.RecordDefaultRole` | server/usercache.go:260-263 | the entry's own default role when it is a non-empty string, else the configured one; never empty unless the configured one is |
| `KeysFileCache.AddRecord` | server/usercache.go:259-298 | one loop step: the users afterwards are the users before plus the entry's user when its key parses |
| `KeysFileCache.Aggregate` | server/usercache.go:258-299 | the loop over the entries in a given order (no contract of its own: `AggregatePerUser` states it) |
| `KeysFileCache.AppendNew` | server/usercache.go:285-295 | appending keeps the old roles as a prefix, adds exactly the listed roles, and never repeats a role |
| `KeysFileCache.AppendNewConcat` | server/usercache.go:285-295 | de-duplicating two role lists one after the other is de-duplicating their concatenation |
| `KeysFileCache.AddRecordElsewhere` | server/usercache.go:264-298 | an entry that does not parse, or that names another user, leaves a user untouched |
| `KeysFileCache.AddRecordHere` | server/usercache.go:264-298 | a parsing entry's user exists afterwards; its keys are its old keys followed by exactly the entry's key; its old ARNs stay a prefix, its ARNs as a set gain exactly the entry's roles, and none repeats; an existing user keeps its username and default role, a new one takes the entry's |
| `KeysFileCache.AggregatePerUser` | server/usercache.go:258-299 | the fold creates a user exactly for the usernames of parsing entries; that user has one key per such entry, their roles de-duplicated, and the first such entry's default role |
| `KeysFileCache.AggregateWellFormed` | server/usercache.go:258-299 | every built user is stored under its own username and holds no role twice |
| `KeysFileCache.AggregateKeysAndDefaultRole` | server/usercache.go:260-283 | each parsing entry adds exactly one key; the default role is fixed by the user's first parsing entry |
| `KeysFileCache.AggregateRoles` | server/usercache.go:285-295 | a user's ARNs are its entries' roles, none twice; there are none when roles are disabled |
| `KeysFileCache.UnparseableRecordIgnored` | server/usercache.go:274-282 | an entry whose key parses in neither form contributes nothing, wherever it comes in the order |
| `KeysFileCache.KeysOfMembership` | server/usercache.go:274-283 | a key is among a user's keys exactly when one of its entries parses to it |
| `KeysFileCache.RebuiltUserKeys` | server/usercache.go:258-301 | for any visiting order, users exist exactly for the usernames of parsing entries; each holds exactly the keys those entries parse to, one per entry, and the default role of one of them |
| `KeysFileCache.RebuiltUserRoles` | server/usercache.go:285-295 | for any visiting order, a user's ARNs are exactly the roles its parsing entries list, none twice |
| `KeysFileCache.RefreshError` | server/usercache.go:248-256 | an update fails exactly when loading or reading the keys fails, with that error unchanged; a load error wins |
| `KeysFileCache.KeysFileUserCache.constructor` | server/usercache.go:342-351 | a new cache has an empty user map |
| `KeysFileCache.KeysFileUserCache.Update` | server/usercache.go:242-307 | on a load or read error, that error and an unchanged user map; otherwise no error and a user map rebuilt from the entries in some order |
| `KeysFileCache.KeysFileUserCache.Fold` | server/usercache.go:258-299 | visits every entry once, in any order, and builds the fold of the entries in the order visited |
| `KeysFileCache.MergeRoles` | server/usercache.go:285-295 | the loop over an entry's roles appends exactly what `AppendNew` appends; afterwards the seen-set marks exactly the user's roles, and other users' marks are unchanged |
| `KeysFileCache.KeysFileUserCache.AddKey` | server/usercache.go:259-298 | one loop step is `AddRecord`; the seen-set holds exactly the (username, role) pairs already given to built users |
| `KeysFileCache.KeysFileUserCache.Users` | server/usercache.go:309-311 | every cached user is stored under its own username and holds no role twice |
| `KeysFileCache.KeysFileUserCache.Verify` | server/usercache.go:313-322 | never returns an error; the user is as `Scan` promises |
| `KeysFileCache.KeysFileUserCache.Authenticate` | server/usercache.go:324-339 | hit: the cached user is returned and no update runs; miss: exactly one update runs, and its error is returned with the map unchanged, or else one more scan over the rebuilt map answers |
| `KeysFileCache.NewKeysFileUserCache` | server/usercache.go:341-355 | a fresh cache after one update from an empty map, returned with that update's error |

## Left out

- SSH and base64 (`base64.StdEncoding.DecodeString`, `ssh.ParsePublicKey`, `ssh.ParseAuthorizedKey`, `PublicKey.Verify`) are library code. They are the function fields of `SshLibrary`, which each cache holds as a constant. Nothing is assumed about them.
- LDAP request construction is not modelled: base DN, filter strings, scope, dereferencing and attribute projection, and `LDAPImplementation.Modify`. The base DN is left out of `LdapConfig` because only requests use it.
- Directory transport is not modelled either. An update's search results, and the keys file's `Load` error and `Keys` result, are parameters of `Update`, `Authenticate` and the constructor functions. `KeysFile.Search` is unused here.
- An LDAP entry's attributes are a map from attribute name to values. The client library's lookup in an attribute list is not part of this model. A missing attribute has no values, and its single value is empty.
- Metrics (`stats.Timing`, `stats.Counter`), logging and `time.Now` are side effects only and are omitted.
- The `username` argument of both `Authenticate` methods is only logged, and the LDAP `_verify` does not use its `username` at all. The model keeps it as an unused parameter, as in the Go code.
- Type-assertion panics on keys-file attributes become the precondition `WellTyped`: a string username, plus a list of strings as roles when roles are enabled and the key parses. A non-string default role falls back to the configured default, as in the Go code.
- Pointers: users are values. `Authenticate` and `Users` return copies, so aliasing between returned `*User` values and the cache's map is not modelled. Neither cache mutates a published user.
- Concurrency: the Go code has no locking and no refresh coalescing, so the model is sequential.
- KeysFileCache.KeysFileUserCache.Update: with one keys map, two updates can visit its entries in different orders. They then agree on which users exist, on each user's set of keys and its key count, and on each user's set of roles (`RebuiltUserKeys`, `RebuiltUserRoles`). The order of keys and roles, and which entry's default role a user gets, can differ, so no idempotence is claimed for this cache.
