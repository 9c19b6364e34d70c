# governator-swarm deployer, modelled in Dafny

governator-swarm deploys Docker swarm services from a Redis queue. Its deployer runs one
cycle at a time:

1. It reads the earliest member of the sorted set `<queue>:governator:deploys` whose score
   (a Unix time) lies in `[0, now]`.
2. It claims that member by removing it with ZREM. A reply of 0 means another consumer got
   it first.
3. It drops the deploy if its record `<queue>:<deploy>` has a `cancellation` field.
4. It reads and decodes the record's `request:metadata`.
5. It points the swarm service named after the image's repository at the new image.
6. It tells the deploy-state service, with a PUT to
   `<uri>/deployments/<owner>/<repo>/<tag>/cluster/<cluster>/passed`, that the deploy passed.

The entry point's `ParseHost` splits the docker host string into protocol, address and
base path.

The model has these modules:

- `Strings`: Go's `strings.Split` on one character, and `SplitN(s, sep, 2)` as
  `SplitFirst`, with their round trips.
- `Naming`: the pure string logic of the deployer. This covers `parseDockerURL`,
  `getReleaseVersion`, `getKey` and the notification URL.
- `Host`: `ParseHost`.
- `Redis`: the Redis server one connection sees. The sorted sets and hashes are fields of
  a `Store` class. Two oracles complete it:
  - `faults` names the commands that fail and their errors;
  - `contenders` names the members another consumer removes just before this
    connection's ZREM.
- `Docker`: the swarm services as an `Engine` class. `ServiceUpdate` checks the version
  it is given.
- `Deployer`: two pure specifications of a cycle, plus the imperative methods proved
  against them.
  - `Selection` specifies `getNextValidDeploy`: the calls, the result and the sorted sets
    after.
  - `Deployment` specifies `deploy`: the calls, the error and the services after.
  - The `Deployer` class holds the methods. Every call a cycle makes is appended to its
    `calls` log.

## Model

| member | source | states |
|---|---|---|
| Strings.Split | deployer/deployer.go:63 | splitting at a character gives one more part than there are separators, and no part holds the separator |
| Strings.JoinSplit | deployer/deployer.go:63 | joining the parts of a split with the separator gives back the original string |
| Strings.SplitJoin | deployer/deployer.go:198 | splitting the join of a non-empty list of separator-free parts (empty parts allowed) gives back that list |
| Strings.SplitWithout | deployer/deployer.go:198-202 | a string without the separator splits into itself alone |
| Strings.SplitAfterPiece | deployer/deployer.go:208 | a separator-free piece followed by the separator splits off as the first part |
| Strings.SplitLastIsSuffix | deployer/deployer.go:63-64 | the last part of a split is a suffix of the string |
| Strings.SplitLastFollowsSeparator | deployer/deployer.go:63-64 | when the separator occurs, the character just before the last part is a separator |
| Strings.Index | main.go:145 | the index found is the first occurrence of the pattern, and None means it does not occur |
| Strings.SplitFirst | main.go:145-146 | `SplitN(s, sep, 2)` gives one part exactly when `sep` does not occur; otherwise the two parts rebuild `s` around `sep` |
| Strings.HeadOfSplitFirst | main.go:151 | the head of a two-part SplitN does not contain the separator |
| Naming.ParseDockerUrl | deployer/deployer.go:196-221 | the tag never holds ':' and owner and repo never hold '/'; any number of ':' other than one gives empty owner, repo and tag |
| Naming.OwnerRepoParses | deployer/deployer.go:208-212 | `owner/repo:tag` parses to exactly that owner, repo and tag |
| Naming.HostOwnerRepoParses | deployer/deployer.go:213-215 | `host/owner/repo:tag` drops the host and keeps owner, repo and tag |
| Naming.BadPathRejected | deployer/deployer.go:216-218 | a path of one segment, or of four or more, gives empty owner, repo and tag |
| Naming.TwoColonsRejected | deployer/deployer.go:200-202 | a reference with two ':' (a registry port, say) gives empty owner, repo and tag |
| Naming.OwnerRepoExample | deployer/deployer.go:196-221 | `acme/widgets:v3` parses to `acme`, `widgets`, `v3` |
| Naming.HostOwnerRepoExample | deployer/deployer.go:213-215 | `registry.local/acme/widgets:v3` parses to `acme`, `widgets`, `v3` |
| Naming.MyApplicationExample | deployer/deployer_test.go:135 | `octoblu/my-application:v1` parses to `octoblu`, `my-application`, `v1`, and its release version is `v1` |
| Naming.EmptyTagExample | deployer/deployer.go:204-206 | `octoblu/my-app:` parses with an empty tag |
| Naming.NoColonExample | deployer/deployer.go:200-202 | a reference without ':' is rejected |
| Naming.RegistryPortExample | deployer/deployer.go:200-202 | `registry:5000/o/r:t` is rejected |
| Naming.ReleaseVersion | deployer/deployer.go:62-65 | the release version is the part after the last ':': a suffix of the URL holding no ':', preceded by a ':' when the URL has one, and the whole URL when it has none |
| Naming.ReleaseVersionIsTag | deployer/deployer.go:62-65 | for any `prefix:tag` with a colon-free tag, the release version is the tag, however many ':' the prefix holds |
| Naming.GetKey | deployer/deployer.go:67-69 | the key is the queue name, then ':', then the key given |
| Naming.GetKeyInjective | deployer/deployer.go:67-69 | two keys of the same queue are equal only when the keys given are equal |
| Naming.NotifyUrl | deployer/deployer.go:226-227 | the URL is the deploy-state URI, then '/', then the notification path |
| Naming.NotifyPathSegments | deployer/deployer.go:226 | with slash-free parts, the path splits into `deployments`, owner, repo, tag, `cluster`, cluster, `passed` |
| Host.ParseHost | main.go:144-161 | no "://" gives the `unable to parse docker host` error; any other error comes from a `tcp://` host; a parsed protocol never holds "://" |
| Host.SplitsAfterProtocol | main.go:145-151 | the host splits at the first "://" only, so a later "://" stays in the address |
| Host.OtherProtocolKeepsAddress | main.go:150-160 | a protocol other than `tcp` keeps the address as it is and has an empty base path |
| Host.TcpUsesParsedUrl | main.go:152-159 | for `tcp`, the address and base path are the parsed URL's host and path, and a parse error is returned as it is |
| Redis.RangeByScore | deployer/deployer.go:102 | ZRANGEBYSCORE returns exactly the members scored within the bounds |
| Redis.FirstInRangeIsEarliest | deployer/deployer.go:102-113 | in a sorted set, the first member in range has the lowest score in range |
| Redis.Remove | deployer/deployer.go:118 | removing a member keeps every other entry and only those |
| Redis.HeadBeforeRest | deployer/deployer.go:102 | in a sorted set the first entry scores no higher than each later entry and shares no member with it |
| Redis.ConsSorted | deployer/deployer.go:118 | an entry scoring no higher than a sorted set's entries, with a new member, can be placed before them |
| Redis.RemoveKeepsSortedSet | deployer/deployer.go:118 | ZREM keeps a sorted set ordered by score with distinct members |
| Redis.RemoveCount | deployer/deployer.go:118-126 | ZREM shrinks the set by one exactly when the member was in it |
| Redis.AfterZRem | deployer/deployer.go:118 | ZREM changes only the set at its key, and that set loses only the member |
| Redis.AfterZRemMembers | deployer/deployer.go:118-126 | ZREM of a member the set holds takes out exactly that member and leaves one entry fewer |
| Redis.Store.constructor | deployer/deployer.go:38-46 | a connection starts on the given sorted sets, hashes and oracles, and keeps every sorted set ordered |
| Redis.Store.ZRangeByScore | deployer/deployer.go:102-106 | the reply is the fault or the members in range |
| Redis.Store.ZRem | deployer/deployer.go:118-126 | the reply is the fault or 1/0 for removed/already gone, and the sets become `AfterZRem` of the old ones |
| Redis.Store.HExists | deployer/deployer.go:131-138 | the reply is the fault, or a value of at most 1 that is non-zero exactly when the field exists |
| Redis.Store.HGet | deployer/deployer.go:145-152 | the reply is the fault, or the field's bytes, or nil when the hash or field is missing |
| Docker.Engine.constructor | deployer/deployer.go:38-46 | an engine client starts on the given services, none with an empty name and no two sharing an ID |
| Docker.Engine.Inspect | deployer/deployer.go:80-83 | the service with that name, a fault, or a not-found error |
| Docker.Engine.Update | deployer/deployer.go:85-90 | an update naming the current version sets the image and moves the version on; otherwise an error with no change |
| Deployer.ResponseError | deployer/deployer.go:235-245 | a transport error is returned as it is; a status above 399 gives `invalid response from deploy-state-service`; 399 or below is no error |
| Deployer.NextDueIsEarliest | deployer/deployer.go:100-113 | the member picked is scored within `[0, now]` and no member in that range scores lower |
| Deployer.NothingDueNothingPicked | deployer/deployer.go:108-111 | with no member scored within `[0, now]`, nothing is picked |
| Deployer.NothingDueIsANoOp | deployer/deployer.go:164-171 | with nothing due, a selection makes only the range query, returns no error and no metadata, and changes no set |
| Deployer.ClaimRemovesExactlyTheSelected | deployer/deployer.go:173-176 | a claim that gets through removes exactly the selected member and changes no other sorted set |
| Deployer.ClaimedSetsAfter | deployer/deployer.go:173-176 | past a successful ZREM, the sets left are those ZREM left, whatever follows |
| Deployer.ClaimIsAtMostOnce | deployer/deployer.go:116-126 | a second ZREM of a member already removed replies 0 |
| Deployer.LostClaimStops | deployer/deployer.go:178-181 | a lost claim ends the selection after the ZREM with no error and no metadata |
| Deployer.ClaimErrorReturned | deployer/deployer.go:173-176 | a ZREM error is returned as it is, with no later call and no change |
| Deployer.RangeErrorReturned | deployer/deployer.go:102-106 | a ZRANGEBYSCORE error is returned as it is, with no other call and no change |
| Deployer.ValidateErrorReturned | deployer/deployer.go:183-186 | an HEXISTS error is returned as it is, the claimed deploy stays removed, and HGET is not sent |
| Deployer.FetchErrorReturned | deployer/deployer.go:145-148 | an HGET error is returned as it is, and the claimed deploy stays removed |
| Deployer.DecodeErrorReturned | deployer/deployer.go:154-158 | metadata that does not decode fails the selection with the decoder's error |
| Deployer.SelectionErrorSource | deployer/deployer.go:163-194 | every selection error is the error of its last store call; after a successful HGET it is the missing-metadata error or the decoder's |
| Deployer.CancelledIsDropped | deployer/deployer.go:183-191 | a cancelled deploy ends with no error, stays removed, and its metadata is never read |
| Deployer.MissingMetadataFails | deployer/deployer.go:150-152 | missing metadata gives `Deploy metadata not found for '<id>'`, and the deploy stays removed |
| Deployer.MetadataReadOnlyWhenAdmitted | deployer/deployer.go:163-193 | metadata is read only for a deploy that was due, claimed by this ZREM and not cancelled |
| Deployer.DeploySuccessMeans | deployer/deployer.go:71-98 | a deploy without error inspected, updated the repository's service to the whole docker URL under the version read, and got a status of 399 or below from the PUT |
| Deployer.NotifyOnlyAfterUpdate | deployer/deployer.go:80-92 | a PUT is sent only when neither the inspect nor the update failed; it follows exactly those two calls, and the service then runs the new image |
| Deployer.InspectErrorReturned | deployer/deployer.go:80-83 | an inspect error is the deploy's error, with no update, no PUT and no change |
| Deployer.UpdateErrorReturned | deployer/deployer.go:87-90 | an update error is the deploy's error, with no PUT and no change |
| Deployer.UnparsedImageFails | deployer/deployer.go:75-83 | an image reference with no repository makes the inspect of "" fail, with no update, no PUT and no change |
| Deployer.EngineErrorStopsDeploy | deployer/deployer.go:80-90 | a deploy that sends no PUT failed on its last engine call, with that call's error (or not-found after the inspect), and left the services as they were |
| Deployer.ServerErrorAfterUpdate | deployer/deployer.go:242-244 | a status of 500 fails the deploy although the service was already updated |
| Deployer.DeployOfParsedImage | deployer/deployer.go:75-92 | when the engine accepts both calls, the repository's service runs the new image and the PUT goes to that image's notification URL |
| Deployer.Deployer.constructor | deployer/deployer.go:38-46 | `New` keeps the connection, the client and the settings, and no call has been made yet |
| Deployer.Deployer.GetNextDeploy | deployer/deployer.go:100-114 | the result is the range query's error or the first due member ("" when none is due) |
| Deployer.Deployer.LockDeploy | deployer/deployer.go:116-127 | the result is the ZREM error, or whether this ZREM removed the member; the member leaves the set |
| Deployer.Deployer.ValidateDeploy | deployer/deployer.go:129-139 | the result is the HEXISTS error, or true exactly when there is no `cancellation` field |
| Deployer.Deployer.GetMetadata | deployer/deployer.go:141-161 | the result is the HGET error, the not-found error for nil, or the decoded metadata |
| Deployer.Deployer.GetNextValidDeploy | deployer/deployer.go:163-194 | the calls, the result and the sorted sets after are those of `Selection` |
| Deployer.Deployer.NotifyDeployState | deployer/deployer.go:223-246 | one PUT to the notification URL, and its response read as `ResponseError` |
| Deployer.Deployer.Deploy | deployer/deployer.go:71-98 | the calls, the error and the services after are those of `Deployment` |
| Deployer.Deployer.Run | deployer/deployer.go:49-60 | a selection error or empty selection ends the cycle with no engine change; selected metadata is deployed as `Deployment` says |

## Left out

- The supervising loop, option parsing, the Redis and Docker connection set-up and `version` in main.go are not part of this model.
- The clock is the parameter `now` of `Run`, `GetNextDeploy` and `GetNextValidDeploy`.
- `json.Unmarshal` is the function `decode` of the configuration. The JSON format is not modelled.
- The HTTP client and the deploy-state service are the function `respond`. An error from `http.NewRequest` is folded into `TransportError`, like an error from `client.Do`.
- Redis scores are integers here. Redis stores them as doubles.
- The order of members with equal scores is not modelled. Redis orders them lexicographically.
- Redis type errors (WRONGTYPE), and the panics Go's type assertions would raise on an unexpected reply, are not modelled.
- Of a swarm service's spec, only the container image is modelled.
- That a swarm holds no service with an empty name, so that the inspect of "" fails, is an assumption about Docker (it is part of `Docker.Engine.Valid`); the Docker engine itself is not part of this model.
- The engine's errors are the `faults` oracle. The text of a real engine error is not modelled.
- Debug logging is left out.
- Concurrency is reduced to the `contenders` set: the members another consumer removes between this connection's range query and its ZREM.
- Host.ParseHost: `url.Parse` is the parameter `parseUrl`, so what it accepts and what it reads as host and path are not modelled.
- The etcd writes expected by the commented-out tests are not modelled. They belong to an earlier version; the code writes no etcd keys.
